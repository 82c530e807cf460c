/** The four `/bookmarks` routes as functions from the current store (and the
    request) to the next store and the response, and the pipeline that runs
    the bearer-token gate before them. The mutable store that applies these
    transitions in place is `Server.BookmarkStore`. */
module Routes {
  import opened Bookmarks
  import opened Auth

  /** A store and the response one request produced on it. */
  datatype Outcome = Outcome(store: seq<Bookmark>, response: Response)

  /** A request after route matching: the method and path template are the
      constructor, the path parameter or body fields its arguments. */
  datatype Request =
    | ListAll                                                        // GET /bookmarks
    | GetOne(id: string)                                             // GET /bookmarks/:id
    | CreateOne(title: Value, url: Value, description: Value, rating: Value)  // POST /bookmarks
    | DeleteOne(id: string)                                          // DELETE /bookmarks/:id

  /** A server-generated id: non-empty and carried by no record of `s`. */
  predicate FreshId(s: seq<Bookmark>, id: string)
  {
    id != "" && !HasId(s, id)
  }

  /** GET /bookmarks: the whole store, in store order. */
  function ListBookmarks(s: seq<Bookmark>): (r: Response)
    ensures r.status == 200 && r.body.Records? && r.body.bookmarks == s
  {
    Response(200, Records(s))
  }

  /** GET /bookmarks/:id: the first record with that id, or 404 with the text
      "Bookmark Not Found". */
  function GetBookmark(s: seq<Bookmark>, id: string): (r: Response)
    ensures r.status == 200 <==> HasId(s, id)
    ensures r.status == 200 ==> r.body.Record? && r.body.bookmark.id == Str(id)
                                && r.body.bookmark == s[FirstIndex(s, id).value]
    ensures r.status != 200 ==> r == Response(404, Text("Bookmark Not Found"))
  {
    match FirstIndex(s, id)
    case Some(i) => Response(200, Record(s[i]))
    case None => Response(404, Text("Bookmark Not Found"))
  }

  /** POST /bookmarks with the id the generator produced: the new record goes
      at the end and is echoed back with 201. */
  function CreateBookmark(s: seq<Bookmark>, id: string, title: Value, url: Value, description: Value, rating: Value): (o: Outcome)
    ensures |o.store| == |s| + 1 && o.store[..|s|] == s
    ensures o.store[|s|] == Bookmark(Str(id), title, url, description, rating)
    ensures o.response == Response(201, Record(o.store[|s|]))
  {
    var b := Bookmark(Str(id), title, url, description, rating);
    Outcome(s + [b], Response(201, Record(b)))
  }

  /** DELETE /bookmarks/:id: without a match, 404 with the text "Not Found" and
      the store untouched; with one, exactly the first matching record is
      removed (the rest keep their order) and the answer is 204 with no body. */
  function DeleteBookmark(s: seq<Bookmark>, id: string): (o: Outcome)
    ensures o.store == RemoveFirst(s, id)
    ensures !HasId(s, id) ==> o == Outcome(s, Response(404, Text("Not Found")))
    ensures HasId(s, id) ==> o.response == Response(204, NoContent)
  {
    RemoveFirstIsSplice(s, id);
    match FirstIndex(s, id)
    case None => Outcome(s, Response(404, Text("Not Found")))
    case Some(i) => Outcome(RemoveAt(s, i), Response(204, NoContent))
  }

  /** A 204 delete splices out exactly the record at the first matching index:
      the store is one shorter, keeps the order of the others, and loses that
      record and nothing else. */
  lemma DeleteSplicesFirstMatch(s: seq<Bookmark>, id: string)
    requires HasId(s, id)
    ensures var i := FirstIndex(s, id).value;
            var o := DeleteBookmark(s, id);
            o.store == s[..i] + s[i + 1..] && |o.store| == |s| - 1
            && multiset(o.store) == multiset(s) - multiset{s[i]}
  {
    var i := FirstIndex(s, id).value;
    RemoveFirstIsSplice(s, id);
    RemoveAtMultiset(s, i);
  }

  /** The route a request reaches once it is past the gate. `freshId` is the
      generator's next id, used only by a create. */
  function Route(s: seq<Bookmark>, req: Request, freshId: string): (o: Outcome)
    ensures req.ListAll? || req.GetOne? ==> o.store == s
    ensures req.ListAll? ==> o.response == ListBookmarks(s)
    ensures req.GetOne? ==> o.response == GetBookmark(s, req.id)
    ensures req.CreateOne? ==> o == CreateBookmark(s, freshId, req.title, req.url, req.description, req.rating)
    ensures req.DeleteOne? ==> o == DeleteBookmark(s, req.id)
  {
    match req
    case ListAll => Outcome(s, ListBookmarks(s))
    case GetOne(id) => Outcome(s, GetBookmark(s, id))
    case CreateOne(title, url, description, rating) => CreateBookmark(s, freshId, title, url, description, rating)
    case DeleteOne(id) => DeleteBookmark(s, id)
  }

  /** The whole pipeline for one request: gate first, then the route. */
  function Dispatch(s: seq<Bookmark>, authorization: Option<string>, apiToken: Option<string>,
                    req: Request, freshId: string): (o: Outcome)
    ensures ValidateBearerToken(authorization, apiToken).Reject? ==> o == Outcome(s, Unauthorized())
    ensures ValidateBearerToken(authorization, apiToken).Next? ==> o == Route(s, req, freshId)
  {
    match ValidateBearerToken(authorization, apiToken)
    case Reject(response) => Outcome(s, response)
    case Next => Route(s, req, freshId)
  }

  /** Reading routes leave the store as it is, and GET of one id gives the same
      answer every time while nothing changes the store. */
  lemma ReadsLeaveStore(s: seq<Bookmark>, req: Request, freshId: string)
    requires req.ListAll? || req.GetOne?
    ensures Route(s, req, freshId).store == s
    ensures req.GetOne? ==> Route(Route(s, req, freshId).store, req, freshId) == Route(s, req, freshId)
  {
  }

  /** A request without an acceptable token gets 401 on every route and does
      not touch the store. */
  lemma UnauthorizedOnEveryRoute(s: seq<Bookmark>, apiToken: Option<string>, req: Request, freshId: string)
    ensures Dispatch(s, None, apiToken, req, freshId) == Outcome(s, Unauthorized())
    ensures Dispatch(s, Some(""), apiToken, req, freshId) == Outcome(s, Unauthorized())
  {
  }

  /** A freshly created record is what GET of its id returns. */
  lemma CreateThenGet(s: seq<Bookmark>, id: string, title: Value, url: Value, description: Value, rating: Value)
    requires FreshId(s, id)
    ensures var o := CreateBookmark(s, id, title, url, description, rating);
            GetBookmark(o.store, id) == Response(200, Record(Bookmark(Str(id), title, url, description, rating)))
  {
    var o := CreateBookmark(s, id, title, url, description, rating);
    assert o.store[|s|].id == Str(id);
    assert FirstIndex(o.store, id) == Some(|s|);
  }

  /** Deleting a freshly created record undoes the create: the store is back to
      what it was and the answer is 204. */
  lemma CreateThenDelete(s: seq<Bookmark>, id: string, title: Value, url: Value, description: Value, rating: Value)
    requires FreshId(s, id)
    ensures var o := CreateBookmark(s, id, title, url, description, rating);
            DeleteBookmark(o.store, id) == Outcome(s, Response(204, NoContent))
  {
    var o := CreateBookmark(s, id, title, url, description, rating);
    assert o.store[|s|].id == Str(id);
    assert FirstIndex(o.store, id) == Some(|s|);
    RemoveFirstIsSplice(o.store, id);
    assert RemoveAt(o.store, |s|) == s;
  }

  /** With unique ids a 204 delete is final: GET of that id then answers 404
      "Bookmark Not Found" and the list holds no record with it. */
  lemma DeleteIsFinal(s: seq<Bookmark>, id: string)
    requires UniqueIds(s) && HasId(s, id)
    ensures var o := DeleteBookmark(s, id);
            o.response.status == 204 && !HasId(o.store, id)
            && GetBookmark(o.store, id) == Response(404, Text("Bookmark Not Found"))
  {
    var i := FirstIndex(s, id).value;
    RemoveFirstIsSplice(s, id);
    RemoveAtUnique(s, i);
  }

  /** Ids are handed out by the server only: a create with a fresh id and any
      delete keep the ids of a store unique. */
  lemma WritesKeepIdsUnique(s: seq<Bookmark>, req: Request, freshId: string)
    requires UniqueIds(s)
    requires req.CreateOne? ==> FreshId(s, freshId)
    ensures UniqueIds(Route(s, req, freshId).store)
  {
    match req
    case CreateOne(title, url, description, rating) =>
      AppendFreshUnique(s, Bookmark(Str(freshId), title, url, description, rating));
      assert Route(s, req, freshId).store == s + [Bookmark(Str(freshId), title, url, description, rating)];
    case DeleteOne(id) =>
      RemoveFirstIsSplice(s, id);
      if HasId(s, id) {
        RemoveAtUnique(s, FirstIndex(s, id).value);
      }
    case _ =>
  }

  /** When two records share an id, GET finds the earlier one, and deleting
      that id removes only it: a second GET then finds the later one. */
  lemma DuplicateIdsFirstMatch(s: seq<Bookmark>, id: string, i: nat, k: nat)
    requires i < k < |s| && s[i].id == Str(id) && s[k].id == Str(id)
    requires forall j :: 0 <= j < i ==> s[j].id != Str(id)
    requires forall j :: i < j < k ==> s[j].id != Str(id)
    ensures GetBookmark(s, id) == Response(200, Record(s[i]))
    ensures GetBookmark(DeleteBookmark(s, id).store, id) == Response(200, Record(s[k]))
  {
    FirstMatchAt(s, id, i);
    RemoveFirstIsSplice(s, id);
    assert DeleteBookmark(s, id).store == RemoveAt(s, i);
    NextMatchAfterRemoval(s, i, k);
    FirstMatchAt(RemoveAt(s, i), id, k - 1);
  }

  /** A seed record whose id is not a string is never matched by a path
      parameter: GET of any id skips it, and DELETE of any id never removes it. */
  lemma NonStringIdNeverMatched(s: seq<Bookmark>, id: string, i: nat)
    requires i < |s| && !s[i].id.Str?
    ensures FirstIndex(s, id) != Some(i)
    ensures s[i] in DeleteBookmark(s, id).store
    ensures GetBookmark([s[i]], id) == Response(404, Text("Bookmark Not Found"))
    ensures DeleteBookmark([s[i]], id) == Outcome([s[i]], Response(404, Text("Not Found")))
  {
    assert !HasId([s[i]], id);
    if HasId(s, id) {
      var f := FirstIndex(s, id).value;
      DeleteSplicesFirstMatch(s, id);
      var r := DeleteBookmark(s, id).store;
      if i < f {
        assert r[i] == s[i];
      } else {
        assert r[i - 1] == s[i];
      }
    } else {
      assert DeleteBookmark(s, id).store == s;
    }
  }

  /** Once the record at `i` is spliced out, the next record with its id, at
      `k`, sits at `k - 1` with no earlier record carrying that id. */
  lemma NextMatchAfterRemoval(s: seq<Bookmark>, i: nat, k: nat)
    requires i < k < |s| && s[i].id == s[k].id
    requires forall j :: 0 <= j < i ==> s[j].id != s[i].id
    requires forall j :: i < j < k ==> s[j].id != s[i].id
    ensures RemoveAt(s, i)[k - 1] == s[k]
    ensures forall j :: 0 <= j < k - 1 ==> RemoveAt(s, i)[j].id != s[i].id
  {
    var t := RemoveAt(s, i);
    forall j | 0 <= j < k - 1
      ensures t[j].id != s[i].id
    {
      if j < i { assert t[j] == s[j]; } else { assert t[j] == s[j + 1]; }
    }
  }

  /** An index holding `id` with no earlier match is the first match. */
  lemma FirstMatchAt(s: seq<Bookmark>, id: string, i: nat)
    requires i < |s| && s[i].id == Str(id)
    requires forall j :: 0 <= j < i ==> s[j].id != Str(id)
    ensures FirstIndex(s, id) == Some(i)
    ensures GetBookmark(s, id) == Response(200, Record(s[i]))
  {
    assert HasId(s, id);
  }

  /** The create / list / delete / get scenario for one authorised client: the
      create answers 201 with the new record, the list then ends with it, the
      delete answers 204, and a GET of the id answers 404 "Bookmark Not Found". */
  lemma CreateListDeleteGet(s: seq<Bookmark>, auth: string, apiToken: string, freshId: string,
                            title: Value, url: Value, description: Value, rating: Value)
    requires ValidateBearerToken(Some(auth), Some(apiToken)) == Next
    requires FreshId(s, freshId)
    ensures var created := Dispatch(s, Some(auth), Some(apiToken), CreateOne(title, url, description, rating), freshId);
            var listed := Dispatch(created.store, Some(auth), Some(apiToken), ListAll, freshId);
            var deleted := Dispatch(listed.store, Some(auth), Some(apiToken), DeleteOne(freshId), freshId);
            var got := Dispatch(deleted.store, Some(auth), Some(apiToken), GetOne(freshId), freshId);
            var b := Bookmark(Str(freshId), title, url, description, rating);
            created.response == Response(201, Record(b))
            && listed.response == Response(200, Records(s + [b]))
            && deleted == Outcome(s, Response(204, NoContent))
            && got == Outcome(s, Response(404, Text("Bookmark Not Found")))
  {
    var b := Bookmark(Str(freshId), title, url, description, rating);
    var created := CreateBookmark(s, freshId, title, url, description, rating);
    assert created.store == s + [b];
    CreateThenDelete(s, freshId, title, url, description, rating);
  }
}
