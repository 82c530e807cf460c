/** The module-level `bookmarks` array and the handlers that change it in
    place. Each method is proved to apply the transition the matching function
    of `Routes` describes, so every lemma about those functions holds of the
    store. */
module Server {
  import opened Bookmarks
  import opened Auth
  import opened Routes

  class BookmarkStore {
    /** The records, in insertion order. */
    var bookmarks: seq<Bookmark>

    /** The store as loaded at start-up; the seed list may be anything, even
        with repeated ids. */
    constructor (seed: seq<Bookmark>)
      ensures bookmarks == seed
    {
      bookmarks := seed;
    }

    /** `bookmarks.findIndex((b) => b.id === id)`: the first index carrying
        `id`, or -1 when there is none. */
    method FindIndex(id: string) returns (index: int)
      ensures -1 <= index < |bookmarks|
      ensures index == -1 <==> !HasId(bookmarks, id)
      ensures index >= 0 ==> bookmarks[index].id == Str(id)
      ensures forall j :: 0 <= j < index ==> bookmarks[j].id != Str(id)
    {
      index := 0;
      while index < |bookmarks|
        invariant 0 <= index <= |bookmarks|
        invariant forall j :: 0 <= j < index ==> bookmarks[j].id != Str(id)
      {
        if bookmarks[index].id == Str(id) {
          return;
        }
        index := index + 1;
      }
      index := -1;
    }

    /** POST /bookmarks: `freshId` is what the id generator returned, so it is
        non-empty and not yet in the store. The record is pushed at the end. */
    method Create(freshId: string, title: Value, url: Value, description: Value, rating: Value) returns (r: Response)
      requires FreshId(bookmarks, freshId)
      modifies this
      ensures Outcome(bookmarks, r) == CreateBookmark(old(bookmarks), freshId, title, url, description, rating)
      ensures bookmarks == old(bookmarks) + [Bookmark(Str(freshId), title, url, description, rating)]
    {
      var newBookmark := Bookmark(Str(freshId), title, url, description, rating);
      bookmarks := bookmarks + [newBookmark];
      r := Response(201, Record(newBookmark));
    }

    /** DELETE /bookmarks/:id: locate the first match, answer 404 "Not Found"
        without one, otherwise splice that single record out and answer 204. */
    method Delete(id: string) returns (r: Response)
      modifies this
      ensures Outcome(bookmarks, r) == DeleteBookmark(old(bookmarks), id)
      ensures bookmarks == RemoveFirst(old(bookmarks), id)
    {
      var bookmarkIndex := FindIndex(id);
      if bookmarkIndex == -1 {
        r := Response(404, Text("Not Found"));
        return;
      }
      assert FirstIndex(bookmarks, id) == Some(bookmarkIndex);
      bookmarks := bookmarks[..bookmarkIndex] + bookmarks[bookmarkIndex + 1..];
      r := Response(204, NoContent);
    }

    /** One request through the pipeline: the gate with the request's
        `Authorization` header and the configured token, then the route.
        `freshId` is consulted only by a create. */
    method Handle(authorization: Option<string>, apiToken: Option<string>, req: Request, freshId: string)
      returns (r: Response)
      requires req.CreateOne? ==> FreshId(bookmarks, freshId)
      modifies this
      ensures Outcome(bookmarks, r) == Dispatch(old(bookmarks), authorization, apiToken, req, freshId)
      ensures ValidateBearerToken(authorization, apiToken).Reject? ==> bookmarks == old(bookmarks) && r.status == 401
    {
      if ValidateBearerToken(authorization, apiToken).Reject? {
        r := Unauthorized();
        return;
      }
      match req
      case ListAll =>
        r := ListBookmarks(bookmarks);
      case GetOne(id) =>
        r := GetBookmark(bookmarks, id);
      case CreateOne(title, url, description, rating) =>
        r := Create(freshId, title, url, description, rating);
      case DeleteOne(id) =>
        r := Delete(id);
    }
  }
}
