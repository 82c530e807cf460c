/** The bookmark record, the values a client may put in it, the HTTP responses
    the service sends, and the two scans over the ordered store that the
    handlers rely on: the first record with a given id, and the removal of
    exactly that record. */
module Bookmarks {

  datatype Option<T> = None | Some(value: T)

  /** A JavaScript value as it arrives in a JSON request body or is thrown as a
      fault. Numbers are modelled as integers; objects as maps from property
      names to values. */
  datatype Value =
    | Undefined
    | Null
    | Bool(b: bool)
    | Num(n: int)
    | Str(s: string)
    | Arr(items: seq<Value>)
    | Obj(fields: map<string, Value>)

  /** One stored bookmark. The server gives created records a string `id`; a
      record of the seed list may carry any value there, and a request's id
      (always a string) matches it only under strict equality. The other four
      fields are whatever the client sent, with no type or presence check. */
  datatype Bookmark = Bookmark(id: Value, title: Value, url: Value, description: Value, rating: Value)

  /** What a handler hands to the transport: nothing (`res.end()`), a plain-text
      body (`res.send`), one record or the whole list as JSON (`res.json`), or
      another JSON value. */
  datatype Body =
    | NoContent
    | Text(text: string)
    | Record(bookmark: Bookmark)
    | Records(bookmarks: seq<Bookmark>)
    | Json(value: Value)

  datatype Response = Response(status: nat, body: Body)

  /** Some record of `s` carries `id` (`b.id === id` holds of it). */
  predicate HasId(s: seq<Bookmark>, id: string)
  {
    exists j :: 0 <= j < |s| && s[j].id == Str(id)
  }

  /** No two records of `s` share an id (the uniqueness that generated ids give;
      the seed list is not assumed to satisfy it). */
  predicate UniqueIds(s: seq<Bookmark>)
  {
    forall i, j :: 0 <= i < j < |s| ==> s[i].id != s[j].id
  }

  /** The index of the first record whose id is `id`, as `Array.prototype.find`
      and `findIndex` locate it. */
  function FirstIndex(s: seq<Bookmark>, id: string): (r: Option<nat>)
    ensures r.Some? ==> r.value < |s| && s[r.value].id == Str(id)
    ensures r.Some? ==> forall j :: 0 <= j < r.value ==> s[j].id != Str(id)
    ensures r.None? <==> !HasId(s, id)
  {
    if |s| == 0 then None
    else if s[0].id == Str(id) then Some(0)
    else
      match FirstIndex(s[1..], id)
      case None => None
      case Some(k) => Some(k + 1)
  }

  /** `s` without its element at `i`, the rest kept in order (`splice(i, 1)`). */
  function RemoveAt(s: seq<Bookmark>, i: nat): (r: seq<Bookmark>)
    requires i < |s|
    ensures |r| == |s| - 1
    ensures forall j :: 0 <= j < i ==> r[j] == s[j]
    ensures forall j :: i <= j < |r| ==> r[j] == s[j + 1]
  {
    s[..i] + s[i + 1..]
  }

  /** Reference definition of deleting by id: walk the list and drop the first
      record carrying `id`; a list without it comes back unchanged. */
  function RemoveFirst(s: seq<Bookmark>, id: string): (r: seq<Bookmark>)
  {
    if |s| == 0 then []
    else if s[0].id == Str(id) then s[1..]
    else [s[0]] + RemoveFirst(s[1..], id)
  }

  /** Splicing out the element at the first match is the same as the reference
      deletion, and leaves the list alone when there is no match. */
  lemma {:induction false} RemoveFirstIsSplice(s: seq<Bookmark>, id: string)
    ensures FirstIndex(s, id).None? ==> RemoveFirst(s, id) == s
    ensures FirstIndex(s, id).Some? ==> RemoveFirst(s, id) == RemoveAt(s, FirstIndex(s, id).value)
  {
    if |s| == 0 || s[0].id == Str(id) {
    } else {
      var t := s[1..];
      RemoveFirstIsSplice(t, id);
      assert RemoveFirst(s, id) == [s[0]] + RemoveFirst(t, id);
      var r := FirstIndex(t, id);
      if r.None? {
        assert FirstIndex(s, id) == None;
        assert [s[0]] + t == s;
      } else {
        assert FirstIndex(s, id) == Some(r.value + 1);
        RemoveAtAfterHead(s, r.value);
      }
    }
  }

  /** Removing past the head commutes with taking the head off. */
  lemma RemoveAtAfterHead(s: seq<Bookmark>, k: nat)
    requires k + 1 < |s|
    ensures RemoveAt(s, k + 1) == [s[0]] + RemoveAt(s[1..], k)
  {
    var t := s[1..];
    assert t[..k] == s[1..k + 1] && t[k + 1..] == s[k + 2..];
    assert [s[0]] + s[1..k + 1] == s[..k + 1];
    assert [s[0]] + (s[1..k + 1] + s[k + 2..]) == ([s[0]] + s[1..k + 1]) + s[k + 2..];
  }

  /** Removing one element keeps every other record: the multiset of records
      loses exactly the removed one. */
  lemma {:induction false} RemoveAtMultiset(s: seq<Bookmark>, i: nat)
    requires i < |s|
    ensures multiset(RemoveAt(s, i)) == multiset(s) - multiset{s[i]}
  {
    assert s == s[..i] + [s[i]] + s[i + 1..];
    assert multiset(s) == multiset(s[..i]) + multiset{s[i]} + multiset(s[i + 1..]);
  }

  /** With unique ids, removing the record at `i` leaves no record with its id,
      and the remaining ids are still unique. */
  lemma {:induction false} RemoveAtUnique(s: seq<Bookmark>, i: nat)
    requires i < |s| && UniqueIds(s)
    ensures forall j :: 0 <= j < |s| - 1 ==> RemoveAt(s, i)[j].id != s[i].id
    ensures UniqueIds(RemoveAt(s, i))
  {
    var r := RemoveAt(s, i);
    forall j | 0 <= j < |r|
      ensures r[j].id != s[i].id
    {
      if j < i {
        assert r[j] == s[j];
      } else {
        assert r[j] == s[j + 1];
      }
    }
    forall a, b | 0 <= a < b < |r|
      ensures r[a].id != r[b].id
    {
      var a', b' := if a < i then a else a + 1, if b < i then b else b + 1;
      assert r[a] == s[a'] && r[b] == s[b'] && a' < b';
    }
  }

  /** Appending a record whose id is not yet in a list of unique ids keeps the
      ids unique. */
  lemma {:induction false} AppendFreshUnique(s: seq<Bookmark>, b: Bookmark)
    requires UniqueIds(s) && forall j :: 0 <= j < |s| ==> s[j].id != b.id
    ensures UniqueIds(s + [b])
  {
    var t := s + [b];
    forall i, j | 0 <= i < j < |t|
      ensures t[i].id != t[j].id
    {
      assert t[i] == s[i];
      if j == |s| {
        assert t[j] == b;
      } else {
        assert t[j] == s[j];
      }
    }
  }
}
