/** The bearer-token gate that runs before every route. It is a loose reading
    of the `Authorization: Bearer <token>` scheme of section 2.1 of RFC 6750:
    the header is cut at every single space character, the second piece is
    compared with the configured token, and the scheme word is never looked at. */
module Auth {
  import opened Bookmarks

  /** `s.split(" ")`: the pieces between single spaces, empty pieces included;
      a string without a space is one piece. */
  function Split(s: string): (parts: seq<string>)
    ensures |parts| >= 1
  {
    if |s| == 0 then [""]
    else if s[0] == ' ' then [""] + Split(s[1..])
    else
      var rest := Split(s[1..]);
      [[s[0]] + rest[0]] + rest[1..]
  }

  /** `parts.join(" ")`, the inverse of `Split`. */
  function Join(parts: seq<string>): string
    requires |parts| >= 1
  {
    if |parts| == 1 then parts[0] else parts[0] + " " + Join(parts[1..])
  }

  predicate NoSpace(s: string)
  {
    forall k :: 0 <= k < |s| ==> s[k] != ' '
  }

  /** `header.split(" ")[1]`: the second piece, or `undefined` when the header
      holds no space. */
  function SecondField(header: string): (r: Option<string>)
    ensures r.None? <==> |Split(header)| == 1
    ensures r.Some? ==> r.value == Split(header)[1] && NoSpace(r.value)
  {
    SplitPiecesNoSpace(header);
    var parts := Split(header);
    assert |parts| > 1 ==> parts[1] in parts;
    if |parts| > 1 then Some(parts[1]) else None
  }

  /** Whether the gate lets the request through to the router (`next()`) or
      answers it itself. */
  datatype GateResult = Next | Reject(response: Response)

  /** The 401 answer: `{"error": "Unauthorized request"}`. */
  function Unauthorized(): (r: Response)
    ensures r.status == 401
  {
    Response(401, Json(Obj(map["error" := Str("Unauthorized request")])))
  }

  /** `validateBearerToken`: `authorization` is the request's header (None when
      absent), `apiToken` the configured secret (None when unset). A missing or
      empty header, or one whose second space-separated piece differs from the
      secret, is answered with 401; anything else goes on. */
  function ValidateBearerToken(authorization: Option<string>, apiToken: Option<string>): (r: GateResult)
    ensures r.Next? || r == Reject(Unauthorized())
  {
    if authorization.None? || authorization.value == "" || SecondField(authorization.value) != apiToken then
      Reject(Unauthorized())
    else
      Next
  }

  /** Joining the pieces of a split with single spaces gives back the header. */
  lemma {:induction false} SplitJoin(s: string)
    ensures Join(Split(s)) == s
  {
    if |s| == 0 {
    } else if s[0] == ' ' {
      SplitJoin(s[1..]);
      assert Split(s)[1..] == Split(s[1..]);
      assert s == " " + s[1..];
    } else {
      SplitJoin(s[1..]);
      var rest := Split(s[1..]);
      var parts := Split(s);
      assert parts[1..] == rest[1..];
      assert s == [s[0]] + s[1..];
      if |rest| > 1 {
        assert Join(parts) == [s[0]] + rest[0] + " " + Join(rest[1..]);
      }
    }
  }

  /** No piece of a split contains a space. */
  lemma {:induction false} SplitPiecesNoSpace(s: string)
    ensures forall p :: p in Split(s) ==> NoSpace(p)
  {
    if |s| > 0 {
      SplitPiecesNoSpace(s[1..]);
      var rest := Split(s[1..]);
      var parts := Split(s);
      if s[0] == ' ' {
        assert parts == [""] + rest;
      } else {
        assert parts == [[s[0]] + rest[0]] + rest[1..];
        assert rest[0] in rest;
        forall p | p in parts
          ensures NoSpace(p)
        {
          if p != parts[0] {
            assert p in rest;
          }
        }
      }
    }
  }

  /** A space-free string is a single piece. */
  lemma {:induction false} SplitNoSpace(a: string)
    requires NoSpace(a)
    ensures Split(a) == [a]
  {
    if |a| > 0 {
      SplitNoSpace(a[1..]);
      assert [a[0]] + a[1..] == a;
    }
  }

  /** Cutting at the first space: a space-free prefix becomes the first piece. */
  lemma {:induction false} SplitAtFirstSpace(a: string, rest: string)
    requires NoSpace(a)
    ensures Split(a + " " + rest) == [a] + Split(rest)
  {
    if |a| == 0 {
      assert a + " " + rest == " " + rest;
      assert (" " + rest)[1..] == rest;
    } else {
      SplitAtFirstSpace(a[1..], rest);
      assert (a + " " + rest)[1..] == a[1..] + " " + rest;
      assert [a[0]] + a[1..] == a;
    }
  }

  /** Splitting a join of space-free pieces gives back the pieces. */
  lemma {:induction false} JoinSplit(parts: seq<string>)
    requires |parts| >= 1
    requires forall p :: p in parts ==> NoSpace(p)
    ensures Split(Join(parts)) == parts
  {
    if |parts| == 1 {
      SplitNoSpace(parts[0]);
    } else {
      JoinSplit(parts[1..]);
      SplitAtFirstSpace(parts[0], Join(parts[1..]));
      assert [parts[0]] + parts[1..] == parts;
    }
  }

  /** The header has a second field exactly when it contains a space. */
  lemma SecondFieldExists(header: string)
    ensures SecondField(header).Some? <==> exists k :: 0 <= k < |header| && header[k] == ' '
  {
    if NoSpace(header) {
      SplitNoSpace(header);
    } else {
      var k :| 0 <= k < |header| && header[k] == ' ';
      var a, rest := header[..k], header[k + 1..];
      if !NoSpace(a) {
        // Cut at the first space instead.
        var m :| 0 <= m < |a| && a[m] == ' ';
        FirstSpaceSplits(header, m);
      } else {
        assert header == a + " " + rest;
        SplitAtFirstSpace(a, rest);
      }
    }
  }

  /** A header with a space at `m` splits into at least two pieces. */
  lemma {:induction false} FirstSpaceSplits(header: string, m: nat)
    requires m < |header| && header[m] == ' '
    ensures |Split(header)| >= 2
    decreases m
  {
    if NoSpace(header[..m]) {
      assert header == header[..m] + " " + header[m + 1..];
      SplitAtFirstSpace(header[..m], header[m + 1..]);
    } else {
      var m' :| 0 <= m' < m && header[..m][m'] == ' ';
      FirstSpaceSplits(header, m');
    }
  }

  /** For `<word> <token>` and `<word> <token> <more>` with space-free word and
      token, the second field is the token, whatever the word is. */
  lemma SecondFieldOf(word: string, token: string, more: Option<string>)
    requires NoSpace(word) && NoSpace(token)
    ensures var header := if more.Some? then word + " " + token + " " + more.value else word + " " + token;
            SecondField(header) == Some(token)
  {
    if more.Some? {
      SplitAtFirstSpace(token, more.value);
      assert word + " " + token + " " + more.value == word + " " + (token + " " + more.value);
      SplitAtFirstSpace(word, token + " " + more.value);
    } else {
      SplitNoSpace(token);
      SplitAtFirstSpace(word, token);
    }
  }

  /** The gate passes exactly when the header is present and non-empty and its
      second space-separated piece equals the configured token; otherwise it
      answers 401 and no route runs. */
  lemma GateDecision(authorization: Option<string>, apiToken: Option<string>)
    ensures ValidateBearerToken(authorization, apiToken) == Next
        <==> authorization.Some? && authorization.value != "" && SecondField(authorization.value) == apiToken
    ensures ValidateBearerToken(authorization, apiToken) != Next
        ==> ValidateBearerToken(authorization, apiToken).response == Response(401, Json(Obj(map["error" := Str("Unauthorized request")])))
  {
  }

  /** A missing or empty header is refused whatever the configured token is. */
  lemma MissingHeaderRejected(apiToken: Option<string>)
    ensures ValidateBearerToken(None, apiToken) == Reject(Unauthorized())
    ensures ValidateBearerToken(Some(""), apiToken) == Reject(Unauthorized())
  {
  }

  /** `Bearer <token>` with the configured token passes; so does any other
      space-free scheme word in its place, and trailing space-separated text. */
  lemma BearerTokenAccepted(word: string, token: string, more: Option<string>)
    requires NoSpace(word) && NoSpace(token)
    ensures var header := if more.Some? then word + " " + token + " " + more.value else word + " " + token;
            ValidateBearerToken(Some(header), Some(token)) == Next
  {
    SecondFieldOf(word, token, more);
  }

  /** `Bearer <token>` with any token other than the configured one is refused. */
  lemma WrongTokenRejected(token: string, apiToken: Option<string>)
    requires NoSpace(token) && apiToken != Some(token)
    ensures ValidateBearerToken(Some("Bearer " + token), apiToken) == Reject(Unauthorized())
  {
    SecondFieldOf("Bearer", token, None);
    assert "Bearer " + token == "Bearer" + " " + token;
  }

  /** When no token is configured the gate does not fail closed: a non-empty
      header without any space has no second piece, `undefined` equals the
      unset token, and the request goes through. A header with a space is
      still refused. */
  lemma UnsetTokenAdmitsSpacelessHeader(header: string)
    ensures header != "" && NoSpace(header) ==> ValidateBearerToken(Some(header), None) == Next
    ensures !NoSpace(header) ==> ValidateBearerToken(Some(header), None) == Reject(Unauthorized())
  {
    SecondFieldExists(header);
  }
}
