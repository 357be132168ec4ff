/** hw4: the SearchServer handler of the test fixture: token check, query
    parsing, the limit clamp and the window of dataset rows it returns.

    The dataset (loaded from XML) is an input, as is the JSON encoding of
    one row. */
module SearchServer {
  import opened Text

  const AccessToken := "authorized token"
  const MaxLimit := 25

  const StatusOK := 200
  const StatusBadRequest := 400
  const StatusUnauthorized := 401
  const StatusInternalServerError := 500

  /** One row of the dataset. */
  datatype Row = Row(id: int, name: string, age: int, about: string, gender: string)

  /** The status written and the body; http.Error appends a newline. */
  datatype Response = Response(status: int, body: string)

  const Unauthorized := Response(StatusUnauthorized, "401 - unauthorized\n")
  const BadQuery := Response(StatusBadRequest, "400 - bad query\n")
  const InternalError := Response(StatusInternalServerError, "Internal error\n")

  /** Go's int addition on a 64-bit platform wraps around. */
  function Wrap64(x: int): (r: int)
    ensures InInt64(r)
    ensures InInt64(x) ==> r == x
  {
    (x - MinInt64) % 0x1_0000_0000_0000_0000 + MinInt64
  }

  /** The end of the window: the limit capped at 25, replaced by the
      dataset size when offset+limit overruns it. */
  function End(limit: int, offset: int, n: int): int {
    var l := Clamp(limit);
    if Wrap64(offset + l) > n then n else l
  }

  /** The limit capped at 25. */
  function Clamp(limit: int): (l: int)
    ensures l <= MaxLimit && l <= limit
    ensures l == limit || l == MaxLimit
  {
    if limit > MaxLimit then MaxLimit else limit
  }

  /** The loop reads users[offset] first: it panics on a negative offset
      whenever it runs at all. */
  predicate Panics(offset: int, end: int) {
    offset < 0 && offset < end
  }

  /** The JSON texts of users[lo..hi]. */
  function Marshalled(users: seq<Row>, marshal: Row -> string, lo: int, hi: int): (r: seq<string>)
    requires 0 <= lo <= hi <= |users|
    ensures |r| == hi - lo && forall j :: 0 <= j < hi - lo ==> r[j] == marshal(users[lo + j])
  {
    seq(hi - lo, j requires 0 <= j < hi - lo => marshal(users[lo + j]))
  }

  /** What the handler answers, given the AccessToken header and the limit
      and offset form values. */
  function Respond(token: string, limitText: string, offsetText: string, users: seq<Row>, marshal: Row -> string): Response
    requires |users| <= MaxInt64
  {
    if token != AccessToken then Unauthorized
    else if Atoi(limitText).None? || Atoi(offsetText).None? then BadQuery
    else Window(Atoi(limitText).value, Atoi(offsetText).value, users, marshal)
  }

  /** The answer to an authorised request with well-formed parameters. */
  function Window(limit: int, offset: int, users: seq<Row>, marshal: Row -> string): Response
    requires |users| <= MaxInt64 && InInt64(limit) && InInt64(offset)
  {
    var end := End(limit, offset, |users|);
    if Panics(offset, end) then InternalError
    else if offset < end then
      WindowInDataset(limit, offset, |users|);
      Response(StatusOK, "[" + Join(Marshalled(users, marshal, offset, end), ",") + "]")
    else Response(StatusOK, "[]")
  }

  /** With a non-negative offset the loop only reads rows that exist. */
  lemma WindowInDataset(limit: int, offset: int, n: int)
    requires InInt64(limit) && InInt64(offset) && 0 <= n <= MaxInt64
    requires 0 <= offset < End(limit, offset, n)
    ensures End(limit, offset, n) <= n
  {
  }

  /** The handler as written. */
  method Serve(token: string, limitText: string, offsetText: string, users: seq<Row>, marshal: Row -> string)
    returns (resp: Response)
    requires |users| <= MaxInt64
    ensures resp == Respond(token, limitText, offsetText, users, marshal)
  {
    if token != AccessToken {
      return Unauthorized;
    }
    var limitOpt := Atoi(limitText);
    if limitOpt.None? {
      return BadQuery;
    }
    var offsetOpt := Atoi(offsetText);
    if offsetOpt.None? {
      return BadQuery;
    }
    resp := ServeWindow(limitOpt.value, offsetOpt.value, users, marshal);
  }

  /** From the limit clamp to the response body. */
  method ServeWindow(limit: int, offset: int, users: seq<Row>, marshal: Row -> string) returns (resp: Response)
    requires |users| <= MaxInt64 && InInt64(limit) && InInt64(offset)
    ensures resp == Window(limit, offset, users, marshal)
  {
    var end := limit;
    if end > MaxLimit {
      end := MaxLimit;
    }
    if Wrap64(offset + end) > |users| {
      end := |users|;
    }
    assert end == End(limit, offset, |users|);
    if 0 <= offset < end {
      WindowInDataset(limit, offset, |users|);
    }
    var found := CollectRows(users, marshal, offset, end);
    if found.None? {
      resp := InternalError;
    } else if offset < end {
      resp := Response(StatusOK, "[" + Join(found.value, ",") + "]");
    } else {
      resp := Response(StatusOK, "[]");
    }
  }

  /** The loop over users[offset..end]; None when it indexes out of range,
      which the deferred recover turns into a 500. */
  method CollectRows(users: seq<Row>, marshal: Row -> string, offset: int, end: int)
    returns (found: Option<seq<string>>)
    requires 0 <= offset < end ==> end <= |users|
    ensures found.None? <==> Panics(offset, end)
    ensures found.Some? && offset < end ==> found.value == Marshalled(users, marshal, offset, end)
    ensures found.Some? && offset >= end ==> found.value == []
  {
    var rows: seq<string> := [];
    var i := offset;
    while i < end
      invariant offset <= i && (offset < end ==> i <= end)
      invariant offset < 0 || offset >= end ==> i == offset
      invariant 0 <= offset < end ==> rows == Marshalled(users, marshal, offset, i)
      invariant !(0 <= offset < end) ==> rows == []
    {
      if i < 0 || i >= |users| {
        return None;
      }
      rows := rows + [marshal(users[i])];
      i := i + 1;
    }
    return Some(rows);
  }

  // ---------------------------------------------------------------------
  // Properties

  /** The token is checked before anything else. */
  lemma TokenFirst(token: string, limitText: string, offsetText: string, users: seq<Row>, marshal: Row -> string)
    requires |users| <= MaxInt64
    ensures Respond(token, limitText, offsetText, users, marshal).status == StatusUnauthorized <==> token != AccessToken
  {
  }

  /** An authorised request is answered 400 exactly when the limit or the
      offset is not a decimal integer. */
  lemma BadQueryIff(limitText: string, offsetText: string, users: seq<Row>, marshal: Row -> string)
    requires |users| <= MaxInt64
    ensures Respond(AccessToken, limitText, offsetText, users, marshal).status == StatusBadRequest
        <==> Atoi(limitText).None? || Atoi(offsetText).None?
  {
  }

  /** The window never ends past 25 unless it ends at the dataset size. */
  lemma EndClamped(limit: int, offset: int, n: int)
    ensures End(limit, offset, n) == n || (End(limit, offset, n) <= MaxLimit && End(limit, offset, n) <= limit)
  {
  }

  /** The rows returned are users[offset..end] in dataset order; the window
      ends at the clamped limit itself, so it holds end-offset rows. */
  lemma WindowRows(limit: int, offset: int, users: seq<Row>, marshal: Row -> string)
    requires |users| <= MaxInt64 && InInt64(limit) && InInt64(offset)
    requires 0 <= offset < Clamp(limit) && offset + Clamp(limit) <= |users|
    ensures var r := Respond(AccessToken, Itoa(limit), Itoa(offset), users, marshal);
      var end := Clamp(limit);
      r == Response(StatusOK, "[" + Join(Marshalled(users, marshal, offset, end), ",") + "]")
      && |Marshalled(users, marshal, offset, end)| == end - offset
  {
    AtoiItoa(limit);
    AtoiItoa(offset);
  }

  /** When offset+limit overruns the dataset, the window ends at the
      dataset size: the rows from offset to the last one. */
  lemma WindowOverrun(limit: int, offset: int, users: seq<Row>, marshal: Row -> string)
    requires |users| <= MaxInt64 && InInt64(limit) && InInt64(offset)
    requires 0 <= offset < |users| && Wrap64(offset + Clamp(limit)) > |users|
    ensures var r := Respond(AccessToken, Itoa(limit), Itoa(offset), users, marshal);
      r == Response(StatusOK, "[" + Join(Marshalled(users, marshal, offset, |users|), ",") + "]")
      && |Marshalled(users, marshal, offset, |users|)| == |users| - offset
  {
    AtoiItoa(limit);
    AtoiItoa(offset);
    assert End(limit, offset, |users|) == |users|;
  }

  /** A negative offset is recovered as a 500 whenever the loop runs. */
  lemma NegativeOffset(limit: int, offset: int, users: seq<Row>, marshal: Row -> string)
    requires |users| <= MaxInt64 && InInt64(limit) && InInt64(offset)
    requires offset < 0 && offset < End(limit, offset, |users|)
    ensures Respond(AccessToken, Itoa(limit), Itoa(offset), users, marshal) == InternalError
  {
    AtoiItoa(limit);
    AtoiItoa(offset);
  }

  /** limit=1&offset=1, the fixture's default request, returns no rows. */
  lemma DefaultRequestEmpty(users: seq<Row>, marshal: Row -> string)
    requires 2 <= |users| <= MaxInt64
    ensures Respond(AccessToken, "1", "1", users, marshal) == Response(StatusOK, "[]")
  {
    AtoiItoa(1);
    assert Itoa(1) == "1";
  }
}
