/** The hw3 fast search: the generated User decoder and encoder and the
    per-line filter that prints users who have both an Android and an MSIE
    browser and counts the distinct matching browsers.

    Tokenising and string escaping belong to the JSON library: a line
    arrives as an already tokenised JSON value (or as text the lexer
    rejects), and the writer's quoting of a string is a parameter. */
module Bench {
  import opened Text

  // ---------------------------------------------------------------------
  // Values and the decoder

  /** A JSON value as the lexer delivers it; numbers and booleans keep
      their literal text. */
  datatype JValue =
    | JNull
    | JStr(s: string)
    | JScalar(text: string)
    | JArr(items: seq<JValue>)
    | JObj(members: seq<Member>)

  datatype Member = Member(key: string, value: JValue)

  /** The exported fields of User. A nil Browsers slice is None; an empty
      non-nil one is Some([]). */
  datatype UserData = UserData(browsers: Option<seq<string>>, email: string, name: string)

  const EmptyUser := UserData(None, "", "")

  predicate AllStrings(items: seq<JValue>) {
    forall k :: 0 <= k < |items| ==> items[k].JStr?
  }

  function Strings(items: seq<JValue>): (r: seq<string>)
    requires AllStrings(items)
    ensures |r| == |items| && forall k :: 0 <= k < |items| ==> items[k] == JStr(r[k])
  {
    seq(|items|, k requires 0 <= k < |items| => items[k].s)
  }

  /** A non-null value of the wrong kind under one of the three known keys:
      the lexer records an error. */
  predicate BadMember(m: Member) {
    !m.value.JNull?
    && ((m.key == "browsers" && !(m.value.JArr? && AllStrings(m.value.items)))
        || (m.key == "email" && !m.value.JStr?)
        || (m.key == "name" && !m.value.JStr?))
  }

  /** One `key: value` step of the object loop. */
  function DecodeMember(u: UserData, m: Member): Option<UserData> {
    if m.value.JNull? then Some(u)
    else if m.key == "browsers" then
      if m.value.JArr? && AllStrings(m.value.items) then Some(u.(browsers := Some(Strings(m.value.items))))
      else None
    else if m.key == "email" then
      if m.value.JStr? then Some(u.(email := m.value.s)) else None
    else if m.key == "name" then
      if m.value.JStr? then Some(u.(name := m.value.s)) else None
    else Some(u)
  }

  function DecodeMembers(u: UserData, ms: seq<Member>): Option<UserData>
    decreases |ms|
  {
    if |ms| == 0 then Some(u)
    else
      match DecodeMembers(u, ms[..|ms| - 1])
      case None => None
      case Some(u1) => DecodeMember(u1, ms[|ms| - 1])
  }

  /** UnmarshalJSON into an existing user; None as input is text the lexer
      rejects, None as result is the error it returns. */
  function DecodeDoc(u: UserData, doc: Option<JValue>): Option<UserData> {
    match doc
    case None => None
    case Some(JNull) => Some(u)
    case Some(JObj(ms)) => DecodeMembers(u, ms)
    case Some(_) => None
  }

  /** Null values and keys other than the three fields are skipped. */
  lemma DecodeSkips(u: UserData, m: Member)
    requires m.value.JNull? || m.key !in {"browsers", "email", "name"}
    ensures DecodeMember(u, m) == Some(u)
  {
  }

  /** Decoding fails exactly when some member is bad, whatever the user held. */
  lemma {:induction false} DecodeFails(u: UserData, ms: seq<Member>)
    ensures DecodeMembers(u, ms).None? <==> exists k :: 0 <= k < |ms| && BadMember(ms[k])
    decreases |ms|
  {
    if |ms| > 0 {
      var init := ms[..|ms| - 1];
      DecodeFails(u, init);
      assert forall k :: 0 <= k < |init| ==> init[k] == ms[k];
      if DecodeMembers(u, init).Some? {
        assert DecodeMembers(u, ms) == DecodeMember(DecodeMembers(u, init).value, ms[|ms| - 1]);
      }
    }
  }

  /** Once a prefix of the members fails, the whole object fails. */
  lemma {:induction false} DecodeFailsPrefix(u: UserData, ms: seq<Member>, i: nat)
    requires i <= |ms| && DecodeMembers(u, ms[..i]).None?
    ensures DecodeMembers(u, ms).None?
    decreases |ms| - i
  {
    if i == |ms| {
      assert ms[..i] == ms;
    } else {
      var init := ms[..|ms| - 1];
      assert init[..i] == ms[..i];
      DecodeFailsPrefix(u, init, i);
    }
  }

  /** The last non-null value under a key, if any. */
  function LastValue(ms: seq<Member>, key: string): Option<JValue>
    decreases |ms|
  {
    if |ms| == 0 then None
    else
      var m := ms[|ms| - 1];
      if m.key == key && !m.value.JNull? then Some(m.value) else LastValue(ms[..|ms| - 1], key)
  }

  /** Each field ends up holding the last non-null value given for it,
      and keeps the user's previous value when the object gives none. */
  lemma {:induction false} DecodeLastWins(u: UserData, ms: seq<Member>)
    requires DecodeMembers(u, ms).Some?
    ensures var r := DecodeMembers(u, ms).value;
      && (LastValue(ms, "email") == None ==> r.email == u.email)
      && (LastValue(ms, "email") != None ==> LastValue(ms, "email") == Some(JStr(r.email)))
      && (LastValue(ms, "name") == None ==> r.name == u.name)
      && (LastValue(ms, "name") != None ==> LastValue(ms, "name") == Some(JStr(r.name)))
      && (LastValue(ms, "browsers") == None ==> r.browsers == u.browsers)
      && (LastValue(ms, "browsers") != None ==>
            r.browsers.Some? && LastValue(ms, "browsers") == Some(JArr(ArrayOf(r.browsers.value))))
    decreases |ms|
  {
    if |ms| > 0 {
      var init := ms[..|ms| - 1];
      DecodeLastWins(u, init);
      var m := ms[|ms| - 1];
      if m.key == "browsers" && !m.value.JNull? {
        var bs := Strings(m.value.items);
        assert ArrayOf(bs) == m.value.items;
      }
    }
  }

  function ArrayOf(bs: seq<string>): (r: seq<JValue>)
    ensures |r| == |bs| && forall k :: 0 <= k < |bs| ==> r[k] == JStr(bs[k])
  {
    seq(|bs|, k requires 0 <= k < |bs| => JStr(bs[k]))
  }

  /** An empty array gives an empty, non-nil slice even on a nil one. */
  lemma EmptyArrayNotNil(u: UserData)
    requires u.browsers == None
    ensures DecodeMember(u, Member("browsers", JArr([]))) == Some(u.(browsers := Some([])))
  {
    assert Strings([]) == [];
  }

  /** The User record, decoded into in place and reused across lines. */
  class User {
    var browsers: Option<seq<string>>
    var email: string
    var name: string

    function Data(): UserData
      reads this
    {
      UserData(browsers, email, name)
    }

    constructor ()
      ensures Data() == EmptyUser
    {
      browsers, email, name := None, "", "";
    }

    /** The decoder loop: members in order, arrays element by element. */
    method UnmarshalJSON(doc: Option<JValue>) returns (ok: bool)
      modifies this
      ensures ok <==> DecodeDoc(old(Data()), doc).Some?
      ensures ok ==> Data() == DecodeDoc(old(Data()), doc).value
    {
      if doc.None? {
        return false;
      }
      var v := doc.value;
      if v.JNull? {
        return true;
      }
      if !v.JObj? {
        return false;
      }
      var ms := v.members;
      var i := 0;
      while i < |ms|
        invariant 0 <= i <= |ms|
        invariant DecodeMembers(old(Data()), ms[..i]) == Some(Data())
      {
        var key := ms[i].key;
        var value := ms[i].value;
        assert ms[..i + 1][..i] == ms[..i];
        ghost var before := Data();
        if value.JNull? {
          i := i + 1;
          continue;
        }
        if key == "browsers" {
          if !value.JArr? {
            DecodeFailsPrefix(old(Data()), ms, i + 1);
            return false;
          }
          match browsers {
            case None => browsers := Some([]);
            case Some(b) => browsers := Some(b[..0]);
          }
          var items := value.items;
          var k := 0;
          while k < |items|
            invariant 0 <= k <= |items|
            invariant browsers.Some? && |browsers.value| == k
            invariant forall j :: 0 <= j < k ==> items[j] == JStr(browsers.value[j])
            invariant email == before.email && name == before.name
          {
            if !items[k].JStr? {
              DecodeFailsPrefix(old(Data()), ms, i + 1);
              return false;
            }
            browsers := Some(browsers.value + [items[k].s]);
            k := k + 1;
          }
          assert browsers.value == Strings(items);
        } else if key == "email" {
          if !value.JStr? {
            DecodeFailsPrefix(old(Data()), ms, i + 1);
            return false;
          }
          email := value.s;
        } else if key == "name" {
          if !value.JStr? {
            DecodeFailsPrefix(old(Data()), ms, i + 1);
            return false;
          }
          name := value.s;
        }
        i := i + 1;
      }
      assert ms[..|ms|] == ms;
      ok := true;
    }
  }

  // ---------------------------------------------------------------------
  // The encoder

  /** JSON text of a value; `quote` is the writer's quoting of a string. */
  function Render(v: JValue, quote: string -> string): string
    decreases v, 1
  {
    match v
    case JNull => "null"
    case JStr(s) => quote(s)
    case JScalar(t) => t
    case JArr(_) => "[" + Join(ItemTexts(v, quote), ",") + "]"
    case JObj(_) => "{" + Join(MemberTexts(v, quote), ",") + "}"
  }

  function ItemTexts(v: JValue, quote: string -> string): (r: seq<string>)
    requires v.JArr?
    ensures |r| == |v.items| && forall k :: 0 <= k < |r| ==> r[k] == Render(v.items[k], quote)
    decreases v, 0
  {
    seq(|v.items|, k requires 0 <= k < |v.items| => Render(v.items[k], quote))
  }

  function MemberTexts(v: JValue, quote: string -> string): (r: seq<string>)
    requires v.JObj?
    ensures |r| == |v.members|
    ensures forall k :: 0 <= k < |r| ==> r[k] == "\"" + v.members[k].key + "\":" + Render(v.members[k].value, quote)
    decreases v, 0
  {
    seq(|v.members|, k requires 0 <= k < |v.members| => "\"" + v.members[k].key + "\":" + Render(v.members[k].value, quote))
  }

  /** The object the encoder writes: the three fields in declaration order,
      a nil slice as null unless the writer's NilSliceAsEmpty flag is set. */
  function ObjectOf(u: UserData, nilSliceAsEmpty: bool): JValue {
    var browsers :=
      if u.browsers.None? && !nilSliceAsEmpty then JNull
      else JArr(ArrayOf(if u.browsers.None? then [] else u.browsers.value));
    JObj([Member("browsers", browsers), Member("email", JStr(u.email)), Member("name", JStr(u.name))])
  }

  function QuoteAll(bs: seq<string>, quote: string -> string): (r: seq<string>)
    ensures |r| == |bs| && forall k :: 0 <= k < |bs| ==> r[k] == quote(bs[k])
  {
    seq(|bs|, k requires 0 <= k < |bs| => quote(bs[k]))
  }

  /** The generated encoder, written to a buffer piece by piece. */
  method Encode(u: UserData, nilSliceAsEmpty: bool, quote: string -> string) returns (out: string)
    ensures out == Render(ObjectOf(u, nilSliceAsEmpty), quote)
  {
    out := "{";
    out := out + "\"browsers\":";
    ghost var head := out;
    assert head == "{\"browsers\":";
    ghost var x := Render(ObjectOf(u, nilSliceAsEmpty).members[0].value, quote);
    if u.browsers.None? && !nilSliceAsEmpty {
      out := out + "null";
    } else {
      var bs := if u.browsers.None? then [] else u.browsers.value;
      out := out + "[";
      ghost var open := out;
      var k := 0;
      while k < |bs|
        invariant 0 <= k <= |bs|
        invariant out == open + Join(QuoteAll(bs[..k], quote), ",")
      {
        ghost var j := Join(QuoteAll(bs[..k], quote), ",");
        if k > 0 {
          out := out + ",";
        }
        out := out + quote(bs[k]);
        BrowsersStep(bs, k, quote);
        if k > 0 {
          Assoc(open, j, ",");
          Assoc(open, j + ",", quote(bs[k]));
        } else {
          Assoc(open, j, quote(bs[k]));
        }
        k := k + 1;
      }
      ghost var j := Join(QuoteAll(bs, quote), ",");
      assert bs[..|bs|] == bs;
      out := out + "]";
      ArrayText(bs, quote);
      Assoc(head, "[", j);
      Assoc(head, "[" + j, "]");
    }
    assert out == head + x;
    out := out + ",\"email\":";
    out := out + quote(u.email);
    out := out + ",\"name\":";
    out := out + quote(u.name);
    out := out + "}";
    RenderUser(u, nilSliceAsEmpty, quote);
  }

  lemma BrowsersStep(bs: seq<string>, k: nat, quote: string -> string)
    requires k < |bs|
    ensures Join(QuoteAll(bs[..k + 1], quote), ",")
         == Join(QuoteAll(bs[..k], quote), ",") + (if k > 0 then "," else "") + quote(bs[k])
  {
    var q := QuoteAll(bs[..k + 1], quote);
    if k > 0 {
      JoinSnoc(q, ",");
      assert q[..|q| - 1] == QuoteAll(bs[..k], quote);
    }
  }

  lemma ArrayText(bs: seq<string>, quote: string -> string)
    ensures Render(JArr(ArrayOf(bs)), quote) == "[" + Join(QuoteAll(bs, quote), ",") + "]"
  {
    assert ItemTexts(JArr(ArrayOf(bs)), quote) == QuoteAll(bs, quote);
  }

  /** The encoded text field by field. */
  lemma RenderUser(u: UserData, nilSliceAsEmpty: bool, quote: string -> string)
    ensures Render(ObjectOf(u, nilSliceAsEmpty), quote)
         == "{\"browsers\":" + Render(ObjectOf(u, nilSliceAsEmpty).members[0].value, quote)
            + ",\"email\":" + quote(u.email) + ",\"name\":" + quote(u.name) + "}"
  {
    var obj := ObjectOf(u, nilSliceAsEmpty);
    var x := Render(obj.members[0].value, quote);
    var parts := MemberTexts(obj, quote);
    assert "\"" + "browsers" + "\":" == "\"browsers\":";
    assert "\"" + "email" + "\":" == "\"email\":";
    assert "\"" + "name" + "\":" == "\"name\":";
    assert parts == ["\"browsers\":" + x, "\"email\":" + quote(u.email), "\"name\":" + quote(u.name)];
    ObjectText(x, quote(u.email), quote(u.name));
  }

  lemma ObjectText(x: string, e: string, n: string)
    ensures "{" + Join(["\"browsers\":" + x, "\"email\":" + e, "\"name\":" + n], ",") + "}"
         == "{\"browsers\":" + x + ",\"email\":" + e + ",\"name\":" + n + "}"
  {
    var bp, ep, np := "\"browsers\":", "\"email\":", "\"name\":";
    assert "{\"browsers\":" == "{" + bp;
    assert ",\"email\":" == "," + ep;
    assert ",\"name\":" == "," + np;
    var a, b, c := bp + x, ep + e, np + n;
    Join3(a, b, c, ",");
    Assoc("{", bp, x);
    Assoc("{", a, ",");
    Assoc("{", a + ",", b);
    Glue("{" + a, ",", ep, e);
    Assoc("{", (a + ",") + b, ",");
    Assoc("{", ((a + ",") + b) + ",", c);
    Glue("{" + ((a + ",") + b), ",", np, n);
  }

  /** Decoding what the encoder wrote gives the fields back; a nil slice
      written as null is skipped, so a reused user keeps its old browsers. */
  lemma DecodeEncoded(u: UserData, v: UserData, nilSliceAsEmpty: bool)
    ensures DecodeDoc(v, Some(ObjectOf(u, nilSliceAsEmpty)))
         == Some(UserData(
              if u.browsers.None? && !nilSliceAsEmpty then v.browsers
              else Some(if u.browsers.None? then [] else u.browsers.value),
              u.email, u.name))
  {
    var ms := ObjectOf(u, nilSliceAsEmpty).members;
    var bs := if u.browsers.None? then [] else u.browsers.value;
    assert Strings(ArrayOf(bs)) == bs;
    var b := if u.browsers.None? && !nilSliceAsEmpty then v.browsers else Some(bs);
    assert ms[..1][..0] == [] && ms[..2][..1] == ms[..1] && ms[..3][..2] == ms[..2] && ms[..3] == ms;
    assert DecodeMembers(v, ms[..1]) == DecodeMember(v, ms[0]) == Some(v.(browsers := b));
    assert DecodeMembers(v, ms[..2]) == DecodeMember(v.(browsers := b), ms[1]) == Some(UserData(b, u.email, v.name));
    assert DecodeMembers(v, ms[..3]) == DecodeMember(UserData(b, u.email, v.name), ms[2]);
  }

  // ---------------------------------------------------------------------
  // The search

  predicate IsAndroid(b: string) { Contains(b, "Android") }
  predicate IsMSIE(b: string) { Contains(b, "MSIE") }

  function BrowsersOf(u: UserData): seq<string> {
    if u.browsers.None? then [] else u.browsers.value
  }

  /** Printed: some browser mentions Android and some mentions MSIE. */
  predicate Wanted(u: UserData) {
    (exists k :: 0 <= k < |BrowsersOf(u)| && IsAndroid(BrowsersOf(u)[k]))
    && (exists k :: 0 <= k < |BrowsersOf(u)| && IsMSIE(BrowsersOf(u)[k]))
  }

  /** The browsers of one user that enter the seen set. */
  function Matching(u: UserData): set<string> {
    set b | b in BrowsersOf(u) && (IsAndroid(b) || IsMSIE(b))
  }

  /** The email as printed: every "@" becomes " [at] ". */
  function Masked(email: string): string {
    ReplaceAll(email, '@', " [at] ")
  }

  lemma MaskedEmail(email: string)
    ensures '@' !in Masked(email)
    ensures '@' !in email ==> Masked(email) == email
  {
    ReplaceAllRemoves(email, '@', " [at] ");
    if '@' !in email {
      ReplaceAllAbsent(email, '@', " [at] ");
    }
  }

  function FoundLine(i: int, u: UserData): string {
    "[" + Itoa(i) + "] " + u.name + " <" + Masked(u.email) + ">\n"
  }

  /** The reused user after the first lines; None once a line fails. */
  function UserAfter(lines: seq<Option<JValue>>): Option<UserData>
    decreases |lines|
  {
    if |lines| == 0 then Some(EmptyUser)
    else
      match UserAfter(lines[..|lines| - 1])
      case None => None
      case Some(u) => DecodeDoc(u, lines[|lines| - 1])
  }

  /** The printed lines and the seen browsers after the first lines. */
  datatype Report = Report(found: string, seen: set<string>)

  function Scan(lines: seq<Option<JValue>>): Option<Report>
    decreases |lines|
  {
    if |lines| == 0 then Some(Report("", {}))
    else
      match Scan(lines[..|lines| - 1])
      case None => None
      case Some(r) =>
        match UserAfter(lines)
        case None => None
        case Some(u) =>
          Some(Report(r.found + (if Wanted(u) then FoundLine(|lines| - 1, u) else ""), r.seen + Matching(u)))
  }

  function Output(r: Report): string {
    "found users:\n" + r.found + "\nTotal unique browsers " + Itoa(|r.seen|) + "\n"
  }

  /** The scan fails exactly when decoding some line fails. */
  lemma {:induction false} ScanFails(lines: seq<Option<JValue>>)
    ensures Scan(lines).None? <==> UserAfter(lines).None?
    decreases |lines|
  {
    if |lines| > 0 {
      ScanFails(lines[..|lines| - 1]);
    }
  }

  /** Browser b enters the seen set at line k. */
  ghost predicate SeenAt(lines: seq<Option<JValue>>, k: int, b: string)
    requires 0 <= k < |lines|
  {
    UserAfter(lines[..k + 1]).Some? && b in Matching(UserAfter(lines[..k + 1]).value)
  }

  /** The seen set is every matching browser of every line's user, printed
      or not. */
  lemma {:induction false} ScanSeen(lines: seq<Option<JValue>>)
    requires Scan(lines).Some?
    ensures forall b :: b in Scan(lines).value.seen <==> exists k :: 0 <= k < |lines| && SeenAt(lines, k, b)
    decreases |lines|
  {
    if |lines| > 0 {
      var n := |lines| - 1;
      var init := lines[..n];
      ScanSeen(init);
      forall k, b | 0 <= k < n ensures SeenAt(init, k, b) == SeenAt(lines, k, b) {
        assert init[..k + 1] == lines[..k + 1];
      }
      assert lines[..n + 1] == lines;
      var u := UserAfter(lines).value;
      assert Scan(lines).value.seen == Scan(init).value.seen + Matching(u);
      forall b ensures b in Scan(lines).value.seen <==> exists k :: 0 <= k < |lines| && SeenAt(lines, k, b) {
        if b in Matching(u) {
          assert SeenAt(lines, n, b);
        } else if b in Scan(init).value.seen {
          var k :| 0 <= k < n && SeenAt(init, k, b);
          assert SeenAt(lines, k, b);
        }
      }
    }
  }

  /** A line that says nothing about browsers keeps the previous line's
      browsers, and with them the previous line's verdict. */
  lemma {:induction false} ReusedBrowsers(lines: seq<Option<JValue>>, ms: seq<Member>)
    requires UserAfter(lines).Some? && UserAfter(lines + [Some(JObj(ms))]).Some?
    requires LastValue(ms, "browsers") == None
    ensures UserAfter(lines + [Some(JObj(ms))]).value.browsers == UserAfter(lines).value.browsers
    ensures Wanted(UserAfter(lines + [Some(JObj(ms))]).value) <==> Wanted(UserAfter(lines).value)
  {
    var all := lines + [Some(JObj(ms))];
    assert all[..|all| - 1] == lines;
    var u := UserAfter(lines).value;
    assert UserAfter(all) == DecodeMembers(u, ms);
    DecodeLastWins(u, ms);
    assert BrowsersOf(UserAfter(all).value) == BrowsersOf(u);
  }

  /** FastSearch over the lines of the file. None is the panic on a line
      the decoder rejects. */
  method FastSearch(lines: seq<Option<JValue>>) returns (out: Option<string>)
    ensures out.None? <==> UserAfter(lines).None?
    ensures out.Some? ==> Scan(lines).Some? && out.value == Output(Scan(lines).value)
  {
    var seenBrowsers: set<string> := {};
    var text := "found users:\n";
    ghost var found := "";
    var user := new User();
    var i := 0;
    while i < |lines|
      invariant 0 <= i <= |lines|
      invariant UserAfter(lines[..i]) == Some(user.Data())
      invariant Scan(lines[..i]) == Some(Report(found, seenBrowsers))
      invariant text == "found users:\n" + found
    {
      assert lines[..i + 1][..i] == lines[..i];
      var ok := user.UnmarshalJSON(lines[i]);
      if !ok {
        assert UserAfter(lines[..i + 1]).None?;
        UserAfterFailsPrefix(lines, i + 1);
        return None;
      }
      var bs := if user.browsers.None? then [] else user.browsers.value;
      var isAndroid, isMSIE;
      isAndroid, isMSIE, seenBrowsers := ScanBrowsers(bs, seenBrowsers);
      ghost var u := user.Data();
      assert bs == BrowsersOf(u);
      ScanStep(lines, i, u);
      var line := "";
      if isAndroid && isMSIE {
        var email := ReplaceAll(user.email, '@', " [at] ");
        line := "[" + Itoa(i) + "] " + user.name + " <" + email + ">\n";
        text := text + line;
      }
      assert line == if Wanted(u) then FoundLine(i, u) else "";
      Assoc("found users:\n", found, line);
      found := found + line;
      i := i + 1;
    }
    assert lines[..|lines|] == lines;
    text := text + "\nTotal unique browsers " + Itoa(|seenBrowsers|) + "\n";
    ScanFails(lines);
    return Some(text);
  }

  /** The inner loop of FastSearch over one user's browsers. */
  method ScanBrowsers(bs: seq<string>, seen: set<string>) returns (isAndroid: bool, isMSIE: bool, seen': set<string>)
    ensures isAndroid <==> exists j :: 0 <= j < |bs| && IsAndroid(bs[j])
    ensures isMSIE <==> exists j :: 0 <= j < |bs| && IsMSIE(bs[j])
    ensures seen' == seen + set b | b in bs && (IsAndroid(b) || IsMSIE(b))
  {
    isAndroid, isMSIE, seen' := false, false, seen;
    var k := 0;
    while k < |bs|
      invariant 0 <= k <= |bs|
      invariant isAndroid <==> exists j :: 0 <= j < k && IsAndroid(bs[j])
      invariant isMSIE <==> exists j :: 0 <= j < k && IsMSIE(bs[j])
      invariant seen' == seen + set b | b in bs[..k] && (IsAndroid(b) || IsMSIE(b))
    {
      var browser := bs[k];
      var isMatch := false;
      if IsAndroid(browser) {
        isAndroid := true;
        isMatch := true;
      }
      if IsMSIE(browser) {
        isMSIE := true;
        isMatch := true;
      }
      if isMatch {
        if browser !in seen' {
          seen' := seen' + {browser};
        }
      }
      assert bs[..k + 1] == bs[..k] + [browser];
      k := k + 1;
    }
    assert bs[..|bs|] == bs;
  }

  lemma ScanStep(lines: seq<Option<JValue>>, i: nat, u: UserData)
    requires i < |lines| && Scan(lines[..i]).Some? && UserAfter(lines[..i + 1]) == Some(u)
    ensures Scan(lines[..i + 1]) == Some(Report(
      Scan(lines[..i]).value.found + (if Wanted(u) then FoundLine(i, u) else ""),
      Scan(lines[..i]).value.seen + Matching(u)))
  {
    assert lines[..i + 1][..i] == lines[..i];
  }

  lemma {:induction false} UserAfterFailsPrefix(lines: seq<Option<JValue>>, i: nat)
    requires i <= |lines| && UserAfter(lines[..i]).None?
    ensures UserAfter(lines).None?
    decreases |lines| - i
  {
    if i == |lines| {
      assert lines[..i] == lines;
    } else {
      var init := lines[..|lines| - 1];
      assert init[..i] == lines[..i];
      UserAfterFailsPrefix(init, i);
    }
  }
}
