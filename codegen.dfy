/** The analysis half of the hw5 handler generator: reading the
    `apivalidator` tag of a parameter field into validators, the small
    predicates the templates test, and the grouping of annotated methods by
    receiver together with one parameter structure per method.

    Parsing Go source, decoding the JSON of the `apigen:api` comment and
    rendering templates are not modelled: the annotated methods, the struct
    fields and their raw tags are inputs. */
module Codegen {
  import opened Text

  // ---------------------------------------------------------------------
  // `".*"`.FindString: from the first double quote that has a later one on
  // the same line, to the last double quote of that line.

  /** Index of the first newline at or after `from`, or |s|. */
  function LineEnd(s: string, from: nat): (e: nat)
    requires from <= |s|
    ensures from <= e <= |s|
    ensures e < |s| ==> s[e] == '\n'
    ensures forall k :: from <= k < e ==> s[k] != '\n'
    decreases |s| - from
  {
    if from == |s| || s[from] == '\n' then from else LineEnd(s, from + 1)
  }

  /** Index of the last double quote in s[from..to], if any. */
  function LastQuote(s: string, lo: nat, hi: nat): (r: Option<nat>)
    requires lo <= hi <= |s|
    ensures r.None? ==> forall k :: lo <= k < hi ==> s[k] != '"'
    ensures r.Some? ==> lo <= r.value < hi && s[r.value] == '"'
    ensures r.Some? ==> forall k :: r.value < k < hi ==> s[k] != '"'
    decreases hi - lo
  {
    if hi == lo then None
    else if s[hi - 1] == '"' then Some(hi - 1)
    else LastQuote(s, lo, hi - 1)
  }

  function FindQuotedFrom(s: string, i: nat): string
    requires i <= |s|
    decreases |s| - i
  {
    if i == |s| then ""
    else if s[i] == '"' && LastQuote(s, i + 1, LineEnd(s, i + 1)).Some? then
      s[i..LastQuote(s, i + 1, LineEnd(s, i + 1)).value + 1]
    else FindQuotedFrom(s, i + 1)
  }

  /** apiValidatorPattern.FindString: "" when nothing matches. */
  function FindQuoted(s: string): string {
    FindQuotedFrom(s, 0)
  }

  /** On a one-line tag with two or more quotes the match runs from the
      first quote to the last. */
  lemma FindQuotedOneLine(s: string, i: nat, j: nat)
    requires '\n' !in s
    requires i < j < |s| && s[i] == '"' && s[j] == '"'
    requires forall k :: 0 <= k < i ==> s[k] != '"'
    requires forall k :: j < k < |s| ==> s[k] != '"'
    ensures FindQuoted(s) == s[i..j + 1]
  {
    assert LineEnd(s, i + 1) == |s|;
    assert LastQuote(s, i + 1, |s|) == Some(j);
    FindQuotedSkip(s, 0, i);
  }

  lemma {:induction false} FindQuotedSkip(s: string, k: nat, i: nat)
    requires k <= i < |s|
    requires forall l :: k <= l < i ==> s[l] != '"'
    ensures FindQuotedFrom(s, k) == FindQuotedFrom(s, i)
    decreases i - k
  {
    if k < i {
      FindQuotedSkip(s, k + 1, i);
    }
  }

  /** Without any quote there is no match. */
  lemma {:induction false} FindQuotedNone(s: string, i: nat)
    requires i <= |s|
    requires forall k :: i <= k < |s| ==> s[k] != '"'
    ensures FindQuotedFrom(s, i) == ""
    decreases |s| - i
  {
    if i < |s| {
      FindQuotedNone(s, i + 1);
    }
  }

  /** The rules of a tag: the match without its quotes, split on commas. */
  function Rules(tag: string): (rules: seq<string>)
    ensures |rules| >= 1
    ensures forall k :: 0 <= k < |rules| ==> ',' !in rules[k] && '"' !in rules[k]
  {
    var text := ReplaceAll(FindQuoted(tag), '"', "");
    ReplaceAllRemoves(FindQuoted(tag), '"', "");
    var rules := Split(text, ',');
    assert forall k :: 0 <= k < |rules| ==> '"' !in rules[k] by {
      forall k | 0 <= k < |rules| ensures '"' !in rules[k] {
        SplitPiecesFrom(text, ',', '"');
      }
    }
    rules
  }

  /** A character absent from the text is absent from every piece. */
  lemma {:induction false} SplitPiecesFrom(s: string, c: char, d: char)
    requires d !in s
    ensures forall k :: 0 <= k < |Split(s, c)| ==> d !in Split(s, c)[k]
    decreases |s|
  {
    if |s| > 0 {
      assert d != s[0] by { assert s[0] in s; }
      assert d !in s[1..] by {
        forall k | 0 <= k < |s| - 1 ensures s[1..][k] != d { assert s[1..][k] == s[k + 1]; }
      }
      SplitPiecesFrom(s[1..], c, d);
    }
  }

  /** On a one-line tag `prefix"body"suffix` with no other quotes, the
      match is the quoted body ... */
  lemma QuotedMatch(prefix: string, body: string, suffix: string)
    requires '"' !in prefix && '"' !in body && '"' !in suffix
    requires '\n' !in prefix && '\n' !in body && '\n' !in suffix
    ensures FindQuoted(prefix + "\"" + body + "\"" + suffix) == "\"" + body + "\""
  {
    var quoted := "\"" + body + "\"";
    var tag := prefix + quoted + suffix;
    var i, j := |prefix|, |prefix| + 1 + |body|;
    assert tag[i] == '"' && tag[j] == '"';
    forall k | 0 <= k < i ensures tag[k] != '"' { assert tag[k] == prefix[k]; }
    forall k | j < k < |tag| ensures tag[k] != '"' { assert tag[k] == suffix[k - j - 1]; }
    assert '\n' !in tag by {
      forall k | 0 <= k < |tag| ensures tag[k] != '\n' {
        if k < i { assert tag[k] == prefix[k]; }
        else if k == i || k == j { }
        else if k < j { assert tag[k] == body[k - i - 1]; }
        else { assert tag[k] == suffix[k - j - 1]; }
      }
    }
    FindQuotedOneLine(tag, i, j);
    assert tag[i..j + 1] == quoted;
    assert tag == prefix + "\"" + body + "\"" + suffix;
  }

  /** ... whose quotes ReplaceAll removes ... */
  lemma StripQuotes(body: string)
    requires '"' !in body
    ensures ReplaceAll("\"" + body + "\"", '"', "") == body
  {
    ReplaceAllConcat("\"" + body, "\"", '"', "");
    ReplaceAllConcat("\"", body, '"', "");
    ReplaceAllAbsent(body, '"', "");
    assert ReplaceAll("\"", '"', "") == "";
  }

  /** ... so the rules are the body split on commas. */
  lemma RulesOfQuoted(prefix: string, body: string, suffix: string)
    requires '"' !in prefix && '"' !in body && '"' !in suffix
    requires '\n' !in prefix && '\n' !in body && '\n' !in suffix
    ensures Rules(prefix + "\"" + body + "\"" + suffix) == Split(body, ',')
  {
    QuotedMatch(prefix, body, suffix);
    StripQuotes(body);
  }

  lemma {:induction false} ReplaceAllConcat(a: string, b: string, c: char, rep: string)
    ensures ReplaceAll(a + b, c, rep) == ReplaceAll(a, c, rep) + ReplaceAll(b, c, rep)
    decreases |a|
  {
    if |a| > 0 {
      ReplaceAllConcat(a[1..], b, c, rep);
      assert (a + b)[1..] == a[1..] + b;
    } else {
      assert a + b == b;
    }
  }

  // ---------------------------------------------------------------------
  // Validators

  datatype Validator =
    | Required(fieldName: string, paramName: string)
    | Min(fieldName: string, value: string, paramName: string, paramType: string)
    | Max(fieldName: string, value: string, paramName: string, paramType: string)
    | Enum(fieldName: string, values: seq<string>, paramName: string)

  /** The template each kind of validator is rendered with. */
  function TemplateOf(v: Validator): string {
    match v
    case Required(_, _) => "requiredValidatorTpl"
    case Min(_, _, _, _) => "minValidatorTpl"
    case Max(_, _, _, _) => "maxValidatorTpl"
    case Enum(_, _, _) => "enumValidatorTpl"
  }

  /** What ParseApiValidator may change while it goes through the rules:
      ParamName and Default on the field, the new validator list locally. */
  datatype ParseState = ParseState(paramName: string, default: string, validators: seq<Validator>)

  /** One case of the rule switch; None is the panic of a slice expression
      past the end of the rule. */
  function Step(fieldName: string, paramType: string, st: ParseState, rule: string): Option<ParseState> {
    if rule == "required" then
      Some(st.(validators := st.validators + [Required(fieldName, st.paramName)]))
    else if |rule| < 3 then None
    else if rule[..3] == "min" then
      if |rule| < 4 then None
      else Some(st.(validators := st.validators + [Min(fieldName, rule[4..], st.paramName, paramType)]))
    else if rule[..3] == "max" then
      if |rule| < 4 then None
      else Some(st.(validators := st.validators + [Max(fieldName, rule[4..], st.paramName, paramType)]))
    else if |rule| < 4 then None
    else if rule[..4] == "enum" then
      if |rule| < 5 then None
      else Some(st.(validators := st.validators + [Enum(fieldName, Split(rule[5..], '|'), st.paramName)]))
    else if |rule| < 7 then None
    else if rule[..7] == "default" then
      if |rule| < 8 then None else Some(st.(default := rule[8..]))
    else if |rule| < 9 then None
    else if rule[..9] == "paramname" then
      if |rule| < 10 then None else Some(st.(paramName := rule[10..]))
    else Some(st)
  }

  /** A rule is handled without a panic exactly when it is `required`, a
      `min`/`max` rule of at least 4 characters, an `enum` rule of at least
      5, a `default` rule of at least 8, or any other rule of at least 9
      characters except the bare `paramname`. */
  lemma StepPanics(fieldName: string, paramType: string, st: ParseState, rule: string)
    ensures Step(fieldName, paramType, st, rule).Some? <==>
      || rule == "required"
      || (|rule| >= 4 && (HasPrefix(rule, "min") || HasPrefix(rule, "max")))
      || (|rule| >= 5 && HasPrefix(rule, "enum"))
      || (|rule| >= 8 && HasPrefix(rule, "default"))
      || (|rule| >= 9 && rule != "paramname")
  {
    if |rule| >= 4 {
      if rule[..3] == "min" || rule[..3] == "max" {
      } else if |rule| >= 5 && HasPrefix(rule, "enum") {
        assert rule[..4] == "enum";
      } else if |rule| >= 8 && HasPrefix(rule, "default") {
        assert rule[..4] != "enum" by { assert rule[..4] == "defa"; }
        assert rule[..7] == "default";
      } else if |rule| == 9 && rule[..9] == "paramname" {
        assert rule == rule[..9];
      }
    }
  }

  /** The loop over the rules, stopping at the first panic. */
  function Fold(fieldName: string, paramType: string, st: ParseState, rules: seq<string>): Option<ParseState>
    decreases |rules|
  {
    if |rules| == 0 then Some(st)
    else match Step(fieldName, paramType, st, rules[0])
      case None => None
      case Some(st') => Fold(fieldName, paramType, st', rules[1..])
  }

  predicate SetsDefault(rule: string) { |rule| >= 8 && rule[..7] == "default" }
  predicate SetsParamName(rule: string) { |rule| >= 10 && rule[..9] == "paramname" }
  /** The kth rule is the last `default` rule. */
  predicate LastSetsDefault(rules: seq<string>, k: int) {
    0 <= k < |rules| && SetsDefault(rules[k]) && forall l :: k < l < |rules| ==> !SetsDefault(rules[l])
  }

  /** The kth rule is the last `paramname` rule. */
  predicate LastSetsParamName(rules: seq<string>, k: int) {
    0 <= k < |rules| && SetsParamName(rules[k]) && forall l :: k < l < |rules| ==> !SetsParamName(rules[l])
  }

  predicate AddsValidator(rule: string) {
    rule == "required" || (|rule| >= 4 && (rule[..3] == "min" || rule[..3] == "max"))
    || (|rule| >= 5 && rule[..4] == "enum")
  }

  /** Default is the value of the last `default` rule, or unchanged when
      there is none. */
  lemma {:induction false} FoldDefault(fieldName: string, paramType: string, st: ParseState, rules: seq<string>)
    requires Fold(fieldName, paramType, st, rules).Some?
    ensures (forall k :: 0 <= k < |rules| ==> !SetsDefault(rules[k])) ==>
              Fold(fieldName, paramType, st, rules).value.default == st.default
    ensures forall k :: LastSetsDefault(rules, k) ==>
              Fold(fieldName, paramType, st, rules).value.default == rules[k][8..]
    decreases |rules|
  {
    if |rules| > 0 {
      var st' := Step(fieldName, paramType, st, rules[0]).value;
      FoldDefault(fieldName, paramType, st', rules[1..]);
      assert forall k :: 1 <= k < |rules| ==> rules[1..][k - 1] == rules[k];
      StepDefault(fieldName, paramType, st, rules[0]);
    }
  }

  /** One step sets Default exactly on a `default` rule. */
  lemma StepDefault(fieldName: string, paramType: string, st: ParseState, rule: string)
    requires Step(fieldName, paramType, st, rule).Some?
    ensures SetsDefault(rule) ==> Step(fieldName, paramType, st, rule).value.default == rule[8..]
    ensures !SetsDefault(rule) ==> Step(fieldName, paramType, st, rule).value.default == st.default
  {
    if SetsDefault(rule) {
      assert rule[..3] == rule[..7][..3] == "def";
      assert rule[..4] == rule[..7][..4] == "defa";
      assert rule[0] == 'd';
      assert rule != "required";
    }
  }

  /** ParamName likewise: the value of the last `paramname` rule, or
      unchanged when there is none. */
  lemma {:induction false} FoldParamName(fieldName: string, paramType: string, st: ParseState, rules: seq<string>)
    requires Fold(fieldName, paramType, st, rules).Some?
    ensures (forall k :: 0 <= k < |rules| ==> !SetsParamName(rules[k])) ==>
              Fold(fieldName, paramType, st, rules).value.paramName == st.paramName
    ensures forall k :: LastSetsParamName(rules, k) ==>
              Fold(fieldName, paramType, st, rules).value.paramName == rules[k][10..]
    decreases |rules|
  {
    if |rules| > 0 {
      var st' := Step(fieldName, paramType, st, rules[0]).value;
      FoldParamName(fieldName, paramType, st', rules[1..]);
      assert forall k :: 1 <= k < |rules| ==> rules[1..][k - 1] == rules[k];
      StepParamName(fieldName, paramType, st, rules[0]);
    }
  }

  /** One step sets ParamName exactly on a `paramname` rule. */
  lemma StepParamName(fieldName: string, paramType: string, st: ParseState, rule: string)
    requires Step(fieldName, paramType, st, rule).Some?
    ensures SetsParamName(rule) ==> Step(fieldName, paramType, st, rule).value.paramName == rule[10..]
    ensures !SetsParamName(rule) ==> Step(fieldName, paramType, st, rule).value.paramName == st.paramName
  {
    if SetsParamName(rule) {
      assert rule[..3] == rule[..9][..3] == "par";
      assert rule[..4] == rule[..9][..4] == "para";
      assert rule[..7] == rule[..9][..7] == "paramna";
      assert rule[0] == 'p';
      assert rule != "required";
    }
  }

  /** Number of rules that add a validator. */
  function CountAdding(rules: seq<string>): nat
    decreases |rules|
  {
    if |rules| == 0 then 0 else (if AddsValidator(rules[0]) then 1 else 0) + CountAdding(rules[1..])
  }

  /** The validators are those already there, followed by one per adding
      rule; every new one names the field, and min/max carry its type. */
  lemma {:induction false} FoldValidators(fieldName: string, paramType: string, st: ParseState, rules: seq<string>)
    requires Fold(fieldName, paramType, st, rules).Some?
    ensures var r := Fold(fieldName, paramType, st, rules).value;
      && |r.validators| == |st.validators| + CountAdding(rules)
      && r.validators[..|st.validators|] == st.validators
      && forall k :: |st.validators| <= k < |r.validators| ==>
           r.validators[k].fieldName == fieldName
           && ((r.validators[k].Min? || r.validators[k].Max?) ==> r.validators[k].paramType == paramType)
    decreases |rules|
  {
    if |rules| > 0 {
      var st' := Step(fieldName, paramType, st, rules[0]).value;
      FoldValidators(fieldName, paramType, st', rules[1..]);
      var r := Fold(fieldName, paramType, st, rules).value;
      assert |st'.validators| == |st.validators| + (if AddsValidator(rules[0]) then 1 else 0);
      assert st'.validators[..|st.validators|] == st.validators;
      assert r.validators[..|st'.validators|] == st'.validators;
      assert r.validators[..|st.validators|] == r.validators[..|st'.validators|][..|st.validators|];
      forall k | |st.validators| <= k < |r.validators|
        ensures r.validators[k].fieldName == fieldName
        ensures (r.validators[k].Min? || r.validators[k].Max?) ==> r.validators[k].paramType == paramType
      {
        if k < |st'.validators| {
          assert r.validators[k] == st'.validators[k];
        }
      }
    }
  }

  /** The validator a `required`, `min`, `max` or `enum` rule adds when
      `paramName` is the ParamName in force: `required` carries only the
      names, `min` and `max` the text after `=` and the field's type, `enum`
      the text after `=` split on `|`. */
  function ValidatorOf(fieldName: string, paramType: string, paramName: string, rule: string): Validator
    requires AddsValidator(rule)
  {
    if rule == "required" then Required(fieldName, paramName)
    else if rule[..3] == "min" then Min(fieldName, rule[4..], paramName, paramType)
    else if rule[..3] == "max" then Max(fieldName, rule[4..], paramName, paramType)
    else Enum(fieldName, Split(rule[5..], '|'), paramName)
  }

  /** One step appends ValidatorOf its rule when the rule adds one, and
      leaves the list alone otherwise. */
  lemma StepValidators(fieldName: string, paramType: string, st: ParseState, rule: string)
    requires Step(fieldName, paramType, st, rule).Some?
    ensures Step(fieldName, paramType, st, rule).value.validators ==
      st.validators + (if AddsValidator(rule) then [ValidatorOf(fieldName, paramType, st.paramName, rule)] else [])
  {
    if |rule| >= 5 && rule[..4] == "enum" {
      assert rule[..3] == rule[..4][..3] == "enu";
      assert rule[0] == 'e';
      assert rule != "required";
    }
  }

  /** The validator of the ith rule sits after those of the adding rules
      before it, and carries the ParamName the rules before it left. */
  lemma {:induction false} FoldValidatorAt(fieldName: string, paramType: string, st: ParseState,
                                          rules: seq<string>, i: int)
    requires Fold(fieldName, paramType, st, rules).Some?
    requires 0 <= i < |rules| && AddsValidator(rules[i])
    ensures Fold(fieldName, paramType, st, rules[..i]).Some?
    ensures var r := Fold(fieldName, paramType, st, rules).value;
      var n := |st.validators| + CountAdding(rules[..i]);
      n < |r.validators|
      && r.validators[n] == ValidatorOf(fieldName, paramType, Fold(fieldName, paramType, st, rules[..i]).value.paramName, rules[i])
    decreases |rules|
  {
    var st' := Step(fieldName, paramType, st, rules[0]).value;
    StepValidators(fieldName, paramType, st, rules[0]);
    var r := Fold(fieldName, paramType, st, rules).value;
    if i == 0 {
      assert rules[..0] == [];
      FoldValidators(fieldName, paramType, st', rules[1..]);
      assert r.validators[..|st'.validators|] == st'.validators;
      assert r.validators[|st.validators|] == st'.validators[|st.validators|];
    } else {
      FoldValidatorAt(fieldName, paramType, st', rules[1..], i - 1);
      assert rules[1..][i - 1] == rules[i];
      assert rules[..i][1..] == rules[1..][..i - 1];
      assert rules[..i][0] == rules[0];
      assert Fold(fieldName, paramType, st, rules[..i]) == Fold(fieldName, paramType, st', rules[1..][..i - 1]);
      assert CountAdding(rules[..i]) == (if AddsValidator(rules[0]) then 1 else 0) + CountAdding(rules[1..][..i - 1]);
    }
  }

  /** The validator of the ith rule is ValidatorOf that rule, named after
      the last `paramname` rule before it, or after the field's initial
      ParamName when there is none. */
  predicate NamedValidatorAt(fieldName: string, paramType: string, st: ParseState, rules: seq<string>, i: int)
    requires Fold(fieldName, paramType, st, rules).Some?
    requires 0 <= i < |rules| && AddsValidator(rules[i])
  {
    var r := Fold(fieldName, paramType, st, rules).value;
    var n := |st.validators| + CountAdding(rules[..i]);
    && n < |r.validators|
    && ((forall k :: 0 <= k < i ==> !SetsParamName(rules[k])) ==>
          r.validators[n] == ValidatorOf(fieldName, paramType, st.paramName, rules[i]))
    && (forall k :: 0 <= k < i && LastSetsParamName(rules[..i], k) ==>
          r.validators[n] == ValidatorOf(fieldName, paramType, rules[k][10..], rules[i]))
  }

  lemma ValidatorNamed(fieldName: string, paramType: string, st: ParseState, rules: seq<string>, i: int)
    requires Fold(fieldName, paramType, st, rules).Some?
    requires 0 <= i < |rules| && AddsValidator(rules[i])
    ensures NamedValidatorAt(fieldName, paramType, st, rules, i)
  {
    FoldValidatorAt(fieldName, paramType, st, rules, i);
    FoldParamName(fieldName, paramType, st, rules[..i]);
  }

  /** What each new validator holds: the validator of every adding rule is
      ValidatorOf that rule with the ParamName then in force, so a
      `paramname` rule renames only the validators after it. */
  lemma FoldValidatorContents(fieldName: string, paramType: string, st: ParseState, rules: seq<string>)
    requires Fold(fieldName, paramType, st, rules).Some?
    ensures forall i :: 0 <= i < |rules| && AddsValidator(rules[i]) ==>
      NamedValidatorAt(fieldName, paramType, st, rules, i)
  {
    forall i | 0 <= i < |rules| && AddsValidator(rules[i]) {
      ValidatorNamed(fieldName, paramType, st, rules, i);
    }
  }

  /** A later `paramname` rule does not rename validators created before
      it: only those after it carry the new name. */
  lemma ParamNameOrder()
    ensures Fold("Login", "string", ParseState("login", "", []), ["required", "paramname=user_login", "min=3"])
         == Some(ParseState("user_login", "",
                            [Required("Login", "login"), Min("Login", "3", "user_login", "string")]))
  {
    var rules := ["required", "paramname=user_login", "min=3"];
    var r1 := rules[1];
    assert r1[0] == 'p' && r1 != "required";
    assert r1[..3] == "par" && r1[..4] == "para" && r1[..7] == "paramna" && r1[..9] == "paramname";
    assert r1[10..] == "user_login";
    var r2 := rules[2];
    assert r2[0] == 'm' && r2 != "required";
    assert r2[..3] == "min" && r2[4..] == "3";
    var s0 := ParseState("login", "", []);
    var s1 := ParseState("login", "", [Required("Login", "login")]);
    var s2 := ParseState("user_login", "", [Required("Login", "login")]);
    var s3 := ParseState("user_login", "", [Required("Login", "login"), Min("Login", "3", "user_login", "string")]);
    assert [] + [Required("Login", "login")] == [Required("Login", "login")];
    assert Step("Login", "string", s0, rules[0]) == Some(s1);
    assert Step("Login", "string", s1, r1) == Some(s2);
    assert s2.validators + [Min("Login", "3", "user_login", "string")] == s3.validators;
    assert Step("Login", "string", s2, r2) == Some(s3);
    assert rules[1..] == [r1, r2] && rules[1..][1..] == [r2] && rules[1..][1..][1..] == [];
    assert Fold("Login", "string", s3, []) == Some(s3);
    assert Fold("Login", "string", s2, [r2]) == Some(s3);
    assert Fold("Login", "string", s1, [r1, r2]) == Some(s3);
  }

  /** The message lists the enum values as written, with ", " for each `|`. */
  function ConcatValues(values: seq<string>): string {
    Join(values, ", ")
  }

  lemma EnumMessage(rule: string)
    requires |rule| >= 5 && rule[..4] == "enum"
    ensures ConcatValues(Split(rule[5..], '|')) == ReplaceAll(rule[5..], '|', ", ")
  {
    JoinSplitReplace(rule[5..], '|', ", ");
  }

  // ---------------------------------------------------------------------
  // Fields

  /** A parameter field as the templates see it. */
  datatype FieldData = FieldData(fieldName: string, paramName: string, default: string,
                                 paramType: string, validators: seq<Validator>)

  /** A field of a parameter struct; ParseApiValidator updates it. */
  class Field {
    var FieldName: string
    var ParamName: string
    var Default: string
    var ParamType: string
    var Validators: seq<Validator>

    constructor (fieldName: string, paramType: string, paramName: string)
      ensures FieldName == fieldName && ParamType == paramType && ParamName == paramName
      ensures Default == "" && Validators == []
    {
      FieldName := fieldName;
      ParamType := paramType;
      ParamName := paramName;
      Default := "";
      Validators := [];
    }

    function Data(): (d: FieldData)
      reads this
      ensures d.fieldName == FieldName && d.paramName == ParamName && d.default == Default
      ensures d.paramType == ParamType && d.validators == Validators
    {
      FieldData(FieldName, ParamName, Default, ParamType, Validators)
    }

    function IsString(): (b: bool)
      reads this
      ensures b <==> ParamType == "string"
    {
      ParamType == "string"
    }

    function IsInt(): (b: bool)
      reads this
      ensures b <==> ParamType == "int"
      ensures b ==> !IsString()
    {
      ParamType == "int"
    }

    /** ParseApiValidator: `ok` is false for a panic. Otherwise ParamName
        and Default are what the rules left, and Validators is replaced by
        the new list in rule order. FieldName and ParamType never change. */
    method ParseApiValidator(schema: string) returns (ok: bool)
      modifies this
      ensures FieldName == old(FieldName) && ParamType == old(ParamType)
      ensures var r := Fold(FieldName, ParamType, ParseState(old(ParamName), old(Default), []), Rules(schema));
        && (ok <==> r.Some?)
        && (ok ==> ParamName == r.value.paramName && Default == r.value.default && Validators == r.value.validators)
    {
      var rules := Rules(schema);
      var validators: seq<Validator> := [];
      ghost var goal := Fold(FieldName, ParamType, ParseState(ParamName, Default, []), rules);
      var i := 0;
      while i < |rules|
        invariant 0 <= i <= |rules|
        invariant FieldName == old(FieldName) && ParamType == old(ParamType)
        invariant goal == Fold(FieldName, ParamType, ParseState(ParamName, Default, validators), rules[i..])
      {
        var rule := rules[i];
        assert rules[i..][1..] == rules[i + 1..];
        ghost var before := ParseState(ParamName, Default, validators);
        if rule == "required" {
          validators := validators + [Required(FieldName, ParamName)];
        } else if |rule| < 3 {
          return false;
        } else if rule[..3] == "min" {
          if |rule| < 4 { return false; }
          validators := validators + [Min(FieldName, rule[4..], ParamName, ParamType)];
        } else if rule[..3] == "max" {
          if |rule| < 4 { return false; }
          validators := validators + [Max(FieldName, rule[4..], ParamName, ParamType)];
        } else if |rule| < 4 {
          return false;
        } else if rule[..4] == "enum" {
          if |rule| < 5 { return false; }
          validators := validators + [Enum(FieldName, Split(rule[5..], '|'), ParamName)];
        } else if |rule| < 7 {
          return false;
        } else if rule[..7] == "default" {
          if |rule| < 8 { return false; }
          Default := rule[8..];
        } else if |rule| < 9 {
          return false;
        } else if rule[..9] == "paramname" {
          if |rule| < 10 { return false; }
          ParamName := rule[10..];
        }
        assert Step(FieldName, ParamType, before, rule) == Some(ParseState(ParamName, Default, validators));
        i := i + 1;
      }
      Validators := validators;
      ok := true;
    }
  }

  // ---------------------------------------------------------------------
  // Methods and parameter structures

  /** An annotated method: receiver, parameter struct, and the `apigen:api`
      instructions. */
  datatype HttpFunction = HttpFunction(receiver: string, inType: string, path: string,
                                       auth: bool, httpMethod: string, name: string)
  {
    function IsAuth(): (b: bool)
      ensures b <==> auth
    {
      auth
    }

    /** The generated handler checks the HTTP method only when one is given. */
    function IsValidateMethod(): (b: bool)
      ensures b <==> httpMethod != ""
      ensures !b ==> httpMethod == []
    {
      httpMethod != ""
    }
  }

  /** The methods of one receiver, in declaration order. */
  function OfReceiver(functions: seq<HttpFunction>, receiver: string): seq<HttpFunction>
    decreases |functions|
  {
    if |functions| == 0 then []
    else OfReceiver(functions[..|functions| - 1], receiver)
         + (if functions[|functions| - 1].receiver == receiver then [functions[|functions| - 1]] else [])
  }

  /** A receiver's group holds exactly its methods. */
  lemma {:induction false} OfReceiverMembers(functions: seq<HttpFunction>, receiver: string)
    ensures forall f :: f in OfReceiver(functions, receiver) <==> f in functions && f.receiver == receiver
    decreases |functions|
  {
    if |functions| > 0 {
      var init := functions[..|functions| - 1];
      OfReceiverMembers(init, receiver);
      assert functions == init + [functions[|functions| - 1]];
    }
  }

  lemma {:induction false} OfReceiverAbsent(functions: seq<HttpFunction>, receiver: string)
    requires forall k :: 0 <= k < |functions| ==> functions[k].receiver != receiver
    ensures OfReceiver(functions, receiver) == []
    decreases |functions|
  {
    if |functions| > 0 {
      OfReceiverAbsent(functions[..|functions| - 1], receiver);
    }
  }

  /** The serveHttp map of main: per receiver, its methods in order. */
  method GroupByReceiver(functions: seq<HttpFunction>) returns (serveHttp: map<string, seq<HttpFunction>>)
    ensures serveHttp.Keys == set k | 0 <= k < |functions| :: functions[k].receiver
    ensures forall r :: r in serveHttp ==> serveHttp[r] == OfReceiver(functions, r)
  {
    serveHttp := map[];
    var i := 0;
    while i < |functions|
      invariant 0 <= i <= |functions|
      invariant serveHttp.Keys == set k | 0 <= k < i :: functions[k].receiver
      invariant forall r :: r in serveHttp ==> serveHttp[r] == OfReceiver(functions[..i], r)
    {
      var fun := functions[i];
      assert functions[..i + 1][..i] == functions[..i];
      if fun.receiver !in serveHttp {
        serveHttp := serveHttp[fun.receiver := []];
        OfReceiverAbsent(functions[..i], fun.receiver);
      }
      serveHttp := serveHttp[fun.receiver := serveHttp[fun.receiver] + [fun]];
      i := i + 1;
    }
    assert functions[..|functions|] == functions;
  }

  /** A struct field as the source declares it: the names it declares
      (none for an embedded field, several for `A, B string`), its type
      when that is a plain identifier (None for `[]string`, `*T`, ...), and
      its tag when it has one. */
  datatype RawField = RawField(names: seq<string>, typeName: Option<string>, tag: Option<string>)

  datatype ParamsStructure = ParamsStructure(name: string, fields: seq<FieldData>)

  /** The field loop reads `Names[0]`, the identifier's `Name` and the tag's
      `Value`: an embedded field is an index out of range, a type that is
      not an identifier and a missing tag are nil dereferences. */
  predicate Malformed(raw: RawField) {
    |raw.names| == 0 || raw.typeName.None? || raw.tag.None?
  }

  /** The field main derives from a raw field, None for a panic. Only the
      first declared name is used. */
  function Derive(raw: RawField): Option<FieldData> {
    if Malformed(raw) then None
    else
      var name := raw.names[0];
      match Fold(name, raw.typeName.value, ParseState(ToLower(name), "", []), Rules(raw.tag.value))
      case None => None
      case Some(st) => Some(FieldData(name, st.paramName, st.default, raw.typeName.value, st.validators))
  }

  /** A malformed field panics, and of `A, B T` only `A` becomes a field:
      the further names change nothing. */
  lemma DeriveShape(raw: RawField)
    ensures Malformed(raw) ==> Derive(raw).None?
    ensures |raw.names| > 0 ==> Derive(raw) == Derive(raw.(names := [raw.names[0]]))
    ensures Derive(raw).Some? ==> Derive(raw).value.fieldName == raw.names[0]
  {
  }

  /** Without a `paramname` rule the parameter is the lowercased field name;
      without a `default` rule the default is empty. */
  lemma DeriveDefaults(raw: RawField)
    requires Derive(raw).Some?
    ensures !Malformed(raw)
    ensures (forall k :: 0 <= k < |Rules(raw.tag.value)| ==> !SetsParamName(Rules(raw.tag.value)[k])) ==>
              Derive(raw).value.paramName == ToLower(raw.names[0])
    ensures (forall k :: 0 <= k < |Rules(raw.tag.value)| ==> !SetsDefault(Rules(raw.tag.value)[k])) ==>
              Derive(raw).value.default == ""
  {
    var st := ParseState(ToLower(raw.names[0]), "", []);
    FoldParamName(raw.names[0], raw.typeName.value, st, Rules(raw.tag.value));
    FoldDefault(raw.names[0], raw.typeName.value, st, Rules(raw.tag.value));
  }

  /** Some field of the struct panics. */
  predicate AnyPanics(raws: seq<RawField>) {
    exists k :: 0 <= k < |raws| && Derive(raws[k]).None?
  }

  /** `fields` are the raw fields derived one by one, in order. */
  predicate DerivedFrom(raws: seq<RawField>, fields: seq<FieldData>) {
    |fields| == |raws| && forall k :: 0 <= k < |raws| ==> Derive(raws[k]) == Some(fields[k])
  }

  /** The field loop of main for one struct: a fresh Field per raw field,
      its tag parsed, and a copy of it appended. */
  method BuildFields(raws: seq<RawField>) returns (fields: Option<seq<FieldData>>)
    ensures fields.None? <==> AnyPanics(raws)
    ensures fields.Some? ==> DerivedFrom(raws, fields.value)
  {
    var done: seq<FieldData> := [];
    var i := 0;
    while i < |raws|
      invariant 0 <= i <= |raws|
      invariant |done| == i
      invariant forall k :: 0 <= k < i ==> Derive(raws[k]) == Some(done[k])
    {
      var raw := raws[i];
      if |raw.names| == 0 || raw.typeName.None? || raw.tag.None? {
        return None;
      }
      var field := new Field(raw.names[0], raw.typeName.value, ToLower(raw.names[0]));
      var ok := field.ParseApiValidator(raw.tag.value);
      if !ok {
        return None;
      }
      done := done + [field.Data()];
      i := i + 1;
    }
    fields := Some(done);
  }

  /** The structure of a method's parameter type panics: a name the file
      declares no struct for reads the zero StructType, whose nil field list
      is dereferenced; otherwise some field of its struct panics. */
  predicate ParamsPanic(structures: map<string, seq<RawField>>, inType: string) {
    inType !in structures || AnyPanics(structures[inType])
  }

  /** The paramsStructures loop of main: since processedParams is never
      written, one structure per method, duplicates included, in order. */
  method BuildParamsStructures(functions: seq<HttpFunction>, structures: map<string, seq<RawField>>)
    returns (ps: Option<seq<ParamsStructure>>)
    ensures ps.None? <==> exists k :: 0 <= k < |functions| && ParamsPanic(structures, functions[k].inType)
    ensures ps.Some? ==> |ps.value| == |functions|
    ensures ps.Some? ==> forall k :: 0 <= k < |functions| ==>
              functions[k].inType in structures && ps.value[k].name == functions[k].inType
    ensures ps.Some? ==> forall k :: 0 <= k < |functions| ==>
              DerivedFrom(structures[functions[k].inType], ps.value[k].fields)
  {
    var result: seq<ParamsStructure> := [];
    var i := 0;
    while i < |functions|
      invariant 0 <= i <= |functions|
      invariant |result| == i
      invariant forall k :: 0 <= k < i ==> !ParamsPanic(structures, functions[k].inType)
      invariant forall k :: 0 <= k < i ==> functions[k].inType in structures && result[k].name == functions[k].inType
      invariant forall k :: 0 <= k < i ==> DerivedFrom(structures[functions[k].inType], result[k].fields)
    {
      var fun := functions[i];
      if fun.inType !in structures {
        return None;
      }
      var fields := BuildFields(structures[fun.inType]);
      if fields.None? {
        return None;
      }
      result := result + [ParamsStructure(fun.inType, fields.value)];
      i := i + 1;
    }
    ps := Some(result);
  }
}
