/** hw8: i2s fills a typed Go value from the dynamic value a JSON decoder
    produces (maps, lists, strings, float64 numbers, booleans).

    Reflection becomes a kind descriptor for the target and a value that
    conforms to it; the pointer passed as `out` is a cell whose value the
    converter overwrites. */
module I2S {
  import opened Text

  /** The reflect.Kind of a target, with what the converter needs of it. */
  datatype Kind =
    | Struct(fields: seq<Field>)
    | Slice(elem: Kind)
    | Str
    | Int
    | Bool
    | Other(kindName: string)   // any other kind, by its reflect name

  datatype Field = Field(name: string, kind: Kind)

  /** The dynamic input. A float64 is represented by its value, which the
      model takes to be integral. */
  datatype Dyn =
    | DMap(entries: map<string, Dyn>)
    | DList(items: seq<Dyn>)
    | DString(s: string)
    | DFloat(value: int)
    | DBool(b: bool)
    | DNil

  /** A typed Go value. VOpaque stands for a value of a kind the converter
      rejects. */
  datatype Val =
    | VStruct(values: seq<Val>)
    | VSlice(items: seq<Val>)
    | VString(s: string)
    | VInt(i: int)
    | VBool(b: bool)
    | VOpaque

  /** v is a value of kind k. */
  predicate Conforms(v: Val, k: Kind)
    decreases k
  {
    match k
    case Struct(fs) =>
      v.VStruct? && |v.values| == |fs| && forall j :: 0 <= j < |fs| ==> Conforms(v.values[j], fs[j].kind)
    case Slice(e) => v.VSlice? && forall j :: 0 <= j < |v.items| ==> Conforms(v.items[j], e)
    case Str => v.VString?
    case Int => v.VInt?
    case Bool => v.VBool?
    case Other(_) => v.VOpaque?
  }

  /** reflect.New(t).Elem(): the zero value of a kind. */
  function Zero(k: Kind): (v: Val)
    ensures Conforms(v, k)
    decreases k
  {
    match k
    case Struct(fs) => VStruct(seq(|fs|, j requires 0 <= j < |fs| => Zero(fs[j].kind)))
    case Slice(_) => VSlice([])
    case Str => VString("")
    case Int => VInt(0)
    case Bool => VBool(false)
    case Other(_) => VOpaque
  }

  /** The value left in the target and the error returned. */
  datatype Outcome = Outcome(val: Val, err: Option<string>)

  /** i2s on a target of kind k holding cur. */
  function Convert(data: Dyn, k: Kind, cur: Val): (r: Outcome)
    requires Conforms(cur, k)
    ensures Conforms(r.val, k)
    decreases k, 1
  {
    match k
    case Struct(fs) =>
      if !data.DMap? then Outcome(cur, Some("expected map"))
      else StructFrom(data.entries, k, cur.values, 0)
    case Slice(e) =>
      if !data.DList? then Outcome(cur, Some("expected slice"))
      else SliceFrom(data.items, k, cur.items, 0)
    case Str =>
      if data.DString? then Outcome(VString(data.s), None) else Outcome(cur, Some("expected string value"))
    case Int =>
      if data.DFloat? then Outcome(VInt(data.value), None) else Outcome(cur, Some("expected float64 value"))
    case Bool =>
      if data.DBool? then Outcome(VBool(data.b), None) else Outcome(cur, Some("expected bool value"))
    case Other(name) => Outcome(cur, Some("usuppported type: " + name))
  }

  /** Values that fit the fields of a struct kind. */
  predicate FieldValues(vals: seq<Val>, k: Kind)
    requires k.Struct?
  {
    |vals| == |k.fields| && forall j :: 0 <= j < |vals| ==> Conforms(vals[j], k.fields[j].kind)
  }

  /** The field loop from field i on: each field is written before its
      error is looked at. */
  function StructFrom(m: map<string, Dyn>, k: Kind, vals: seq<Val>, i: nat): (r: Outcome)
    requires k.Struct? && FieldValues(vals, k) && i <= |vals|
    ensures Conforms(r.val, k)
    decreases k, 0, |vals| - i
  {
    if i == |vals| then Outcome(VStruct(vals), None)
    else
      var f := k.fields[i];
      if f.name !in m then Outcome(VStruct(vals), Some("field not found: " + f.name))
      else
        var fr := Convert(m[f.name], f.kind, vals[i]);
        if fr.err.Some? then
          Outcome(VStruct(vals[i := fr.val]), Some("failed to process struct field " + f.name + ": " + fr.err.value))
        else StructFrom(m, k, vals[i := fr.val], i + 1)
  }

  /** The element loop from element i on: each element is converted into a
      fresh zero value and appended on success. */
  function SliceFrom(items: seq<Dyn>, k: Kind, acc: seq<Val>, i: nat): (r: Outcome)
    requires k.Slice? && i <= |items| && forall j :: 0 <= j < |acc| ==> Conforms(acc[j], k.elem)
    ensures Conforms(r.val, k)
    decreases k, 0, |items| - i
  {
    if i == |items| then Outcome(VSlice(acc), None)
    else
      var er := Convert(items[i], k.elem, Zero(k.elem));
      if er.err.Some? then Outcome(VSlice(acc), Some("failed to convert slice element: " + er.err.value))
      else SliceFrom(items, k, acc + [er.val], i + 1)
  }

  // ---------------------------------------------------------------------
  // The converter as written: loops that overwrite the target

  /** The pointer passed as `out`. */
  class Cell {
    const kind: Kind
    var value: Val

    constructor (k: Kind, v: Val)
      requires Conforms(v, k)
      ensures kind == k && value == v
    {
      kind := k;
      value := v;
    }
  }

  /** What the caller passes as `out`: a pointer, or a value of some kind. */
  datatype Out = Pointer(cell: Cell) | NotPointer(kind: Kind)

  method I2s(data: Dyn, out: Out) returns (err: Option<string>)
    requires out.Pointer? ==> Conforms(out.cell.value, out.cell.kind)
    modifies if out.Pointer? then {out.cell} else {}
    ensures out.NotPointer? ==> err == Some("out should be a pointer")
    ensures out.Pointer? ==>
      var r := Convert(data, out.cell.kind, old(out.cell.value));
      out.cell.value == r.val && err == r.err
    ensures out.Pointer? ==> Conforms(out.cell.value, out.cell.kind)
  {
    if out.NotPointer? {
      return Some("out should be a pointer");
    }
    var r := ConvertInto(data, out.cell.kind, out.cell.value);
    out.cell.value := r.val;
    err := r.err;
  }

  /** The recursive dispatch on kind, with the field loop and the element
      loop. */
  method ConvertInto(data: Dyn, k: Kind, cur: Val) returns (r: Outcome)
    requires Conforms(cur, k)
    ensures r == Convert(data, k, cur)
    decreases k
  {
    match k {
      case Struct(fs) =>
        if !data.DMap? {
          return Outcome(cur, Some("expected map"));
        }
        var m := data.entries;
        var vals := cur.values;
        var i := 0;
        while i < |fs|
          invariant 0 <= i <= |fs| && FieldValues(vals, k)
          invariant StructFrom(m, k, vals, i) == Convert(data, k, cur)
        {
          var name := fs[i].name;
          if name !in m {
            return Outcome(VStruct(vals), Some("field not found: " + name));
          }
          var fr := ConvertInto(m[name], fs[i].kind, vals[i]);
          vals := vals[i := fr.val];
          if fr.err.Some? {
            return Outcome(VStruct(vals), Some("failed to process struct field " + name + ": " + fr.err.value));
          }
          i := i + 1;
        }
        return Outcome(VStruct(vals), None);
      case Slice(e) =>
        if !data.DList? {
          return Outcome(cur, Some("expected slice"));
        }
        var d := data.items;
        var items := cur.items;
        var i := 0;
        while i < |d|
          invariant 0 <= i <= |d| && forall j :: 0 <= j < |items| ==> Conforms(items[j], e)
          invariant SliceFrom(d, k, items, i) == Convert(data, k, cur)
        {
          var o := Zero(e);
          var er := ConvertInto(d[i], e, o);
          if er.err.Some? {
            return Outcome(VSlice(items), Some("failed to convert slice element: " + er.err.value));
          }
          items := items + [er.val];
          i := i + 1;
        }
        return Outcome(VSlice(items), None);
      case Str =>
        if !data.DString? {
          return Outcome(cur, Some("expected string value"));
        }
        return Outcome(VString(data.s), None);
      case Int =>
        if !data.DFloat? {
          return Outcome(cur, Some("expected float64 value"));
        }
        return Outcome(VInt(data.value), None);
      case Bool =>
        if !data.DBool? {
          return Outcome(cur, Some("expected bool value"));
        }
        return Outcome(VBool(data.b), None);
      case Other(name) =>
        return Outcome(cur, Some("usuppported type: " + name));
    }
  }

  // ---------------------------------------------------------------------
  // Properties

  /** A wrong dynamic type leaves the target as it was. */
  lemma MismatchKeepsTarget(data: Dyn, k: Kind, cur: Val)
    requires Conforms(cur, k)
    requires (k.Struct? && !data.DMap?) || (k.Slice? && !data.DList?) || (k.Str? && !data.DString?)
          || (k.Int? && !data.DFloat?) || (k.Bool? && !data.DBool?) || k.Other?
    ensures Convert(data, k, cur).val == cur && Convert(data, k, cur).err.Some?
  {
  }

  /** Strings, numbers and booleans of the right type are set verbatim,
      whatever the target held. */
  lemma ScalarsVerbatim(s: string, n: int, b: bool, cs: Val, ci: Val, cb: Val)
    requires cs.VString? && ci.VInt? && cb.VBool?
    ensures Convert(DString(s), Str, cs) == Outcome(VString(s), None)
    ensures Convert(DFloat(n), Int, ci) == Outcome(VInt(n), None)
    ensures Convert(DBool(b), Bool, cb) == Outcome(VBool(b), None)
  {
  }

  /** Field j was taken from the map and converted without error. */
  predicate Written(m: map<string, Dyn>, k: Kind, vals: seq<Val>, res: seq<Val>, j: int)
    requires k.Struct? && FieldValues(vals, k) && |res| == |vals| && 0 <= j < |vals|
  {
    k.fields[j].name in m
    && Convert(m[k.fields[j].name], k.fields[j].kind, vals[j]).err.None?
    && res[j] == Convert(m[k.fields[j].name], k.fields[j].kind, vals[j]).val
  }

  /** The field loop in declaration order: on success every field from i on
      is written; on failure at field e, the fields before e are written,
      field e holds whatever its own conversion left, and the later fields
      are untouched. */
  lemma {:induction false} StructWrites(m: map<string, Dyn>, k: Kind, vals: seq<Val>, i: nat)
    requires k.Struct? && FieldValues(vals, k) && i <= |vals|
    ensures var r := StructFrom(m, k, vals, i);
      r.val.VStruct? && |r.val.values| == |vals|
      && (forall j :: 0 <= j < i ==> r.val.values[j] == vals[j])
      && (r.err.None? ==> forall j :: i <= j < |vals| ==> Written(m, k, vals, r.val.values, j))
      && (r.err.Some? ==> exists e :: i <= e < |vals| && FailedAt(m, k, vals, r, i, e))
    decreases |vals| - i
  {
    var r := StructFrom(m, k, vals, i);
    if i < |vals| {
      var f := k.fields[i];
      if f.name in m {
        var fr := Convert(m[f.name], f.kind, vals[i]);
        var next := vals[i := fr.val];
        if fr.err.None? {
          StructWrites(m, k, next, i + 1);
          assert r == StructFrom(m, k, next, i + 1);
          assert Written(m, k, vals, r.val.values, i);
          WrittenLater(m, k, vals, next, r.val.values, i);
          if r.err.Some? {
            var e :| i + 1 <= e < |vals| && FailedAt(m, k, next, r, i + 1, e);
            FailedEarlier(m, k, vals, next, r, i, e);
          }
        } else {
          assert FailedAt(m, k, vals, r, i, i);
        }
      } else {
        assert FailedAt(m, k, vals, r, i, i);
      }
    }
  }

  /** Writing field i changes nothing about the later fields. */
  lemma WrittenLater(m: map<string, Dyn>, k: Kind, vals: seq<Val>, next: seq<Val>, res: seq<Val>, i: int)
    requires k.Struct? && FieldValues(vals, k) && FieldValues(next, k) && |res| == |vals| && 0 <= i < |vals|
    requires forall j :: 0 <= j < |vals| && j != i ==> next[j] == vals[j]
    ensures forall j :: i < j < |vals| ==> (Written(m, k, next, res, j) <==> Written(m, k, vals, res, j))
  {
  }

  lemma FailedEarlier(m: map<string, Dyn>, k: Kind, vals: seq<Val>, next: seq<Val>, r: Outcome, i: int, e: int)
    requires k.Struct? && FieldValues(vals, k) && FieldValues(next, k) && 0 <= i < e < |vals|
    requires forall j :: 0 <= j < |vals| && j != i ==> next[j] == vals[j]
    requires r.val.VStruct? && |r.val.values| == |vals|
    requires Written(m, k, vals, r.val.values, i)
    requires FailedAt(m, k, next, r, i + 1, e)
    ensures FailedAt(m, k, vals, r, i, e)
  {
    WrittenLater(m, k, vals, next, r.val.values, i);
    assert next[e] == vals[e];
  }

  /** The loop from field i stopped at field e with the error it reports. */
  predicate FailedAt(m: map<string, Dyn>, k: Kind, vals: seq<Val>, r: Outcome, i: int, e: int)
    requires k.Struct? && FieldValues(vals, k) && 0 <= i <= e < |vals|
    requires r.val.VStruct? && |r.val.values| == |vals|
  {
    var f := k.fields[e];
    (forall j :: i <= j < e ==> Written(m, k, vals, r.val.values, j))
    && (forall j :: e < j < |vals| ==> r.val.values[j] == vals[j])
    && if f.name !in m then
         r.val.values[e] == vals[e] && r.err == Some("field not found: " + f.name)
       else
         var fr := Convert(m[f.name], f.kind, vals[e]);
         fr.err.Some? && r.val.values[e] == fr.val
         && r.err == Some("failed to process struct field " + f.name + ": " + fr.err.value)
  }

  /** Map keys that name no field play no part. */
  lemma {:induction false} ExtraKeysIgnored(m: map<string, Dyn>, m': map<string, Dyn>, k: Kind, vals: seq<Val>, i: nat)
    requires k.Struct? && FieldValues(vals, k) && i <= |vals|
    requires forall j :: 0 <= j < |vals| ==> (k.fields[j].name in m <==> k.fields[j].name in m')
    requires forall j :: 0 <= j < |vals| && k.fields[j].name in m ==> m[k.fields[j].name] == m'[k.fields[j].name]
    ensures StructFrom(m, k, vals, i) == StructFrom(m', k, vals, i)
    decreases |vals| - i
  {
    if i < |vals| {
      var f := k.fields[i];
      if f.name in m {
        var fr := Convert(m[f.name], f.kind, vals[i]);
        ExtraKeysIgnored(m, m', k, vals[i := fr.val], i + 1);
      }
    }
  }

  /** A successful conversion requires every field name among the keys. */
  lemma AllFieldsFound(m: map<string, Dyn>, k: Kind, cur: Val)
    requires k.Struct? && Conforms(cur, k)
    requires Convert(DMap(m), k, cur).err.None?
    ensures forall j :: 0 <= j < |k.fields| ==> k.fields[j].name in m
  {
    StructWrites(m, k, cur.values, 0);
    forall j | 0 <= j < |k.fields| ensures k.fields[j].name in m {
      assert Written(m, k, cur.values, Convert(DMap(m), k, cur).val.values, j);
    }
  }

  /** The element loop from element i on: the result is acc followed by
      the converted elements, up to the first that fails. */
  lemma {:induction false} SliceAppends(items: seq<Dyn>, k: Kind, acc: seq<Val>, i: nat)
    requires k.Slice? && i <= |items| && forall j :: 0 <= j < |acc| ==> Conforms(acc[j], k.elem)
    ensures var r := SliceFrom(items, k, acc, i);
      r.val.VSlice? && |acc| <= |r.val.items| <= |acc| + |items| - i
      && r.val.items[..|acc|] == acc
      && (forall j :: |acc| <= j < |r.val.items| ==>
            Converted(items, k.elem, i + j - |acc|, r.val.items[j]))
      && (r.err.None? <==> |r.val.items| == |acc| + |items| - i)
    decreases |items| - i
  {
    if i < |items| {
      var er := Convert(items[i], k.elem, Zero(k.elem));
      if er.err.None? {
        SliceAppends(items, k, acc + [er.val], i + 1);
        var r := SliceFrom(items, k, acc, i);
        assert r.val.items[..|acc| + 1][..|acc|] == r.val.items[..|acc|];
        forall j | |acc| <= j < |r.val.items| ensures Converted(items, k.elem, i + j - |acc|, r.val.items[j]) {
          if j == |acc| {
            assert r.val.items[j] == (acc + [er.val])[j];
          }
        }
      }
    }
  }

  /** items[n] converted into a fresh zero value without error, giving v. */
  predicate Converted(items: seq<Dyn>, e: Kind, n: int, v: Val) {
    0 <= n < |items| && Convert(items[n], e, Zero(e)) == Outcome(v, None)
  }

  /** So a converted slice keeps the target's elements and appends one value
      per list element, in order. */
  lemma SliceResult(d: seq<Dyn>, e: Kind, cur: Val)
    requires Conforms(cur, Slice(e))
    requires Convert(DList(d), Slice(e), cur).err.None?
    ensures var out := Convert(DList(d), Slice(e), cur).val.items;
      |out| == |cur.items| + |d| && out[..|cur.items|] == cur.items
      && forall j :: |cur.items| <= j < |out| ==> Converted(d, e, j - |cur.items|, out[j])
  {
    SliceAppends(d, Slice(e), cur.items, 0);
  }
}
