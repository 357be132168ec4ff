/** The request logic of hw6_db_explorer: route classification, query
    parameters, the normalisation of column metadata, the validation and
    filling of PUT/POST bodies, the text of the insert and update
    statements, and the projection of result rows into records.

    The database, the HTTP exchange and JSON are not modelled: the metadata
    rows, the decoded body and the scanned cells are inputs. A Go map that
    the code ranges over is given together with its iteration order. */
module DbExplorer {
  import opened Text

  // ---------------------------------------------------------------------
  // Routing

  /** Index of the first '/' of `p` at or after `from`, or |p| if none. */
  function SlashFrom(p: string, from: nat): (j: nat)
    requires from <= |p|
    ensures from <= j <= |p|
    ensures j < |p| ==> p[j] == '/'
    ensures forall k :: from <= k < j ==> p[k] != '/'
    decreases |p| - from
  {
    if from == |p| then from
    else if p[from] == '/' then from
    else SlashFrom(p, from + 1)
  }

  /** tableRegexp, `^\/[^\/]+\/?$`: a slash, a non-empty name without
      slashes, and at most one more slash at the very end. */
  predicate MatchesTable(p: string) {
    |p| >= 2 && p[0] == '/'
    && var j := SlashFrom(p, 1);
       j >= 2 && (j == |p| || j == |p| - 1)
  }

  /** tableWithIdRegexp, `^\/[^\/]+\/.+` (unanchored at the end): a slash, a
      non-empty name without slashes, a slash, then at least one character
      that is not a newline (`.` does not match a newline). */
  predicate MatchesTableWithId(p: string) {
    |p| >= 2 && p[0] == '/'
    && var j := SlashFrom(p, 1);
       j >= 2 && j + 1 < |p| && p[j + 1] != '\n'
  }

  /** The table pattern, stated as the shapes it accepts. */
  lemma TablePatternShape(p: string)
    ensures MatchesTable(p) <==>
      exists name :: name != "" && '/' !in name && (p == "/" + name || p == "/" + name + "/")
  {
    if MatchesTable(p) {
      var j := SlashFrom(p, 1);
      var name := p[1..j];
      assert '/' !in name by {
        forall k | 0 <= k < |name| ensures name[k] != '/' { assert name[k] == p[k + 1]; }
      }
      if j == |p| {
        assert p == "/" + name;
      } else {
        assert p == "/" + name + "/";
      }
    }
    if exists name :: name != "" && '/' !in name && (p == "/" + name || p == "/" + name + "/") {
      var name :| name != "" && '/' !in name && (p == "/" + name || p == "/" + name + "/");
      forall k | 1 <= k <= |name| ensures p[k] != '/' { assert p[k] == name[k - 1]; }
      var j := SlashFrom(p, 1);
      if p == "/" + name + "/" {
        assert p[|name| + 1] == '/';
      }
      assert j == |name| + 1;
    }
  }

  /** The table-with-id pattern, stated as the shapes it accepts. */
  lemma TableWithIdPatternShape(p: string)
    ensures MatchesTableWithId(p) <==>
      exists name, rest :: name != "" && '/' !in name && rest != [] && rest[0] != '\n'
                           && p == "/" + name + "/" + rest
  {
    if MatchesTableWithId(p) {
      var j := SlashFrom(p, 1);
      var name := p[1..j];
      var rest := p[j + 1..];
      assert '/' !in name by {
        forall k | 0 <= k < |name| ensures name[k] != '/' { assert name[k] == p[k + 1]; }
      }
      assert p == "/" + name + "/" + rest;
    }
    if exists name, rest :: name != "" && '/' !in name && rest != [] && rest[0] != '\n'
                            && p == "/" + name + "/" + rest {
      var name, rest :| name != "" && '/' !in name && rest != [] && rest[0] != '\n'
                        && p == "/" + name + "/" + rest;
      forall k | 1 <= k <= |name| ensures p[k] != '/' { assert p[k] == name[k - 1]; }
      var j := SlashFrom(p, 1);
      assert p[|name| + 1] == '/';
      assert j == |name| + 1;
      assert p[j + 1] == rest[0];
    }
  }

  /** The two patterns are disjoint, and neither matches the root. */
  lemma PatternsDisjoint(p: string)
    ensures !(MatchesTable(p) && MatchesTableWithId(p))
    ensures !MatchesTable("/") && !MatchesTableWithId("/")
  {
  }

  /** The handlers take the table as `strings.Split(path, "/")[1]`: on a
      table path that is the name between the slashes. */
  lemma TablePathName(p: string)
    requires MatchesTable(p)
    ensures var parts := Split(p, '/');
      |parts| >= 2 && parts[1] == p[1..SlashFrom(p, 1)]
  {
    var j := SlashFrom(p, 1);
    var name := p[1..j];
    assert '/' !in name by {
      forall k | 0 <= k < |name| ensures name[k] != '/' { assert name[k] == p[k + 1]; }
    }
    assert p == [] + ['/'] + p[1..];
    SplitFirst([], '/', p[1..]);
    if j == |p| {
      assert p[1..] == name;
      SplitNoSeparator(name, '/');
    } else {
      assert p[j..] == ['/'];
      var q := p[1..];
      assert q[..j - 1] == name && q[j - 1..] == p[j..];
      assert q == q[..j - 1] + q[j - 1..];
      assert p[1..] == name + ['/'] + [];
      SplitFirst(name, '/', []);
    }
  }

  /** ... and on a table-with-id path `params[1]` is the table and
      `params[2]` exists: it is the id up to the next slash. */
  lemma TableWithIdPathParts(p: string)
    requires MatchesTableWithId(p)
    ensures var parts := Split(p, '/');
      var j := SlashFrom(p, 1);
      |parts| >= 3 && parts[1] == p[1..j] && parts[2] == Split(p[j + 1..], '/')[0]
  {
    var j := SlashFrom(p, 1);
    var name := p[1..j];
    assert '/' !in name by {
      forall k | 0 <= k < |name| ensures name[k] != '/' { assert name[k] == p[k + 1]; }
    }
    assert p == [] + ['/'] + p[1..];
    SplitFirst([], '/', p[1..]);
    assert p[1..] == name + ['/'] + p[j + 1..];
    SplitFirst(name, '/', p[j + 1..]);
  }

  /** The handler ServeHTTP dispatches to. */
  datatype Route = GetTables | GetRowsFromTable | GetRowFromTable
                 | PutRowToTable | PostRowInTable | DeleteRowFromTable | UnknownMethod

  /** ServeHTTP's switch: the first matching case wins. */
  function RouteOf(httpMethod: string, path: string): (r: Route)
    ensures r == GetTables <==> httpMethod == "GET" && path == "/"
    ensures r == GetRowsFromTable <==> httpMethod == "GET" && MatchesTable(path)
    ensures r == GetRowFromTable <==> httpMethod == "GET" && MatchesTableWithId(path)
    ensures r == PutRowToTable <==> httpMethod == "PUT" && MatchesTable(path)
    ensures r == PostRowInTable <==> httpMethod == "POST" && MatchesTableWithId(path)
    ensures r == DeleteRowFromTable <==> httpMethod == "DELETE" && MatchesTableWithId(path)
    ensures r == UnknownMethod <==>
      !((httpMethod == "GET" && (path == "/" || MatchesTable(path) || MatchesTableWithId(path)))
        || (httpMethod == "PUT" && MatchesTable(path))
        || ((httpMethod == "POST" || httpMethod == "DELETE") && MatchesTableWithId(path)))
  {
    PatternsDisjoint(path);
    if httpMethod == "GET" && path == "/" then GetTables
    else if httpMethod == "GET" && MatchesTable(path) then GetRowsFromTable
    else if httpMethod == "GET" && MatchesTableWithId(path) then GetRowFromTable
    else if httpMethod == "PUT" && MatchesTable(path) then PutRowToTable
    else if httpMethod == "POST" && MatchesTableWithId(path) then PostRowInTable
    else if httpMethod == "DELETE" && MatchesTableWithId(path) then DeleteRowFromTable
    else UnknownMethod
  }

  /** The error text and status of the default case. */
  const UnknownMethodMessage := "unknown method"
  const StatusNotFound := 404

  // ---------------------------------------------------------------------
  // Query parameters

  const DefaultLimit := 5
  const DefaultOffset := 0

  /** A URL query: name -> its values in order. */
  type Query = map<string, seq<string>>

  /** url.Values.Get: the first value, or "" when there is none. */
  function QueryGet(q: Query, param: string): string {
    if param in q && |q[param]| > 0 then q[param][0] else ""
  }

  /** getIntQueryParam: the default for an empty or non-integer value, the
      parsed value otherwise. */
  function GetIntQueryParam(q: Query, param: string, defaultValue: int): (r: int)
    ensures QueryGet(q, param) == "" ==> r == defaultValue
    ensures Atoi(QueryGet(q, param)).None? ==> r == defaultValue
    ensures Atoi(QueryGet(q, param)).Some? ==> r == Atoi(QueryGet(q, param)).value
  {
    var value := QueryGet(q, param);
    if value == "" then defaultValue
    else match Atoi(value)
      case None => defaultValue
      case Some(v) => v
  }

  /** A limit written in decimal is read back; an absent one is 5. */
  lemma LimitParam(q: Query, n: int)
    requires InInt64(n)
    ensures GetIntQueryParam(q["limit" := [Itoa(n)]], "limit", DefaultLimit) == n
    ensures "limit" !in q ==> GetIntQueryParam(q, "limit", DefaultLimit) == 5
    ensures "offset" !in q ==> GetIntQueryParam(q, "offset", DefaultOffset) == 0
  {
    AtoiItoa(n);
  }

  // ---------------------------------------------------------------------
  // Tables and columns

  /** One row of `show columns from T`. */
  datatype ColumnInfo = ColumnInfo(field: string, typ: string, nullable: string, key: string,
                                   default: string, extra: string)

  datatype Column = Column(name: string, colType: string, nullable: bool)

  datatype Table = Table(name: string, idName: string, columns: seq<Column>)

  /** The per-column step of NewDbExplorer. */
  function NormalizeColumn(info: ColumnInfo): (c: Column)
    ensures c.name == info.field
    ensures c.nullable <==> info.nullable == "YES"
    ensures Contains(info.typ, "varchar") || info.typ == "text" ==> c.colType == "string"
    ensures !(Contains(info.typ, "varchar") || info.typ == "text") ==> c.colType == info.typ
  {
    Column(info.field,
           if Contains(info.typ, "varchar") || info.typ == "text" then "string" else info.typ,
           info.nullable == "YES")
  }

  /** The id column of a table: the field of the last "PRI" entry, or ""
      when there is none. */
  function IdOf(infos: seq<ColumnInfo>): string
    decreases |infos|
  {
    if |infos| == 0 then ""
    else if infos[|infos| - 1].key == "PRI" then infos[|infos| - 1].field
    else IdOf(infos[..|infos| - 1])
  }

  /** IdOf is "" without a PRI entry, and otherwise the field of a PRI entry
      that no later PRI entry follows. */
  lemma {:induction false} IdOfLastPri(infos: seq<ColumnInfo>)
    ensures (forall k :: 0 <= k < |infos| ==> infos[k].key != "PRI") ==> IdOf(infos) == ""
    ensures (exists k :: 0 <= k < |infos| && infos[k].key == "PRI") ==>
              exists k :: 0 <= k < |infos| && infos[k].key == "PRI" && IdOf(infos) == infos[k].field
                          && forall l :: k < l < |infos| ==> infos[l].key != "PRI"
    decreases |infos|
  {
    if |infos| > 0 {
      var init := infos[..|infos| - 1];
      IdOfLastPri(init);
      if infos[|infos| - 1].key != "PRI" {
        assert forall k :: 0 <= k < |init| ==> init[k] == infos[k];
        if exists k :: 0 <= k < |infos| && infos[k].key == "PRI" {
          var k :| 0 <= k < |infos| && infos[k].key == "PRI";
          assert init[k].key == "PRI";
        }
      }
    }
  }

  /** The column loop of NewDbExplorer for one table: the columns in the
      order the database lists them, and as id the name of the LAST column
      whose key is "PRI" ("" when there is none). */
  method LoadTable(tableName: string, infos: seq<ColumnInfo>) returns (t: Table)
    ensures t.name == tableName
    ensures |t.columns| == |infos|
    ensures forall k :: 0 <= k < |infos| ==> t.columns[k] == NormalizeColumn(infos[k])
    ensures (forall k :: 0 <= k < |infos| ==> infos[k].key != "PRI") ==> t.idName == ""
    ensures (exists k :: 0 <= k < |infos| && infos[k].key == "PRI") ==>
              exists k :: 0 <= k < |infos| && infos[k].key == "PRI" && t.idName == infos[k].field
                          && forall l :: k < l < |infos| ==> infos[l].key != "PRI"
    ensures t.idName == IdOf(infos)
  {
    var columns: seq<Column> := [];
    var idName := "";
    var i := 0;
    while i < |infos|
      invariant 0 <= i <= |infos|
      invariant |columns| == i
      invariant forall k :: 0 <= k < i ==> columns[k] == NormalizeColumn(infos[k])
      invariant idName == IdOf(infos[..i])
    {
      assert infos[..i + 1][..i] == infos[..i];
      var column := NormalizeColumn(infos[i]);
      if infos[i].key == "PRI" {
        idName := column.name;
      }
      columns := columns + [column];
      i := i + 1;
    }
    assert infos[..|infos|] == infos;
    IdOfLastPri(infos);
    t := Table(tableName, idName, columns);
  }

  /** NewDbExplorer: every listed table, loaded with its columns and its id
      column. */
  method NewDbExplorer(tableNames: seq<string>, columnsOf: map<string, seq<ColumnInfo>>)
    returns (tables: map<string, Table>)
    requires forall k :: 0 <= k < |tableNames| ==> tableNames[k] in columnsOf
    ensures tables.Keys == set k | 0 <= k < |tableNames| :: tableNames[k]
    ensures forall name :: name in tables ==>
              tables[name].name == name && tables[name].idName == IdOf(columnsOf[name])
              && |tables[name].columns| == |columnsOf[name]|
              && forall k :: 0 <= k < |columnsOf[name]| ==>
                   tables[name].columns[k] == NormalizeColumn(columnsOf[name][k])
  {
    tables := map[];
    var i := 0;
    while i < |tableNames|
      invariant 0 <= i <= |tableNames|
      invariant tables.Keys == set k | 0 <= k < i :: tableNames[k]
      invariant forall name :: name in tables ==>
                  tables[name].name == name && tables[name].idName == IdOf(columnsOf[name])
                  && |tables[name].columns| == |columnsOf[name]|
                  && forall k :: 0 <= k < |columnsOf[name]| ==>
                       tables[name].columns[k] == NormalizeColumn(columnsOf[name][k])
    {
      var name := tableNames[i];
      var t := LoadTable(name, columnsOf[name]);
      tables := tables[name := t];
      i := i + 1;
    }
  }

  // ---------------------------------------------------------------------
  // Values

  /** Floating-point numbers are opaque tags: nothing here computes on them. */
  datatype Float = Float(tag: int)
  const ZeroFloat := Float(0)

  /** A dynamically typed value of a request body or a record. */
  datatype Value = VNil | VInt(i: int) | VFloat(f: Float) | VString(s: string) | VBool(b: bool) | VOther

  /** The type switch of parseBody: an int column takes an int64, a float
      column a float64, a string column a string; any other column nothing. */
  predicate TypeMatches(colType: string, v: Value) {
    (colType == "int" && v.VInt?) || (colType == "float" && v.VFloat?)
    || (colType == "string" && v.VString?)
  }

  /** A column accepts a value of its type, and nil when it is nullable. */
  predicate Accepts(c: Column, v: Value) {
    TypeMatches(c.colType, v) || (v == VNil && c.nullable)
  }

  /** Column names are unique within a table. */
  predicate DistinctNames(cols: seq<Column>) {
    forall k, l :: 0 <= k < l < |cols| ==> cols[k].name != cols[l].name
  }

  predicate NamesColumn(cols: seq<Column>, key: string) {
    exists k :: 0 <= k < |cols| && cols[k].name == key
  }

  /** A body entry is rejected when it names a column that does not accept it. */
  predicate Rejected(cols: seq<Column>, key: string, v: Value) {
    exists k :: 0 <= k < |cols| && cols[k].name == key && !Accepts(cols[k], v)
  }

  /** A map's keys, in the order a `range` over it visits them. */
  predicate IsOrderOf<V>(order: seq<string>, m: map<string, V>) {
    (forall k, l :: 0 <= k < l < |order| ==> order[k] != order[l])
    && (forall k :: 0 <= k < |order| ==> order[k] in m)
    && (forall key :: key in m ==> key in order)
  }

  datatype Result<T> = Ok(value: T) | Err(message: string)

  function InvalidTypeMessage(key: string): string {
    "field " + key + " have invalid type"
  }

  /** The body parseBody validates: PUT first deletes the id key. */
  function Remaining(httpMethod: string, t: Table, body: map<string, Value>): map<string, Value> {
    if httpMethod == "PUT" then body - {t.idName} else body
  }

  predicate AllAccepted(cols: seq<Column>, b: map<string, Value>) {
    forall key :: key in b ==> !Rejected(cols, key, b[key])
  }

  /** The kth key in iteration order is the first rejected one. */
  predicate FirstRejectedAt(cols: seq<Column>, order: seq<string>, b: map<string, Value>, k: int) {
    0 <= k < |order| && order[k] in b && Rejected(cols, order[k], b[order[k]])
    && forall l :: 0 <= l < k && order[l] in b ==> !Rejected(cols, order[l], b[order[l]])
  }

  /** Every entry that names a column is kept with its value. */
  predicate KeepsNamed(cols: seq<Column>, b: map<string, Value>, m: map<string, Value>) {
    forall key :: key in b && NamesColumn(cols, key) ==> key in m && m[key] == b[key]
  }

  /** Nothing but the entries that name a column. */
  predicate OnlyNamed(cols: seq<Column>, b: map<string, Value>, m: map<string, Value>) {
    forall key :: key in m ==> key in b && NamesColumn(cols, key)
  }

  /** The value PUT fills in for a column the body does not mention, if any. */
  function FillValue(c: Column): Option<Value> {
    if c.nullable then Some(VNil)
    else if c.colType == "int" then Some(VInt(0))
    else if c.colType == "float" then Some(VFloat(ZeroFloat))
    else if c.colType == "string" then Some(VString(""))
    else None
  }

  /** Every column absent from `b` holds its fill value, or stays absent
      when it has none; nothing but columns is there. */
  predicate FillsMissing(cols: seq<Column>, b: map<string, Value>, m: map<string, Value>) {
    (forall key :: key in m ==> NamesColumn(cols, key))
    && forall k :: 0 <= k < |cols| && cols[k].name !in b ==>
         (FillValue(cols[k]).Some? ==> cols[k].name in m && m[cols[k].name] == FillValue(cols[k]).value)
         && (FillValue(cols[k]).None? ==> cols[k].name !in m)
  }

  /** The column loop of parseBody for one body entry: None when a column of
      that name rejects the value; otherwise the entry is stored when it
      names a column (a nullable column's nil is stored as nil). */
  method ParseField(cols: seq<Column>, key: string, value: Value, parsed: map<string, Value>)
    returns (r: Option<map<string, Value>>)
    ensures r.None? <==> Rejected(cols, key, value)
    ensures r.Some? ==> r.value == if NamesColumn(cols, key) then parsed[key := value] else parsed
  {
    var cur := parsed;
    var j := 0;
    while j < |cols|
      invariant 0 <= j <= |cols|
      invariant forall l :: 0 <= l < j && cols[l].name == key ==> Accepts(cols[l], value)
      invariant cur == if exists l :: 0 <= l < j && cols[l].name == key then parsed[key := value] else parsed
    {
      var col := cols[j];
      if key == col.name {
        if TypeMatches(col.colType, value) {
          cur := cur[key := value];
        } else if value == VNil && col.nullable {
          cur := cur[key := VNil];
        } else {
          assert !Accepts(cols[j], value);
          return None;
        }
      }
      j := j + 1;
    }
    r := Some(cur);
  }

  /** The final loop of parseBody for PUT: each column the parsed body does
      not hold gets its fill value. */
  method FillMissing(cols: seq<Column>, parsed: map<string, Value>) returns (filled: map<string, Value>)
    requires DistinctNames(cols)
    ensures forall key :: key in parsed ==> key in filled && filled[key] == parsed[key]
    ensures forall key :: key in filled ==> key in parsed || NamesColumn(cols, key)
    ensures forall k :: 0 <= k < |cols| && cols[k].name !in parsed ==>
              (FillValue(cols[k]).Some? ==> cols[k].name in filled && filled[cols[k].name] == FillValue(cols[k]).value)
              && (FillValue(cols[k]).None? ==> cols[k].name !in filled)
  {
    filled := parsed;
    var c := 0;
    while c < |cols|
      invariant 0 <= c <= |cols|
      invariant forall key :: key in parsed ==> key in filled && filled[key] == parsed[key]
      invariant forall key :: key in filled ==> key in parsed || exists k :: 0 <= k < c && cols[k].name == key
      invariant forall k :: 0 <= k < c && cols[k].name !in parsed ==>
                  (FillValue(cols[k]).Some? ==> cols[k].name in filled && filled[cols[k].name] == FillValue(cols[k]).value)
                  && (FillValue(cols[k]).None? ==> cols[k].name !in filled)
      invariant forall k :: c <= k < |cols| && cols[k].name !in parsed ==> cols[k].name !in filled
    {
      var col := cols[c];
      if col.name !in filled {
        var fill := FillValue(col);
        if fill.Some? {
          filled := filled[col.name := fill.value];
        }
      }
      c := c + 1;
    }
  }

  /** A body as getBodyFromRequest decodes it into `map[string]interface{}`:
      every JSON number is a float64, so no value is an int64. */
  predicate Decoded(body: map<string, Value>) {
    forall key :: key in body ==> !body[key].VInt?
  }

  /** So a decoded body that gives an int column any non-nil value is
      rejected: ParseBody then answers "field K have invalid type" for the
      first rejected key. */
  lemma DecodedIntRejected(httpMethod: string, t: Table, body: map<string, Value>, key: string)
    requires Decoded(body)
    requires key in Remaining(httpMethod, t, body) && Remaining(httpMethod, t, body)[key] != VNil
    requires exists k :: 0 <= k < |t.columns| && t.columns[k].name == key && t.columns[k].colType == "int"
    ensures !AllAccepted(t.columns, Remaining(httpMethod, t, body))
  {
    var k :| 0 <= k < |t.columns| && t.columns[k].name == key && t.columns[k].colType == "int";
    assert !Accepts(t.columns[k], Remaining(httpMethod, t, body)[key]);
  }

  /** parseBody. `order` is the iteration order of the decoded body. Each
      remaining key that names a column must be accepted by it: the first
      rejected key in iteration order is the error. Keys naming no column are
      dropped; POST fails if the id column is still there; PUT then fills
      every column left out. */
  method ParseBody(httpMethod: string, t: Table, order: seq<string>, body: map<string, Value>)
    returns (r: Result<map<string, Value>>)
    requires IsOrderOf(order, body)
    requires DistinctNames(t.columns)
    ensures var b := Remaining(httpMethod, t, body);
      !AllAccepted(t.columns, b) ==>
        exists k :: FirstRejectedAt(t.columns, order, b, k) && r == Err(InvalidTypeMessage(order[k]))
    ensures var b := Remaining(httpMethod, t, body);
      AllAccepted(t.columns, b) && httpMethod == "POST" && t.idName in b && NamesColumn(t.columns, t.idName) ==>
        r == Err(InvalidTypeMessage(t.idName))
    ensures var b := Remaining(httpMethod, t, body);
      AllAccepted(t.columns, b) && !(httpMethod == "POST" && t.idName in b && NamesColumn(t.columns, t.idName)) ==>
        r.Ok? && KeepsNamed(t.columns, b, r.value)
        && (httpMethod == "PUT" ==> FillsMissing(t.columns, b, r.value))
        && (httpMethod != "PUT" ==> OnlyNamed(t.columns, b, r.value))
  {
    var cols := t.columns;
    var b := body;
    if httpMethod == "PUT" {
      b := b - {t.idName};
    }
    assert b == Remaining(httpMethod, t, body);
    var parsed: map<string, Value> := map[];
    var i := 0;
    while i < |order|
      invariant 0 <= i <= |order|
      invariant forall l :: 0 <= l < i && order[l] in b ==> !Rejected(cols, order[l], b[order[l]])
      invariant forall key :: key in parsed <==> key in order[..i] && key in b && NamesColumn(cols, key)
      invariant forall key :: key in parsed ==> parsed[key] == b[key]
    {
      var key := order[i];
      assert order[..i + 1] == order[..i] + [key];
      if key in b {
        var next := ParseField(cols, key, b[key], parsed);
        if next.None? {
          assert FirstRejectedAt(cols, order, b, i);
          return Err(InvalidTypeMessage(key));
        }
        parsed := next.value;
      }
      i := i + 1;
    }
    assert order[..|order|] == order;
    assert AllAccepted(cols, b) by {
      forall key | key in b ensures !Rejected(cols, key, b[key]) {
        assert key in body;
        var l :| 0 <= l < |order| && order[l] == key;
      }
    }
    if httpMethod == "POST" && t.idName in parsed {
      return Err(InvalidTypeMessage(t.idName));
    }
    if httpMethod == "PUT" {
      parsed := FillMissing(cols, parsed);
    }
    r := Ok(parsed);
  }

  // ---------------------------------------------------------------------
  // SQL text

  /** What `columns += ", `" + key + "`"` builds over the keys. */
  function ColumnsText(keys: seq<string>): string
    decreases |keys|
  {
    if |keys| == 0 then "" else ColumnsText(keys[..|keys| - 1]) + (", `" + keys[|keys| - 1] + "`")
  }

  /** What `placeholders += "?, "` builds, n times. */
  function PlaceholdersText(n: nat): string {
    if n == 0 then "" else PlaceholdersText(n - 1) + "?, "
  }

  /** What `keys += "`" + key + "` = ? ,"` builds over the keys. */
  function AssignmentsText(keys: seq<string>): string
    decreases |keys|
  {
    if |keys| == 0 then "" else AssignmentsText(keys[..|keys| - 1]) + ("`" + keys[|keys| - 1] + "` = ? ,")
  }

  function QuoteName(key: string): string { "`" + key + "`" }

  function Quoted(keys: seq<string>): (r: seq<string>)
    ensures |r| == |keys| && forall k :: 0 <= k < |keys| ==> r[k] == QuoteName(keys[k])
  {
    seq(|keys|, k requires 0 <= k < |keys| => QuoteName(keys[k]))
  }

  function Placeholders(n: nat): (r: seq<string>)
    ensures |r| == n && forall k :: 0 <= k < n ==> r[k] == "?"
  {
    seq(n, k => "?")
  }

  function Assignments(keys: seq<string>): (r: seq<string>)
    ensures |r| == |keys| && forall k :: 0 <= k < |keys| ==> r[k] == QuoteName(keys[k]) + " = ? "
  {
    seq(|keys|, k requires 0 <= k < |keys| => QuoteName(keys[k]) + " = ? ")
  }

  /** `columns[2:]` is the back-quoted keys joined by ", ". */
  lemma {:induction false} ColumnsTextIsJoin(keys: seq<string>)
    requires |keys| >= 1
    ensures |ColumnsText(keys)| >= 2 && ColumnsText(keys)[2..] == Join(Quoted(keys), ", ")
    decreases |keys|
  {
    var n := |keys|;
    var init := keys[..n - 1];
    if n == 1 {
      assert init == [];
      assert ColumnsText(keys) == ", " + QuoteName(keys[0]);
    } else {
      ColumnsTextIsJoin(init);
      JoinSnoc(Quoted(keys), ", ");
      assert Quoted(keys)[..n - 1] == Quoted(init);
      var t := ColumnsText(init);
      assert ColumnsText(keys) == t + (", " + QuoteName(keys[n - 1]));
      assert (t + (", " + QuoteName(keys[n - 1])))[2..] == t[2..] + ", " + QuoteName(keys[n - 1]);
    }
  }

  /** `placeholders[:len(placeholders)-2]` is n question marks joined by ", ". */
  lemma {:induction false} PlaceholdersTextIsJoin(n: nat)
    requires n >= 1
    ensures |PlaceholdersText(n)| >= 2
    ensures PlaceholdersText(n)[..|PlaceholdersText(n)| - 2] == Join(Placeholders(n), ", ")
    decreases n
  {
    if n == 1 {
      assert PlaceholdersText(1) == "?, ";
    } else {
      PlaceholdersTextIsJoin(n - 1);
      JoinSnoc(Placeholders(n), ", ");
      assert Placeholders(n)[..n - 1] == Placeholders(n - 1);
      var t := PlaceholdersText(n - 1);
      assert (t + "?, ")[..|t| + 1] == t[..|t| - 2] + ", " + "?";
    }
  }

  /** `keys[:len(keys)-1]` is the assignments joined by ",". */
  lemma {:induction false} AssignmentsTextIsJoin(keys: seq<string>)
    requires |keys| >= 1
    ensures |AssignmentsText(keys)| >= 1
    ensures AssignmentsText(keys)[..|AssignmentsText(keys)| - 1] == Join(Assignments(keys), ",")
    decreases |keys|
  {
    var n := |keys|;
    var init := keys[..n - 1];
    var last := QuoteName(keys[n - 1]) + " = ? ";
    assert "`" + keys[n - 1] + "` = ? ," == last + ",";
    if n == 1 {
      assert init == [];
      assert AssignmentsText(keys) == last + ",";
    } else {
      AssignmentsTextIsJoin(init);
      JoinSnoc(Assignments(keys), ",");
      assert Assignments(keys)[..n - 1] == Assignments(init);
      var t := AssignmentsText(init);
      assert AssignmentsText(keys) == t + (last + ",");
      assert (t + (last + ","))[..|t| + |last|] == t[..|t| - 1] + "," + last;
    }
  }

  /** The insert statement of putRowToTable. A body with no keys makes the
      reslicing `columns[2:]` panic: None. Otherwise the kth back-quoted
      column, the kth `?` and the kth value all belong to the kth key. */
  method BuildInsert(table: string, order: seq<string>, body: map<string, Value>)
    returns (r: Option<(string, seq<Value>)>)
    requires IsOrderOf(order, body)
    ensures r.None? <==> |order| == 0
    ensures r.Some? ==>
      && r.value.0 == "insert into " + table + " (" + Join(Quoted(order), ", ") + ") values ("
                      + Join(Placeholders(|order|), ", ") + ")"
      && |r.value.1| == |order|
      && forall k :: 0 <= k < |order| ==> r.value.1[k] == body[order[k]]
  {
    var columns, placeholders, values := InsertParts(order, body);
    if |order| == 0 {
      return None;
    }
    ColumnsTextIsJoin(order);
    PlaceholdersTextIsJoin(|order|);
    columns := columns[2..];
    placeholders := placeholders[..|placeholders| - 2];
    assert columns == Join(Quoted(order), ", ") && placeholders == Join(Placeholders(|order|), ", ");
    r := Some(("insert into " + table + " (" + columns + ") values (" + placeholders + ")", values));
  }

  /** The loop of putRowToTable: one ", `k`" and one "?, " per key, and
      the values in key order. */
  method InsertParts(order: seq<string>, body: map<string, Value>)
    returns (columns: string, placeholders: string, values: seq<Value>)
    requires IsOrderOf(order, body)
    ensures columns == ColumnsText(order) && placeholders == PlaceholdersText(|order|)
    ensures |values| == |order| && forall k :: 0 <= k < |order| ==> values[k] == body[order[k]]
  {
    columns := "";
    values := [];
    placeholders := "";
    var i := 0;
    while i < |order|
      invariant 0 <= i <= |order|
      invariant columns == ColumnsText(order[..i])
      invariant placeholders == PlaceholdersText(i)
      invariant |values| == i && forall k :: 0 <= k < i ==> values[k] == body[order[k]]
    {
      var key := order[i];
      assert order[..i + 1][..i] == order[..i];
      columns := columns + (", `" + key + "`");
      values := values + [body[key]];
      placeholders := placeholders + "?, ";
      i := i + 1;
    }
    assert order[..|order|] == order;
  }

  /** The update statement of postRowInTable: one "`k` = ? " per key, comma
      separated, then `where <id column> = <id>`. An empty body makes
      `keys[:len(keys)-1]` panic: None. */
  method BuildUpdate(table: string, idName: string, id: string, order: seq<string>, body: map<string, Value>)
    returns (r: Option<(string, seq<Value>)>)
    requires IsOrderOf(order, body)
    ensures r.None? <==> |order| == 0
    ensures r.Some? ==>
      && r.value.0 == "update " + table + " set " + Join(Assignments(order), ",") + "where " + idName + " = " + id
      && |r.value.1| == |order|
      && forall k :: 0 <= k < |order| ==> r.value.1[k] == body[order[k]]
  {
    var keys, values := UpdateParts(order, body);
    if |order| == 0 {
      return None;
    }
    AssignmentsTextIsJoin(order);
    keys := keys[..|keys| - 1];
    assert keys == Join(Assignments(order), ",");
    r := Some(("update " + table + " set " + keys + "where " + idName + " = " + id, values));
  }

  /** The loop of postRowInTable: one "`k` = ? ," per key, and the values
      in key order. */
  method UpdateParts(order: seq<string>, body: map<string, Value>)
    returns (keys: string, values: seq<Value>)
    requires IsOrderOf(order, body)
    ensures keys == AssignmentsText(order)
    ensures |values| == |order| && forall k :: 0 <= k < |order| ==> values[k] == body[order[k]]
  {
    keys := "";
    values := [];
    var i := 0;
    while i < |order|
      invariant 0 <= i <= |order|
      invariant keys == AssignmentsText(order[..i])
      invariant |values| == i && forall k :: 0 <= k < i ==> values[k] == body[order[k]]
    {
      var key := order[i];
      assert order[..i + 1][..i] == order[..i];
      keys := keys + ("`" + key + "` = ? ,");
      values := values + [body[key]];
      i := i + 1;
    }
    assert order[..|order|] == order;
  }

  /** The insert statement has as many `?` as values. */
  lemma {:induction false} PlaceholderCount(n: nat)
    requires n >= 1
    ensures Count(Join(Placeholders(n), ", "), '?') == n
    decreases n
  {
    if n == 1 {
      assert Join(Placeholders(1), ", ") == "?";
      assert Count("?", '?') == 1 + Count("", '?');
    } else {
      PlaceholderCount(n - 1);
      assert Placeholders(n)[1..] == Placeholders(n - 1);
      var rest := Join(Placeholders(n - 1), ", ");
      assert Join(Placeholders(n), ", ") == "?, " + rest;
      CountAppend("?, ", rest, '?');
      assert ("?, ")[1..] == ", " && (", ")[1..] == " " && (" ")[1..] == "";
      assert Count("?, ", '?') == 1;
    }
  }

  // Rows

  /** A scanned cell: nil, an int64, a float64, raw bytes, or anything else. */
  datatype Cell = CNil | CInt(i: int) | CFloat(f: Float) | CBytes(s: string) | COther

  /** What readColumns stores for a cell: None when the type assertion of
      its column panics, and Some(None) when the column type is none of
      int/float/string so that nothing is stored. */
  function CellValue(c: Column, cell: Cell): Option<Option<Value>> {
    if cell == CNil then Some(Some(VNil))
    else if c.colType == "int" then (if cell.CInt? then Some(Some(VInt(cell.i))) else None)
    else if c.colType == "float" then (if cell.CFloat? then Some(Some(VFloat(cell.f))) else None)
    else if c.colType == "string" then (if cell.CBytes? then Some(Some(VString(cell.s))) else None)
    else Some(None)
  }

  /** Some cell of the row fails its column's type assertion. */
  predicate Panics(cols: seq<Column>, row: seq<Cell>)
    requires |row| == |cols|
  {
    exists k :: 0 <= k < |row| && CellValue(cols[k], row[k]).None?
  }

  /** `m` is the record of `row`: each stored cell under its column's name,
      nothing for a column of another type, and no other key. */
  predicate RecordOf(cols: seq<Column>, row: seq<Cell>, m: map<string, Value>)
    requires |row| == |cols|
  {
    (forall key :: key in m ==> NamesColumn(cols, key))
    && forall k :: 0 <= k < |row| ==>
         (CellValue(cols[k], row[k]) == Some(None) ==> cols[k].name !in m)
         && (CellValue(cols[k], row[k]).Some? && CellValue(cols[k], row[k]).value.Some? ==>
               cols[k].name in m && m[cols[k].name] == CellValue(cols[k], row[k]).value.value)
  }

  /** A row has at most one record. */
  lemma RecordOfUnique(cols: seq<Column>, row: seq<Cell>, m1: map<string, Value>, m2: map<string, Value>)
    requires |row| == |cols| && !Panics(cols, row)
    requires RecordOf(cols, row, m1) && RecordOf(cols, row, m2)
    ensures m1 == m2
  {
    forall key | key in m1 ensures key in m2 && m2[key] == m1[key] {
      var k :| 0 <= k < |cols| && cols[k].name == key;
    }
    forall key | key in m2 ensures key in m1 {
      var k :| 0 <= k < |cols| && cols[k].name == key;
    }
  }

  /** readColumns: the record of the row, None for the panic of a failed
      type assertion. */
  method ReadColumns(cols: seq<Column>, row: seq<Cell>) returns (r: Option<map<string, Value>>)
    requires |row| == |cols|
    requires DistinctNames(cols)
    ensures r.None? <==> Panics(cols, row)
    ensures r.Some? ==> RecordOf(cols, row, r.value)
    ensures r.Some? ==> forall k :: 0 <= k < |row| && row[k] == CNil ==> r.value[cols[k].name] == VNil
  {
    var m: map<string, Value> := map[];
    var i := 0;
    while i < |row|
      invariant 0 <= i <= |row|
      invariant forall k :: 0 <= k < i ==> CellValue(cols[k], row[k]).Some?
      invariant forall k :: 0 <= k < i ==>
                  (CellValue(cols[k], row[k]) == Some(None) ==> cols[k].name !in m)
                  && (CellValue(cols[k], row[k]).Some? && CellValue(cols[k], row[k]).value.Some? ==>
                        cols[k].name in m && m[cols[k].name] == CellValue(cols[k], row[k]).value.value)
      invariant forall key :: key in m ==> exists k :: 0 <= k < i && cols[k].name == key
    {
      var cv := CellValue(cols[i], row[i]);
      if cv.None? {
        return None;
      }
      if cv.value.Some? {
        m := m[cols[i].name := cv.value.value];
      }
      i := i + 1;
    }
    r := Some(m);
  }

  /** What getRowsData returns: nil, one record, or all records. */
  datatype RowsData = NoRows | OneRow(record: map<string, Value>) | AllRows(records: seq<map<string, Value>>)

  /** getRowsData: every row is read (a panic on any of them is a panic);
      then nil when there are no rows, only the first record when `onlyOne`
      is set, and otherwise all records in row order. */
  method GetRowsData(cols: seq<Column>, rows: seq<seq<Cell>>, onlyOne: bool) returns (r: Option<RowsData>)
    requires forall k :: 0 <= k < |rows| ==> |rows[k]| == |cols|
    requires DistinctNames(cols)
    ensures r.None? <==> exists j :: 0 <= j < |rows| && Panics(cols, rows[j])
    ensures |rows| == 0 ==> r == Some(NoRows)
    ensures r.Some? && |rows| > 0 && onlyOne ==> r.value.OneRow? && RecordOf(cols, rows[0], r.value.record)
    ensures r.Some? && |rows| > 0 && !onlyOne ==>
              r.value.AllRows? && |r.value.records| == |rows|
              && forall j :: 0 <= j < |rows| ==> RecordOf(cols, rows[j], r.value.records[j])
  {
    var result: seq<map<string, Value>> := [];
    var i := 0;
    while i < |rows|
      invariant 0 <= i <= |rows|
      invariant |result| == i
      invariant forall j :: 0 <= j < i ==> !Panics(cols, rows[j]) && RecordOf(cols, rows[j], result[j])
    {
      var rec := ReadColumns(cols, rows[i]);
      if rec.None? {
        return None;
      }
      result := result + [rec.value];
      i := i + 1;
    }
    if |result| == 0 {
      return Some(NoRows);
    }
    if onlyOne {
      return Some(OneRow(result[0]));
    }
    r := Some(AllRows(result));
  }
}
