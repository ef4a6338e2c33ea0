// The warehouse behind MySqlDbConnector (connectors.py), held in memory: a map
// from table name to the table's columns and rows. The pure functions below say
// what each connector operation does to that map; the class MySqlDb performs the
// operations in the order the connector does and is proved against them.

module Database {
  import opened Results
  import opened Json
  import Sql

  /** One table row: column name to stored value; a column never written holds NULL. */
  type Row = map<string, Value>

  /** A table: its columns in declaration order, its rows in insertion order, and for
      the `sensitive_*` tables an AUTO_INCREMENT `id` with the next id to hand out. */
  datatype Table = Table(columns: seq<string>, rows: seq<Row>, autoId: bool, nextId: nat)

  type Tables = map<string, Table>

  const IdColumn := "id"
  const UpdatedAtColumn := "last_updated_at"

  /** What `fetch_records` returns: column names and one value tuple per row. */
  datatype Fetched = Fetched(columns: seq<string>, rows: seq<seq<Value>>)

  /** What `insert_record` does with one record: inserts it, skips it as already
      present (returns False), or raises. */
  datatype InsertOutcome = Inserted | Skipped | Failed(msg: string)

  /** What `get_or_create_mask_id` does: refuses a non-root user (returns None),
      returns the mask id, or raises. */
  datatype MaskOutcome = Denied | Assigned(id: Value) | MaskFailed(msg: string)

  predicate HasColumns(row: Row, columns: seq<string>)
  {
    forall c :: c in columns ==> c in row
  }

  /** AUTO_INCREMENT PRIMARY KEY: every row has an integer id below the counter, and
      no two rows share one. */
  predicate AutoIds(rows: seq<Row>, nextId: nat)
  {
    (forall k :: 0 <= k < |rows| ==>
       IdColumn in rows[k] && rows[k][IdColumn].Int? && 1 <= rows[k][IdColumn].i < nextId) &&
    (forall a, b :: 0 <= a < b < |rows| && IdColumn in rows[a] && IdColumn in rows[b] ==>
       rows[a][IdColumn] != rows[b][IdColumn])
  }

  predicate TableValid(t: Table)
  {
    (forall k :: 0 <= k < |t.rows| ==> HasColumns(t.rows[k], t.columns)) &&
    (t.autoId ==> IdColumn in t.columns && t.nextId >= 1 && AutoIds(t.rows, t.nextId))
  }

  predicate DbValid(db: Tables)
  {
    forall name :: name in db ==> TableValid(db[name])
  }

  /** `db2` is `db` after inserts only: same tables and columns, old rows kept in place. */
  predicate Extends(db: Tables, db2: Tables)
  {
    db2.Keys == db.Keys &&
    forall name :: name in db ==>
      db2[name].columns == db[name].columns && db2[name].autoId == db[name].autoId &&
      db[name].rows <= db2[name].rows
  }

  lemma ExtendsTrans(db1: Tables, db2: Tables, db3: Tables)
    requires Extends(db1, db2) && Extends(db2, db3)
    ensures Extends(db1, db3)
  {
  }

  /** The WHERE clause's meaning: every constraint column holds the constraint value. */
  predicate Matches(row: Row, c: Record)
  {
    forall k :: 0 <= k < |c| ==> c[k].0 in row && row[c[k].0] == c[k].1
  }

  /** Position of the first row matching `c`, or `|rows|`. */
  function FirstMatch(rows: seq<Row>, c: Record): (i: nat)
    ensures i <= |rows|
    ensures i < |rows| ==> Matches(rows[i], c)
    ensures forall j :: 0 <= j < i ==> !Matches(rows[j], c)
  {
    if rows == [] then 0
    else if Matches(rows[0], c) then 0
    else 1 + FirstMatch(rows[1..], c)
  }

  /** The rows a SELECT with constraints `c` returns, in table order. */
  function Select(rows: seq<Row>, c: Record): (sel: seq<Row>)
    ensures |sel| <= |rows|
    ensures forall r :: r in sel ==> r in rows && Matches(r, c)
    ensures forall r :: r in rows && Matches(r, c) ==> r in sel
    ensures sel == [] <==> FirstMatch(rows, c) == |rows|
    ensures sel != [] ==> sel[0] == rows[FirstMatch(rows, c)]
  {
    if rows == [] then []
    else if Matches(rows[0], c) then [rows[0]] + Select(rows[1..], c)
    else
      var rest := Select(rows[1..], c);
      assert forall r :: r in rows[1..] ==> r in rows;
      assert forall r :: r in rows && r != rows[0] ==> r in rows[1..];
      rest
  }

  /** Appending a row adds it to the selection exactly when it matches. */
  lemma {:induction false} SelectAppend(rows: seq<Row>, row: Row, c: Record)
    ensures Select(rows + [row], c) == Select(rows, c) + (if Matches(row, c) then [row] else [])
  {
    if rows != [] {
      assert (rows + [row])[1..] == rows[1..] + [row];
      SelectAppend(rows[1..], row, c);
    }
  }

  /** Once some row matches, appending rows does not change which row matches first. */
  lemma {:induction false} FirstMatchStable(rows: seq<Row>, more: seq<Row>, c: Record)
    requires rows <= more && FirstMatch(rows, c) < |rows|
    ensures FirstMatch(more, c) == FirstMatch(rows, c)
  {
    var i := FirstMatch(rows, c);
    assert Matches(more[i], c);
    assert forall j :: 0 <= j < i ==> more[j] == rows[j];
  }

  function Project(rows: seq<Row>, fields: seq<string>): (vals: seq<seq<Value>>)
    requires forall k :: 0 <= k < |rows| ==> forall f :: f in fields ==> f in rows[k]
    ensures |vals| == |rows|
    ensures forall k :: 0 <= k < |rows| ==> |vals[k]| == |fields|
    ensures forall k, j :: 0 <= k < |rows| && 0 <= j < |fields| ==> vals[k][j] == rows[k][fields[j]]
  {
    seq(|rows|, k requires 0 <= k < |rows| => seq(|fields|, j requires 0 <= j < |fields| => rows[k][fields[j]]))
  }

  predicate ColumnsKnown(t: Table, names: seq<string>)
  {
    forall k :: 0 <= k < |names| ==> names[k] in t.columns
  }

  /**
   * `fetch_records`: fails when the table or a named column does not exist;
   * otherwise returns the requested columns (all of them when none are named) of
   * exactly the rows that satisfy every constraint, in table order.
   */
  function Fetch(db: Tables, name: string, fields: seq<string>, c: Record): (res: Result<Fetched>)
    requires DbValid(db)
    ensures res.Ok? <==> name in db && ColumnsKnown(db[name], fields) && ColumnsKnown(db[name], Keys(c))
    ensures res.Ok? ==>
      res.value.columns == (if fields == [] then db[name].columns else fields) &&
      |res.value.rows| == |Select(db[name].rows, c)| &&
      forall k, j :: 0 <= k < |res.value.rows| && 0 <= j < |res.value.columns| ==>
        |res.value.rows[k]| == |res.value.columns| &&
        res.value.columns[j] in Select(db[name].rows, c)[k] &&
        res.value.rows[k][j] == Select(db[name].rows, c)[k][res.value.columns[j]]
  {
    if name !in db then Err("Table '" + name + "' doesn't exist")
    else
      var t := db[name];
      if !ColumnsKnown(t, fields) || !ColumnsKnown(t, Keys(c)) then Err("Unknown column")
      else
        var cols := if fields == [] then t.columns else fields;
        var sel := Select(t.rows, c);
        assert forall k :: 0 <= k < |sel| ==> sel[k] in t.rows;
        Ok(Fetched(cols, Project(sel, cols)))
  }

  /** The row MySQL stores for `r`: named columns take the record's values, the
      AUTO_INCREMENT id the counter, every other column NULL. */
  function NewRow(t: Table, r: Record): Row
  {
    map c | c in t.columns :: if HasKey(r, c) then Get(r, c) else if t.autoId && c == IdColumn then Int(t.nextId) else Null
  }

  function Appended(t: Table, r: Record): Table
  {
    t.(rows := t.rows + [NewRow(t, r)], nextId := if t.autoId then t.nextId + 1 else t.nextId)
  }

  lemma AppendedValid(t: Table, r: Record)
    requires TableValid(t) && !(t.autoId && HasKey(r, IdColumn))
    ensures TableValid(Appended(t, r))
  {
    var t2 := Appended(t, r);
    var row := NewRow(t, r);
    assert HasColumns(row, t.columns);
    if t.autoId {
      assert row[IdColumn] == Int(t.nextId);
      assert forall k :: 0 <= k < |t.rows| ==> t2.rows[k] == t.rows[k];
    }
  }

  /**
   * Running the INSERT statement: fails on a missing table or column, and on the
   * empty record, whose statement `INSERT INTO t () VALUES ("")` gives one value
   * for no column.
   */
  function Execute(db: Tables, name: string, r: Record): (res: (InsertOutcome, Tables))
  {
    if name !in db then (Failed("Table '" + name + "' doesn't exist"), db)
    else if r == [] then (Failed("Column count doesn't match value count at row 1"), db)
    else if !ColumnsKnown(db[name], Keys(r)) then (Failed("Unknown column"), db)
    else if db[name].autoId && HasKey(r, IdColumn) then (Failed("explicit AUTO_INCREMENT id"), db)
    else (Inserted, db[name := Appended(db[name], r)])
  }

  lemma ExecuteValid(db: Tables, name: string, r: Record)
    requires DbValid(db)
    ensures DbValid(Execute(db, name, r).1) && Extends(db, Execute(db, name, r).1)
  {
    if Execute(db, name, r).0 == Inserted {
      AppendedValid(db[name], r);
    }
  }

  /**
   * `insert_record`: with `failIfExists`, a row equal to the record on every
   * column except `last_updated_at` makes it a skip; a record with a non-`str`
   * value raises while the statement is built; otherwise the row is appended.
   */
  function Insert(db: Tables, name: string, r: Record, failIfExists: bool): (res: (InsertOutcome, Tables))
    requires DbValid(db)
    ensures DbValid(res.1) && Extends(db, res.1)
    ensures res.0 != Inserted ==> res.1 == db
    ensures res.0 == Inserted ==>
      name in db && r != [] && ColumnsKnown(db[name], Keys(r)) && Sql.AllStr(r) &&
      res.1 == db[name := Appended(db[name], r)]
    ensures res.0 == Inserted && failIfExists ==>
      Select(db[name].rows, Without(r, {UpdatedAtColumn})) == []
    ensures res.0 == Skipped ==>
      failIfExists && name in db && Select(db[name].rows, Without(r, {UpdatedAtColumn})) != []
  {
    var check := if failIfExists then Fetch(db, name, Keys(r), Without(r, {UpdatedAtColumn}))
                 else Ok(Fetched([], []));
    if check.Err? then (Failed(check.msg), db)
    else if check.value.rows != [] then (Skipped, db)
    else
      match Sql.InsertStatement(r, name)
      case Err(m) => (Failed(m), db)
      case Ok(_) =>
        ExecuteValid(db, name, r);
        Execute(db, name, r)
  }

  /**
   * `get_or_create_mask_id`: a non-root user gets None and nothing is read or
   * written; otherwise the id of the first row matching the record, inserting the
   * record first when no row matches.
   */
  function GetOrCreate(db: Tables, username: string, name: string, r: Record): (res: (MaskOutcome, Tables))
    requires DbValid(db)
    ensures DbValid(res.1) && Extends(db, res.1)
    ensures username != "root" ==> res == (Denied, db)
    ensures name in db ==> |res.1[name].rows| <= |db[name].rows| + 1
    ensures forall other :: other in db && other != name ==> res.1[other] == db[other]
    ensures res.0.Assigned? ==>
      name in res.1 && ColumnsKnown(db[name], [IdColumn]) && ColumnsKnown(db[name], Keys(r)) &&
      var rows := res.1[name].rows;
      FirstMatch(rows, r) < |rows| && IdColumn in rows[FirstMatch(rows, r)] &&
      res.0.id == rows[FirstMatch(rows, r)][IdColumn]
  {
    if username != "root" then (Denied, db)
    else
      match Fetch(db, name, [IdColumn], r)
      case Err(m) => (MaskFailed(m), db)
      case Ok(found) =>
        if found.rows != [] then
          FetchFirstId(db, name, r);
          (Assigned(found.rows[0][0]), db)
        else InsertAndLookUp(db, name, r)
  }

  /** The second half of `get_or_create_mask_id`: insert the record, then look its id up again. */
  function InsertAndLookUp(db: Tables, name: string, r: Record): (res: (MaskOutcome, Tables))
    requires DbValid(db)
    ensures DbValid(res.1) && Extends(db, res.1)
    ensures name in db ==> |res.1[name].rows| <= |db[name].rows| + 1
    ensures forall other :: other in db && other != name ==> res.1[other] == db[other]
    ensures res.0.Assigned? ==>
      name in res.1 && ColumnsKnown(db[name], [IdColumn]) && ColumnsKnown(db[name], Keys(r)) &&
      var rows := res.1[name].rows;
      FirstMatch(rows, r) < |rows| && IdColumn in rows[FirstMatch(rows, r)] &&
      res.0.id == rows[FirstMatch(rows, r)][IdColumn]
  {
    var (outcome, db1) := Insert(db, name, r, true);
    if outcome.Failed? then (MaskFailed(outcome.msg), db1)
    else
      match Fetch(db1, name, [IdColumn], r)
      case Err(m) => (MaskFailed(m), db1)
      case Ok(again) =>
        if again.rows == [] then (MaskFailed("IndexError: list index out of range"), db1)
        else
          FetchFirstId(db1, name, r);
          (Assigned(again.rows[0][0]), db1)
  }

  /** The id a lookup returns is the id of the first matching row. */
  lemma FetchFirstId(db: Tables, name: string, r: Record)
    requires DbValid(db) && Fetch(db, name, [IdColumn], r).Ok? && Fetch(db, name, [IdColumn], r).value.rows != []
    ensures name in db && ColumnsKnown(db[name], [IdColumn]) && ColumnsKnown(db[name], Keys(r))
    ensures var rows := db[name].rows;
      FirstMatch(rows, r) < |rows| && IdColumn in rows[FirstMatch(rows, r)] &&
      Fetch(db, name, [IdColumn], r).value.rows[0][0] == rows[FirstMatch(rows, r)][IdColumn]
  {
    var f := Fetch(db, name, [IdColumn], r).value;
    var sel := Select(db[name].rows, r);
    assert f.columns == [IdColumn] && |sel| == |f.rows|;
    assert f.columns[0] in sel[0] && f.rows[0][0] == sel[0][f.columns[0]];
  }

  /**
   * A value that already has a row, looked up as root in a table that has the
   * `id` and the record's columns, gets that row's id and changes nothing (when
   * no value carries a quote or backslash into the WHERE clause).
   */
  lemma GetOrCreateFound(db: Tables, name: string, r: Record)
    requires DbValid(db) && name in db && Sql.UnquotedValues(r)
    requires ColumnsKnown(db[name], [IdColumn]) && ColumnsKnown(db[name], Keys(r))
    requires FirstMatch(db[name].rows, r) < |db[name].rows|
    ensures var rows := db[name].rows;
      IdColumn in rows[FirstMatch(rows, r)] &&
      GetOrCreate(db, "root", name, r) == (Assigned(rows[FirstMatch(rows, r)][IdColumn]), db)
  {
    var f := Fetch(db, name, [IdColumn], r);
    assert f.Ok? && f.value.rows != [];
    FetchFirstId(db, name, r);
  }

  /**
   * A non-empty record of `str` values without a row, looked up as root in an
   * AUTO_INCREMENT table that has its columns, gets exactly one new row, holding
   * the values and the next id, and that id is what is returned (when no value carries a quote or
   * backslash into the SQL text).
   */
  lemma GetOrCreateNew(db: Tables, name: string, r: Record)
    requires DbValid(db) && name in db && db[name].autoId
    requires r != [] && ColumnsKnown(db[name], Keys(r)) && Sql.AllStr(r) && Sql.UnquotedValues(r) && DistinctKeys(r)
    requires !HasKey(r, IdColumn) && !HasKey(r, UpdatedAtColumn)
    requires FirstMatch(db[name].rows, r) == |db[name].rows|
    ensures GetOrCreate(db, "root", name, r) == (Assigned(Int(db[name].nextId)), db[name := Appended(db[name], r)])
  {
    var t := db[name];
    assert ColumnsKnown(t, [IdColumn]);
    var f := Fetch(db, name, [IdColumn], r);
    assert f.Ok? && f.value.rows == [];
    InsertAndLookUpNew(db, name, r);
  }

  lemma InsertAndLookUpNew(db: Tables, name: string, r: Record)
    requires DbValid(db) && name in db && db[name].autoId
    requires r != [] && ColumnsKnown(db[name], Keys(r)) && Sql.AllStr(r) && Sql.UnquotedValues(r) && DistinctKeys(r)
    requires !HasKey(r, IdColumn) && !HasKey(r, UpdatedAtColumn)
    requires FirstMatch(db[name].rows, r) == |db[name].rows|
    ensures InsertAndLookUp(db, name, r) == (Assigned(Int(db[name].nextId)), db[name := Appended(db[name], r)])
  {
    InsertNew(db, name, r);
    LookUpNew(db, name, r);
  }

  /** After that insert, the lookup finds the new row alone, and its id is the counter's old value. */
  lemma LookUpNew(db: Tables, name: string, r: Record)
    requires DbValid(db) && name in db && db[name].autoId
    requires ColumnsKnown(db[name], Keys(r)) && DistinctKeys(r)
    requires !HasKey(r, IdColumn) && !HasKey(r, UpdatedAtColumn)
    requires FirstMatch(db[name].rows, r) == |db[name].rows|
    ensures var db1 := db[name := Appended(db[name], r)];
      DbValid(db1) && Fetch(db1, name, [IdColumn], r) == Ok(Fetched([IdColumn], [[Int(db[name].nextId)]]))
  {
    var t := db[name];
    var row := NewRow(t, r);
    var db1 := db[name := Appended(t, r)];
    AppendedValid(t, r);
    NewRowMatches(t, r);
    WithoutNone(r, {UpdatedAtColumn});
    SelectAppend(t.rows, row, r);
    assert row[IdColumn] == Int(t.nextId);
    FetchOne(db1, name, r, row);
  }

  /** A lookup whose constraints select one row returns that row's id alone. */
  lemma FetchOne(db: Tables, name: string, r: Record, row: Row)
    requires DbValid(db) && name in db && ColumnsKnown(db[name], [IdColumn]) && ColumnsKnown(db[name], Keys(r))
    requires Select(db[name].rows, r) == [row]
    ensures IdColumn in row && Fetch(db, name, [IdColumn], r) == Ok(Fetched([IdColumn], [[row[IdColumn]]]))
  {
    var f := Fetch(db, name, [IdColumn], r);
    assert f.Ok? && f.value.columns == [IdColumn];
    assert |f.value.rows| == 1 && |f.value.rows[0]| == 1;
    assert f.value.columns[0] in Select(db[name].rows, r)[0];
    assert f.value.rows[0][0] == row[IdColumn];
    assert f.value.rows[0] == [row[IdColumn]];
    assert f.value.rows == [[row[IdColumn]]];
  }

  /** With no matching row, a known non-empty all-`str` record without an `id` is inserted. */
  lemma InsertNew(db: Tables, name: string, r: Record)
    requires DbValid(db) && name in db && db[name].autoId
    requires r != [] && ColumnsKnown(db[name], Keys(r)) && Sql.AllStr(r) && Sql.UnquotedValues(r)
    requires !HasKey(r, IdColumn) && !HasKey(r, UpdatedAtColumn)
    requires FirstMatch(db[name].rows, r) == |db[name].rows|
    ensures Insert(db, name, r, true) == (Inserted, db[name := Appended(db[name], r)])
  {
    WithoutNone(r, {UpdatedAtColumn});
    var check := Fetch(db, name, Keys(r), r);
    assert check.Ok? && check.value.rows == [];
    assert Sql.InsertStatement(r, name).Ok?;
  }

  /**
   * Once a value has a mask id, every later lookup of it, after any number of
   * inserts into any table, returns the same id and adds no row: ids never change.
   */
  lemma MaskStable(db: Tables, name: string, r: Record, later: Tables)
    requires DbValid(db) && DbValid(later)
    requires GetOrCreate(db, "root", name, r).0.Assigned?
    requires Extends(GetOrCreate(db, "root", name, r).1, later)
    ensures GetOrCreate(later, "root", name, r) == (GetOrCreate(db, "root", name, r).0, later)
  {
    var (first, db1) := GetOrCreate(db, "root", name, r);
    var rows1, rows2 := db1[name].rows, later[name].rows;
    FirstMatchStable(rows1, rows2, r);
    var i := FirstMatch(rows2, r);
    assert rows2[i] == rows1[i];
    var f := Fetch(later, name, [IdColumn], r);
    assert f.Ok?;
    assert f.value.rows[0][0] == Select(rows2, r)[0][IdColumn];
  }

  /** `get_or_create_mask_id` is idempotent: a second call returns the same id and changes nothing. */
  lemma MaskIdempotent(db: Tables, name: string, r: Record)
    requires DbValid(db)
    requires GetOrCreate(db, "root", name, r).0.Assigned?
    ensures var (first, db1) := GetOrCreate(db, "root", name, r);
      GetOrCreate(db1, "root", name, r) == (first, db1)
  {
    MaskStable(db, name, r, GetOrCreate(db, "root", name, r).1);
  }

  /**
   * Distinct raw values of one mask column get distinct ids, however many other
   * inserts happen between the two lookups (the id is an AUTO_INCREMENT key).
   */
  lemma MaskDistinct(db: Tables, name: string, column: string, v1: Value, v2: Value, between: Tables)
    requires DbValid(db) && DbValid(between) && v1 != v2
    requires name in db && db[name].autoId
    requires GetOrCreate(db, "root", name, [(column, v1)]).0.Assigned?
    requires Extends(GetOrCreate(db, "root", name, [(column, v1)]).1, between)
    requires GetOrCreate(between, "root", name, [(column, v2)]).0.Assigned?
    ensures GetOrCreate(db, "root", name, [(column, v1)]).0.id != GetOrCreate(between, "root", name, [(column, v2)]).0.id
  {
    var (a, db1) := GetOrCreate(db, "root", name, [(column, v1)]);
    var (b, db3) := GetOrCreate(between, "root", name, [(column, v2)]);
    var rows1, rows3 := db1[name].rows, db3[name].rows;
    var i, j := FirstMatch(rows1, [(column, v1)]), FirstMatch(rows3, [(column, v2)]);
    assert Extends(db1, db3) by { ExtendsTrans(db1, between, db3); }
    assert rows3[i] == rows1[i];
    assert rows3[i][column] == v1 && rows3[j][column] == v2;
    assert i != j;
    AutoIdsDistinct(db3[name], i, j);
  }

  /** Two rows of an AUTO_INCREMENT table have different ids. */
  lemma AutoIdsDistinct(t: Table, i: nat, j: nat)
    requires TableValid(t) && t.autoId && i < |t.rows| && j < |t.rows| && i != j
    ensures IdColumn in t.rows[i] && IdColumn in t.rows[j] && t.rows[i][IdColumn] != t.rows[j][IdColumn]
  {
    assert AutoIds(t.rows, t.nextId);
    if i < j {
      assert t.rows[i][IdColumn] != t.rows[j][IdColumn];
    } else {
      assert t.rows[j][IdColumn] != t.rows[i][IdColumn];
    }
  }

  /** The freshly inserted row matches the record on every non-timestamp column. */
  lemma NewRowMatches(t: Table, r: Record)
    requires DistinctKeys(r) && ColumnsKnown(t, Keys(r))
    ensures Matches(NewRow(t, r), Without(r, {UpdatedAtColumn}))
  {
    var c := Without(r, {UpdatedAtColumn});
    var row := NewRow(t, r);
    forall k | 0 <= k < |c| ensures c[k].0 in row && row[c[k].0] == c[k].1 {
      var i :| 0 <= i < |r| && r[i] == c[k];
      assert Keys(r)[i] == r[i].0;
      GetDistinct(r, i);
    }
  }

  /**
   * Inserting a record twice with `failIfExists`, the second time with other
   * values only under `last_updated_at`, skips the second insert and leaves
   * exactly one matching row.
   */
  lemma InsertTwiceKeepsOne(db: Tables, name: string, r: Record, r2: Record)
    requires DbValid(db) && DistinctKeys(r)
    requires Keys(r2) == Keys(r) && Without(r2, {UpdatedAtColumn}) == Without(r, {UpdatedAtColumn})
    requires Insert(db, name, r, true).0 == Inserted
    ensures var db1 := Insert(db, name, r, true).1;
      Insert(db1, name, r2, true) == (Skipped, db1) &&
      |Select(db1[name].rows, Without(r, {UpdatedAtColumn}))| == 1
  {
    var db1 := Insert(db, name, r, true).1;
    var t := db[name];
    var c := Without(r, {UpdatedAtColumn});
    NewRowMatches(t, r);
    SelectAppend(t.rows, NewRow(t, r), c);
    assert Select(db1[name].rows, c) == [NewRow(t, r)];
    assert ColumnsKnown(db1[name], Keys(c)) by {
      forall k | 0 <= k < |c| ensures c[k].0 in t.columns {
        var i :| 0 <= i < |r| && r[i] == c[k];
        assert Keys(r)[i] == r[i].0;
      }
    }
    var f := Fetch(db1, name, Keys(r2), Without(r2, {UpdatedAtColumn}));
    assert f.Ok? && f.value.rows != [];
  }

  /** The tables `initialise_db_and_create_tables` creates, all empty. */
  function Schema(): (db: Tables)
    ensures DbValid(db)
  {
    map[
      "users_raw" := Table(["user_id", "created_at", "updated_at", "city_id", "country", "zipcode_id",
                            "email", "birth_date", "gender", "is_smoking", "profession_id", "income",
                            UpdatedAtColumn], [], false, 0),
      "subscriptions_raw" := Table(["user_id", "created_at", "start_date", "end_date", "status", "amount",
                                    UpdatedAtColumn], [], false, 0),
      "messages_raw" := Table(["created_at", "receiver_id", "id", "sender_id", UpdatedAtColumn], [], false, 0),
      "sensitive_zipcode_ids" := Table([IdColumn, "zipcode", UpdatedAtColumn], [], true, 1),
      "sensitive_city_ids" := Table([IdColumn, "city", UpdatedAtColumn], [], true, 1),
      "sensitive_profession_ids" := Table([IdColumn, "profession", UpdatedAtColumn], [], true, 1)
    ]
  }

  /** MySqlDbConnector over the in-memory warehouse. */
  class MySqlDb {
    var tables: Tables
    var views: map<string, string>

    ghost predicate Valid()
      reads this
    {
      DbValid(tables)
    }

    /** A freshly initialised warehouse. */
    constructor ()
      ensures Valid() && tables == Schema() && views == map[]
    {
      tables := Schema();
      views := map[];
    }

    /** `fetch_records`: builds the SELECT text and answers it. */
    method FetchRecords(name: string, fields: seq<string>, c: Record) returns (query: string, res: Result<Fetched>)
      requires Valid()
      ensures query == Sql.SelectQuery(name, fields, c)
      ensures res == Fetch(tables, name, fields, c)
    {
      if fields != [] {
        var fieldsStatement := Text.Join(fields, ", ");
        query := "SELECT " + fieldsStatement + " FROM " + name + " ";
      } else {
        query := "SELECT * FROM " + name + " ";
        assert "SELECT * FROM " == "SELECT " + "*" + " FROM ";
      }
      if c != [] {
        var where := Sql.ConstraintStatement(c);
        query := query + where;
      }
      res := Fetch(tables, name, fields, c);
    }

    /** `insert_record` */
    method InsertRecord(name: string, r: Record, failIfExists: bool) returns (outcome: InsertOutcome)
      requires Valid()
      modifies this
      ensures Valid() && views == old(views)
      ensures (outcome, tables) == Insert(old(tables), name, r, failIfExists)
    {
      if failIfExists {
        var _, check := FetchRecords(name, Keys(r), Without(r, {UpdatedAtColumn}));
        if check.Err? {
          return Failed(check.msg);
        }
        if check.value.rows != [] {
          return Skipped;
        }
      }
      var statement := Sql.InsertStatement(r, name);
      if statement.Err? {
        return Failed(statement.msg);
      }
      var executed := Execute(tables, name, r);
      ExecuteValid(tables, name, r);
      outcome, tables := executed.0, executed.1;
    }

    /** `get_or_create_mask_id`: fetch, insert when absent, fetch again. */
    method GetOrCreateMaskId(username: string, name: string, r: Record) returns (outcome: MaskOutcome)
      requires Valid()
      modifies this
      ensures Valid() && views == old(views)
      ensures (outcome, tables) == GetOrCreate(old(tables), username, name, r)
    {
      if username != "root" {
        return Denied;
      }
      var _, found := FetchRecords(name, [IdColumn], r);
      if found.Err? {
        return MaskFailed(found.msg);
      }
      var result := found.value.rows;
      if result == [] {
        var inserted := InsertRecord(name, r, true);
        if inserted.Failed? {
          return MaskFailed(inserted.msg);
        }
        var _, again := FetchRecords(name, [IdColumn], r);
        if again.Err? {
          return MaskFailed(again.msg);
        }
        result := again.value.rows;
        if result == [] {
          return MaskFailed("IndexError: list index out of range");
        }
      }
      outcome := Assigned(result[0][0]);
    }

    /** `create_view`: CREATE OR REPLACE defines the view, replacing an older one. */
    method CreateView(name: string, query: string) returns (statement: string)
      modifies this
      ensures statement == Sql.CreateViewStatement(name, query)
      ensures views == old(views)[name := query] && tables == old(tables)
    {
      statement := "CREATE OR REPLACE VIEW  " + name + " AS (" + query + ");";
      views := views[name := query];
    }
  }
}
