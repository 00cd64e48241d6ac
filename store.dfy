/** An abstract SQLite database: tables with declared columns, rows as maps from
    column name to value, and a per-table AUTOINCREMENT counter. SQL text is not
    modelled; each statement the loaders issue is one function here. */
module Store {
  import opened Wrappers
  import Text

  /** A stored SQLite value. Python `bool` is stored as an integer. */
  datatype Value = VNull | VInt(i: int) | VReal(r: real) | VText(s: string)

  /** A column as declared in CREATE TABLE or ALTER TABLE: name and type text. */
  datatype Column = Column(name: string, decl: string)

  /** A row: its INTEGER PRIMARY KEY and the other cells. A column absent
      from `cells` reads as NULL (ALTER TABLE never backfills old rows). */
  datatype Row = Row(id: nat, cells: map<string, Value>)

  /** One table. `key` is the INTEGER PRIMARY KEY AUTOINCREMENT column (the
      rowid alias, whose value `lastrowid` reports); `lastId` is the largest id
      ever handed out, which SQLite keeps in `sqlite_sequence`; `unique` lists
      the columns declared UNIQUE. */
  datatype Table = Table(
    columns: seq<Column>,
    rows: seq<Row>,
    lastId: nat,
    key: string,
    unique: set<string>)

  type Tables = map<string, Table>

  /** What an INSERT did: added a row with this id, hit a UNIQUE constraint,
      or failed (missing table or column). */
  datatype InsertOutcome = Inserted(id: nat) | Conflict | Failed

  function ColumnNames(cols: seq<Column>): (r: seq<string>)
    ensures |r| == |cols| && forall i | 0 <= i < |cols| :: r[i] == cols[i].name
  {
    seq(|cols|, i requires 0 <= i < |cols| => cols[i].name)
  }

  predicate HasColumn(t: Table, c: string)
  {
    c in ColumnNames(t.columns)
  }

  predicate Distinct(s: seq<string>)
  {
    forall i, j | 0 <= i < j < |s| :: s[i] != s[j]
  }

  /** The value of column `c` in row `r` of a table whose key column is `key`. */
  function Cell(key: string, r: Row, c: string): Value
  {
    if c == key then VInt(r.id)
    else if c in r.cells then r.cells[c]
    else VNull
  }

  /** SQL `a = b`: NULL equals nothing. */
  predicate SqlEq(a: Value, b: Value)
  {
    a != VNull && a == b
  }

  /** Ids lie in 1..last and increase strictly along the rows. */
  ghost predicate IdsIncreasing(rows: seq<Row>, last: nat)
  {
    && (forall i | 0 <= i < |rows| :: 1 <= rows[i].id <= last)
    && (forall i, j | 0 <= i < j < |rows| :: rows[i].id < rows[j].id)
  }

  /** Column names are unique, the key is a column, and row ids are
      increasing (hence distinct) and never above the AUTOINCREMENT counter. */
  ghost predicate ValidTable(t: Table)
  {
    && Distinct(ColumnNames(t.columns))
    && HasColumn(t, t.key)
    && IdsIncreasing(t.rows, t.lastId)
  }

  ghost predicate ValidStore(ts: Tables)
  {
    forall n | n in ts :: ValidTable(ts[n])
  }

  /** SQLite refuses user tables whose name starts with "sqlite_" in any case. */
  predicate Reserved(name: string)
  {
    |name| >= 7 && Text.Lower(name[..7]) == "sqlite_"
  }

  // ---------------------------------------------------------------------------
  // Statements

  /** The column names `PRAGMA table_info` lists: none for a missing table. */
  function TableInfo(ts: Tables, name: string): (r: seq<string>)
    ensures name in ts ==> r == ColumnNames(ts[name].columns)
    ensures name !in ts ==> r == []
  {
    if name in ts then ColumnNames(ts[name].columns) else []
  }

  /** CREATE TABLE: an error if the name is taken or reserved, or if two
      columns share a name. */
  function CreateTable(ts: Tables, name: string, cols: seq<Column>, key: string, unique: set<string>): (r: Result<Tables>)
    requires key in ColumnNames(cols)
    ensures r.Ok? <==> name !in ts && !Reserved(name) && Distinct(ColumnNames(cols))
    ensures r.Ok? ==> r.value == ts[name := Table(cols, [], 0, key, unique)]
    ensures r.Ok? && ValidStore(ts) ==> ValidStore(r.value)
  {
    if name in ts || Reserved(name) || !Distinct(ColumnNames(cols)) then Err(OperationalError)
    else Ok(ts[name := Table(cols, [], 0, key, unique)])
  }

  /** ALTER TABLE ... ADD COLUMN: an error for a missing table or a taken name;
      otherwise the column goes last and no row changes. */
  function AddColumn(ts: Tables, name: string, c: Column): (r: Result<Tables>)
    ensures r.Ok? <==> name in ts && !HasColumn(ts[name], c.name)
    ensures r.Ok? ==> r.value == ts[name := ts[name].(columns := ts[name].columns + [c])]
    ensures r.Ok? && ValidStore(ts) ==> ValidStore(r.value)
  {
    if name !in ts || HasColumn(ts[name], c.name) then Err(OperationalError)
    else
      var t := ts[name];
      var t' := t.(columns := t.columns + [c]);
      assert ColumnNames(t'.columns) == ColumnNames(t.columns) + [c.name];
      Ok(ts[name := t'])
  }

  /** The cells `cols[i] = vals[i]`. A column named twice takes the value of
      its first occurrence, as SQLite maps each table column to the first
      position that names it. */
  function CellsOf(cols: seq<string>, vals: seq<Value>): (r: map<string, Value>)
    requires |cols| == |vals|
    ensures r.Keys == set c | c in cols
  {
    if cols == [] then map[] else CellsOf(cols[1..], vals[1..])[cols[0] := vals[0]]
  }

  /** Each column holds the value given at its first occurrence. */
  lemma CellsOfFirst(cols: seq<string>, vals: seq<Value>)
    requires |cols| == |vals|
    ensures forall i | 0 <= i < |cols| && cols[i] !in cols[..i] :: CellsOf(cols, vals)[cols[i]] == vals[i]
  {
    forall i | 0 <= i < |cols| && cols[i] !in cols[..i]
      ensures CellsOf(cols, vals)[cols[i]] == vals[i]
    {
      CellsOfAt(cols, vals, i);
    }
  }

  lemma {:induction false} CellsOfAt(cols: seq<string>, vals: seq<Value>, i: nat)
    requires |cols| == |vals| && i < |cols| && cols[i] !in cols[..i]
    ensures CellsOf(cols, vals)[cols[i]] == vals[i]
  {
    if i > 0 {
      assert cols[0] in cols[..i];
      assert cols[1..][..i - 1] == cols[1..i] && cols[..i] == [cols[0]] + cols[1..i];
      CellsOfAt(cols[1..], vals[1..], i - 1);
    }
  }

  /** A UNIQUE column of `t` in which `cells` repeat a stored non-NULL value. */
  predicate UniqueClash(t: Table, cells: map<string, Value>)
  {
    exists u, i | u in t.unique && u in cells && 0 <= i < |t.rows| :: SqlEq(Cell(t.key, t.rows[i], u), cells[u])
  }

  /** The conditions under which an INSERT names only real, non-key columns
      of an existing table. */
  predicate Insertable(ts: Tables, name: string, cols: seq<string>)
  {
    && name in ts
    && (forall c | c in cols :: HasColumn(ts[name], c))
    && ts[name].key !in cols
  }

  /** INSERT INTO name (cols) VALUES (vals). A missing table or column, or a
      value given for the key column, fails; a UNIQUE clash is a Conflict;
      otherwise the row gets the next AUTOINCREMENT id. */
  function Insert(ts: Tables, name: string, cols: seq<string>, vals: seq<Value>): (r: (Tables, InsertOutcome))
    requires |cols| == |vals|
    ensures r.1 == Failed <==> !Insertable(ts, name, cols)
    ensures !r.1.Inserted? ==> r.0 == ts
    ensures r.0.Keys == ts.Keys
  {
    if !Insertable(ts, name, cols) then (ts, Failed)
    else
      var t := ts[name];
      var cells := CellsOf(cols, vals);
      if UniqueClash(t, cells) then (ts, Conflict)
      else
        var id := t.lastId + 1;
        (ts[name := t.(rows := t.rows + [Row(id, cells)], lastId := id)], Inserted(id))
  }

  /** A successful Insert appends exactly one row to the named table, holding
      the given values (the first one for a repeated column) under a fresh id
      above every id already there; no other table and no column list
      changes. */
  lemma InsertAppends(ts: Tables, name: string, cols: seq<string>, vals: seq<Value>)
    requires |cols| == |vals|
    requires ValidStore(ts)
    requires Insert(ts, name, cols, vals).1.Inserted?
    ensures var (ts', out) := Insert(ts, name, cols, vals);
      && name in ts
      && (forall n | n in ts && n != name :: ts'[n] == ts[n])
      && ts'[name].columns == ts[name].columns
      && ts'[name].key == ts[name].key
      && ts'[name].unique == ts[name].unique
      && ts'[name].lastId == out.id
      && |ts'[name].rows| == |ts[name].rows| + 1
      && ts'[name].rows[..|ts[name].rows|] == ts[name].rows
      && (forall i | 0 <= i < |ts[name].rows| :: ts[name].rows[i].id < out.id)
      && ts'[name].rows[|ts[name].rows|].id == out.id
      && forall i | 0 <= i < |cols| && cols[i] !in cols[..i] :: Cell(ts[name].key, ts'[name].rows[|ts[name].rows|], cols[i]) == vals[i]
  {
    var t := ts[name];
    var t' := Insert(ts, name, cols, vals).0[name];
    assert t'.rows[..|t.rows|] == t.rows;
    CellsOfFirst(cols, vals);
  }

  /** Insert keeps every table valid. */
  lemma InsertValid(ts: Tables, name: string, cols: seq<string>, vals: seq<Value>)
    requires |cols| == |vals|
    requires ValidStore(ts)
    ensures ValidStore(Insert(ts, name, cols, vals).0)
  {
    var (ts', out) := Insert(ts, name, cols, vals);
    if out.Inserted? {
      InsertAppends(ts, name, cols, vals);
      var t := ts[name];
      var t' := ts'[name];
      assert IdsIncreasing(t'.rows, t'.lastId) by {
        forall i, j | 0 <= i < j < |t'.rows|
          ensures t'.rows[i].id < t'.rows[j].id
        {
          if j < |t.rows| {
            assert t'.rows[i] == t.rows[i] && t'.rows[j] == t.rows[j];
          } else {
            assert t'.rows[i] == t.rows[i];
          }
        }
        forall i | 0 <= i < |t'.rows|
          ensures 1 <= t'.rows[i].id <= t'.lastId
        {
          if i < |t.rows| {
            assert t'.rows[i] == t.rows[i];
          }
        }
      }
    }
  }

  /** The first row of `rows` (in rowid order) whose `w` equals `v`. */
  function FirstMatch(key: string, rows: seq<Row>, w: string, v: Value): (r: Option<nat>)
    ensures r.Some? ==> r.value < |rows| && SqlEq(Cell(key, rows[r.value], w), v)
    ensures r.Some? ==> forall i | 0 <= i < r.value :: !SqlEq(Cell(key, rows[i], w), v)
    ensures r.None? ==> forall i | 0 <= i < |rows| :: !SqlEq(Cell(key, rows[i], w), v)
  {
    if rows == [] then None
    else if SqlEq(Cell(key, rows[0], w), v) then Some(0)
    else match FirstMatch(key, rows[1..], w, v)
      case None => None
      case Some(k) => Some(k + 1)
  }

  /** SELECT col FROM name WHERE w = v, then `fetchone()`: the first matching
      row's `col`, None when no row matches; an error if the table or a
      column is missing. */
  function SelectFirst(ts: Tables, name: string, col: string, w: string, v: Value): (r: Result<Option<Value>>)
    ensures r.Ok? <==> name in ts && HasColumn(ts[name], col) && HasColumn(ts[name], w)
    ensures r.Ok? && r.value.None? ==> forall i | 0 <= i < |ts[name].rows| :: !SqlEq(Cell(ts[name].key, ts[name].rows[i], w), v)
    ensures r.Ok? && r.value.Some? ==> exists i | 0 <= i < |ts[name].rows| ::
      SqlEq(Cell(ts[name].key, ts[name].rows[i], w), v) && r.value.value == Cell(ts[name].key, ts[name].rows[i], col)
  {
    if name !in ts || !HasColumn(ts[name], col) || !HasColumn(ts[name], w) then Err(OperationalError)
    else
      var t := ts[name];
      match FirstMatch(t.key, t.rows, w, v)
      case None => Ok(None)
      case Some(k) => Ok(Some(Cell(t.key, t.rows[k], col)))
  }

  /** The rows whose `w` does not equal `v`, in order. */
  function KeepUnless(key: string, rows: seq<Row>, w: string, v: Value): (r: seq<Row>)
    ensures forall x :: x in r <==> x in rows && !SqlEq(Cell(key, x, w), v)
    ensures |r| <= |rows|
  {
    if rows == [] then []
    else if SqlEq(Cell(key, rows[0], w), v) then KeepUnless(key, rows[1..], w, v)
    else [rows[0]] + KeepUnless(key, rows[1..], w, v)
  }

  /** Dropping rows keeps ids increasing and within the counter. */
  lemma {:induction false} KeepUnlessIncreasing(key: string, rows: seq<Row>, last: nat, w: string, v: Value)
    requires IdsIncreasing(rows, last)
    ensures IdsIncreasing(KeepUnless(key, rows, w, v), last)
  {
    if rows != [] {
      var rest := KeepUnless(key, rows[1..], w, v);
      IncreasingTail(rows, last);
      KeepUnlessIncreasing(key, rows[1..], last, w, v);
      if !SqlEq(Cell(key, rows[0], w), v) {
        forall x | x in rest
          ensures rows[0].id < x.id
        {
          var k :| 0 <= k < |rows[1..]| && rows[1..][k] == x;
          assert rows[k + 1] == x;
        }
        IncreasingCons(rows[0], rest, last);
      }
    }
  }

  lemma IncreasingTail(rows: seq<Row>, last: nat)
    requires rows != [] && IdsIncreasing(rows, last)
    ensures IdsIncreasing(rows[1..], last) && 1 <= rows[0].id <= last
  {
    forall i, j | 0 <= i < j < |rows[1..]|
      ensures rows[1..][i].id < rows[1..][j].id
    {
      assert rows[1..][i] == rows[i + 1] && rows[1..][j] == rows[j + 1];
    }
  }

  /** A row whose id is in range and below every id of increasing rows can
      go in front of them. */
  lemma IncreasingCons(x: Row, rest: seq<Row>, last: nat)
    requires 1 <= x.id <= last && IdsIncreasing(rest, last)
    requires forall y | y in rest :: x.id < y.id
    ensures IdsIncreasing([x] + rest, last)
  {
    var r := [x] + rest;
    forall i, j | 0 <= i < j < |r|
      ensures r[i].id < r[j].id
    {
      assert r[j] == rest[j - 1];
      if i > 0 {
        assert r[i] == rest[i - 1];
      } else {
        assert rest[j - 1] in rest;
      }
    }
  }

  /** DELETE FROM name WHERE w = v (no change for a missing table). */
  function DeleteWhere(ts: Tables, name: string, w: string, v: Value): (r: Tables)
    ensures r.Keys == ts.Keys
    ensures forall n | n in ts && n != name :: r[n] == ts[n]
    ensures name in ts ==> r[name] == ts[name].(rows := KeepUnless(ts[name].key, ts[name].rows, w, v))
  {
    if name !in ts then ts
    else
      var t := ts[name];
      ts[name := t.(rows := KeepUnless(t.key, t.rows, w, v))]
  }

  /** DELETE keeps every table valid. */
  lemma DeleteWhereValid(ts: Tables, name: string, w: string, v: Value)
    requires ValidStore(ts)
    ensures ValidStore(DeleteWhere(ts, name, w, v))
  {
    if name in ts {
      KeepUnlessIncreasing(ts[name].key, ts[name].rows, ts[name].lastId, w, v);
    }
  }
}
