/** The SQL helpers of the relational loader: column typing, column creation
    on demand, and the recursive insert of one JSON object tree. */
module SqlUtils {
  import opened Wrappers
  import opened JsonValue
  import opened Store
  import opened Database
  import Text

  // ---------------------------------------------------------------------------
  // Column types

  /** The first definition of `get_sql_type`; Python's `bool` is an `int`. */
  function GetSqlTypeFirst(v: Json): (r: Result<string>)
    ensures r.Ok? <==> IsScalar(v)
    ensures r == Ok("INTEGER") <==> v.JInt? || v.JBool?
    ensures r == Ok("REAL") <==> v.JReal?
    ensures r == Ok("TEXT") <==> v.JStr? || v.JNull?
  {
    if v.JInt? || v.JBool? then Ok("INTEGER")
    else if v.JReal? then Ok("REAL")
    else if v.JStr? || v.JNull? then Ok("TEXT")
    else Err(ValueError)
  }

  /** The second definition, which is the one in force after the module loads. */
  function GetSqlType(v: Json): (r: Result<string>)
    ensures r.Ok? <==> IsScalar(v)
  {
    if v.JInt? || v.JBool? then Ok("INTEGER")
    else if v.JReal? then Ok("REAL")
    else if v.JStr? then Ok("TEXT")
    else if v.JNull? then Ok("TEXT")
    else Err(ValueError)
  }

  /** The shadowing definition maps every value exactly as the first one. */
  lemma GetSqlTypeShadowsSame(v: Json)
    ensures GetSqlType(v) == GetSqlTypeFirst(v)
  {
  }

  /** The value sqlite3 stores for a scalar: `True`/`False` become 1/0;
      integers, floats and strings are stored as they are, None as NULL. */
  function ToValue(v: Json): (r: Value)
    requires IsScalar(v)
    ensures r.VInt? <==> v.JInt? || v.JBool?
    ensures r.VReal? <==> v.JReal?
    ensures r.VText? <==> v.JStr?
    ensures r.VNull? <==> v.JNull?
    ensures v.JInt? ==> r == VInt(v.i)
    ensures v.JBool? ==> r == VInt(if v.b then 1 else 0)
    ensures v.JReal? ==> r == VReal(v.r)
    ensures v.JStr? ==> r == VText(v.s)
  {
    match v
    case JInt(i) => VInt(i)
    case JBool(b) => VInt(if b then 1 else 0)
    case JReal(x) => VReal(x)
    case JStr(s) => VText(s)
    case JNull => VNull
  }

  /** The declared column type names the storage class of the stored value
      (NULL being allowed in a TEXT column). */
  lemma TypeFitsValue(v: Json)
    requires IsScalar(v)
    ensures GetSqlType(v) == Ok("INTEGER") <==> ToValue(v).VInt?
    ensures GetSqlType(v) == Ok("REAL") <==> ToValue(v).VReal?
    ensures GetSqlType(v) == Ok("TEXT") <==> ToValue(v).VText? || ToValue(v).VNull?
  {
  }

  // ---------------------------------------------------------------------------
  // table_exists, ensure_column_exists

  /** `table_exists`: whether the catalogue lists a table of that name. */
  function TableExists(ts: Tables, name: string): (r: bool)
    ensures r <==> name in ts
  {
    name in ts
  }

  /** `ensure_column_exists` on the store: nothing happens when the column is
      listed; otherwise ALTER TABLE adds it, and a failing ALTER (a missing
      table) is swallowed. */
  function EnsureColumn(ts: Tables, name: string, column: string, ty: string): (r: Tables)
  {
    if column in TableInfo(ts, name) then ts
    else
      match AddColumn(ts, name, Column(column, ty))
      case Ok(ts') => ts'
      case Err(_) => ts
  }

  /** The column is a no-op when present or when the table is missing, adds
      exactly that column otherwise, and never retypes or drops a column. */
  lemma EnsureColumnSpec(ts: Tables, name: string, column: string, ty: string)
    ensures name !in ts ==> EnsureColumn(ts, name, column, ty) == ts
    ensures name in ts && HasColumn(ts[name], column) ==> EnsureColumn(ts, name, column, ty) == ts
    ensures name in ts && !HasColumn(ts[name], column) ==>
      EnsureColumn(ts, name, column, ty) == ts[name := ts[name].(columns := ts[name].columns + [Column(column, ty)])]
    ensures var r := EnsureColumn(ts, name, column, ty);
      r.Keys == ts.Keys && forall n | n in ts :: ts[n].columns <= r[n].columns && r[n].rows == ts[n].rows
    ensures name in ts ==> HasColumn(EnsureColumn(ts, name, column, ty)[name], column)
    ensures ValidStore(ts) ==> ValidStore(EnsureColumn(ts, name, column, ty))
  {
    if name in ts && !HasColumn(ts[name], column) {
      var cols := ts[name].columns + [Column(column, ty)];
      assert cols[|cols| - 1].name == column;
    }
  }

  method EnsureColumnExists(db: Connection, name: string, column: string, ty: string)
    requires db.Valid()
    modifies db
    ensures db.Valid() && db.committed == old(db.committed) && db.foreignKeys == old(db.foreignKeys)
    ensures db.tables == EnsureColumn(old(db.tables), name, column, ty)
  {
    var existing := db.TableInfo(name);
    if column !in existing {
      var _ := db.AddColumn(name, Column(column, ty));
    }
  }

  // ---------------------------------------------------------------------------
  // insert_data

  /** The state of one `insert_data` activation while it walks the object: the
      store, and the `columns`/`values` lists built so far. */
  datatype Pending = Pending(ts: Tables, cols: seq<string>, vals: seq<Value>)

  /** The `{key}_id` value stored for a child insert's result. */
  function IdValue(nested: Option<nat>): Value
  {
    if nested.Some? then VInt(nested.value) else VNull
  }

  /** The name of the sub-table a nested object or list goes to. */
  function SubTable(table: string, key: string): string
  {
    table + "_" + key
  }

  /** `n` is `table` or the name of a table nested below it. */
  predicate Below(n: string, table: string)
  {
    n == table || Text.StartsWith(n, table + "_")
  }

  /** A table below a sub-table is below its parent, and is not the parent. */
  lemma BelowSub(n: string, table: string, key: string)
    requires Below(n, SubTable(table, key))
    ensures Below(n, table) && n != table
  {
    assert (table + "_" + key)[..|table + "_"|] == table + "_";
    assert n[..|table + "_"|] == (table + "_" + key)[..|table + "_"|];
  }

  /** `insert_data(cursor, table, data, doc_id, ensure_column_exists)`: the new
      store and the returned id (None when nothing was inserted or the
      INSERT failed). */
  function InsertSpec(ts: Tables, table: string, fields: seq<Field>, docId: Value): (Tables, Option<nat>)
    decreases FieldsSize(fields), 4
  {
    var p := Collect(Pending(ts, ["doc_id"], [docId]), table, fields, docId);
    if |p.cols| > 1 then
      var (ts', out) := Insert(p.ts, table, p.cols, p.vals);
      (ts', if out.Inserted? then Some(out.id) else None)
    else (p.ts, None)
  }

  /** One key of the object: a nested object is inserted first and its id
      appended as `{key}_id`; each object in a list is inserted into the
      sub-table; a scalar is appended as is. Columns are ensured each time. */
  function Step(p: Pending, table: string, key: string, value: Json, docId: Value): (r: Pending)
    requires |p.cols| == |p.vals|
    ensures |r.cols| == |r.vals|
    ensures p.cols <= r.cols && p.vals <= r.vals
    decreases Size(value), 2
  {
    match value
    case JObj(fs) =>
      var (ts', nested) := InsertSpec(p.ts, SubTable(table, key), fs, docId);
      Pending(EnsureColumn(ts', table, key + "_id", "INTEGER"), p.cols + [key + "_id"], p.vals + [IdValue(nested)])
    case JArr(items) =>
      Pending(InsertItems(p.ts, SubTable(table, key), items, docId), p.cols, p.vals)
    case _ =>
      Pending(EnsureColumn(p.ts, table, key, GetSqlType(value).value), p.cols + [key], p.vals + [ToValue(value)])
  }

  /** The loop over `data.items()`, in key order. */
  function Collect(p: Pending, table: string, fields: seq<Field>, docId: Value): (r: Pending)
    requires |p.cols| == |p.vals|
    ensures |r.cols| == |r.vals|
    ensures p.cols <= r.cols && p.vals <= r.vals
    decreases FieldsSize(fields), 3
  {
    if fields == [] then p
    else Collect(Step(p, table, fields[0].0, fields[0].1, docId), table, fields[1..], docId)
  }

  /** One turn of that loop, on the key at position `i`. */
  lemma CollectNext(p: Pending, table: string, fields: seq<Field>, i: nat, docId: Value)
    requires |p.cols| == |p.vals| && i < |fields|
    ensures Collect(Step(p, table, fields[i].0, fields[i].1, docId), table, fields[i + 1..], docId)
         == Collect(p, table, fields[i..], docId)
  {
    assert fields[i..][0] == fields[i];
    assert fields[i..][1..] == fields[i + 1..];
  }

  /** The loop over a list's items: objects are inserted, the rest dropped. */
  function InsertItems(ts: Tables, table: string, items: seq<Json>, docId: Value): Tables
    decreases ItemsSize(items), 0
  {
    if items == [] then ts
    else
      var ts' := if items[0].JObj? then
          assert Size(items[0]) == 1 + FieldsSize(items[0].fields);
          InsertSpec(ts, table, items[0].fields, docId).0
        else ts;
      InsertItems(ts', table, items[1..], docId)
  }

  /** One turn of that loop, on the item at position `j`. */
  lemma InsertItemsNext(ts: Tables, table: string, items: seq<Json>, j: nat, docId: Value)
    requires j < |items|
    ensures InsertItems(ItemStore(ts, table, items[j], docId), table, items[j + 1..], docId)
         == InsertItems(ts, table, items[j..], docId)
  {
    assert items[j..][0] == items[j];
    assert items[j..][1..] == items[j + 1..];
  }

  /** `insert_data` with `ensure_column_exists` as its column callback. */
  method InsertData(db: Connection, table: string, fields: seq<Field>, docId: Value) returns (r: Option<nat>)
    requires db.Valid()
    modifies db
    ensures db.Valid() && db.committed == old(db.committed) && db.foreignKeys == old(db.foreignKeys)
    ensures (db.tables, r) == InsertSpec(old(db.tables), table, fields, docId)
    decreases FieldsSize(fields), 3
  {
    var columns := ["doc_id"];
    var values := [docId];
    ghost var goal := Collect(Pending(db.tables, columns, values), table, fields, docId);
    var i := 0;
    while i < |fields|
      invariant 0 <= i <= |fields|
      invariant db.Valid() && db.committed == old(db.committed) && db.foreignKeys == old(db.foreignKeys)
      invariant |columns| == |values|
      invariant Collect(Pending(db.tables, columns, values), table, fields[i..], docId) == goal
    {
      FieldsSizeAt(fields, i);
      ghost var before := Pending(db.tables, columns, values);
      columns, values := InsertField(db, table, fields[i].0, fields[i].1, docId, columns, values);
      CollectNext(before, table, fields, i, docId);
      i := i + 1;
    }
    assert fields[i..] == [];
    if |columns| > 1 {
      var out := db.Insert(table, columns, values);
      r := if out.Inserted? then Some(out.id) else None;
    } else {
      r := None;
    }
  }

  /** One turn of `insert_data`'s loop over `data.items()`: the key `key`
      with value `value`, added to the pending INSERT `columns`/`values`. */
  method InsertField(db: Connection, table: string, key: string, value: Json, docId: Value,
                     columns: seq<string>, values: seq<Value>)
    returns (columns': seq<string>, values': seq<Value>)
    requires db.Valid() && |columns| == |values|
    modifies db
    ensures db.Valid() && db.committed == old(db.committed) && db.foreignKeys == old(db.foreignKeys)
    ensures Pending(db.tables, columns', values')
         == Step(Pending(old(db.tables), columns, values), table, key, value, docId)
    decreases Size(value), 2
  {
    if value.JObj? {
      var nested := InsertData(db, SubTable(table, key), value.fields, docId);
      columns', values' := columns + [key + "_id"], values + [IdValue(nested)];
      EnsureColumnExists(db, table, key + "_id", "INTEGER");
    } else if value.JArr? {
      InsertList(db, SubTable(table, key), value.items, docId);
      columns', values' := columns, values;
    } else {
      var ty := GetSqlType(value);
      StepScalar(Pending(old(db.tables), columns, values), table, key, value, docId);
      columns', values' := columns + [key], values + [ToValue(value)];
      EnsureColumnExists(db, table, key, ty.value);
    }
  }

  /** The list branch of `insert_data`: every object of the list is inserted
      into `table`, in list order; other items are skipped. */
  method InsertList(db: Connection, table: string, items: seq<Json>, docId: Value)
    requires db.Valid()
    modifies db
    ensures db.Valid() && db.committed == old(db.committed) && db.foreignKeys == old(db.foreignKeys)
    ensures db.tables == InsertItems(old(db.tables), table, items, docId)
    decreases ItemsSize(items), 1
  {
    var j := 0;
    while j < |items|
      invariant 0 <= j <= |items|
      invariant db.Valid() && db.committed == old(db.committed) && db.foreignKeys == old(db.foreignKeys)
      invariant InsertItems(db.tables, table, items[j..], docId) == InsertItems(old(db.tables), table, items, docId)
    {
      ItemsSizeAt(items, j);
      ghost var here := db.tables;
      var item := items[j];
      if item.JObj? {
        var _ := InsertData(db, table, item.fields, docId);
      }
      assert db.tables == ItemStore(here, table, item, docId);
      InsertItemsNext(here, table, items, j, docId);
      j := j + 1;
    }
  }

  // ---------------------------------------------------------------------------
  // What insert_data does to the store

  /** `t'` extends `t`: same key and constraints, columns and rows only
      appended, and every appended row tagged with `docId`. */
  ghost predicate TableGrows(t: Table, t': Table, docId: Value)
  {
    && t'.key == t.key
    && t'.unique == t.unique
    && t.columns <= t'.columns
    && t.rows <= t'.rows
    && forall i | |t.rows| <= i < |t'.rows| :: Cell(t.key, t'.rows[i], "doc_id") == docId
  }

  /** The same tables exist, and each one grows as `TableGrows` says. */
  ghost predicate Grows(ts: Tables, ts': Tables, docId: Value)
  {
    ts'.Keys == ts.Keys && forall n | n in ts :: TableGrows(ts[n], ts'[n], docId)
  }

  lemma GrowsTrans(a: Tables, b: Tables, c: Tables, docId: Value)
    requires Grows(a, b, docId) && Grows(b, c, docId)
    ensures Grows(a, c, docId)
  {
    forall n | n in a
      ensures TableGrows(a[n], c[n], docId)
    {
      var ta, tb, tc := a[n], b[n], c[n];
      forall i | |ta.rows| <= i < |tc.rows|
        ensures Cell(ta.key, tc.rows[i], "doc_id") == docId
      {
        if i < |tb.rows| {
          assert tc.rows[i] == tb.rows[i];
        }
      }
    }
  }

  lemma EnsureColumnGrows(ts: Tables, name: string, column: string, ty: string, docId: Value)
    requires ValidStore(ts)
    ensures ValidStore(EnsureColumn(ts, name, column, ty))
    ensures Grows(ts, EnsureColumn(ts, name, column, ty), docId)
  {
    EnsureColumnSpec(ts, name, column, ty);
    var r := EnsureColumn(ts, name, column, ty);
    forall n | n in ts
      ensures TableGrows(ts[n], r[n], docId)
    {
      if name in ts && !HasColumn(ts[name], column) && n == name {
        assert r[n] == ts[n].(columns := ts[n].columns + [Column(column, ty)]);
      } else {
        assert r[n] == ts[n];
      }
    }
  }

  /** Every row `insert_data` writes, in any table of the tree, carries the
      `doc_id` it was given; nothing already stored changes, no table appears
      or disappears, and columns are only added. */
  lemma {:induction false} InsertSpecGrows(ts: Tables, table: string, fields: seq<Field>, docId: Value)
    requires ValidStore(ts)
    ensures ValidStore(InsertSpec(ts, table, fields, docId).0)
    ensures Grows(ts, InsertSpec(ts, table, fields, docId).0, docId)
    decreases FieldsSize(fields), 4
  {
    var p0 := Pending(ts, ["doc_id"], [docId]);
    var p := Collect(p0, table, fields, docId);
    CollectGrows(p0, table, fields, docId);
    if |p.cols| > 1 {
      InsertGrows(p.ts, table, p.cols, p.vals, docId);
      GrowsTrans(ts, p.ts, Insert(p.ts, table, p.cols, p.vals).0, docId);
    }
  }

  /** An INSERT whose first column is `doc_id = docId` grows the store. */
  lemma InsertGrows(ts: Tables, table: string, cols: seq<string>, vals: seq<Value>, docId: Value)
    requires ValidStore(ts) && |cols| == |vals| && |cols| >= 1
    requires cols[0] == "doc_id" && vals[0] == docId
    ensures ValidStore(Insert(ts, table, cols, vals).0)
    ensures Grows(ts, Insert(ts, table, cols, vals).0, docId)
  {
    InsertValid(ts, table, cols, vals);
    var (ts', out) := Insert(ts, table, cols, vals);
    if out.Inserted? {
      InsertAppends(ts, table, cols, vals);
      assert cols[0] !in cols[..0];
      RowAddedGrows(ts[table], ts'[table], docId);
      OneTableGrows(ts, ts', table, docId);
    }
  }

  /** A table that gains one row tagged with `docId`, and nothing else,
      grows. */
  lemma RowAddedGrows(t: Table, t': Table, docId: Value)
    requires t'.key == t.key && t'.unique == t.unique && t'.columns == t.columns
    requires |t'.rows| == |t.rows| + 1 && t'.rows[..|t.rows|] == t.rows
    requires Cell(t.key, t'.rows[|t.rows|], "doc_id") == docId
    ensures TableGrows(t, t', docId)
  {
  }

  /** A store where only one table changes, and that one grows, grows. */
  lemma OneTableGrows(ts: Tables, ts': Tables, name: string, docId: Value)
    requires name in ts && ts'.Keys == ts.Keys
    requires forall n | n in ts && n != name :: ts'[n] == ts[n]
    requires TableGrows(ts[name], ts'[name], docId)
    ensures Grows(ts, ts', docId)
  {
    forall n | n in ts ensures TableGrows(ts[n], ts'[n], docId) {
      if n != name {
        TableGrowsRefl(ts[n], docId);
      }
    }
  }

  lemma TableGrowsRefl(t: Table, docId: Value)
    ensures TableGrows(t, t, docId)
  {
  }

  lemma {:induction false} CollectGrows(p: Pending, table: string, fields: seq<Field>, docId: Value)
    requires ValidStore(p.ts) && |p.cols| == |p.vals|
    ensures ValidStore(Collect(p, table, fields, docId).ts)
    ensures Grows(p.ts, Collect(p, table, fields, docId).ts, docId)
    decreases FieldsSize(fields), 3
  {
    if fields != [] {
      var p' := Step(p, table, fields[0].0, fields[0].1, docId);
      StepGrows(p, table, fields[0].0, fields[0].1, docId);
      CollectGrows(p', table, fields[1..], docId);
      GrowsTrans(p.ts, p'.ts, Collect(p, table, fields, docId).ts, docId);
    }
  }

  lemma {:induction false} StepGrows(p: Pending, table: string, key: string, value: Json, docId: Value)
    requires ValidStore(p.ts) && |p.cols| == |p.vals|
    ensures ValidStore(Step(p, table, key, value, docId).ts)
    ensures Grows(p.ts, Step(p, table, key, value, docId).ts, docId)
    decreases Size(value), 2
  {
    match value
    case JObj(fs) =>
      var ts' := InsertSpec(p.ts, SubTable(table, key), fs, docId).0;
      InsertSpecGrows(p.ts, SubTable(table, key), fs, docId);
      EnsureColumnGrows(ts', table, key + "_id", "INTEGER", docId);
      GrowsTrans(p.ts, ts', EnsureColumn(ts', table, key + "_id", "INTEGER"), docId);
    case JArr(items) =>
      InsertItemsGrows(p.ts, SubTable(table, key), items, docId);
    case _ =>
      EnsureColumnGrows(p.ts, table, key, GetSqlType(value).value, docId);
  }

  lemma {:induction false} InsertItemsGrows(ts: Tables, table: string, items: seq<Json>, docId: Value)
    requires ValidStore(ts)
    ensures ValidStore(InsertItems(ts, table, items, docId))
    ensures Grows(ts, InsertItems(ts, table, items, docId), docId)
    decreases ItemsSize(items), 0
  {
    if items == [] {
      assert Grows(ts, ts, docId);
    } else {
      var ts' := ts;
      if items[0].JObj? {
        assert Size(items[0]) == 1 + FieldsSize(items[0].fields);
        ts' := InsertSpec(ts, table, items[0].fields, docId).0;
        InsertSpecGrows(ts, table, items[0].fields, docId);
      } else {
        assert Grows(ts, ts, docId);
      }
      InsertItemsGrows(ts', table, items[1..], docId);
      GrowsTrans(ts, ts', InsertItems(ts, table, items, docId), docId);
    }
  }

  /** The id `insert_data` returns is that of the row it appended last to its
      own table, a row tagged with the document's id. */
  lemma InsertSpecReturnsLastRow(ts: Tables, table: string, fields: seq<Field>, docId: Value)
    requires ValidStore(ts)
    ensures var (ts', r) := InsertSpec(ts, table, fields, docId);
      r.Some? ==>
        && table in ts'
        && |ts'[table].rows| > 0
        && ts'[table].rows[|ts'[table].rows| - 1].id == r.value
        && Cell(ts'[table].key, ts'[table].rows[|ts'[table].rows| - 1], "doc_id") == docId
  {
    var p0 := Pending(ts, ["doc_id"], [docId]);
    var p := Collect(p0, table, fields, docId);
    var (ts', r) := InsertSpec(ts, table, fields, docId);
    if r.Some? {
      assert |p.cols| > 1;
      var (ts1, out) := Insert(p.ts, table, p.cols, p.vals);
      assert out.Inserted? && ts' == ts1 && r.value == out.id;
      assert ValidStore(p.ts) by {
        CollectGrows(p0, table, fields, docId);
      }
      assert p.cols[0] == "doc_id" && p.vals[0] == docId;
      InsertLastRow(p.ts, table, p.cols, p.vals);
    }
  }

  lemma InsertLastRow(ts: Tables, table: string, cols: seq<string>, vals: seq<Value>)
    requires ValidStore(ts) && |cols| == |vals| && |cols| >= 1
    requires Insert(ts, table, cols, vals).1.Inserted?
    ensures var (ts', out) := Insert(ts, table, cols, vals);
      && table in ts'
      && |ts'[table].rows| > 0
      && ts'[table].rows[|ts'[table].rows| - 1].id == out.id
      && Cell(ts'[table].key, ts'[table].rows[|ts'[table].rows| - 1], cols[0]) == vals[0]
  {
    assert cols[..0] == [];
    InsertAppends(ts, table, cols, vals);
  }

  /** An object with no scalar and no nested object (only lists, or no keys)
      writes no row of its own: `insert_data` returns None and the object's
      table keeps exactly the rows it had. */
  lemma {:induction false} OnlyListsNoRow(ts: Tables, table: string, fields: seq<Field>, docId: Value)
    requires forall i | 0 <= i < |fields| :: fields[i].1.JArr?
    ensures InsertSpec(ts, table, fields, docId).1.None?
    ensures table in ts ==>
      table in InsertSpec(ts, table, fields, docId).0 && InsertSpec(ts, table, fields, docId).0[table].rows == ts[table].rows
  {
    OnlyListsKeepColumns(Pending(ts, ["doc_id"], [docId]), table, fields, docId);
    CollectFramed(Pending(ts, ["doc_id"], [docId]), table, fields, docId);
  }

  lemma {:induction false} OnlyListsKeepColumns(p: Pending, table: string, fields: seq<Field>, docId: Value)
    requires |p.cols| == |p.vals|
    requires forall i | 0 <= i < |fields| :: fields[i].1.JArr?
    ensures Collect(p, table, fields, docId).cols == p.cols
    decreases |fields|
  {
    if fields != [] {
      OnlyListsKeepColumns(Step(p, table, fields[0].0, fields[0].1, docId), table, fields[1..], docId);
    }
  }

  /** The columns of `p`'s list, after `doc_id`, are columns of `table`. */
  ghost predicate ColumnsPresent(p: Pending, table: string)
  {
    table in p.ts ==> forall i | 1 <= i < |p.cols| :: HasColumn(p.ts[table], p.cols[i])
  }

  /** Before the INSERT, every column in the list other than `doc_id` has been
      passed to `ensure_column_exists`, so an existing table has them all. */
  lemma {:induction false} CollectEnsuresColumns(p: Pending, table: string, fields: seq<Field>, docId: Value)
    requires ValidStore(p.ts) && |p.cols| == |p.vals|
    requires ColumnsPresent(p, table)
    ensures ColumnsPresent(Collect(p, table, fields, docId), table)
    decreases |fields|
  {
    if fields != [] {
      var p' := Step(p, table, fields[0].0, fields[0].1, docId);
      StepGrows(p, table, fields[0].0, fields[0].1, docId);
      StepEnsuresColumns(p, table, fields[0].0, fields[0].1, docId);
      CollectEnsuresColumns(p', table, fields[1..], docId);
    }
  }

  lemma StepEnsuresColumns(p: Pending, table: string, key: string, value: Json, docId: Value)
    requires ValidStore(p.ts) && |p.cols| == |p.vals|
    requires ColumnsPresent(p, table)
    ensures ColumnsPresent(Step(p, table, key, value, docId), table)
  {
    if value.JObj? {
      var ts1 := InsertSpec(p.ts, SubTable(table, key), value.fields, docId).0;
      InsertSpecGrows(p.ts, SubTable(table, key), value.fields, docId);
      EnsureColumnSpec(ts1, table, key + "_id", "INTEGER");
      var ts2 := EnsureColumn(ts1, table, key + "_id", "INTEGER");
      AppendPresent(p, table, ts1, ts2, key + "_id", IdValue(InsertSpec(p.ts, SubTable(table, key), value.fields, docId).1));
    } else if value.JArr? {
      InsertItemsGrows(p.ts, SubTable(table, key), value.items, docId);
      var ts1 := InsertItems(p.ts, SubTable(table, key), value.items, docId);
      if table in ts1 {
        ColumnsKept(p.ts[table], ts1[table], p.cols);
      }
    } else {
      EnsureColumnSpec(p.ts, table, key, GetSqlType(value).value);
      AppendPresent(p, table, p.ts, EnsureColumn(p.ts, table, key, GetSqlType(value).value), key, ToValue(value));
    }
  }

  /** Columns only appended keep the listed columns present; one more column
      that the ensure step made present extends the list. */
  lemma AppendPresent(p: Pending, table: string, ts1: Tables, ts2: Tables, c: string, v: Value)
    requires ColumnsPresent(p, table)
    requires ts1.Keys == p.ts.Keys && ts2.Keys == ts1.Keys
    requires table in p.ts ==> p.ts[table].columns <= ts1[table].columns <= ts2[table].columns
    requires table in ts2 ==> HasColumn(ts2[table], c)
    ensures ColumnsPresent(Pending(ts2, p.cols + [c], p.vals + [v]), table)
  {
    if table in ts2 {
      ColumnsKept(p.ts[table], ts2[table], p.cols);
    }
  }

  lemma ColumnsKept(a: Table, c: Table, cols: seq<string>)
    requires a.columns <= c.columns
    requires forall i | 1 <= i < |cols| :: HasColumn(a, cols[i])
    ensures forall i | 1 <= i < |cols| :: HasColumn(c, cols[i])
  {
    forall i | 1 <= i < |cols|
      ensures HasColumn(c, cols[i])
    {
      var k :| 0 <= k < |a.columns| && a.columns[k].name == cols[i];
      assert c.columns[k] == a.columns[k];
    }
  }

  // ---------------------------------------------------------------------------
  // The rows insert_data writes

  /** The columns one key contributes to its object's own row: the key for a
      scalar, `{key}_id` for a nested object, none for a list. */
  function ColumnOf(key: string, value: Json): seq<string>
  {
    if value.JArr? then [] else if value.JObj? then [key + "_id"] else [key]
  }

  /** The columns an object's keys contribute, in key order. */
  function ColumnsOf(fields: seq<Field>): seq<string>
  {
    if fields == [] then [] else ColumnOf(fields[0].0, fields[0].1) + ColumnsOf(fields[1..])
  }

  /** The INSERT's column list is `doc_id` followed by what each key
      contributes, whatever the store holds. */
  lemma {:induction false} CollectColumns(p: Pending, table: string, fields: seq<Field>, docId: Value)
    requires |p.cols| == |p.vals|
    ensures Collect(p, table, fields, docId).cols == p.cols + ColumnsOf(fields)
    decreases |fields|
  {
    if fields != [] {
      var p' := Step(p, table, fields[0].0, fields[0].1, docId);
      assert p'.cols == p.cols + ColumnOf(fields[0].0, fields[0].1);
      CollectColumns(p', table, fields[1..], docId);
    }
  }

  /** The key loop is a fold: running it on a prefix, then on the rest, is
      running it on the whole object. */
  lemma {:induction false} CollectSplit(p: Pending, table: string, fields: seq<Field>, i: nat, docId: Value)
    requires |p.cols| == |p.vals| && i <= |fields|
    ensures Collect(p, table, fields, docId) == Collect(Collect(p, table, fields[..i], docId), table, fields[i..], docId)
    decreases i
  {
    if i == 0 {
      assert fields[..0] == [] && fields[0..] == fields;
    } else {
      var p' := Step(p, table, fields[0].0, fields[0].1, docId);
      CollectSplit(p', table, fields[1..], i - 1, docId);
      assert fields[..i][0] == fields[0] && fields[..i][1..] == fields[1..][..i - 1];
      assert fields[1..][i - 1..] == fields[i..];
    }
  }

  /** Key `i` is handled on the store the earlier keys left, and what it
      appends sits at position `1 + |ColumnsOf(fields[..i])|` of the lists. */
  lemma CollectAt(ts: Tables, table: string, fields: seq<Field>, docId: Value, i: nat)
    requires i < |fields|
    ensures var p0 := Pending(ts, ["doc_id"], [docId]);
      var q := Collect(p0, table, fields[..i], docId);
      var s := Step(q, table, fields[i].0, fields[i].1, docId);
      var p := Collect(p0, table, fields, docId);
      && q.cols == ["doc_id"] + ColumnsOf(fields[..i])
      && s.cols <= p.cols && s.vals <= p.vals
  {
    var p0 := Pending(ts, ["doc_id"], [docId]);
    var q := Collect(p0, table, fields[..i], docId);
    CollectColumns(p0, table, fields[..i], docId);
    CollectSplit(p0, table, fields, i, docId);
    assert fields[i..][0] == fields[i] && fields[i..][1..] == fields[i + 1..];
  }

  /** `t'` is `t` with possibly more columns: same rows, key, counter and
      constraints. */
  ghost predicate RowsKept(t: Table, t': Table)
  {
    t' == t.(columns := t'.columns) && t.columns <= t'.columns
  }

  /** The same tables exist, and every table outside the subtree of `table`
      is unchanged. */
  ghost predicate Untouched(ts: Tables, ts': Tables, table: string)
  {
    ts'.Keys == ts.Keys && forall n | n in ts && !Below(n, table) :: ts'[n] == ts[n]
  }

  /** `insert_data` under `table` changes no table outside its subtree. */
  lemma {:induction false} InsertSpecFramed(ts: Tables, table: string, fields: seq<Field>, docId: Value)
    ensures Untouched(ts, InsertSpec(ts, table, fields, docId).0, table)
    decreases FieldsSize(fields), 4
  {
    var p := Collect(Pending(ts, ["doc_id"], [docId]), table, fields, docId);
    CollectFramed(Pending(ts, ["doc_id"], [docId]), table, fields, docId);
    if |p.cols| > 1 {
      var ts' := Insert(p.ts, table, p.cols, p.vals).0;
      assert forall n | n in p.ts && n != table :: ts'[n] == p.ts[n];
    }
  }

  /** The key loop changes `table` only by adding columns, and no table
      outside the subtree at all. */
  lemma {:induction false} CollectFramed(p: Pending, table: string, fields: seq<Field>, docId: Value)
    requires |p.cols| == |p.vals|
    ensures var ts' := Collect(p, table, fields, docId).ts;
      && Untouched(p.ts, ts', table)
      && (table in p.ts ==> RowsKept(p.ts[table], ts'[table]))
    decreases FieldsSize(fields), 3
  {
    if fields != [] {
      var p' := Step(p, table, fields[0].0, fields[0].1, docId);
      StepFramed(p, table, fields[0].0, fields[0].1, docId);
      CollectFramed(p', table, fields[1..], docId);
    }
  }

  lemma {:induction false} StepFramed(p: Pending, table: string, key: string, value: Json, docId: Value)
    requires |p.cols| == |p.vals|
    ensures var ts' := Step(p, table, key, value, docId).ts;
      && Untouched(p.ts, ts', table)
      && (table in p.ts ==> RowsKept(p.ts[table], ts'[table]))
    decreases Size(value), 2
  {
    var sub := SubTable(table, key);
    match value
    case JObj(fs) =>
      var ts1 := InsertSpec(p.ts, sub, fs, docId).0;
      InsertSpecFramed(p.ts, sub, fs, docId);
      SubFramed(p.ts, ts1, table, key);
      EnsureColumnFramed(ts1, table, key + "_id", "INTEGER");
    case JArr(items) =>
      InsertItemsFramed(p.ts, sub, items, docId);
      SubFramed(p.ts, InsertItems(p.ts, sub, items, docId), table, key);
    case _ =>
      EnsureColumnFramed(p.ts, table, key, GetSqlType(value).value);
  }

  /** A change confined to a sub-table's subtree is confined to the parent's
      subtree and leaves the parent itself alone. */
  lemma SubFramed(ts: Tables, ts': Tables, table: string, key: string)
    requires Untouched(ts, ts', SubTable(table, key))
    ensures Untouched(ts, ts', table)
    ensures table in ts ==> ts'[table] == ts[table]
  {
    var sub := SubTable(table, key);
    assert !Below(table, sub) by {
      if Below(table, sub) { BelowSub(table, table, key); }
    }
    forall n | !Below(n, table) ensures !Below(n, sub) {
      if Below(n, sub) { BelowSub(n, table, key); }
    }
  }

  /** Ensuring a column of `table` changes only that table's columns. */
  lemma EnsureColumnFramed(ts: Tables, table: string, column: string, ty: string)
    ensures var ts' := EnsureColumn(ts, table, column, ty);
      && Untouched(ts, ts', table)
      && (table in ts ==> RowsKept(ts[table], ts'[table]))
  {
    EnsureColumnSpec(ts, table, column, ty);
  }

  lemma {:induction false} InsertItemsFramed(ts: Tables, table: string, items: seq<Json>, docId: Value)
    ensures Untouched(ts, InsertItems(ts, table, items, docId), table)
    decreases ItemsSize(items), 0
  {
    if items != [] {
      var ts' := ts;
      if items[0].JObj? {
        assert Size(items[0]) == 1 + FieldsSize(items[0].fields);
        ts' := InsertSpec(ts, table, items[0].fields, docId).0;
        InsertSpecFramed(ts, table, items[0].fields, docId);
      }
      InsertItemsFramed(ts', table, items[1..], docId);
    }
  }

  lemma HasColumnKept(a: Table, c: Table, name: string)
    requires a.columns <= c.columns && HasColumn(a, name)
    ensures HasColumn(c, name)
  {
    var k :| 0 <= k < |a.columns| && a.columns[k].name == name;
    assert c.columns[k] == a.columns[k];
  }

  /** The INSERT of an object's own row can succeed: its table exists with
      a `doc_id` column and no UNIQUE constraint, the key column is not
      named, and some key gives the row a column. */
  ghost predicate RowFits(ts: Tables, table: string, fields: seq<Field>)
  {
    && table in ts
    && ts[table].unique == {}
    && HasColumn(ts[table], "doc_id")
    && ts[table].key !in ["doc_id"] + ColumnsOf(fields)
    && ColumnsOf(fields) != []
  }

  /** The object's own table gains one row exactly when an id is returned,
      appended after the rows it had; no id comes back for an object whose
      keys give no column or whose table is missing; and an id always comes
      back when the row fits, whatever the nested inserts did. */
  lemma InsertSpecOwnRow(ts: Tables, table: string, fields: seq<Field>, docId: Value)
    requires ValidStore(ts)
    ensures var (ts', r) := InsertSpec(ts, table, fields, docId);
      && (r.Some? ==> table in ts && ColumnsOf(fields) != [])
      && (table in ts ==>
            && table in ts'
            && ts[table].rows <= ts'[table].rows
            && |ts'[table].rows| == |ts[table].rows| + (if r.Some? then 1 else 0)
            && ts'[table].key == ts[table].key && ts'[table].unique == ts[table].unique
            && ts[table].columns <= ts'[table].columns)
      && (RowFits(ts, table, fields) ==> r.Some?)
  {
    var p0 := Pending(ts, ["doc_id"], [docId]);
    var p := Collect(p0, table, fields, docId);
    CollectColumns(p0, table, fields, docId);
    CollectFramed(p0, table, fields, docId);
    CollectGrows(p0, table, fields, docId);
    var (ts', out) := Insert(p.ts, table, p.cols, p.vals);
    if |p.cols| > 1 && out.Inserted? {
      InsertAppends(p.ts, table, p.cols, p.vals);
    }
    if RowFits(ts, table, fields) {
      CollectEnsuresColumns(p0, table, fields, docId);
      HasColumnKept(ts[table], p.ts[table], "doc_id");
      assert Insertable(p.ts, table, p.cols);
      assert !UniqueClash(p.ts[table], CellsOf(p.cols, p.vals));
    }
  }

  /** A scalar key whose column the INSERT does not name earlier is stored
      in the object's row as its value. */
  lemma InsertSpecScalarCell(ts: Tables, table: string, fields: seq<Field>, docId: Value, i: nat)
    requires ValidStore(ts)
    requires i < |fields| && IsScalar(fields[i].1)
    requires fields[i].0 !in ["doc_id"] + ColumnsOf(fields[..i])
    ensures var (ts', r) := InsertSpec(ts, table, fields, docId);
      r.Some? ==>
        && table in ts' && |ts'[table].rows| > 0
        && Cell(ts'[table].key, ts'[table].rows[|ts'[table].rows| - 1], fields[i].0) == ToValue(fields[i].1)
  {
    var p0 := Pending(ts, ["doc_id"], [docId]);
    var p := Collect(p0, table, fields, docId);
    var q := Collect(p0, table, fields[..i], docId);
    CollectAt(ts, table, fields, docId, i);
    var k := |q.cols|;
    StepScalar(q, table, fields[i].0, fields[i].1, docId);
    assert p.cols[k] == fields[i].0 && p.vals[k] == ToValue(fields[i].1);
    assert p.cols[..k] == q.cols;
    LastRowCell(ts, table, fields, docId, k);
  }

  /** Column `k` of the INSERT, when the list does not name it earlier, is
      stored in the object's row as value `k`. */
  lemma LastRowCell(ts: Tables, table: string, fields: seq<Field>, docId: Value, k: nat)
    requires ValidStore(ts)
    requires var p := Collect(Pending(ts, ["doc_id"], [docId]), table, fields, docId);
      k < |p.cols| && p.cols[k] !in p.cols[..k]
    ensures var p := Collect(Pending(ts, ["doc_id"], [docId]), table, fields, docId);
      var (ts', r) := InsertSpec(ts, table, fields, docId);
      r.Some? ==>
        && table in ts' && |ts'[table].rows| > 0
        && Cell(ts'[table].key, ts'[table].rows[|ts'[table].rows| - 1], p.cols[k]) == p.vals[k]
  {
    var p0 := Pending(ts, ["doc_id"], [docId]);
    var p := Collect(p0, table, fields, docId);
    var (ts', r) := InsertSpec(ts, table, fields, docId);
    if r.Some? {
      assert |p.cols| > 1;
      var (ts1, out) := Insert(p.ts, table, p.cols, p.vals);
      assert out.Inserted? && ts' == ts1;
      assert ValidStore(p.ts) by {
        CollectGrows(p0, table, fields, docId);
      }
      InsertCellAt(p.ts, table, p.cols, p.vals, k);
    }
  }

  lemma InsertCellAt(ts: Tables, name: string, cols: seq<string>, vals: seq<Value>, k: nat)
    requires |cols| == |vals| && ValidStore(ts)
    requires k < |cols| && cols[k] !in cols[..k]
    requires Insert(ts, name, cols, vals).1.Inserted?
    ensures var ts' := Insert(ts, name, cols, vals).0;
      && name in ts' && |ts'[name].rows| > 0
      && Cell(ts'[name].key, ts'[name].rows[|ts'[name].rows| - 1], cols[k]) == vals[k]
  {
    InsertAppends(ts, name, cols, vals);
  }

  lemma StepScalar(q: Pending, table: string, key: string, value: Json, docId: Value)
    requires |q.cols| == |q.vals| && IsScalar(value)
    ensures Step(q, table, key, value, docId).cols == q.cols + [key]
    ensures Step(q, table, key, value, docId).vals == q.vals + [ToValue(value)]
  {
  }

  /** A nested object is inserted into its sub-table first, on the store
      the earlier keys left; unless the INSERT names `{key}_id` earlier, the
      object's row holds the child's returned id under `{key}_id`, or NULL
      when the child inserted nothing. */
  lemma InsertSpecChildLink(ts: Tables, table: string, fields: seq<Field>, docId: Value, i: nat)
    requires ValidStore(ts)
    requires i < |fields| && fields[i].1.JObj?
    requires fields[i].0 + "_id" !in ["doc_id"] + ColumnsOf(fields[..i])
    ensures var before := Collect(Pending(ts, ["doc_id"], [docId]), table, fields[..i], docId).ts;
      var child := InsertSpec(before, SubTable(table, fields[i].0), fields[i].1.fields, docId).1;
      var (ts', r) := InsertSpec(ts, table, fields, docId);
      r.Some? ==>
        && table in ts' && |ts'[table].rows| > 0
        && Cell(ts'[table].key, ts'[table].rows[|ts'[table].rows| - 1], fields[i].0 + "_id") == IdValue(child)
  {
    var p0 := Pending(ts, ["doc_id"], [docId]);
    var p := Collect(p0, table, fields, docId);
    var q := Collect(p0, table, fields[..i], docId);
    CollectAt(ts, table, fields, docId, i);
    var k := |q.cols|;
    assert p.cols[k] == fields[i].0 + "_id";
    assert p.cols[..k] == q.cols;
    LastRowCell(ts, table, fields, docId, k);
  }

  /** The objects of a list whose keys give their row a column. */
  function RowItems(items: seq<Json>): nat
  {
    if items == [] then 0
    else (if items[0].JObj? && ColumnsOf(items[0].fields) != [] then 1 else 0) + RowItems(items[1..])
  }

  /** Every object of a list becomes one row of the sub-table, appended
      after its rows; an item that is not an object, or an object with only
      lists, adds no row there. The sub-table must exist with a `doc_id`
      column and no UNIQUE constraint, and no item may name its key column.
      Which row belongs to which item is `InsertItemsRowOf`. */
  lemma {:induction false} InsertItemsRows(ts: Tables, table: string, items: seq<Json>, docId: Value)
    requires ValidStore(ts) && table in ts
    requires ts[table].unique == {} && HasColumn(ts[table], "doc_id") && ts[table].key != "doc_id"
    requires forall j | 0 <= j < |items| && items[j].JObj? :: ts[table].key !in ColumnsOf(items[j].fields)
    ensures var ts' := InsertItems(ts, table, items, docId);
      && table in ts'
      && ts[table].rows <= ts'[table].rows
      && |ts'[table].rows| == |ts[table].rows| + RowItems(items)
    decreases |items|
  {
    if items != [] {
      var ts1 := ts;
      if items[0].JObj? {
        assert Size(items[0]) == 1 + FieldsSize(items[0].fields);
        ts1 := InsertSpec(ts, table, items[0].fields, docId).0;
        InsertSpecOwnRow(ts, table, items[0].fields, docId);
        InsertSpecGrows(ts, table, items[0].fields, docId);
        HasColumnKept(ts[table], ts1[table], "doc_id");
      }
      assert forall j | 0 <= j < |items[1..]| && items[1..][j].JObj? :: ts1[table].key !in ColumnsOf(items[1..][j].fields) by {
        forall j | 0 <= j < |items[1..]| && items[1..][j].JObj?
          ensures ts1[table].key !in ColumnsOf(items[1..][j].fields)
        {
          assert items[1..][j] == items[j + 1];
        }
      }
      InsertItemsRows(ts1, table, items[1..], docId);
    }
  }

  /** A row written for the object `fields`: it carries the document's id,
      and each scalar key the INSERT names first holds that key's value. */
  ghost predicate ItemRow(key: string, row: Row, fields: seq<Field>, docId: Value)
  {
    && Cell(key, row, "doc_id") == docId
    && forall i | 0 <= i < |fields| && IsScalar(fields[i].1) && fields[i].0 !in ["doc_id"] + ColumnsOf(fields[..i]) ::
         Cell(key, row, fields[i].0) == ToValue(fields[i].1)
  }

  /** The row `insert_data` appends for an object is that object's row. */
  lemma InsertSpecItemRow(ts: Tables, table: string, fields: seq<Field>, docId: Value)
    requires ValidStore(ts)
    ensures var (ts', r) := InsertSpec(ts, table, fields, docId);
      r.Some? ==>
        && table in ts' && |ts'[table].rows| > 0
        && ItemRow(ts'[table].key, ts'[table].rows[|ts'[table].rows| - 1], fields, docId)
  {
    InsertSpecReturnsLastRow(ts, table, fields, docId);
    forall i | 0 <= i < |fields| && IsScalar(fields[i].1) && fields[i].0 !in ["doc_id"] + ColumnsOf(fields[..i])
      ensures var (ts', r) := InsertSpec(ts, table, fields, docId);
        r.Some? ==> Cell(ts'[table].key, ts'[table].rows[|ts'[table].rows| - 1], fields[i].0) == ToValue(fields[i].1)
    {
      InsertSpecScalarCell(ts, table, fields, docId, i);
    }
  }

  /** Rows come in list order: the object at position `j` of the list owns
      the row at `|rows| + RowItems(items[..j])` of the sub-table, the rows
      already there followed by one row per earlier object that gave a
      column; that row carries the document's id and the object's scalar
      values. */
  lemma {:induction false} InsertItemsRowOf(ts: Tables, table: string, items: seq<Json>, docId: Value, j: nat)
    requires ValidStore(ts) && table in ts
    requires ts[table].unique == {} && HasColumn(ts[table], "doc_id") && ts[table].key != "doc_id"
    requires forall j | 0 <= j < |items| && items[j].JObj? :: ts[table].key !in ColumnsOf(items[j].fields)
    requires j < |items| && items[j].JObj? && ColumnsOf(items[j].fields) != []
    ensures var ts' := InsertItems(ts, table, items, docId);
      var n := |ts[table].rows| + RowItems(items[..j]);
      && table in ts' && n < |ts'[table].rows|
      && ItemRow(ts[table].key, ts'[table].rows[n], items[j].fields, docId)
    decreases |items|, 1
  {
    if j == 0 {
      FirstItemRow(ts, table, items, docId);
    } else {
      LaterItemRow(ts, table, items, docId, j);
    }
  }

  /** The first object's row comes right after the old rows. */
  lemma FirstItemRow(ts: Tables, table: string, items: seq<Json>, docId: Value)
    requires ValidStore(ts) && table in ts
    requires ts[table].unique == {} && HasColumn(ts[table], "doc_id") && ts[table].key != "doc_id"
    requires forall j | 0 <= j < |items| && items[j].JObj? :: ts[table].key !in ColumnsOf(items[j].fields)
    requires items != [] && items[0].JObj? && ColumnsOf(items[0].fields) != []
    ensures var ts' := InsertItems(ts, table, items, docId);
      var n := |ts[table].rows| + RowItems(items[..0]);
      && table in ts' && n < |ts'[table].rows|
      && ItemRow(ts[table].key, ts'[table].rows[n], items[0].fields, docId)
  {
    assert items[..0] == [];
    ItemsHead(ts, table, items, docId);
    var ts1 := ItemStore(ts, table, items[0], docId);
    InsertItemsRows(ts1, table, items[1..], docId);
    var n := |ts[table].rows|;
    assert InsertItems(ts1, table, items[1..], docId)[table].rows[n] == ts1[table].rows[n];
  }

  /** A later object's row is where the rest of the list puts it. */
  lemma {:induction false} LaterItemRow(ts: Tables, table: string, items: seq<Json>, docId: Value, j: nat)
    requires ValidStore(ts) && table in ts
    requires ts[table].unique == {} && HasColumn(ts[table], "doc_id") && ts[table].key != "doc_id"
    requires forall j | 0 <= j < |items| && items[j].JObj? :: ts[table].key !in ColumnsOf(items[j].fields)
    requires 0 < j < |items| && items[j].JObj? && ColumnsOf(items[j].fields) != []
    ensures var ts' := InsertItems(ts, table, items, docId);
      var n := |ts[table].rows| + RowItems(items[..j]);
      && table in ts' && n < |ts'[table].rows|
      && ItemRow(ts[table].key, ts'[table].rows[n], items[j].fields, docId)
    decreases |items|, 0
  {
    ItemsHead(ts, table, items, docId);
    var ts1 := ItemStore(ts, table, items[0], docId);
    assert items[1..][j - 1] == items[j];
    assert |ts1[table].rows| + RowItems(items[1..][..j - 1]) == |ts[table].rows| + RowItems(items[..j]) by {
      RowItemsCons(items, j);
    }
    InsertItemsRowOf(ts1, table, items[1..], docId, j - 1);
  }

  /** The store after the first item of a list's loop. */
  function ItemStore(ts: Tables, table: string, item: Json, docId: Value): Tables
  {
    if item.JObj? then InsertSpec(ts, table, item.fields, docId).0 else ts
  }

  /** The first item of the list: the rest of the loop runs on the store it
      leaves, which keeps the sub-table's shape and, for an object that gives
      a column, holds that object's row after the old ones. */
  lemma ItemsHead(ts: Tables, table: string, items: seq<Json>, docId: Value)
    requires ValidStore(ts) && table in ts && items != []
    requires ts[table].unique == {} && HasColumn(ts[table], "doc_id") && ts[table].key != "doc_id"
    requires forall j | 0 <= j < |items| && items[j].JObj? :: ts[table].key !in ColumnsOf(items[j].fields)
    ensures var ts1 := ItemStore(ts, table, items[0], docId);
      && InsertItems(ts, table, items, docId) == InsertItems(ts1, table, items[1..], docId)
      && ValidStore(ts1) && table in ts1
      && ts1[table].unique == {} && HasColumn(ts1[table], "doc_id") && ts1[table].key == ts[table].key
      && ts[table].rows <= ts1[table].rows
      && |ts1[table].rows| == |ts[table].rows| + (if items[0].JObj? && ColumnsOf(items[0].fields) != [] then 1 else 0)
      && (items[0].JObj? && ColumnsOf(items[0].fields) != [] ==>
            ItemRow(ts[table].key, ts1[table].rows[|ts[table].rows|], items[0].fields, docId))
      && forall i | 0 <= i < |items[1..]| && items[1..][i].JObj? :: ts1[table].key !in ColumnsOf(items[1..][i].fields)
  {
    ItemStoreShape(ts, table, items[0], docId);
    var key := ItemStore(ts, table, items[0], docId)[table].key;
    forall i | 0 <= i < |items[1..]| && items[1..][i].JObj?
      ensures key !in ColumnsOf(items[1..][i].fields)
    {
      assert items[1..][i] == items[i + 1];
    }
  }

  /** One item's insert keeps the sub-table's shape and appends that item's
      row when it gives a column. */
  lemma ItemStoreShape(ts: Tables, table: string, item: Json, docId: Value)
    requires ValidStore(ts) && table in ts
    requires ts[table].unique == {} && HasColumn(ts[table], "doc_id") && ts[table].key != "doc_id"
    requires item.JObj? ==> ts[table].key !in ColumnsOf(item.fields)
    ensures var ts1 := ItemStore(ts, table, item, docId);
      && ValidStore(ts1) && table in ts1
      && ts1[table].unique == {} && HasColumn(ts1[table], "doc_id") && ts1[table].key == ts[table].key
      && ts[table].rows <= ts1[table].rows
      && |ts1[table].rows| == |ts[table].rows| + (if item.JObj? && ColumnsOf(item.fields) != [] then 1 else 0)
      && (item.JObj? && ColumnsOf(item.fields) != [] ==>
            ItemRow(ts[table].key, ts1[table].rows[|ts[table].rows|], item.fields, docId))
  {
    if item.JObj? {
      var fs := item.fields;
      var (ts1, r) := InsertSpec(ts, table, fs, docId);
      InsertSpecOwnRow(ts, table, fs, docId);
      assert ValidStore(ts1) by { InsertSpecGrows(ts, table, fs, docId); }
      assert HasColumn(ts1[table], "doc_id") by { HasColumnKept(ts[table], ts1[table], "doc_id"); }
      if ColumnsOf(fs) != [] {
        assert RowFits(ts, table, fs);
        InsertSpecItemRow(ts, table, fs, docId);
      }
    }
  }

  lemma RowItemsCons(items: seq<Json>, j: nat)
    requires 0 < j <= |items|
    ensures RowItems(items[..j]) == (if items[0].JObj? && ColumnsOf(items[0].fields) != [] then 1 else 0) + RowItems(items[1..][..j - 1])
  {
    assert items[..j][1..] == items[1..][..j - 1];
  }
}
