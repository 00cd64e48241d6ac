/** The dynamic JSON-to-relational loader: it infers a table schema from each
    document's JSON tree, creates the tables that are missing, and inserts the
    tree row by row, every row tagged with the document's registry id. */
module JsonToDb {
  import opened Wrappers
  import opened JsonValue
  import opened Store
  import opened Database
  import opened SqlUtils
  import opened DocRegistry
  import opened Sorting
  import Text

  /** The surrogate key every inferred table gets. */
  const PkDef := Column("pk", "INTEGER PRIMARY KEY AUTOINCREMENT")

  /** The document column every inferred table gets. */
  const DocIdDef := Column("doc_id", "INTEGER")

  /** The table the root object of every document goes to. */
  const MainTable := "main_table"

  /** `self.table_schemas`: column definitions per table, with the tables in
      the order they were first seen (the dict's iteration order). */
  datatype Schema = Schema(order: seq<string>, defs: map<string, set<Column>>)

  const EmptySchema := Schema([], map[])

  /** Tables listed once each, exactly the keys of `defs`, and every table
      registered with its key and document columns. */
  ghost predicate SchemaOk(s: Schema)
  {
    && (forall i | 0 <= i < |s.order| :: s.order[i] in s.defs)
    && (forall n | n in s.defs :: n in s.order)
    && (forall i, j | 0 <= i < j < |s.order| :: s.order[i] != s.order[j])
    && (forall n | n in s.defs :: PkDef in s.defs[n] && DocIdDef in s.defs[n])
  }

  /** `s'` extends `s`: tables only appended, definitions only added. */
  ghost predicate Extends(s: Schema, s': Schema)
  {
    && s.order <= s'.order
    && forall n | n in s.defs :: n in s'.defs && s.defs[n] <= s'.defs[n]
  }

  /** The first sight of a table registers it with `pk` and `doc_id`. */
  function Register(s: Schema, table: string): (r: Schema)
    ensures table in r.defs
    ensures Extends(s, r)
    ensures SchemaOk(s) ==> SchemaOk(r)
  {
    if table in s.defs then s
    else Schema(s.order + [table], s.defs[table := {PkDef, DocIdDef}])
  }

  /** `self.table_schemas[table].add(d)` */
  function AddDef(s: Schema, table: string, d: Column): (r: Schema)
    requires table in s.defs
    ensures table in r.defs && d in r.defs[table]
    ensures Extends(s, r)
    ensures SchemaOk(s) ==> SchemaOk(r)
  {
    s.(defs := s.defs[table := s.defs[table] + {d}])
  }

  /** `gather_schema(table, data)` */
  function Gather(s: Schema, table: string, fields: seq<Field>): (r: Schema)
    ensures table in r.defs
    ensures Extends(s, r)
    ensures SchemaOk(s) ==> SchemaOk(r)
    decreases FieldsSize(fields), 4
  {
    GatherFields(Register(s, table), table, fields)
  }

  /** The loop over `data.items()` in `gather_schema`. */
  function GatherFields(s: Schema, table: string, fields: seq<Field>): (r: Schema)
    requires table in s.defs
    ensures table in r.defs
    ensures Extends(s, r)
    ensures SchemaOk(s) ==> SchemaOk(r)
    decreases FieldsSize(fields), 3
  {
    if fields == [] then s
    else GatherFields(GatherStep(s, table, fields[0].0, fields[0].1), table, fields[1..])
  }

  /** One key: an object recurses into `{table}_{key}` and adds `{key}_id`;
      a list recurses each object item into `{table}_{key}`; a scalar adds
      `{key} {TYPE}`. */
  function GatherStep(s: Schema, table: string, key: string, value: Json): (r: Schema)
    requires table in s.defs
    ensures table in r.defs
    ensures Extends(s, r)
    ensures SchemaOk(s) ==> SchemaOk(r)
    decreases Size(value), 2
  {
    match value
    case JObj(fs) => AddDef(Gather(s, SubTable(table, key), fs), table, Column(key + "_id", "INTEGER"))
    case JArr(items) => GatherItems(s, SubTable(table, key), items)
    case _ => AddDef(s, table, Column(key, GetSqlType(value).value))
  }

  /** The loop over a list's items in `gather_schema`. */
  function GatherItems(s: Schema, table: string, items: seq<Json>): (r: Schema)
    ensures Extends(s, r)
    ensures SchemaOk(s) ==> SchemaOk(r)
    decreases ItemsSize(items), 0
  {
    if items == [] then s
    else if items[0].JObj? then
      assert Size(items[0]) == 1 + FieldsSize(items[0].fields);
      GatherItems(Gather(s, table, items[0].fields), table, items[1..])
    else GatherItems(s, table, items[1..])
  }

  /** One key of the loop: what is left to gather after key `i`. */
  lemma GatherFieldsAt(before: Schema, after: Schema, table: string, fields: seq<Field>, i: nat, goal: Schema)
    requires i < |fields| && table in before.defs
    requires GatherFields(before, table, fields[i..]) == goal
    requires after == GatherStep(before, table, fields[i].0, fields[i].1)
    ensures GatherFields(after, table, fields[i + 1..]) == goal
  {
    assert fields[i..][1..] == fields[i + 1..];
  }

  /** One item of the loop. */
  lemma GatherItemsAt(before: Schema, after: Schema, table: string, items: seq<Json>, j: nat, goal: Schema)
    requires j < |items|
    requires GatherItems(before, table, items[j..]) == goal
    requires after == if items[j].JObj? then Gather(before, table, items[j].fields) else before
    ensures GatherItems(after, table, items[j + 1..]) == goal
  {
    assert items[j..][1..] == items[j + 1..];
  }

  // ---------------------------------------------------------------------------
  // What gather_schema infers

  /** The definitions one key contributes to its own table. */
  function OwnDef(key: string, value: Json): set<Column>
  {
    if value.JObj? then {Column(key + "_id", "INTEGER")}
    else if value.JArr? then {}
    else {Column(key, GetSqlType(value).value)}
  }

  function OwnDefs(fields: seq<Field>): set<Column>
  {
    if fields == [] then {} else OwnDef(fields[0].0, fields[0].1) + OwnDefs(fields[1..])
  }

  /** Gathering under `table` touches no table outside its own subtree. */
  ghost predicate Framed(s: Schema, r: Schema, table: string)
  {
    forall n | n in r.defs && !Below(n, table) :: n in s.defs && r.defs[n] == s.defs[n]
  }

  /** Only tables in the subtree of `table` change. */
  lemma {:induction false} GatherFramed(s: Schema, table: string, fields: seq<Field>)
    ensures Framed(s, Gather(s, table, fields), table)
    decreases FieldsSize(fields), 4
  {
    GatherFieldsFramed(Register(s, table), table, fields);
  }

  lemma {:induction false} GatherFieldsFramed(s: Schema, table: string, fields: seq<Field>)
    requires table in s.defs
    ensures Framed(s, GatherFields(s, table, fields), table)
    decreases FieldsSize(fields), 3
  {
    if fields != [] {
      var s' := GatherStep(s, table, fields[0].0, fields[0].1);
      GatherStepFramed(s, table, fields[0].0, fields[0].1);
      GatherFieldsFramed(s', table, fields[1..]);
    }
  }

  lemma {:induction false} GatherStepFramed(s: Schema, table: string, key: string, value: Json)
    requires table in s.defs
    ensures Framed(s, GatherStep(s, table, key, value), table)
    decreases Size(value), 2
  {
    var sub := SubTable(table, key);
    match value
    case JObj(fs) =>
      GatherFramed(s, sub, fs);
      forall n | !Below(n, table) ensures !Below(n, sub) {
        if Below(n, sub) { BelowSub(n, table, key); }
      }
    case JArr(items) =>
      GatherItemsFramed(s, sub, items);
      forall n | !Below(n, table) ensures !Below(n, sub) {
        if Below(n, sub) { BelowSub(n, table, key); }
      }
    case _ =>
  }

  lemma {:induction false} GatherItemsFramed(s: Schema, table: string, items: seq<Json>)
    ensures Framed(s, GatherItems(s, table, items), table)
    decreases ItemsSize(items), 0
  {
    if items != [] {
      if items[0].JObj? {
        assert Size(items[0]) == 1 + FieldsSize(items[0].fields);
        GatherFramed(s, table, items[0].fields);
        GatherItemsFramed(Gather(s, table, items[0].fields), table, items[1..]);
      } else {
        GatherItemsFramed(s, table, items[1..]);
      }
    }
  }

  /** The definitions of the table itself are exactly what it had (or `pk`
      and `doc_id` on first sight) plus one per object or scalar key: a list
      adds nothing to its parent. */
  lemma {:induction false} GatherOwnTable(s: Schema, table: string, fields: seq<Field>)
    ensures Gather(s, table, fields).defs[table] ==
      (if table in s.defs then s.defs[table] else {PkDef, DocIdDef}) + OwnDefs(fields)
  {
    GatherFieldsOwnTable(Register(s, table), table, fields);
  }

  lemma {:induction false} GatherFieldsOwnTable(s: Schema, table: string, fields: seq<Field>)
    requires table in s.defs
    ensures GatherFields(s, table, fields).defs[table] == s.defs[table] + OwnDefs(fields)
    decreases |fields|
  {
    if fields != [] {
      var (key, value) := (fields[0].0, fields[0].1);
      var s' := GatherStep(s, table, key, value);
      assert s'.defs[table] == s.defs[table] + OwnDef(key, value) by {
        var sub := SubTable(table, key);
        assert !Below(table, sub) by {
          if Below(table, sub) { BelowSub(table, table, key); }
        }
        if value.JObj? {
          GatherFramed(s, sub, value.fields);
        } else if value.JArr? {
          GatherItemsFramed(s, sub, value.items);
        }
      }
      GatherFieldsOwnTable(s', table, fields[1..]);
    }
  }

  /** The same key with an integer in one document and a string in another
      leaves two definitions for one column name, so the table cannot be
      created from them. */
  lemma SameKeyTwoTypes()
    ensures var s1 := Gather(EmptySchema, MainTable, [("n", JInt(1))]);
      var s2 := Gather(s1, MainTable, [("n", JStr("x"))]);
      && s2.defs[MainTable] == {PkDef, DocIdDef, Column("n", "INTEGER"), Column("n", "TEXT")}
      && !Creatable(MainTable, s2.defs[MainTable])
  {
    var f1: seq<Field> := [("n", JInt(1))];
    var f2: seq<Field> := [("n", JStr("x"))];
    assert OwnDefs(f1) == {Column("n", "INTEGER")} by {
      assert f1[1..] == [];
    }
    assert OwnDefs(f2) == {Column("n", "TEXT")} by {
      assert f2[1..] == [];
    }
    GatherOwnTable(EmptySchema, MainTable, f1);
    var s1 := Gather(EmptySchema, MainTable, f1);
    GatherOwnTable(s1, MainTable, f2);
    var d := Gather(s1, MainTable, f2).defs[MainTable];
    assert Column("n", "INTEGER") in d && Column("n", "TEXT") in d;
  }

  /** The document `{"a": 1, "b": {"c": "x"}, "d": [{"e": 2}, {"e": 3}]}`. */
  const Sample: seq<Field> := [
    ("a", JInt(1)),
    ("b", JObj([("c", JStr("x"))])),
    ("d", JArr([JObj([("e", JInt(2))]), JObj([("e", JInt(3))])]))]

  const Base := {PkDef, DocIdDef}

  /** The schema after the sample's first key. */
  const SampleA := Schema([MainTable], map[MainTable := Base + {Column("a", "INTEGER")}])

  /** The schema after the sample's second key. */
  const SampleB := Schema([MainTable, "main_table_b"], map[
    MainTable := Base + {Column("a", "INTEGER"), Column("b_id", "INTEGER")},
    "main_table_b" := Base + {Column("c", "TEXT")}])

  /** The schema after the whole sample. */
  const SampleD := Schema([MainTable, "main_table_b", "main_table_d"], map[
    MainTable := Base + {Column("a", "INTEGER"), Column("b_id", "INTEGER")},
    "main_table_b" := Base + {Column("c", "TEXT")},
    "main_table_d" := Base + {Column("e", "INTEGER")}])

  lemma GatherSampleA()
    ensures GatherStep(Register(EmptySchema, MainTable), MainTable, "a", JInt(1)) == SampleA
  {
  }

  /** One scalar field gathered into a table. */
  lemma GatherOneScalar(s: Schema, table: string, key: string, v: Json)
    requires IsScalar(v)
    ensures Gather(s, table, [(key, v)]) == AddDef(Register(s, table), table, Column(key, GetSqlType(v).value))
  {
    var f: seq<Field> := [(key, v)];
    var s1 := Register(s, table);
    var s2 := GatherStep(s1, table, key, v);
    assert s2 == AddDef(s1, table, Column(key, GetSqlType(v).value));
    assert f[1..] == [];
    assert GatherFields(s2, table, f[1..]) == s2;
    assert GatherFields(s1, table, f) == s2;
  }

  /** The sample's second key, before the link column. */
  const SampleBChild := Schema([MainTable, "main_table_b"], SampleA.defs["main_table_b" := Base + {Column("c", "TEXT")}])

  lemma GatherSampleBChild()
    ensures Gather(SampleA, "main_table_b", [("c", JStr("x"))]) == SampleBChild
  {
    GatherOneScalar(SampleA, "main_table_b", "c", JStr("x"));
  }

  lemma GatherSampleBLink()
    ensures AddDef(SampleBChild, MainTable, Column("b_id", "INTEGER")) == SampleB
  {
    var s2 := AddDef(SampleBChild, MainTable, Column("b_id", "INTEGER"));
    assert s2.defs[MainTable] == Base + {Column("a", "INTEGER"), Column("b_id", "INTEGER")};
  }

  lemma GatherSampleB()
    ensures GatherStep(SampleA, MainTable, "b", JObj([("c", JStr("x"))])) == SampleB
  {
    assert SubTable(MainTable, "b") == "main_table_b";
    assert "b" + "_id" == "b_id";
    GatherSampleBChild();
    GatherSampleBLink();
  }

  /** The first item of the list under `d` registers `main_table_d` with `e`. */
  lemma GatherSampleDFirst()
    ensures Gather(SampleB, "main_table_d", [("e", JInt(2))]) == SampleD
  {
    GatherOneScalar(SampleB, "main_table_d", "e", JInt(2));
    var r := Register(SampleB, "main_table_d");
    assert r.order == SampleD.order;
    assert AddDef(r, "main_table_d", Column("e", "INTEGER")).defs == SampleD.defs;
  }

  /** The second item adds nothing new. */
  lemma GatherSampleDSecond()
    ensures Gather(SampleD, "main_table_d", [("e", JInt(3))]) == SampleD
  {
    GatherOneScalar(SampleD, "main_table_d", "e", JInt(3));
    assert Register(SampleD, "main_table_d") == SampleD;
    assert SampleD.defs["main_table_d"] + {Column("e", "INTEGER")} == SampleD.defs["main_table_d"];
    assert SampleD.defs["main_table_d" := SampleD.defs["main_table_d"]] == SampleD.defs;
  }

  lemma GatherSampleD()
    ensures GatherStep(SampleB, MainTable, "d", JArr([JObj([("e", JInt(2))]), JObj([("e", JInt(3))])])) == SampleD
  {
    var t := SubTable(MainTable, "d");
    assert t == "main_table_d";
    var items := [JObj([("e", JInt(2))]), JObj([("e", JInt(3))])];
    var rest := items[1..];
    assert items[0].fields == [("e", JInt(2))];
    assert rest == [JObj([("e", JInt(3))])] && rest[0].fields == [("e", JInt(3))];
    GatherSampleDFirst();
    GatherSampleDSecond();
    GatherItemsObject(SampleB, t, items);
    GatherItemsObject(SampleD, t, rest);
    assert rest[1..] == [];
  }

  /** A list whose first item is an object gathers that object first. */
  lemma GatherItemsObject(s: Schema, table: string, items: seq<Json>)
    requires items != [] && items[0].JObj?
    ensures GatherItems(s, table, items) == GatherItems(Gather(s, table, items[0].fields), table, items[1..])
  {
  }

  /** The sample gives three tables: the root with `a` and `b_id`, the object
      under `b` in `main_table_b`, and both list items sharing `main_table_d`
      with one `e` column. */
  lemma GatherSample()
    ensures Gather(EmptySchema, MainTable, Sample) == SampleD
  {
    var r := Register(EmptySchema, MainTable);
    GatherSampleA();
    assert Gather(EmptySchema, MainTable, Sample) == GatherFields(SampleA, MainTable, Sample[1..]);
    GatherSampleB();
    assert Sample[1..][0] == Sample[1] && Sample[1..][1..] == Sample[2..];
    assert GatherFields(SampleA, MainTable, Sample[1..]) == GatherFields(SampleB, MainTable, Sample[2..]);
    GatherSampleD();
    assert Sample[2..][0] == Sample[2] && Sample[2..][1..] == [];
    assert GatherFields(SampleB, MainTable, Sample[2..]) == SampleD;
  }

  // ---------------------------------------------------------------------------
  // create_tables_from_schema

  /** The text a definition sorts by: `"{name} {decl}"`. */
  function Render(c: Column): string
  {
    c.name + " " + c.decl
  }

  /** No two definitions of the set name the same column. */
  predicate DistinctNames(defs: set<Column>)
  {
    forall a, b | a in defs && b in defs && a.name == b.name :: a == b
  }

  /** CREATE TABLE succeeds for these definitions. */
  predicate Creatable(name: string, defs: set<Column>)
  {
    !Reserved(name) && DistinctNames(defs)
  }

  /** `t` is the empty table created from `defs`: the definitions sorted by
      their text, keyed on `pk`. */
  ghost predicate CreatedFrom(t: Table, defs: set<Column>)
  {
    && t.rows == [] && t.lastId == 0 && t.key == "pk" && t.unique == {}
    && SortedBy(t.columns, Render)
    && |t.columns| == |defs|
    && (forall c :: c in t.columns <==> c in defs)
  }

  lemma DistinctColumnNames(cols: seq<Column>, defs: set<Column>)
    requires |cols| == |defs| && forall c :: c in cols <==> c in defs
    ensures Distinct(ColumnNames(cols)) <==> DistinctNames(defs)
  {
    var names := ColumnNames(cols);
    CardinalityDistinct(cols, defs);
    if !DistinctNames(defs) {
      var a, b :| a in defs && b in defs && a.name == b.name && a != b;
      var i :| 0 <= i < |cols| && cols[i] == a;
      var j :| 0 <= j < |cols| && cols[j] == b;
      if i < j { assert names[i] == names[j]; } else { assert names[j] == names[i]; }
    }
  }

  /** `after` keeps every table of `before` as it was, and every table it
      adds was created empty from its definitions in `defs`, which CREATE
      TABLE accepts. */
  ghost predicate Made(before: Tables, after: Tables, defs: map<string, set<Column>>)
  {
    && (forall n | n in before :: n in after && after[n] == before[n])
    && (forall n | n in after && n !in before :: NewTable(after[n], n, defs))
  }

  /** `t` is table `name` as CREATE TABLE makes it from its definitions. */
  ghost predicate NewTable(t: Table, name: string, defs: map<string, set<Column>>)
  {
    name in defs && Creatable(name, defs[name]) && CreatedFrom(t, defs[name])
  }

  /** Nothing is added when every table already exists. */
  lemma SameTables(before: Tables, after: Tables, defs: map<string, set<Column>>)
    requires Made(before, after, defs)
    requires forall n | n in after :: n in before || n in defs
    requires forall n | n in defs :: n in before
    ensures after == before
  {
    assert after.Keys == before.Keys;
  }

  /** The tables of `order[..i + 1]` exist once `order[i]` has been created
      and nothing else has gone. */
  lemma PrefixCreated(order: seq<string>, i: nat, before: Tables, after: Tables)
    requires i < |order| && order[i] in after
    requires forall k | 0 <= k < i :: order[k] in before
    requires forall n | n != order[i] :: n in after <==> n in before
    ensures forall k | 0 <= k < i + 1 :: order[k] in after
  {
  }

  lemma OnlyListed(start: Tables, defs: map<string, set<Column>>, name: string, before: Tables, after: Tables)
    requires name in defs
    requires forall n | n in before :: n in start || n in defs
    requires forall n | n != name :: n in after <==> n in before
    ensures forall n | n in after :: n in start || n in defs
  {
  }

  lemma AllCreated(order: seq<string>, defs: map<string, set<Column>>, tables: Tables)
    requires forall k | 0 <= k < |order| :: order[k] in tables
    requires forall n | n in defs :: n in order
    ensures forall n | n in defs :: n in tables
  {
  }

  lemma MadeStep(before: Tables, mid: Tables, after: Tables, defs: map<string, set<Column>>, name: string)
    requires Made(before, mid, defs) && name !in mid && name in after
    requires after == mid[name := after[name]]
    requires NewTable(after[name], name, defs)
    ensures Made(before, after, defs)
  {
  }

  /** A table as the loader creates it: keyed on `pk`, with no UNIQUE
      column, and with a `doc_id` column. */
  ghost predicate LoaderTable(t: Table)
  {
    t.key == "pk" && t.unique == {} && HasColumn(t, "doc_id")
  }

  /** After the tables of a document's schema exist, its root object
      becomes exactly one new row of `main_table`, carrying the document's
      id, which `insert_data` returns; a root with only lists adds no row
      there. A `main_table` left from earlier documents must have the
      loader's shape, and no key of the root may be "pk". */
  lemma DocumentRow(ts1: Tables, created: Tables, s: Schema, fields: seq<Field>, docId: Value)
    requires ValidStore(created) && SchemaOk(s)
    requires Made(ts1, created, s.defs) && MainTable in created
    requires MainTable in ts1 ==> LoaderTable(ts1[MainTable])
    requires "pk" !in ColumnsOf(fields)
    ensures var (ts', r) := InsertSpec(created, MainTable, fields, docId);
      && MainTable in ts'
      && created[MainTable].rows <= ts'[MainTable].rows
      && |ts'[MainTable].rows| == |created[MainTable].rows| + (if ColumnsOf(fields) != [] then 1 else 0)
      && (ColumnsOf(fields) != [] ==>
            && r.Some?
            && ts'[MainTable].rows[|ts'[MainTable].rows| - 1].id == r.value
            && Cell(ts'[MainTable].key, ts'[MainTable].rows[|ts'[MainTable].rows| - 1], "doc_id") == docId)
  {
    MadeLoaderTable(ts1, created, s, MainTable);
    LoaderRow(created, MainTable, fields, docId);
  }

  /** A table the schema made, or one that had the loader's shape, has it. */
  lemma MadeLoaderTable(ts1: Tables, created: Tables, s: Schema, name: string)
    requires SchemaOk(s) && Made(ts1, created, s.defs) && name in created
    requires name in ts1 ==> LoaderTable(ts1[name])
    ensures LoaderTable(created[name])
  {
    var t := created[name];
    if name !in ts1 {
      assert NewTable(t, name, s.defs);
      assert DocIdDef in t.columns;
      var k :| 0 <= k < |t.columns| && t.columns[k] == DocIdDef;
      assert ColumnNames(t.columns)[k] == "doc_id";
    }
  }

  lemma LoaderRow(ts: Tables, table: string, fields: seq<Field>, docId: Value)
    requires ValidStore(ts) && table in ts && LoaderTable(ts[table])
    requires "pk" !in ColumnsOf(fields)
    ensures var (ts', r) := InsertSpec(ts, table, fields, docId);
      && table in ts'
      && ts[table].rows <= ts'[table].rows
      && |ts'[table].rows| == |ts[table].rows| + (if ColumnsOf(fields) != [] then 1 else 0)
      && (ColumnsOf(fields) != [] ==>
            && r.Some?
            && ts'[table].rows[|ts'[table].rows| - 1].id == r.value
            && Cell(ts'[table].key, ts'[table].rows[|ts'[table].rows| - 1], "doc_id") == docId)
  {
    assert ColumnsOf(fields) != [] ==> RowFits(ts, table, fields);
    InsertSpecOwnRow(ts, table, fields, docId);
    InsertSpecReturnsLastRow(ts, table, fields, docId);
  }

  // ---------------------------------------------------------------------------
  // The loader

  class JsonToSql {
    var db: Connection
    var schemas: Schema

    ghost predicate Valid()
      reads this, db
    {
      db.Valid() && SchemaOk(schemas)
    }

    /** `JSONToSQL(db_path)` on an open connection: empty schema, and the
        registry table created and committed. */
    constructor (conn: Connection)
      requires conn.Valid()
      modifies conn
      ensures Valid() && db == conn && schemas == EmptySchema
      ensures db.tables == CreateDocInfo(old(conn.tables)) && db.committed == db.tables
    {
      db := conn;
      schemas := EmptySchema;
      new;
      CreateDocInfoTable();
    }

    /** `create_doc_info_table`: CREATE TABLE IF NOT EXISTS, then commit. */
    method CreateDocInfoTable()
      requires Valid()
      modifies db
      ensures Valid()
      ensures db.tables == CreateDocInfo(old(db.tables)) && db.committed == db.tables
    {
      CreateDocInfoIdempotent(db.tables);
      if !TableExists(db.tables, DocInfo) {
        assert ColumnNames(DocInfoColumns) == ["doc_id", "doc_name"];
        assert Text.Lower(DocInfo[..7])[0] == 'd';
        var _ := db.CreateTable(DocInfo, DocInfoColumns, "doc_id", {"doc_name"});
      }
      db.Commit();
    }

    /** `resolve_doc_id`: INSERT OR IGNORE and commit, then SELECT; a missing
        row raises RuntimeError. A failing INSERT raises before the commit. */
    method ResolveDocId(docName: string) returns (r: Result<Value>)
      requires Valid()
      modifies db
      ensures Valid()
      ensures (db.tables, r) == Resolve(old(db.tables), docName)
      ensures Insert(old(db.tables), DocInfo, ["doc_name"], [VText(docName)]).1 == Failed ==> db.committed == old(db.committed)
      ensures Insert(old(db.tables), DocInfo, ["doc_name"], [VText(docName)]).1 != Failed ==> db.committed == db.tables
    {
      var out := db.Insert(DocInfo, ["doc_name"], [VText(docName)]);
      if out == Failed {
        return Err(OperationalError);
      }
      db.Commit();
      var row := db.SelectFirst(DocInfo, "doc_id", "doc_name", VText(docName));
      match row
      case Err(e) => r := Err(e);
      case Ok(None) => r := Err(RuntimeError);
      case Ok(Some(v)) => r := Ok(v);
    }

    /** `gather_schema(table, data)` on `self.table_schemas`. */
    method GatherSchema(table: string, fields: seq<Field>)
      requires Valid()
      modifies this
      ensures Valid() && db == old(db)
      ensures schemas == Gather(old(schemas), table, fields)
      decreases FieldsSize(fields), 4
    {
      if table !in schemas.defs {
        schemas := Register(schemas, table);
      }
      GatherEach(table, fields);
    }

    /** The loop over `data.items()`, once the table is registered. */
    method GatherEach(table: string, fields: seq<Field>)
      requires Valid() && table in schemas.defs
      modifies this
      ensures Valid() && db == old(db)
      ensures schemas == GatherFields(old(schemas), table, fields)
      decreases FieldsSize(fields), 3
    {
      ghost var goal := GatherFields(schemas, table, fields);
      var i := 0;
      while i < |fields|
        invariant 0 <= i <= |fields|
        invariant Valid() && db == old(db)
        invariant table in schemas.defs
        invariant GatherFields(schemas, table, fields[i..]) == goal
      {
        FieldsSizeAt(fields, i);
        ghost var before := schemas;
        GatherKey(table, fields[i].0, fields[i].1);
        GatherFieldsAt(before, schemas, table, fields, i, goal);
        i := i + 1;
      }
    }

    /** One key of `gather_schema`'s loop. */
    method GatherKey(table: string, key: string, value: Json)
      requires Valid() && table in schemas.defs
      modifies this
      ensures Valid() && db == old(db)
      ensures schemas == GatherStep(old(schemas), table, key, value)
      decreases Size(value), 2
    {
      if value.JObj? {
        GatherSchema(SubTable(table, key), value.fields);
        schemas := AddDef(schemas, table, Column(key + "_id", "INTEGER"));
      } else if value.JArr? {
        GatherList(SubTable(table, key), value.items);
      } else {
        var ty := GetSqlType(value);
        schemas := AddDef(schemas, table, Column(key, ty.value));
      }
    }

    /** The loop over a list's items in `gather_schema`. */
    method GatherList(table: string, items: seq<Json>)
      requires Valid()
      modifies this
      ensures Valid() && db == old(db)
      ensures schemas == GatherItems(old(schemas), table, items)
      decreases ItemsSize(items), 0
    {
      ghost var goal := GatherItems(schemas, table, items);
      var j := 0;
      while j < |items|
        invariant 0 <= j <= |items|
        invariant Valid() && db == old(db)
        invariant GatherItems(schemas, table, items[j..]) == goal
      {
        ItemsSizeAt(items, j);
        ghost var before := schemas;
        if items[j].JObj? {
          assert Size(items[j]) == 1 + FieldsSize(items[j].fields);
          GatherSchema(table, items[j].fields);
        }
        GatherItemsAt(before, schemas, table, items, j, goal);
        j := j + 1;
      }
    }

    /** One CREATE TABLE of `create_tables_from_schema`: the definitions
        sorted by their text, keyed on `pk`. */
    method CreateFromDefs(name: string, defs: set<Column>) returns (r: Result<()>)
      requires Valid() && name !in db.tables && PkDef in defs
      modifies db
      ensures Valid() && db.committed == old(db.committed)
      ensures r.Ok? <==> Creatable(name, defs)
      ensures r.Ok? ==> name in db.tables && db.tables == old(db.tables)[name := db.tables[name]] && CreatedFrom(db.tables[name], defs)
      ensures r.Err? ==> db.tables == old(db.tables)
    {
      var cols := SortSet(defs, Render);
      assert "pk" in ColumnNames(cols) by {
        var k :| 0 <= k < |cols| && cols[k] == PkDef;
        assert ColumnNames(cols)[k] == "pk";
      }
      DistinctColumnNames(cols, defs);
      r := db.CreateTable(name, cols, "pk", {});
    }

    /** One table of `create_tables_from_schema`'s loop: created unless it
        exists already. */
    method CreateMissing(name: string, ghost start: Tables) returns (r: Result<()>)
      requires Valid() && name in schemas.defs && Made(start, db.tables, schemas.defs)
      requires forall n | n in start :: n in db.tables
      modifies db
      ensures Valid() && db.committed == old(db.committed)
      ensures Made(start, db.tables, schemas.defs)
      ensures r.Ok? ==> name in db.tables
      ensures forall n | n != name :: n in db.tables <==> n in old(db.tables)
      ensures TableExists(old(db.tables), name) ==> db.tables == old(db.tables) && r.Ok?
      ensures !TableExists(old(db.tables), name) ==> (r.Ok? <==> Creatable(name, schemas.defs[name]))
      ensures r.Err? ==> db.tables == old(db.tables) && name !in start
    {
      if TableExists(db.tables, name) {
        return Ok(());
      }
      ghost var before := db.tables;
      r := CreateFromDefs(name, schemas.defs[name]);
      if r.Ok? {
        assert NewTable(db.tables[name], name, schemas.defs);
        MadeStep(start, before, db.tables, schemas.defs, name);
      }
    }

    /** `create_tables_from_schema`: every table of the schema that does not
        exist yet is created from its definitions in sorted order; existing
        tables are skipped, columns and all. A CREATE that fails raises and
        ends the loop. */
    method CreateTablesFromSchema() returns (r: Result<()>)
      requires Valid()
      modifies db
      ensures Valid() && db.committed == old(db.committed)
      ensures r.Ok? <==> forall n | n in schemas.defs && n !in old(db.tables) :: Creatable(n, schemas.defs[n])
      ensures Made(old(db.tables), db.tables, schemas.defs)
      ensures forall n | n in db.tables :: n in old(db.tables) || n in schemas.defs
      ensures r.Ok? ==> forall n | n in schemas.defs :: n in db.tables
      ensures (forall n | n in schemas.defs :: n in old(db.tables)) ==> db.tables == old(db.tables) && r.Ok?
    {
      ghost var start := db.tables;
      ghost var defs := schemas.defs;
      var order := schemas.order;
      var i := 0;
      while i < |order|
        invariant 0 <= i <= |order|
        invariant Valid() && db.committed == old(db.committed)
        invariant schemas.defs == defs && schemas.order == order
        invariant Made(start, db.tables, defs)
        invariant forall n | n in db.tables :: n in start || n in defs
        invariant forall k | 0 <= k < i :: order[k] in db.tables
      {
        var name := order[i];
        ghost var before := db.tables;
        var created := CreateMissing(name, start);
        if created.Err? {
          return Err(created.error);
        }
        PrefixCreated(order, i, before, db.tables);
        OnlyListed(start, defs, order[i], before, db.tables);
        i := i + 1;
      }
      AllCreated(order, defs, db.tables);
      if forall n | n in defs :: n in start {
        SameTables(start, db.tables, defs);
      }
      r := Ok(());
    }

    /** The per-document pipeline: resolve the document's id, gather the
        schema of its root object under `main_table`, create missing tables,
        and insert the tree. A root that is not an object has no `items`:
        `main_table` is registered, then the gathering fails.
        `created` is the store once the tables exist, before the insert. */
    method ProcessDocument(fileName: string, data: Json) returns (r: Result<()>, ghost created: Tables)
      requires Valid()
      modifies this, db
      ensures Valid() && db == old(db)
      ensures var (ts1, id) := Resolve(old(db.tables), fileName);
        && (id.Err? ==> r == Err(id.error) && db.tables == ts1 && schemas == old(schemas))
        && (id.Ok? && !data.JObj? ==> r == Err(AttributeError) && db.tables == ts1 && schemas == Register(old(schemas), MainTable))
        && (id.Ok? && data.JObj? ==>
              && schemas == Gather(old(schemas), MainTable, data.fields)
              && (r.Ok? <==> forall n | n in schemas.defs && n !in ts1 :: Creatable(n, schemas.defs[n]))
              && (r.Err? ==> db.tables == created)
              && Made(ts1, created, schemas.defs)
              && (forall n | n in created :: n in ts1 || n in schemas.defs)
              && (r.Ok? ==>
                    && (forall n | n in schemas.defs :: n in created)
                    && db.tables == InsertSpec(created, MainTable, data.fields, id.value).0))
    {
      var id := ResolveDocId(fileName);
      created := db.tables;
      if id.Err? {
        return Err(id.error), created;
      }
      if !data.JObj? {
        // `gather_schema` registers the table before `data.items()` fails.
        schemas := Register(schemas, MainTable);
        return Err(AttributeError), created;
      }
      GatherSchema(MainTable, data.fields);
      var made := CreateTablesFromSchema();
      created := db.tables;
      if made.Err? {
        return Err(made.error), created;
      }
      var _ := InsertData(db, MainTable, data.fields, id.value);
      r := Ok(());
    }

    /** The main block: every `.json` file in listing order, then one commit;
        an exception ends the run before the commit. */
    method Run(files: seq<(string, Json)>) returns (r: Result<()>)
      requires Valid()
      modifies this, db
      ensures Valid() && db == old(db)
      ensures r.Ok? ==> db.committed == db.tables
    {
      var i := 0;
      while i < |files|
        invariant 0 <= i <= |files|
        invariant Valid() && db == old(db)
      {
        var (name, data) := files[i];
        if Text.EndsWith(name, ".json") {
          var done, _ := ProcessDocument(name, data);
          if done.Err? {
            return done;
          }
        }
        i := i + 1;
      }
      db.Commit();
      r := Ok(());
    }
  }
}
