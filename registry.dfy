/** The document registry both loaders keep: the `doc_info` table, whose
    UNIQUE `doc_name` maps each document to an AUTOINCREMENT `doc_id`. */
module DocRegistry {
  import opened Wrappers
  import opened Store
  import Text

  const DocInfo := "doc_info"

  /** `doc_id INTEGER PRIMARY KEY AUTOINCREMENT, doc_name TEXT UNIQUE` */
  const DocInfoColumns := [Column("doc_id", "INTEGER PRIMARY KEY AUTOINCREMENT"), Column("doc_name", "TEXT UNIQUE")]

  /** `CREATE TABLE IF NOT EXISTS doc_info (...)` */
  function CreateDocInfo(ts: Tables): (r: Tables)
    ensures DocInfo in r
    ensures DocInfo in ts ==> r == ts
    ensures DocInfo !in ts ==> r == ts[DocInfo := Table(DocInfoColumns, [], 0, "doc_id", {"doc_name"})]
  {
    if DocInfo in ts then ts
    else
      assert ColumnNames(DocInfoColumns)[0] == "doc_id";
      assert ColumnNames(DocInfoColumns)[1] == "doc_name";
      assert Text.Lower(DocInfo[..7])[0] == 'd';
      CreateTable(ts, DocInfo, DocInfoColumns, "doc_id", {"doc_name"}).value
  }

  /** The registry is usable: `doc_info` has key `doc_id` and a UNIQUE
      `doc_name` column. */
  ghost predicate Ready(ts: Tables)
  {
    && DocInfo in ts
    && ts[DocInfo].key == "doc_id"
    && HasColumn(ts[DocInfo], "doc_name")
    && "doc_name" in ts[DocInfo].unique
  }

  /** Creating the table any number of times leaves one table, untouched after
      the first time, and a fresh one is ready and valid. */
  lemma CreateDocInfoIdempotent(ts: Tables)
    requires ValidStore(ts)
    ensures CreateDocInfo(CreateDocInfo(ts)) == CreateDocInfo(ts)
    ensures ValidStore(CreateDocInfo(ts))
    ensures DocInfo !in ts ==> Ready(CreateDocInfo(ts))
  {
    if DocInfo !in ts {
      assert ColumnNames(DocInfoColumns) == ["doc_id", "doc_name"];
    }
  }

  /** `resolve_doc_id`: INSERT OR IGNORE the name, then SELECT its `doc_id`;
      a failing statement raises, and no row found raises RuntimeError. The
      first component is the new store. */
  function Resolve(ts: Tables, name: string): (Tables, Result<Value>)
  {
    var (ts1, out) := Insert(ts, DocInfo, ["doc_name"], [VText(name)]);
    if out == Failed then (ts, Err(OperationalError))
    else
      match SelectFirst(ts1, DocInfo, "doc_id", "doc_name", VText(name))
      case Err(e) => (ts1, Err(e))
      case Ok(None) => (ts1, Err(RuntimeError))
      case Ok(Some(v)) => (ts1, Ok(v))
  }

  /** A row of `doc_info` holds `name`. */
  predicate Registered(ts: Tables, name: string)
    requires DocInfo in ts
  {
    FirstMatch(ts[DocInfo].key, ts[DocInfo].rows, "doc_name", VText(name)).Some?
  }

  lemma {:induction false} FirstMatchAppend(key: string, rows: seq<Row>, x: Row, w: string, v: Value)
    ensures FirstMatch(key, rows, w, v).Some? ==> FirstMatch(key, rows + [x], w, v) == FirstMatch(key, rows, w, v)
    ensures FirstMatch(key, rows, w, v).None? && SqlEq(Cell(key, x, w), v) ==> FirstMatch(key, rows + [x], w, v) == Some(|rows|)
  {
    if rows != [] {
      assert (rows + [x])[1..] == rows[1..] + [x];
      FirstMatchAppend(key, rows[1..], x, w, v);
    }
  }

  /** A name already registered: the INSERT is ignored and the SELECT returns
      the first row holding the name. */
  lemma ResolveExisting(ts: Tables, name: string)
    requires ValidStore(ts) && Ready(ts) && Registered(ts, name)
    ensures var k := FirstMatch("doc_id", ts[DocInfo].rows, "doc_name", VText(name)).value;
      Resolve(ts, name) == (ts, Ok(VInt(ts[DocInfo].rows[k].id)))
  {
    var t := ts[DocInfo];
    var k := FirstMatch("doc_id", t.rows, "doc_name", VText(name)).value;
    var cells := CellsOf(["doc_name"], [VText(name)]);
    assert Insertable(ts, DocInfo, ["doc_name"]);
    assert SqlEq(Cell(t.key, t.rows[k], "doc_name"), cells["doc_name"]);
    assert UniqueClash(t, cells);
    assert HasColumn(t, "doc_id");
  }

  /** A new name: the INSERT appends its row with the next id, which the
      SELECT then finds. */
  lemma ResolveNew(ts: Tables, name: string)
    requires ValidStore(ts) && Ready(ts) && !Registered(ts, name)
    ensures var ts1 := Insert(ts, DocInfo, ["doc_name"], [VText(name)]).0;
      && ValidStore(ts1)
      && ts1 == ts[DocInfo := ts1[DocInfo]]
      && |ts1[DocInfo].rows| == |ts[DocInfo].rows| + 1
      && ts[DocInfo].rows <= ts1[DocInfo].rows
      && ts1[DocInfo].key == ts[DocInfo].key
      && ts1[DocInfo].columns == ts[DocInfo].columns
      && ts1[DocInfo].unique == ts[DocInfo].unique
      && FirstMatch("doc_id", ts1[DocInfo].rows, "doc_name", VText(name)) == Some(|ts[DocInfo].rows|)
      && Resolve(ts, name) == (ts1, Ok(VInt(ts1[DocInfo].rows[|ts[DocInfo].rows|].id)))
  {
    var t := ts[DocInfo];
    var cells := CellsOf(["doc_name"], [VText(name)]);
    assert Insertable(ts, DocInfo, ["doc_name"]);
    assert !UniqueClash(t, cells);
    InsertValid(ts, DocInfo, ["doc_name"], [VText(name)]);
    InsertAppends(ts, DocInfo, ["doc_name"], [VText(name)]);
    var ts1 := Insert(ts, DocInfo, ["doc_name"], [VText(name)]).0;
    var rows1 := ts1[DocInfo].rows;
    assert rows1 == t.rows + [rows1[|t.rows|]];
    FirstMatchAppend("doc_id", t.rows, rows1[|t.rows|], "doc_name", VText(name));
    assert HasColumn(ts1[DocInfo], "doc_id");
  }

  /** On a ready registry `resolve_doc_id` never raises: it returns the id of
      row `k` of `doc_info`, which holds the name; the row is added only when
      no row held the name before, and no other table changes. */
  lemma ResolveFinds(ts: Tables, name: string) returns (k: nat)
    requires ValidStore(ts) && Ready(ts)
    ensures var (ts', r) := Resolve(ts, name);
      && ValidStore(ts') && Ready(ts')
      && ts'.Keys == ts.Keys
      && (forall n | n in ts && n != DocInfo :: ts'[n] == ts[n])
      && ts[DocInfo].rows <= ts'[DocInfo].rows
      && k < |ts'[DocInfo].rows|
      && SqlEq(Cell("doc_id", ts'[DocInfo].rows[k], "doc_name"), VText(name))
      && r == Ok(VInt(ts'[DocInfo].rows[k].id))
      && Registered(ts', name)
      && (Registered(ts, name) ==> ts' == ts)
      && (!Registered(ts, name) ==> |ts'[DocInfo].rows| == |ts[DocInfo].rows| + 1)
  {
    if Registered(ts, name) {
      ResolveExisting(ts, name);
      k := FirstMatch("doc_id", ts[DocInfo].rows, "doc_name", VText(name)).value;
    } else {
      ResolveNew(ts, name);
      k := |ts[DocInfo].rows|;
    }
  }

  /** Resolving the same name twice gives the same id and adds no row. */
  lemma ResolveIdempotent(ts: Tables, name: string)
    requires ValidStore(ts) && Ready(ts)
    ensures var (ts1, r1) := Resolve(ts, name);
      Resolve(ts1, name) == (ts1, r1)
  {
    if Registered(ts, name) {
      ResolveExisting(ts, name);
    } else {
      ResolveNew(ts, name);
      var ts1 := Resolve(ts, name).0;
      assert Ready(ts1);
      ResolveExisting(ts1, name);
    }
  }

  /** Distinct names resolved one after the other get distinct ids. */
  lemma ResolveDistinct(ts: Tables, a: string, b: string)
    requires ValidStore(ts) && Ready(ts) && a != b
    ensures var (ts1, ra) := Resolve(ts, a);
      var (ts2, rb) := Resolve(ts1, b);
      ra.Ok? && rb.Ok? && ra.value != rb.value
  {
    var ka := ResolveFinds(ts, a);
    var ts1 := Resolve(ts, a).0;
    var kb := ResolveFinds(ts1, b);
    var ts2 := Resolve(ts1, b).0;
    var rows1, rows2 := ts1[DocInfo].rows, ts2[DocInfo].rows;
    assert rows2[ka] == rows1[ka];
    assert ka != kb;
    assert IdsIncreasing(rows2, ts2[DocInfo].lastId);
  }
}
