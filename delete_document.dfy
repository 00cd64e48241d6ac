/** `delete_document_dynamic`: remove every trace of one document by deleting,
    in every table that has a `doc_id` column, the rows carrying its id. */
module DeleteDocument {
  import opened Wrappers
  import opened Store
  import opened Database
  import opened DocRegistry

  /** Table `t` without the rows whose `doc_id` equals `v`. */
  function Purged(t: Table, v: Value): Table
  {
    t.(rows := KeepUnless(t.key, t.rows, "doc_id", v))
  }

  /** What the cascade does to one table: purged when it has a `doc_id`
      column, untouched otherwise. */
  function PurgeTable(t: Table, v: Value): Table
  {
    if HasColumn(t, "doc_id") then Purged(t, v) else t
  }

  /** The cascade over every table. */
  function Purge(ts: Tables, v: Value): (r: Tables)
    ensures r.Keys == ts.Keys
  {
    map n | n in ts :: PurgeTable(ts[n], v)
  }

  /** A store that agrees with the cascade on every table is the cascade. */
  lemma PurgeExt(a: Tables, ts: Tables, v: Value)
    requires a.Keys == ts.Keys
    requires forall n | n in ts :: a[n] == PurgeTable(ts[n], v)
    ensures a == Purge(ts, v)
  {
  }

  /** What the database file holds after `delete_document_dynamic`: unchanged
      when the lookup fails or finds nothing, purged otherwise. */
  function DeleteDoc(ts: Tables, docName: string): Tables
  {
    match SelectFirst(ts, DocInfo, "doc_id", "doc_name", VText(docName))
    case Ok(Some(v)) => DeleteWhere(Purge(ts, v), DocInfo, "doc_id", v)
    case _ => ts
  }

  /** The cascade removes from each table with a `doc_id` column exactly the
      rows whose `doc_id` equals `v`, keeping the others in order, and leaves
      tables without that column untouched. */
  lemma PurgeExact(ts: Tables, v: Value, n: string, x: Row)
    requires n in ts
    ensures HasColumn(ts[n], "doc_id") ==>
      (x in Purge(ts, v)[n].rows <==> x in ts[n].rows && !SqlEq(Cell(ts[n].key, x, "doc_id"), v))
    ensures !HasColumn(ts[n], "doc_id") ==> Purge(ts, v)[n] == ts[n]
    ensures Purge(ts, v)[n] == ts[n].(rows := Purge(ts, v)[n].rows)
  {
  }

  /** The cascade keeps the store valid. */
  lemma PurgeValid(ts: Tables, v: Value)
    requires ValidStore(ts)
    ensures ValidStore(Purge(ts, v))
  {
    forall n | n in ts && HasColumn(ts[n], "doc_id")
      ensures ValidTable(Purge(ts, v)[n])
    {
      KeepUnlessIncreasing(ts[n].key, ts[n].rows, ts[n].lastId, "doc_id", v);
    }
  }

  lemma {:induction false} KeepUnlessTwice(key: string, rows: seq<Row>, w: string, v: Value)
    ensures KeepUnless(key, KeepUnless(key, rows, w, v), w, v) == KeepUnless(key, rows, w, v)
  {
    if rows != [] {
      KeepUnlessTwice(key, rows[1..], w, v);
      if !SqlEq(Cell(key, rows[0], w), v) {
        var r := [rows[0]] + KeepUnless(key, rows[1..], w, v);
        assert r[0] == rows[0] && r[1..] == KeepUnless(key, rows[1..], w, v);
      }
    }
  }

  /** `doc_info` has a `doc_id` column, so the cascade already removed its
      row: the explicit DELETE on `doc_info` afterwards removes nothing. */
  lemma DocInfoAlreadyPurged(ts: Tables, v: Value)
    requires ValidStore(ts) && Ready(ts)
    ensures DeleteWhere(Purge(ts, v), DocInfo, "doc_id", v) == Purge(ts, v)
  {
    assert HasColumn(ts[DocInfo], "doc_id");
    var t := ts[DocInfo];
    KeepUnlessTwice(t.key, t.rows, "doc_id", v);
  }

  /** After deleting a registered document, no row of any table with a
      `doc_id` column carries its id, and in particular the registry row is
      gone; a document that is not registered leaves the store unchanged. */
  lemma DeleteDocRemovesAll(ts: Tables, docName: string)
    requires ValidStore(ts) && Ready(ts)
    ensures !Registered(ts, docName) ==> DeleteDoc(ts, docName) == ts
    ensures Registered(ts, docName) ==>
      var k := FirstMatch("doc_id", ts[DocInfo].rows, "doc_name", VText(docName)).value;
      var v := VInt(ts[DocInfo].rows[k].id);
      && DeleteDoc(ts, docName) == Purge(ts, v)
      && forall n, x | n in ts && HasColumn(ts[n], "doc_id") && x in Purge(ts, v)[n].rows ::
           !SqlEq(Cell(ts[n].key, x, "doc_id"), v)
  {
    assert HasColumn(ts[DocInfo], "doc_id");
    if Registered(ts, docName) {
      var k := FirstMatch("doc_id", ts[DocInfo].rows, "doc_name", VText(docName)).value;
      var v := VInt(ts[DocInfo].rows[k].id);
      DocInfoAlreadyPurged(ts, v);
    }
  }

  /** One table of step 3: when `PRAGMA table_info` lists `doc_id`, DELETE
      the rows carrying `docId`. */
  method PurgeOne(conn: Connection, table: string, docId: Value)
    requires conn.Valid() && table in conn.tables
    modifies conn
    ensures conn.Valid() && conn.committed == old(conn.committed)
    ensures conn.tables == old(conn.tables)[table := PurgeTable(old(conn.tables)[table], docId)]
  {
    if "doc_id" in conn.TableInfo(table) {
      conn.DeleteWhere(table, "doc_id", docId);
    } else {
      assert conn.tables[table := conn.tables[table]] == conn.tables;
    }
  }

  /** Steps 2 and 3: every table listed goes through `PurgeOne`. */
  method Cascade(conn: Connection, docId: Value)
    requires conn.Valid()
    modifies conn
    ensures conn.Valid() && conn.committed == old(conn.committed)
    ensures conn.tables == Purge(old(conn.tables), docId)
  {
    ghost var start := conn.tables;
    var todo := conn.tables.Keys;
    while todo != {}
      invariant conn.Valid() && conn.committed == old(conn.committed)
      invariant PurgedExcept(start, conn.tables, todo, docId)
      decreases |todo|
    {
      var table :| table in todo;
      ghost var before := conn.tables;
      PurgeOne(conn, table, docId);
      PurgedStep(start, before, todo, table, docId);
      Shrinks(todo, table);
      todo := todo - {table};
    }
    PurgeExt(conn.tables, start, docId);
  }

  /** `cur` is `start` with every table outside `todo` purged. */
  ghost predicate PurgedExcept(start: Tables, cur: Tables, todo: set<string>, v: Value)
  {
    && todo <= start.Keys && cur.Keys == start.Keys
    && forall n | n in start :: cur[n] == if n in todo then start[n] else PurgeTable(start[n], v)
  }

  lemma Shrinks(todo: set<string>, table: string)
    requires table in todo
    ensures |todo - {table}| == |todo| - 1
  {
  }

  lemma PurgedStep(start: Tables, cur: Tables, todo: set<string>, table: string, v: Value)
    requires PurgedExcept(start, cur, todo, v) && table in todo
    ensures PurgedExcept(start, cur[table := PurgeTable(cur[table], v)], todo - {table}, v)
  {
    var next := cur[table := PurgeTable(cur[table], v)];
    assert next.Keys == cur.Keys;
  }

  /** `delete_document_dynamic(db_path, doc_name)` on a database file holding
      `file`; the result is what the file holds once the connection is
      closed. A failing statement rolls back, and an absent name returns
      before anything is deleted. */
  method DeleteDocumentDynamic(file: Tables, docName: string) returns (after: Tables)
    requires ValidStore(file)
    ensures after == DeleteDoc(file, docName)
    ensures ValidStore(after)
  {
    var conn := new Connection.Open(file);
    var found := conn.SelectFirst(DocInfo, "doc_id", "doc_name", VText(docName));
    if found.Err? {
      conn.Rollback();
      return conn.committed;
    }
    if found.value.None? {
      return conn.committed;
    }
    var docId := found.value.value;
    Cascade(conn, docId);
    conn.DeleteWhere(DocInfo, "doc_id", docId);
    conn.Commit();
    after := conn.committed;
  }
}
