/** The schema-driven loader: it clears the database, keeps the document
    registry, makes sure a generated SQL script exists per schema, and
    dispatches the script's `create_tables` and `insert_data` functions. The
    language model and the loading of generated code are parameters. */
module DbInitLlm {
  import opened Wrappers
  import opened JsonValue
  import opened Store
  import opened Database
  import opened DocRegistry
  import Text

  // ---------------------------------------------------------------------------
  // SQL LIKE and the tables clear_database keeps

  /** SQLite's `s LIKE p` without an ESCAPE clause: `%` matches any run of
      characters, `_` exactly one, and other characters match up to ASCII
      case. */
  predicate Like(s: string, p: string)
    decreases |p|, |s|
  {
    if p == [] then s == []
    else if p[0] == '%' then Like(s, p[1..]) || (s != [] && Like(s[1..], p))
    else if p[0] == '_' then s != [] && Like(s[1..], p[1..])
    else s != [] && Text.LowerChar(s[0]) == Text.LowerChar(p[0]) && Like(s[1..], p[1..])
  }

  /** SQLite's prefix for its own tables, and the pattern `clear_database`
      keeps. */
  const SqlitePrefix := "sqlite"
  const InternalPattern := SqlitePrefix + "_%"

  /** `%` alone matches every string. */
  lemma {:induction false} LikeAnything(s: string)
    ensures Like(s, "%")
    decreases |s|
  {
    if s != [] {
      LikeAnything(s[1..]);
    }
  }

  /** A pattern prefix without wildcards matches a prefix of the same length,
      up to ASCII case. */
  lemma {:induction false} LikeLiteral(s: string, lit: string, rest: string)
    requires forall i | 0 <= i < |lit| :: lit[i] != '%' && lit[i] != '_'
    ensures Like(s, lit + rest) <==>
      |lit| <= |s| && Text.Lower(s[..|lit|]) == Text.Lower(lit) && Like(s[|lit|..], rest)
  {
    if lit == [] {
      assert lit + rest == rest;
      assert s[..0] == [] && s[0..] == s;
    } else {
      assert (lit + rest)[0] == lit[0];
      assert (lit + rest)[1..] == lit[1..] + rest;
      if s != [] {
        LikeLiteral(s[1..], lit[1..], rest);
        if |lit| <= |s| {
          assert s[1..][..|lit| - 1] == s[1..|lit|];
          assert s[1..][|lit| - 1..] == s[|lit|..];
          LowerCons(s[..|lit|]);
          LowerCons(lit);
          assert s[..|lit|][1..] == s[1..|lit|];
        }
      }
    }
  }

  lemma LowerCons(a: string)
    requires a != []
    ensures Text.Lower(a) == [Text.LowerChar(a[0])] + Text.Lower(a[1..])
  {
  }

  /** `_%` matches every non-empty string. */
  lemma LikeOneOrMore(t: string)
    ensures Like(t, "_%") <==> t != []
  {
    if t != [] {
      LikeAnything(t[1..]);
    }
  }

  /** `name LIKE 'sqlite_%'` holds exactly for names of at least seven
      characters whose first six spell "sqlite" in any case: the `_` is a
      wildcard, not a literal underscore. */
  lemma LikeInternal(name: string)
    ensures Like(name, InternalPattern) <==> |name| >= 7 && Text.Lower(name[..6]) == SqlitePrefix
  {
    LikeLiteral(name, SqlitePrefix, "_%");
    LowerSqlite();
    if |name| >= 6 {
      LikeOneOrMore(name[6..]);
    }
  }

  lemma LowerSqlite()
    ensures Text.Lower(SqlitePrefix) == SqlitePrefix
  {
    LowerCons(SqlitePrefix);
    assert SqlitePrefix[1..] == "qlite";
  }

  /** The tables `clear_database` drops. */
  function Dropped(ts: Tables): (r: set<string>)
    ensures r <= ts.Keys
  {
    set n | n in ts && !Like(n, InternalPattern)
  }

  /** The store after `clear_database`. */
  function Cleared(ts: Tables): (r: Tables)
  {
    ts - Dropped(ts)
  }

  /** A table survives clearing exactly when its name starts with "sqlite" in
      any case followed by at least one more character; it survives unchanged. */
  lemma ClearedKeeps(ts: Tables, n: string)
    ensures n in Cleared(ts) <==> n in ts && |n| >= 7 && Text.Lower(n[..6]) == SqlitePrefix
    ensures n in Cleared(ts) ==> Cleared(ts)[n] == ts[n]
  {
    LikeInternal(n);
  }

  /** Every name SQLite reserves for itself survives clearing, and so does a
      user table named "sqlitex", which is not reserved. */
  lemma ClearedKeepsLookalike(ts: Tables, n: string)
    ensures n in ts && Reserved(n) ==> n in Cleared(ts)
    ensures "sqlitex" in ts ==> "sqlitex" in Cleared(ts) && !Reserved("sqlitex")
  {
    ClearedKeeps(ts, n);
    if Reserved(n) {
      assert Text.Lower(n[..6]) == Text.Lower(n[..7])[..6];
    }
    ClearedKeeps(ts, "sqlitex");
    assert Text.Lower("sqlitex"[..7])[6] == 'x';
  }

  // ---------------------------------------------------------------------------
  // The generated script's cleanup and dispatch

  /** The characters `lstrip("python")` removes: a set, not a word. */
  const PythonChars: set<char> := {'p', 'y', 't', 'h', 'o', 'n'}

  /** `response.strip("```").lstrip("python").strip()` */
  function Cleanup(response: string): (r: string)
  {
    Text.Strip(Text.LStrip(Text.StripChars(response, {'`'}), PythonChars))
  }

  /** A fenced block tagged `python` comes back as its stripped body. */
  lemma CleanupFenced(code: string)
    requires code == [] || code[|code| - 1] != '`'
    ensures Cleanup("```python\n" + code + "```") == Text.Strip(code)
  {
    FenceRemoved(code);
    TagRemoved(code);
    NewlineStripped(code);
  }

  lemma FenceRemoved(code: string)
    requires code == [] || code[|code| - 1] != '`'
    ensures Text.StripChars("```python\n" + code + "```", {'`'}) == "python\n" + code
  {
    var inner := "python\n" + code;
    assert "```python\n" + code + "```" == "```" + inner + "```";
    Text.StripCharsPadded("```", inner, "```", {'`'});
    assert inner[0] == 'p';
    if code != [] { assert inner[|inner| - 1] == code[|code| - 1]; }
  }

  lemma NewlineStripped(code: string)
    ensures Text.Strip("\n" + code) == Text.Strip(code)
  {
    Text.StripCharsPadded("\n", code, "", Text.Whitespace);
    assert "\n" + code + "" == "\n" + code;
  }

  lemma TagRemoved(code: string)
    ensures Text.LStrip("python\n" + code, PythonChars) == "\n" + code
  {
    TagSplit(code);
    TagChars();
    Text.LStripPadded("python", "\n" + code, PythonChars);
    NewlineStops(code);
  }

  lemma TagSplit(code: string)
    ensures "python\n" + code == "python" + ("\n" + code)
  {
  }

  lemma TagChars()
    ensures Text.AllIn("python", PythonChars)
  {
  }

  lemma NewlineStops(code: string)
    ensures Text.LStrip("\n" + code, PythonChars) == "\n" + code
  {
    assert ("\n" + code)[0] == '\n';
  }

  /** Code that is not fenced loses any leading run of the letters of
      "python", in any order and not only the word itself: `typing` loses
      `typ`. */
  lemma CleanupEatsLetters(w: string, rest: string)
    requires Text.AllIn(w, PythonChars)
    requires rest != [] && rest[0] !in PythonChars
    requires rest[0] != '`' && rest[|rest| - 1] != '`'
    requires !Text.IsSpace(rest[0]) && !Text.IsSpace(rest[|rest| - 1])
    ensures Cleanup(w + rest) == rest
  {
    var s := w + rest;
    assert s[|s| - 1] == rest[|rest| - 1];
    assert s[0] != '`' by {
      if w != [] { assert s[0] == w[0]; } else { assert s[0] == rest[0]; }
    }
    assert Text.StripChars(s, {'`'}) == s;
    Text.LStripPadded(w, rest, PythonChars);
    assert Text.LStrip(rest, PythonChars) == rest;
  }

  /** The call `execute_sql_script` makes on the script function it found. */
  datatype Call = CreateTables | InsertData(data: Json, docId: Value)

  /** A function of a generated script: what it leaves in the store and what
      it returns or raises. Whatever it does, the store stays a store. */
  type Routine = f: (Tables, Call) -> (Tables, Result<bool>)
    | forall ts, c :: ValidStore(ts) ==> ValidStore(f(ts, c).0)
    witness (ts: Tables, c: Call) => (ts, Ok(true))

  /** A loaded script module: its attributes by name. */
  type ScriptModule = map<string, Routine>

  /** Python truthiness of the optional JSON argument. */
  predicate Truthy(v: Option<Json>)
  {
    match v
    case None => false
    case Some(j) =>
      match j
      case JObj(fs) => fs != []
      case JArr(xs) => xs != []
      case JStr(s) => s != []
      case JInt(i) => i != 0
      case JReal(r) => r != 0.0
      case JBool(b) => b
      case JNull => false
  }

  /** The call `execute_sql_script` makes for `action`, when it makes one. */
  function Dispatch(action: string, jsonData: Option<Json>, docId: Option<Value>): (r: Option<Call>)
    ensures r == Some(CreateTables) <==> action == "create_tables"
    ensures r.Some? && r.value.InsertData? <==> action == "insert_data" && Truthy(jsonData) && docId.Some?
    ensures r.Some? && r.value.InsertData? ==> r.value == InsertData(jsonData.value, docId.value)
  {
    if action == "create_tables" then Some(CreateTables)
    else if action == "insert_data" && Truthy(jsonData) && docId.Some? then Some(InsertData(jsonData.value, docId.value))
    else None
  }

  /** An empty object is no data to insert. */
  lemma EmptyObjectRejected(docId: Value)
    ensures Dispatch("insert_data", Some(JObj([])), Some(docId)) == None
  {
  }

  /** `os.path.join(SQL_SCRIPTS_DIR, f"{schema_name}.py")` */
  function ScriptPath(schemaName: string): string
  {
    "sql_scripts/" + schemaName + ".py"
  }

  /** What a run of the main block reports for a file that failed. */
  datatype Failure =
    | NoMatchingSchema
    | SchemaFileNotFound
    | CouldNotCreateTables
    | DuplicateEntry
    | CouldNotInsertData
    | Raised(e: PyError)

  /** The extension of the files the main block loads. */
  const JsonExt := ".json"

  /** The `.json` names of a directory listing, in listing order. */
  function JsonNames(files: seq<(string, Json)>): (r: seq<string>)
    ensures |r| <= |files|
  {
    if files == [] then []
    else (if Text.EndsWith(files[0].0, JsonExt) then [files[0].0] else []) + JsonNames(files[1..])
  }

  /** A name is processed exactly when it is a listed name ending in
      ".json". */
  lemma {:induction false} JsonNamesMembers(files: seq<(string, Json)>)
    ensures forall x | x in JsonNames(files) ::
      Text.EndsWith(x, JsonExt) && exists i | 0 <= i < |files| :: files[i].0 == x
    ensures forall i | 0 <= i < |files| && Text.EndsWith(files[i].0, JsonExt) :: files[i].0 in JsonNames(files)
    decreases |files|
  {
    if files != [] {
      var rest := JsonNames(files[1..]);
      JsonNamesMembers(files[1..]);
      forall x | x in JsonNames(files)
        ensures Text.EndsWith(x, JsonExt) && exists i | 0 <= i < |files| :: files[i].0 == x
      {
        if x in rest {
          var j :| 0 <= j < |files[1..]| && files[1..][j].0 == x;
          assert files[j + 1].0 == x;
        } else {
          assert files[0].0 == x;
        }
      }
      forall i | 0 <= i < |files| && Text.EndsWith(files[i].0, JsonExt)
        ensures files[i].0 in JsonNames(files)
      {
        if i > 0 {
          assert files[1..][i - 1] == files[i];
        }
      }
    }
  }

  lemma JsonNamesAppend(files: seq<(string, Json)>, i: nat)
    requires i < |files|
    ensures JsonNames(files[..i + 1]) ==
      JsonNames(files[..i]) + (if Text.EndsWith(files[i].0, JsonExt) then [files[i].0] else [])
  {
    JsonNamesConcat(files[..i], [files[i]]);
    assert files[..i + 1] == files[..i] + [files[i]];
    assert [files[i]][1..] == [];
  }

  /** The names after one more listing entry. */
  lemma JsonNamesNext(files: seq<(string, Json)>, i: nat, seen: seq<string>)
    requires i < |files| && seen == JsonNames(files[..i])
    ensures JsonNames(files[..i + 1]) == if Text.EndsWith(files[i].0, JsonExt) then seen + [files[i].0] else seen
  {
    JsonNamesAppend(files, i);
  }

  lemma {:induction false} JsonNamesConcat(a: seq<(string, Json)>, b: seq<(string, Json)>)
    ensures JsonNames(a + b) == JsonNames(a) + JsonNames(b)
  {
    if a == [] {
      assert a + b == b;
    } else {
      var ab := a + b;
      assert ab[0] == a[0] && ab[1..] == a[1..] + b;
      var head := if Text.EndsWith(a[0].0, JsonExt) then [a[0].0] else [];
      assert JsonNames(ab) == head + JsonNames(a[1..] + b);
      JsonNamesConcat(a[1..], b);
      assert JsonNames(a) == head + JsonNames(a[1..]);
    }
  }

  /** The file names of the failure report, in order. */
  function FailedNames(failed: seq<(string, Failure)>): (r: seq<string>)
    ensures |r| == |failed|
  {
    if failed == [] then [] else FailedNames(failed[..|failed| - 1]) + [failed[|failed| - 1].0]
  }

  /** `seen` splits into `a` and `b` keeping its order: each entry of `seen`
      is the next entry of exactly one of the two. */
  ghost predicate Interleaving(seen: seq<string>, a: seq<string>, b: seq<string>)
    decreases |seen|
  {
    if seen == [] then a == [] && b == []
    else
      var x := seen[|seen| - 1];
      || (a != [] && a[|a| - 1] == x && Interleaving(seen[..|seen| - 1], a[..|a| - 1], b))
      || (b != [] && b[|b| - 1] == x && Interleaving(seen[..|seen| - 1], a, b[..|b| - 1]))
  }

  /** Each file of `seen` ended in exactly one of the two reports, and each
      report lists its files in the order they were seen. */
  ghost predicate Reported(succeeded: seq<string>, failed: seq<(string, Failure)>, seen: seq<string>)
  {
    Interleaving(seen, succeeded, FailedNames(failed))
  }

  /** An interleaving uses every entry once: the two sides together hold
      exactly the entries of `seen`, as many times as `seen` does. */
  lemma {:induction false} InterleavingCounts(seen: seq<string>, a: seq<string>, b: seq<string>)
    requires Interleaving(seen, a, b)
    ensures |a| + |b| == |seen|
    ensures multiset(a) + multiset(b) == multiset(seen)
    decreases |seen|
  {
    if seen != [] {
      var x := seen[|seen| - 1];
      var s' := seen[..|seen| - 1];
      assert seen == s' + [x];
      if a != [] && a[|a| - 1] == x && Interleaving(s', a[..|a| - 1], b) {
        InterleavingCounts(s', a[..|a| - 1], b);
        assert a == a[..|a| - 1] + [x];
      } else {
        InterleavingCounts(s', a, b[..|b| - 1]);
        assert b == b[..|b| - 1] + [x];
      }
    }
  }

  /** Reporting the next file as loaded or as failed keeps the reports an
      in-order split of the files seen. */
  lemma ReportedNext(succeeded: seq<string>, failed: seq<(string, Failure)>, seen: seq<string>, name: string,
                     outcome: Option<Failure>)
    requires Reported(succeeded, failed, seen)
    ensures outcome.None? ==> Reported(succeeded + [name], failed, seen + [name])
    ensures outcome.Some? ==> Reported(succeeded, failed + [(name, outcome.value)], seen + [name])
  {
    if outcome.None? {
      ReportedSucceeded(succeeded, failed, seen, name);
    } else {
      ReportedFailed(succeeded, failed, seen, name, outcome.value);
    }
  }

  /** The reports together hold each file seen, as often as it was seen. */
  lemma ReportedCounts(succeeded: seq<string>, failed: seq<(string, Failure)>, seen: seq<string>)
    requires Reported(succeeded, failed, seen)
    ensures |succeeded| + |failed| == |seen|
    ensures multiset(succeeded) + multiset(FailedNames(failed)) == multiset(seen)
  {
    InterleavingCounts(seen, succeeded, FailedNames(failed));
  }

  lemma ReportedSucceeded(succeeded: seq<string>, failed: seq<(string, Failure)>, seen: seq<string>, name: string)
    requires Reported(succeeded, failed, seen)
    ensures Reported(succeeded + [name], failed, seen + [name])
  {
    assert (seen + [name])[..|seen|] == seen;
    assert (succeeded + [name])[..|succeeded|] == succeeded;
  }

  lemma ReportedFailed(succeeded: seq<string>, failed: seq<(string, Failure)>, seen: seq<string>, name: string, why: Failure)
    requires Reported(succeeded, failed, seen)
    ensures Reported(succeeded, failed + [(name, why)], seen + [name])
  {
    var f := FailedNames(failed + [(name, why)]);
    assert (failed + [(name, why)])[..|failed|] == failed;
    assert f == FailedNames(failed) + [name];
    assert (seen + [name])[..|seen|] == seen;
    assert f[..|f| - 1] == FailedNames(failed);
  }

  lemma NothingDropped(ts: Tables, all: set<string>)
    ensures ts - (all - all) == ts
  {
    assert all - all == {};
  }

  /** Dropping one more of the remaining names. */
  lemma DropOneMore(ts: Tables, all: set<string>, names: set<string>, n: string)
    requires n in names && names <= all
    ensures (ts - (all - names)) - {n} == ts - (all - (names - {n}))
  {
    assert all - (names - {n}) == (all - names) + {n};
  }

  // ---------------------------------------------------------------------------
  // The loader

  class DynamicSqlLoader {
    var db: Connection
    /** The files under `sql_scripts/`, by path. */
    var scripts: map<string, string>

    ghost predicate Valid()
      reads this, db
    {
      db.Valid()
    }

    constructor (conn: Connection, files: map<string, string>)
      requires conn.Valid()
      ensures Valid() && db == conn && scripts == files
    {
      db := conn;
      scripts := files;
    }

    /** `clear_database`: foreign keys off, every table not matching
        `LIKE 'sqlite_%'` dropped, foreign keys on. */
    method ClearDatabase()
      requires Valid()
      modifies db
      ensures Valid() && db.foreignKeys
      ensures db.tables == Cleared(old(db.tables)) && db.committed == old(db.committed)
    {
      db.SetForeignKeys(false);
      ghost var start := db.tables;
      var names := Dropped(db.tables);
      ghost var all := names;
      assert start - (all - names) == start by {
        NothingDropped(start, all);
      }
      while names != {}
        invariant Valid() && names <= all
        invariant db.tables == start - (all - names)
        invariant db.committed == old(db.committed)
        decreases |names|
      {
        var n :| n in names;
        db.DropTable(n);
        DropOneMore(start, all, names, n);
        names := names - {n};
      }
      assert all - names == all;
      db.SetForeignKeys(true);
    }

    /** `create_doc_info_table` */
    method CreateDocInfoTable()
      requires Valid()
      modifies db
      ensures Valid()
      ensures db.tables == CreateDocInfo(old(db.tables)) && db.committed == db.tables
    {
      CreateDocInfoIdempotent(db.tables);
      if DocInfo !in db.tables {
        assert ColumnNames(DocInfoColumns) == ["doc_id", "doc_name"];
        assert Text.Lower(DocInfo[..7])[0] == 'd';
        var _ := db.CreateTable(DocInfo, DocInfoColumns, "doc_id", {"doc_name"});
      }
      db.Commit();
    }

    /** `resolve_doc_id`, as in the other loader. */
    method ResolveDocId(docName: string) returns (r: Result<Value>)
      requires Valid()
      modifies db
      ensures Valid()
      ensures (db.tables, r) == Resolve(old(db.tables), docName)
    {
      var out := db.Insert(DocInfo, ["doc_name"], [VText(docName)]);
      if out == Failed {
        return Err(OperationalError);
      }
      db.Commit();
      var row := db.SelectFirst(DocInfo, "doc_id", "doc_name", VText(docName));
      match row
      case Err(e) => r := Err(e);
      case Ok(None) => r := Err(RuntimeError);
      case Ok(Some(v)) => r := Ok(v);
    }

    /** `ensure_sql_script`: a missing script is generated by the model
        (`llm`), cleaned up and saved; an existing one is left alone. */
    method EnsureSqlScript(schemaName: string, schemaCode: string, llm: (string, string) -> string)
      modifies this
      ensures db == old(db)
      ensures ScriptPath(schemaName) in old(scripts) ==> scripts == old(scripts)
      ensures ScriptPath(schemaName) !in old(scripts) ==>
        scripts == old(scripts)[ScriptPath(schemaName) := Cleanup(llm(schemaName, schemaCode))]
    {
      var path := ScriptPath(schemaName);
      if path !in scripts {
        var code := Cleanup(llm(schemaName, schemaCode));
        scripts := scripts[path := code];
      }
    }

    /** `execute_sql_script`: load the script (`load` stands for importing
        its text), look the action up, call it, and commit only when it
        returned. */
    method ExecuteSqlScript(schemaName: string, action: string, jsonData: Option<Json>, docId: Option<Value>,
                            load: string -> ScriptModule) returns (r: Result<bool>)
      requires Valid()
      modifies db
      ensures Valid()
      ensures ScriptPath(schemaName) !in scripts ==> r == Err(FileNotFoundError) && db.tables == old(db.tables)
      ensures ScriptPath(schemaName) in scripts ==>
        var m := load(scripts[ScriptPath(schemaName)]);
        && (action !in m ==> r == Err(ValueError) && db.tables == old(db.tables))
        && (action in m && Dispatch(action, jsonData, docId).None? ==> r == Err(ValueError) && db.tables == old(db.tables))
        && (action in m && Dispatch(action, jsonData, docId).Some? ==>
              (db.tables, r) == m[action](old(db.tables), Dispatch(action, jsonData, docId).value))
      ensures db.committed == (if r.Ok? then db.tables else old(db.committed))
    {
      var path := ScriptPath(schemaName);
      if path !in scripts {
        return Err(FileNotFoundError);
      }
      var m := load(scripts[path]);
      if action !in m {
        return Err(ValueError);
      }
      var call := Dispatch(action, jsonData, docId);
      if call.None? {
        return Err(ValueError);
      }
      var (after, success) := m[action](db.tables, call.value);
      db.Execute(after);
      if success.Err? {
        return success;
      }
      db.Commit();
      r := success;
    }

    /** The main block: clear, create the registry, then per `.json` file
        identify its schema, make sure its script exists, create the tables,
        resolve the document id and insert. Each file ends in exactly one of
        the two reports. */
    method Run(files: seq<(string, Json)>, identify: Json -> Option<string>, schemaFiles: map<string, string>,
               llm: (string, string) -> string, load: string -> ScriptModule)
      returns (succeeded: seq<string>, failed: seq<(string, Failure)>)
      requires Valid()
      modifies this, db
      ensures Valid() && db == old(db)
      ensures Reported(succeeded, failed, JsonNames(files))
      ensures |succeeded| + |failed| == |JsonNames(files)|
    {
      ClearDatabase();
      CreateDocInfoTable();
      succeeded, failed := ProcessListing(files, identify, schemaFiles, llm, load);
    }

    /** The loop of the main block over the directory listing. */
    method ProcessListing(files: seq<(string, Json)>, identify: Json -> Option<string>, schemaFiles: map<string, string>,
                          llm: (string, string) -> string, load: string -> ScriptModule)
      returns (succeeded: seq<string>, failed: seq<(string, Failure)>)
      requires Valid()
      modifies this, db
      ensures Valid() && db == old(db)
      ensures Reported(succeeded, failed, JsonNames(files))
      ensures |succeeded| + |failed| == |JsonNames(files)|
    {
      succeeded, failed := [], [];
      ghost var seen: seq<string> := [];
      var i := 0;
      while i < |files|
        invariant 0 <= i <= |files|
        invariant Valid() && db == old(db)
        invariant seen == JsonNames(files[..i])
        invariant Reported(succeeded, failed, seen)
      {
        var name := files[i].0;
        var data := files[i].1;
        JsonNamesNext(files, i, seen);
        if Text.EndsWith(name, JsonExt) {
          var outcome := ProcessFile(name, data, identify, schemaFiles, llm, load);
          ReportedNext(succeeded, failed, seen, name, outcome);
          if outcome.None? {
            succeeded := succeeded + [name];
          } else {
            failed := failed + [(name, outcome.value)];
          }
        }
        seen := JsonNames(files[..i + 1]);
        i := i + 1;
      }
      assert files[..|files|] == files;
      ReportedCounts(succeeded, failed, seen);
    }

    /** One file of the main block: `None` when it was loaded, otherwise
        why it failed. */
    method ProcessFile(name: string, data: Json, identify: Json -> Option<string>, schemaFiles: map<string, string>,
                       llm: (string, string) -> string, load: string -> ScriptModule) returns (r: Option<Failure>)
      requires Valid()
      modifies this, db
      ensures Valid() && db == old(db)
      ensures identify(data).None? || identify(data) == Some("") ==> r == Some(NoMatchingSchema)
      ensures identify(data).Some? && identify(data).value != [] && identify(data).value !in schemaFiles ==>
        r == Some(SchemaFileNotFound)
    {
      var schemaName := identify(data);
      if schemaName.None? || schemaName.value == [] {
        return Some(NoMatchingSchema);
      }
      if schemaName.value !in schemaFiles {
        return Some(SchemaFileNotFound);
      }
      EnsureSqlScript(schemaName.value, schemaFiles[schemaName.value], llm);
      var created := ExecuteSqlScript(schemaName.value, "create_tables", None, None, load);
      if created.Err? {
        return Some(CouldNotCreateTables);
      }
      var docId := ResolveDocId(name);
      if docId.Err? {
        return Some(Raised(docId.error));
      }
      var inserted := ExecuteSqlScript(schemaName.value, "insert_data", Some(data), Some(docId.value), load);
      if inserted.Err? {
        r := Some(if inserted.error == IntegrityError then DuplicateEntry else CouldNotInsertData);
      } else {
        r := None;
      }
    }
  }
}
