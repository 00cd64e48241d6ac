/** The sqlite3 connection the loaders hold: a mutable wrapper around the
    abstract store. Each method is one statement executed on the cursor. */
module Database {
  import opened Wrappers
  import opened Store

  /** The connection: the current state, the state as of the last commit, and
      the `foreign_keys` pragma. */
  class Connection {
    var tables: Tables
    var committed: Tables
    var foreignKeys: bool

    ghost predicate Valid()
      reads this
    {
      ValidStore(tables) && ValidStore(committed)
    }

    /** `sqlite3.connect` on a database file holding `ts`. */
    constructor Open(ts: Tables)
      requires ValidStore(ts)
      ensures Valid() && tables == ts && committed == ts && !foreignKeys
    {
      tables := ts;
      committed := ts;
      foreignKeys := false;
    }

    /** `PRAGMA table_info(name)`: the column names, in order. */
    function TableInfo(name: string): (r: seq<string>)
      reads this
    {
      Store.TableInfo(tables, name)
    }

    /** `SELECT col FROM name WHERE w = ?` followed by `fetchone()`. */
    function SelectFirst(name: string, col: string, w: string, v: Value): (r: Result<Option<Value>>)
      reads this
    {
      Store.SelectFirst(tables, name, col, w, v)
    }

    method CreateTable(name: string, cols: seq<Column>, key: string, unique: set<string>) returns (r: Result<()>)
      requires Valid() && key in ColumnNames(cols)
      modifies this
      ensures Valid() && committed == old(committed) && foreignKeys == old(foreignKeys)
      ensures var c := Store.CreateTable(old(tables), name, cols, key, unique);
        r.Ok? == c.Ok? && tables == (if c.Ok? then c.value else old(tables))
    {
      var c := Store.CreateTable(tables, name, cols, key, unique);
      if c.Ok? {
        tables := c.value;
        r := Ok(());
      } else {
        r := Err(c.error);
      }
    }

    method AddColumn(name: string, c: Column) returns (r: Result<()>)
      requires Valid()
      modifies this
      ensures Valid() && committed == old(committed) && foreignKeys == old(foreignKeys)
      ensures var a := Store.AddColumn(old(tables), name, c);
        r.Ok? == a.Ok? && tables == (if a.Ok? then a.value else old(tables))
    {
      var a := Store.AddColumn(tables, name, c);
      if a.Ok? {
        tables := a.value;
        r := Ok(());
      } else {
        r := Err(a.error);
      }
    }

    method Insert(name: string, cols: seq<string>, vals: seq<Value>) returns (out: InsertOutcome)
      requires Valid() && |cols| == |vals|
      modifies this
      ensures Valid() && committed == old(committed) && foreignKeys == old(foreignKeys)
      ensures (tables, out) == Store.Insert(old(tables), name, cols, vals)
    {
      InsertValid(tables, name, cols, vals);
      var (ts, o) := Store.Insert(tables, name, cols, vals);
      tables := ts;
      out := o;
    }

    method DeleteWhere(name: string, w: string, v: Value)
      requires Valid()
      modifies this
      ensures Valid() && committed == old(committed) && foreignKeys == old(foreignKeys)
      ensures tables == Store.DeleteWhere(old(tables), name, w, v)
    {
      DeleteWhereValid(tables, name, w, v);
      tables := Store.DeleteWhere(tables, name, w, v);
    }

    /** DROP TABLE IF EXISTS */
    method DropTable(name: string)
      requires Valid()
      modifies this
      ensures Valid() && committed == old(committed) && foreignKeys == old(foreignKeys)
      ensures tables == old(tables) - {name}
    {
      tables := tables - {name};
    }

    /** Statements issued through the cursor by code outside the model,
        given by the state they leave behind. */
    method Execute(after: Tables)
      requires Valid() && ValidStore(after)
      modifies this
      ensures Valid() && committed == old(committed) && foreignKeys == old(foreignKeys)
      ensures tables == after
    {
      tables := after;
    }

    /** PRAGMA foreign_keys = ON/OFF */
    method SetForeignKeys(on: bool)
      modifies this
      ensures tables == old(tables) && committed == old(committed) && foreignKeys == on
    {
      foreignKeys := on;
    }

    method Commit()
      requires Valid()
      modifies this
      ensures Valid() && tables == old(tables) && committed == old(tables) && foreignKeys == old(foreignKeys)
    {
      committed := tables;
    }

    method Rollback()
      requires Valid()
      modifies this
      ensures Valid() && tables == old(committed) && committed == old(committed) && foreignKeys == old(foreignKeys)
    {
      tables := committed;
    }
  }
}
