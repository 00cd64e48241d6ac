# Document-AI loaders and rules, modelled in Dafny

This project models the core of Document-AI. Its centre is the dynamic
JSON-to-relational loader: a JSON document extracted from a batch record is
loaded into SQLite. The loader registers the document name in `doc_info` and
gets back a stable `doc_id`. It infers a table schema from the shape of the
JSON and creates the tables that are missing. Then it inserts the tree
recursively: children go in before their parents, and columns are added on
the fly. The database is modelled as an abstract store, not as SQL text. The
store holds tables with declared columns, rows that map column names to
values, an AUTOINCREMENT counter per table, and a committed snapshot for
commit and rollback.

On the same store the project models:
- the schema-driven loader (`DynamicSQLLoader`): it clears the database,
  keeps the registry, generates missing SQL scripts and dispatches their
  `create_tables` / `insert_data` functions;
- the cascade delete of one document from every table that has a `doc_id`
  column.

It also models the smaller rules of the application:
- the workflow registry and its "create a workflow called …" parser;
- intent parsing, the run-workflow node's decision branches, and routing;
- the page-selection parser and the document-type list of the web front end;
- the material-usage range flag;
- the naming and assembly of generated Pydantic schemas;
- the cleanup of model replies and the cycling of name lists over table rows.

Modules follow the source files:
- `SqlUtils` models `agents/sql_agent/utils.py`.
- `JsonToDb` and `DocRegistry` model `agents/sql_agent/json_to_db.py`.
- `DbInitLlm` models `agents/sql_agent/db_init_llm.py`.
- `DeleteDocument` models `agents/delete_document.py`.
- `Workflow` models `agents/workflow_agent/workflow_main.py`.
- `Nodes` models `agents/controller_agent/langgraph_components/nodes.py`.
- `Controller` models `agents/controller_agent/controller.py`.
- `App` models `app.py`.
- `MaterialUsage` models `src/validation/material_usage.py`.
- `SchemaHelper` models `schema_helper.py`.
- `Processing` models `src/processing.py`.

Supporting modules:
- `Wrappers`: Option and Result.
- `Text`: Python string operations.
- `JsonValue`: JSON values whose objects keep their key order.
- `Sorting`: `sorted` on strings.
- `Store`: the abstract SQLite database.
- `Database`: the sqlite3 connection as a class with a commit snapshot.

Some parts are imperative in the source: the loaders' classes, `insert_data`,
the delete loop, the page parser, the row validation and the schema
assembly. These are Dafny classes and methods with loops, and each is proved
against a specification function. The pure rules are functions and lemmas.

## Model

| member | source | states |
|---|---|---|
| SqlUtils.GetSqlTypeFirst | agents/sql_agent/utils.py:76-87 | int and bool map to INTEGER, float to REAL, str and None to TEXT; exactly the objects and lists are refused |
| SqlUtils.GetSqlType | agents/sql_agent/utils.py:160-173 | the definition in force accepts exactly the scalars |
| SqlUtils.GetSqlTypeShadowsSame | agents/sql_agent/utils.py:160-173 | the shadowing definition maps every value exactly as the first one does |
| SqlUtils.ToValue | agents/sql_agent/utils.py:139-151 | a JSON scalar is stored as itself: an int as that integer, True/False as 1/0, a float as that real, a string as that text, None as NULL; the storage class follows the JSON type |
| SqlUtils.TypeFitsValue | agents/sql_agent/utils.py:139-142 | the declared column type names the storage class of the value stored under it |
| SqlUtils.EnsureColumnSpec | agents/sql_agent/utils.py:90-109 | a no-op on a missing table or a listed column; otherwise exactly that column is appended; no column is retyped or removed; the failed ALTER on a missing table does not propagate |
| SqlUtils.EnsureColumnExists | agents/sql_agent/utils.py:90-109 | the connection's tables become the specified ones and nothing is committed |
| SqlUtils.Step | agents/sql_agent/utils.py:126-142 | one key extends `columns` and `values` in lock-step and never drops an entry |
| SqlUtils.Collect | agents/sql_agent/utils.py:126-142 | the key loop keeps `columns` and `values` of equal length, each extending what it started from |
| SqlUtils.InsertData | agents/sql_agent/utils.py:112-157 | the loop over keys, with its recursive calls, leaves exactly the store and id of `InsertSpec`, whose row, link, list and cell behaviour the lemmas below state; nothing is committed |
| SqlUtils.InsertField | agents/sql_agent/utils.py:126-142 | one key of the loop: a nested object is inserted and its id appended as `{key}_id`, a list's objects go to the sub-table, a scalar is appended; the new store and pending INSERT are exactly `Step`'s; nothing is committed |
| SqlUtils.InsertList | agents/sql_agent/utils.py:133-137 | the list branch inserts the list's objects one by one, in list order, leaving exactly the store `InsertItems` gives; nothing is committed |
| SqlUtils.EnsureColumnGrows | agents/sql_agent/utils.py:96-105 | adding a column keeps the store valid and only grows it |
| SqlUtils.InsertSpecGrows | agents/sql_agent/utils.py:123-137 | every row written anywhere in the tree carries the document's `doc_id`; existing rows, tables and columns are kept |
| SqlUtils.InsertGrows | agents/sql_agent/utils.py:144-152 | an INSERT whose first column is `doc_id` only appends rows that carry that id |
| SqlUtils.InsertItemsGrows | agents/sql_agent/utils.py:133-137 | inserting the items of a list only grows the store, and every row it writes carries the document's `doc_id` |
| SqlUtils.CollectGrows | agents/sql_agent/utils.py:126-142 | the key loop, recursive inserts included, only grows the store with rows tagged by `doc_id` |
| SqlUtils.StepGrows | agents/sql_agent/utils.py:127-142 | one key, with the child insert of a nested object, only grows the store with rows tagged by `doc_id` |
| SqlUtils.InsertSpecReturnsLastRow | agents/sql_agent/utils.py:150-152 | the returned id is that of the last row appended to the object's own table, and that row carries `doc_id` |
| SqlUtils.OnlyListsNoRow | agents/sql_agent/utils.py:144-157 | an object with only lists, or with no keys, returns None and leaves the rows of its own table exactly as they were |
| SqlUtils.CollectColumns | agents/sql_agent/utils.py:126-142 | the INSERT's column list is `doc_id` followed, key by key, by the key itself for a scalar, `{key}_id` for an object and nothing for a list, whatever the store holds |
| SqlUtils.CollectSplit | agents/sql_agent/utils.py:126-142 | the key loop is a left fold: running it over a prefix of the keys and then over the rest is running it over all of them |
| SqlUtils.CollectAt | agents/sql_agent/utils.py:126-142 | key i is handled on the store the earlier keys left, and its column and value come right after the earlier keys' columns |
| SqlUtils.InsertSpecFramed | agents/sql_agent/utils.py:112-157 | an insert under a table changes no table outside that table's `{table}_…` subtree and creates or drops no table |
| SqlUtils.CollectFramed | agents/sql_agent/utils.py:126-142 | the key loop changes its own table only by adding columns, and nothing outside its subtree |
| SqlUtils.InsertSpecOwnRow | agents/sql_agent/utils.py:144-157 | the object's own table gains exactly one row, appended after its rows, exactly when an id is returned; no id for a missing table or an object whose keys give no column; an id whenever the row fits the table |
| SqlUtils.InsertSpecScalarCell | agents/sql_agent/utils.py:138-152 | a scalar key's cell in the inserted row holds that key's value |
| SqlUtils.InsertSpecChildLink | agents/sql_agent/utils.py:127-132 | a nested object is inserted first, on the store the earlier keys left, and the parent's row then holds the child's returned id under `{key}_id`, or NULL when the child inserted nothing; the parent is still inserted |
| SqlUtils.InsertItemsRows | agents/sql_agent/utils.py:133-137 | the sub-table keeps its rows as a prefix and gains exactly one row per object of the list that gives a column; other items add none |
| SqlUtils.InsertItemsRowOf | agents/sql_agent/utils.py:133-137 | rows follow list order: the object at position `j` that gives a column owns the row at the old row count plus the number of such objects before it, and that row holds the document's `doc_id` and the object's scalar values |
| SqlUtils.InsertSpecItemRow | agents/sql_agent/utils.py:138-152 | the row an inserted object appends holds the document's `doc_id` and, for each scalar key whose column is named first there, that key's value |
| SqlUtils.CollectEnsuresColumns | agents/sql_agent/utils.py:126-142 | before the INSERT, every listed column other than `doc_id` exists in the table |
| SqlUtils.StepEnsuresColumns | agents/sql_agent/utils.py:130-142 | each scalar key and each `{key}_id` goes through `ensure_column_exists` when it is appended |
| DocRegistry.CreateDocInfo | agents/sql_agent/json_to_db.py:30-39 | `doc_info` exists afterwards; an existing table is untouched; a new one is empty with key `doc_id` and `doc_name` UNIQUE |
| DocRegistry.CreateDocInfoIdempotent | agents/sql_agent/json_to_db.py:30-39 | creating the table any number of times leaves one unchanged `doc_info`, and the store stays valid |
| DocRegistry.ResolveExisting | agents/sql_agent/json_to_db.py:41-52 | for a registered name the INSERT is ignored and the first matching row's id is returned |
| DocRegistry.ResolveNew | agents/sql_agent/json_to_db.py:41-52 | for a new name one row is appended with the next id, and that id is returned |
| DocRegistry.ResolveFinds | agents/sql_agent/json_to_db.py:41-52 | on a ready registry the lookup never reaches the RuntimeError path; the name is registered afterwards |
| DocRegistry.ResolveIdempotent | agents/sql_agent/json_to_db.py:41-52 | resolving a name twice returns the same id and adds no second row |
| DocRegistry.ResolveDistinct | agents/sql_agent/json_to_db.py:33-52 | distinct names resolved one after the other get distinct ids |
| JsonToDb.Register | agents/sql_agent/json_to_db.py:55-58 | the first sight of a table registers it; the schema only grows and stays well formed |
| JsonToDb.AddDef | agents/sql_agent/json_to_db.py:64-73 | the definition is in the table's set afterwards; the schema only grows |
| JsonToDb.Gather | agents/sql_agent/json_to_db.py:54-73 | the table is registered; definitions and tables are only ever added, across documents too |
| JsonToDb.GatherFields | agents/sql_agent/json_to_db.py:60-73 | the key loop only adds to the schema and keeps it well formed |
| JsonToDb.GatherStep | agents/sql_agent/json_to_db.py:61-73 | one key only adds to the schema and keeps it well formed |
| JsonToDb.GatherItems | agents/sql_agent/json_to_db.py:67-69 | the list loop only adds to the schema and keeps it well formed |
| JsonToDb.GatherFramed | agents/sql_agent/json_to_db.py:54-73 | gathering under a table changes no table outside its own `{table}_…` subtree |
| JsonToDb.GatherOwnTable | agents/sql_agent/json_to_db.py:55-73 | the table's own definitions are `pk`, `doc_id` and exactly what its keys contribute: a column per scalar key, `{key}_id` per object key, nothing for a list |
| JsonToDb.GatherFieldsOwnTable | agents/sql_agent/json_to_db.py:60-73 | the key loop adds to its own table exactly the definitions the keys contribute |
| JsonToDb.SameKeyTwoTypes | agents/sql_agent/json_to_db.py:70-73 | the same key seen as an integer and then as a string yields two definitions for one column name |
| JsonToDb.GatherOneScalar | agents/sql_agent/json_to_db.py:70-73 | one scalar key adds `"{key} {TYPE}"` to the registered table |
| JsonToDb.GatherSample | agents/sql_agent/json_to_db.py:54-73 | the sample document gives `main_table` (with `a`, `b_id`), `main_table_b` (with `c`) and `main_table_d` (with `e`) |
| JsonToDb.DistinctColumnNames | agents/sql_agent/json_to_db.py:80-87 | the sorted definitions have distinct column names exactly when the set has no two definitions for one name |
| JsonToDb.JsonToSql.constructor | agents/sql_agent/json_to_db.py:24-28 | the schema starts empty and `doc_info` is created and committed |
| JsonToDb.JsonToSql.CreateDocInfoTable | agents/sql_agent/json_to_db.py:30-39 | CREATE TABLE IF NOT EXISTS, then everything is committed |
| JsonToDb.JsonToSql.ResolveDocId | agents/sql_agent/json_to_db.py:41-52 | store and result as the registry specifies; the commit follows the INSERT unless that failed |
| JsonToDb.JsonToSql.GatherSchema | agents/sql_agent/json_to_db.py:54-73 | the instance's schema becomes the gathered schema of the object |
| JsonToDb.JsonToSql.GatherEach | agents/sql_agent/json_to_db.py:60-73 | the key loop updates the schema as specified |
| JsonToDb.JsonToSql.GatherKey | agents/sql_agent/json_to_db.py:61-73 | one key updates the schema as specified |
| JsonToDb.JsonToSql.GatherList | agents/sql_agent/json_to_db.py:65-69 | the list loop updates the schema as specified |
| JsonToDb.JsonToSql.CreateFromDefs | agents/sql_agent/json_to_db.py:79-87 | CREATE TABLE succeeds exactly when it is allowed; the table is then empty with its definitions in sorted order; a failure changes nothing |
| JsonToDb.JsonToSql.CreateMissing | agents/sql_agent/json_to_db.py:76-87 | when `table_exists` finds the table it is skipped and the store is unchanged; a missing one is created exactly when its definitions allow it; a failure changes nothing |
| JsonToDb.JsonToSql.CreateTablesFromSchema | agents/sql_agent/json_to_db.py:75-88 | succeeds exactly when every missing table can be created; existing tables are untouched; only schema tables are added; on success every schema table exists; a second run issues no DDL |
| JsonToDb.JsonToSql.ProcessDocument | agents/sql_agent/json_to_db.py:109-114 | the id is resolved first (its failure ends the document); a root that is not an object fails after `main_table` is registered in the schema; otherwise the schema grows by the root gathered under `main_table`, the missing tables are created, and on success the store is exactly what `insert_data` makes of the root under `main_table` on the created tables; a failed CREATE leaves the created store |
| JsonToDb.DocumentRow | agents/sql_agent/json_to_db.py:109-114 | after the tables are created, a root with a scalar or object key adds exactly one row to `main_table`, carrying the document's id, and `insert_data` returns that row's id; a root with only lists adds none |
| JsonToDb.JsonToSql.Run | agents/sql_agent/json_to_db.py:98-117 | a run that finishes has committed everything |
| DbInitLlm.LikeInternal | agents/sql_agent/db_init_llm.py:49-51 | `LIKE 'sqlite_%'` holds exactly for names of seven or more characters whose first six spell "sqlite" in any case |
| DbInitLlm.Dropped | agents/sql_agent/db_init_llm.py:49-54 | only existing tables are dropped |
| DbInitLlm.ClearedKeeps | agents/sql_agent/db_init_llm.py:49-54 | a table survives clearing exactly when its name matches the pattern, and it survives unchanged |
| DbInitLlm.ClearedKeepsLookalike | agents/sql_agent/db_init_llm.py:49-54 | SQLite's own tables survive, and so does a user table named "sqlitex" |
| DbInitLlm.CleanupFenced | agents/sql_agent/db_init_llm.py:362 | a fenced block tagged `python` comes back as its stripped body |
| DbInitLlm.CleanupEatsLetters | agents/sql_agent/db_init_llm.py:362 | unfenced code loses any leading run of the letters p, y, t, h, o, n, not only the word "python" |
| DbInitLlm.Dispatch | agents/sql_agent/db_init_llm.py:179-184 | `create_tables` is always called; `insert_data` only with truthy data and a doc_id; any other action is refused |
| DbInitLlm.EmptyObjectRejected | agents/sql_agent/db_init_llm.py:181 | an empty object is no data to insert |
| DbInitLlm.JsonNamesMembers | agents/sql_agent/db_init_llm.py:409-410 | a name is processed exactly when it is a listed name ending in ".json" |
| DbInitLlm.JsonNamesConcat | agents/sql_agent/db_init_llm.py:409-410 | the processed names keep the listing's order: the names of two listings joined are the names of each, joined |
| DbInitLlm.ReportedCounts | agents/sql_agent/db_init_llm.py:409-460 | when the reports split the processed names in order, together they hold every processed name exactly as often as it was processed, and their lengths add up |
| DbInitLlm.InterleavingCounts | agents/sql_agent/db_init_llm.py:409-460 | when the two reports are an in-order split of the processed names, together they hold every processed name exactly as often as it was processed |
| DbInitLlm.DynamicSqlLoader.constructor | agents/sql_agent/db_init_llm.py:32-36 | the loader holds the given connection and script files |
| DbInitLlm.DynamicSqlLoader.ClearDatabase | agents/sql_agent/db_init_llm.py:42-56 | exactly the non-matching tables are dropped; foreign keys are on afterwards; nothing is committed |
| DbInitLlm.DynamicSqlLoader.CreateDocInfoTable | agents/sql_agent/db_init_llm.py:58-70 | CREATE TABLE IF NOT EXISTS, then everything is committed |
| DbInitLlm.DynamicSqlLoader.ResolveDocId | agents/sql_agent/db_init_llm.py:72-98 | store and result as the registry specifies, RuntimeError when the SELECT finds nothing |
| DbInitLlm.DynamicSqlLoader.EnsureSqlScript | agents/sql_agent/db_init_llm.py:131-146 | an existing script is left alone; a missing one is generated, cleaned and saved under its path |
| DbInitLlm.DynamicSqlLoader.ExecuteSqlScript | agents/sql_agent/db_init_llm.py:148-187 | a missing script raises FileNotFoundError; a missing function and an invalid action or arguments raise ValueError with the store unchanged; otherwise the function's effect; a commit only when it returned |
| DbInitLlm.DynamicSqlLoader.Run | agents/sql_agent/db_init_llm.py:399-460 | the two reports split the `.json` files in listing order: each file is the next entry of exactly one report, and the two lengths add up to the number of files |
| DbInitLlm.DynamicSqlLoader.ProcessListing | agents/sql_agent/db_init_llm.py:409-460 | the loop over the listing: the two reports split the `.json` files in listing order, and the two lengths add up to the number of files |
| DbInitLlm.DynamicSqlLoader.ProcessFile | agents/sql_agent/db_init_llm.py:418-431 | no schema name gives "No matching schema"; a missing schema file gives "Schema file not found" |
| DeleteDocument.Purge | agents/delete_document.py:29-35 | the cascade keeps the set of tables |
| DeleteDocument.PurgeExact | agents/delete_document.py:29-35 | a table with `doc_id` loses exactly the rows carrying the id and keeps every other row; tables without `doc_id` are unchanged; columns are never touched |
| DeleteDocument.PurgeValid | agents/delete_document.py:29-35 | the cascade keeps the store valid |
| DeleteDocument.DocInfoAlreadyPurged | agents/delete_document.py:25-40 | the registry row is already gone after the loop, so the explicit delete removes nothing |
| DeleteDocument.DeleteDocRemovesAll | agents/delete_document.py:14-40 | an unregistered name changes nothing; otherwise no row of any table with `doc_id` carries the document's id |
| DeleteDocument.PurgeOne | agents/delete_document.py:30-36 | one table is purged when it lists `doc_id` and left alone otherwise |
| DeleteDocument.Cascade | agents/delete_document.py:24-36 | the loop over all tables leaves exactly the cascade's result |
| DeleteDocument.DeleteDocumentDynamic | agents/delete_document.py:6-51 | the file holds the specified result after the connection closes: unchanged on a failed or empty lookup, purged and committed otherwise; the store stays valid |
| Workflow.ParseCreation | agents/workflow_agent/workflow_main.py:22-40 | a command is refused exactly when the lower-cased text lacks the cue or the case-sensitive "called" is absent, with one of the two messages |
| Workflow.NameHasNoBlank | agents/workflow_agent/workflow_main.py:31-36 | a parsed name never holds a space |
| Workflow.ParseCreationCommand | agents/workflow_agent/workflow_main.py:15-44 | parsing "Create a workflow called <name> <prompt>" gives back the name and prompt |
| Workflow.EmptyName | agents/workflow_agent/workflow_main.py:30-34 | nothing after "called" yields the empty name and "No prompt found." |
| Workflow.CaseSensitiveSplit | agents/workflow_agent/workflow_main.py:27-29 | a command that spells only "CALLED" or "Called" passes the cue and is refused with "Could not parse name." |
| Workflow.WorkflowAgent.constructor | agents/workflow_agent/workflow_main.py:11-13 | the registry starts empty |
| Workflow.WorkflowAgent.ParseWorkflowCreation | agents/workflow_agent/workflow_main.py:15-44 | a parsed command stores or overwrites its workflow and nothing else, and returns the success message; a refused one changes nothing |
| Workflow.WorkflowAgent.GetPrompt | agents/workflow_agent/workflow_main.py:46-48 | the stored prompt, or "Workflow not found." |
| Workflow.WorkflowAgent.NotifyUser | agents/workflow_agent/workflow_main.py:50-52 | the message prefixed with the workflow's name; no state is read or changed |
| Nodes.ParseIntent | agents/controller_agent/langgraph_components/nodes.py:14-24 | "create a workflow" wins; otherwise "knowledge graph" or "kg" anywhere gives regular_kg and anything else regular_sql; only IndexError is raised; "unknown" is never returned; only a run intent carries a name |
| Nodes.RunName | agents/controller_agent/langgraph_components/nodes.py:19-21 | a run request raises IndexError exactly when only whitespace follows the last "workflow"; otherwise the name is the first whitespace-separated token of that text: non-empty, without whitespace, a prefix of the stripped text and followed there by whitespace or its end |
| Nodes.RunIntentName | agents/controller_agent/langgraph_components/nodes.py:20 | `split()[0]` on the text after the last "workflow": IndexError exactly for an all-whitespace text, otherwise the leading whitespace-free token of the stripped text, ending at whitespace or at the end |
| Nodes.RunNameIsLower | agents/controller_agent/langgraph_components/nodes.py:16-21 | a parsed workflow name has no upper-case letter |
| Nodes.DefaultName | agents/controller_agent/langgraph_components/nodes.py:45 | a state without `workflow_name` runs "low_quantity_check" |
| Nodes.NotFoundSkipsTools | agents/controller_agent/langgraph_components/nodes.py:45-50 | an unknown workflow answers "Workflow not found." without consulting the SQL, controller or notification tools |
| Nodes.DecisionBranches | agents/controller_agent/langgraph_components/nodes.py:74-86 | a decision containing "NOTIFY" reports failure and ends with the notification; any other reports success and does not depend on the notifier |
| Controller.PickNextNode | agents/controller_agent/controller.py:64-72 | the result is one of the four nodes; any other intent goes to "sql_node" |
| Controller.RoutesAsMeant | agents/controller_agent/controller.py:64-72 | each intent, "unknown" included, reaches its node |
| Controller.ParsedRequestRoute | agents/controller_agent/controller.py:64-72 | a parsed request reaches the node of its intent; "create a workflow" always reaches workflow creation |
| Controller.MixedCaseNeverRun | agents/controller_agent/langgraph_components/nodes.py:16-21 | a workflow stored under a name with an upper-case letter is never the one a run request names |
| App.Range | app.py:73 | `range(a, b + 1)`: a, a+1, …, b, and nothing when a > b |
| App.ParsePagesInput | app.py:65-76 | the page loop computes the specified result: "" for absent or empty input, otherwise the pages or the first ValueError |
| App.PagesOfConcat | app.py:69-76 | parts are processed left to right: the pages of a concatenation are the pages of each part in order, duplicates kept |
| App.PageNumber | app.py:75 | a page number written out reads back as itself |
| App.PagesOfShown | app.py:69-76 | page numbers written out one per part read back in order |
| App.ParsePagesText | app.py:65-76 | a comma-separated list of page numbers reads back as the list |
| App.RangePart | app.py:71-73 | `a-b` gives a, …, b inclusive and nothing when a > b |
| App.LeadingDashRejected | app.py:72 | a part starting with '-', such as a negative number, raises ValueError |
| App.DocumentTypes.Load | app.py:20-26 | a missing file is first written with the three default types; otherwise its list is loaded |
| App.DocumentTypes.AddDocumentType | app.py:123-132 | an absent, empty or listed type is refused and nothing changes; otherwise it is appended once and saved; a list without duplicates keeps none |
| MaterialUsage.Le | src/validation/material_usage.py:8 | numbers compare by value and strings by code points; any other pairing raises TypeError |
| MaterialUsage.UsageTable.ValidateMaterialUsage | src/validation/material_usage.py:1-10 | the rows are flagged in place one after the other; on success the same table is returned; an exception leaves the earlier rows flagged |
| MaterialUsage.NumbersCompare | src/validation/material_usage.py:7-9 | with three numbers the flag is exactly min <= actual <= max |
| MaterialUsage.MissingValueRaises | src/validation/material_usage.py:3-9 | a missing or None min or quantity raises TypeError; a missing max raises only when min <= actual |
| MaterialUsage.WithinRangeIgnoresFlag | src/validation/material_usage.py:7-9 | the flag takes no part in the comparison |
| MaterialUsage.FlagRowTouchesOnlyFlag | src/validation/material_usage.py:7-9 | flagging writes only `quantity_within_range`; other keys keep their values and order |
| MaterialUsage.FlagRowFixed | src/validation/material_usage.py:7-9 | a flagged row flags to itself |
| MaterialUsage.ValidateRows | src/validation/material_usage.py:2-9 | on success the rows keep their number and order, each flagged, and no other key of the table changes |
| MaterialUsage.ValidateIdempotent | src/validation/material_usage.py:1-10 | validating twice gives the same table as validating once |
| SchemaHelper.ClassNameCamel | schema_helper.py:49 | a snake-case document type becomes the CamelCase class name |
| SchemaHelper.ClassNameSample | schema_helper.py:49 | "inspection_form" becomes "InspectionForm" |
| SchemaHelper.ClassNameHasNoUnderscore | schema_helper.py:49 | the class name holds neither '_' nor ' ' |
| SchemaHelper.TopLevelNameDiffers | schema_helper.py:139 | with a '_' in the document type, the generated top-level class name differs from the name `load_schema` looks for |
| SchemaHelper.Capitalize | schema_helper.py:139 | `capitalize()` keeps the length and every non-letter, raises a first letter to upper case and lowers every later letter, each keeping its identity |
| SchemaHelper.LoadSchema | schema_helper.py:32-56 | None exactly when the file is missing; ValueError exactly when the class is missing or falsy; otherwise that class |
| SchemaHelper.SplitLines | schema_helper.py:119 | no line holds a line break, and only empty text gives no lines |
| SchemaHelper.SplitLinesJoin | schema_helper.py:119 | on text whose only line breaks are '\n' and that does not end with one, joining the lines with '\n' gives the text back |
| SchemaHelper.ImportsOfExactly | schema_helper.py:119-121 | a line is collected exactly when it starts with "from" or "import" and is a line of some page |
| SchemaHelper.AddImports | schema_helper.py:119-121 | the line loop adds exactly the page's import lines |
| SchemaHelper.GatherPages | schema_helper.py:74-125 | the page loop keeps the answered pages in order, and the imports are exactly theirs |
| SchemaHelper.PagesShrink | schema_helper.py:123-125 | a failed page makes the kept list shorter than the pages |
| SchemaHelper.FailedPageShiftsNames | schema_helper.py:142-143 | for any document type, after a failed page every later page field points at a class whose page number is lower than, and so differs from, the one the model was asked to produce |
| SchemaHelper.PageClassInjective | schema_helper.py:143 | different page numbers give different class names |
| SchemaHelper.PageFieldsHaveEach | schema_helper.py:142-144 | every page from 1 to n has its `page_i` field |
| SchemaHelper.ImportsOrderFixed | schema_helper.py:136 | every sorted listing of the imports joins to the same text |
| SchemaHelper.CreateTopLevelClass | schema_helper.py:134-156 | the output is the imports de-duplicated, sorted and joined, a blank line, the page schemas joined by blank lines, a blank line, the class, with "python" markers removed |
| Processing.CleanReply | src/processing.py:135 | the cleaned reply is never longer than the reply |
| Processing.CleanFenced | src/processing.py:135 | a body fenced and tagged "json" comes back as the body |
| Processing.CleanBare | src/processing.py:135 | bare JSON text with no surrounding whitespace is kept as it is |
| Processing.TagDroppedInside | src/processing.py:194 | the first "json\n" is removed even in the middle of an unfenced reply |
| Processing.Repeat | src/processing.py:165 | `names * k` has k copies, entry i being `names[i mod len(names)]` |
| Processing.CycleNames | src/processing.py:164-168 | a short list is replaced by exactly `total` entries cycling through it; a long enough list is kept; an empty list with rows raises ZeroDivisionError |
| Processing.CycleCovers | src/processing.py:164-168 | every row gets a name, every name used comes from the list, and all are used once rows outnumber names |
| Processing.CycleStartsWithNames | src/processing.py:165 | the first rows get the names in their given order |
| Processing.BuiltInLists | src/processing.py:98-104 | the built-in lists cover up to 16 rows unchanged; the 17th row restarts "performed_by" |
| Processing.TotalRows | src/processing.py:160-161 | a missing "material_usage_table" or a missing "rows" counts as no rows; `len(rows)` is the count for a list, a string or a dict; any other rows value raises TypeError; a table that is not a dict raises AttributeError |
| Processing.FillNames | src/processing.py:151-211 | exits only with status 1; raises only AttributeError, TypeError or ZeroDivisionError |
| Processing.ProcessInformation | src/processing.py:87-148 | a missing schema class answers `{"error": …}`; an exit is always status 1 |
| Processing.ProcessParsed | src/processing.py:136-148 | an exit after parsing is always status 1 |
| Processing.NoTableNoFill | src/processing.py:137-148 | data without "material_usage_table" is returned unchanged, whatever the models would do |
| Processing.FillSeesValidatedTable | src/processing.py:137-146 | the filling step sees the data with the table validated |
| Processing.ValidationErrorRaised | src/processing.py:137-140 | a validation error propagates before the filling model is called |
| Processing.EmptyReplyExits | src/processing.py:197-199 | a reply that cleans to nothing ends the process with status 1 |
| Processing.NoNamesRaise | src/processing.py:165 | with rows to fill, an empty "performed_by" list raises ZeroDivisionError |

## Left out

- SQL text: the model works on an abstract store. It leaves out f-string SQL, PRAGMA and `sqlite_master` queries as text, identifier quoting and case-insensitivity, type affinity, and foreign-key enforcement. The FOREIGN KEY clause of created tables is not recorded.
- Store.Insert: a missing table or column fails, a repeated column takes its first value as SQLite does, and a UNIQUE clash is a conflict; `insert_data` swallows all of these. A value given for the key column also fails in the model. SQLite would accept an explicit `pk` value, so a JSON key named "pk" is not modelled as SQLite treats it.
- Integers are unbounded: SQLite's 64-bit limits and AUTOINCREMENT exhaustion are not modelled. Floats are exact reals, used only for comparisons and column typing.
- Case mapping (`lower`, `title`, `capitalize`, LIKE) is ASCII-only.
- The language models, OCR (`extract_text_from_pdf_azure`), `json.load`/`json.loads`, directory listings and file reads are parameters of the model. Prompt texts and `print` output are not modelled.
- `identify_schema` is a parameter (`identify`) of `DbInitLlm.DynamicSqlLoader.Run`, because it imports and executes generated schema modules. As written it returns "inspection_form" on any match.
- Loading generated code (`importlib` in `execute_sql_script` and `load_schema`) is a parameter mapping a file's text to its attributes.
- DbInitLlm.DynamicSqlLoader.ProcessFile: the contract states the two early failures only. The later steps are covered by the contracts of the methods it calls.
- JsonToDb.JsonToSql.Run: only "the run commits everything when it finishes" is stated. The per-document effect is in `ProcessDocument`'s contract.
- The insert sample scenario: it is not proved on a concrete store. Its facts are proved in general: the `doc_id` of every row (`SqlUtils.InsertSpecGrows`), the `b_id` link (`SqlUtils.InsertSpecChildLink`), the list rows and their order (`SqlUtils.InsertItemsRows`, `SqlUtils.InsertItemsRowOf`), and the schema of the sample (`JsonToDb.GatherSample`).
- Text.ParseInt: only ASCII digits are read. Python's `int()` also accepts other Unicode decimal digits, which the model does not read as numbers.
- The connection's `close()` is not modelled as a state. `DeleteDocument.DeleteDocumentDynamic` returns the committed state, which is what the file holds once the connection is closed.
- Comparisons of two lists or two dicts in `validate_material_usage` are treated as TypeError. Python compares lists lexicographically; such values do not occur in a material-usage row.
- Processing.CleanReply: only the length bound is a contract. Its exact behaviour is given by the lemmas `CleanFenced`, `CleanBare` and `TagDroppedInside`.
- Processing.Repeat: requires a non-empty list. The empty list is handled before the call, in `CycleNames`, where Python divides by zero.
- Processing.ProcessInformation: when the schema file is missing, `load_schema` returns None and the source hands that to the output parser. The model does not decide what the parser then does; it goes on to the extraction step.
- `process_pdf_pages`, `save_processed_data`, `convert_pdf_to_images`, `save_schema` and the model calls of `generate_schema_with_gpt` are I/O or foreign services. Only their results enter the model.
- The `create_workflow_node`, `sql_node` and `kg_node` nodes only forward the input to a tool, so they are not modelled.
- Nodes.RunWorkflowNode has no contract of its own. Its behaviour is stated by the lemmas `DefaultName`, `NotFoundSkipsTools` and `DecisionBranches`.
- MaterialUsage.MissingValueRaises: a chained comparison evaluates the upper bound only when `min <= actual` holds. So a missing maximum raises TypeError only in that case, not for every row.
