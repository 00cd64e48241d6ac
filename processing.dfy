/** Post-processing of the extraction model's answers: the cleanup of a
    reply into JSON text, the material-usage validation of the parsed data,
    and the cycling of the "performed_by" / "checked_by" name lists over the
    table's rows before the second model call. The models, the JSON decoder
    and the schema files are parameters. */
module Processing {
  import opened Wrappers
  import opened Text
  import opened JsonValue
  import SchemaHelper
  import MaterialUsage

  // ---------------------------------------------------------------------------
  // Reply cleanup

  const Fence: set<char> := {'`'}
  const JsonTag := "json\n"

  /** `reply.strip().strip("```").replace("json\n", "", 1).strip()`:
      `strip("```")` removes backticks one character at a time from both
      ends, and only the first "json\n" anywhere in the text is dropped. */
  function CleanReply(reply: string): (r: string)
    ensures |r| <= |reply|
  {
    var unfenced := StripChars(Strip(reply), Fence);
    RemoveFirstShorter(unfenced, JsonTag);
    Strip(ReplaceFirst(unfenced, JsonTag, ""))
  }

  /** Removing an occurrence never lengthens the text. */
  lemma RemoveFirstShorter(s: string, pat: string)
    ensures |ReplaceFirst(s, pat, "")| <= |s|
  {
    if Find(s, pat).Some? {
      var i := Find(s, pat).value;
      assert ReplaceFirst(s, pat, "") == s[..i] + s[i + |pat|..];
    }
  }

  /** A reply in a Markdown code fence tagged "json". */
  function Fenced(body: string): string
  {
    "```" + (JsonTag + body + "\n") + "```"
  }

  /** A body wrapped in a code fence tagged "json" comes out as the body
      itself. */
  lemma CleanFenced(body: string)
    requires body != [] && Strip(body) == body
    ensures CleanReply(Fenced(body)) == body
  {
    var inner := JsonTag + body + "\n";
    FencedStripped(inner);
    TaggedInner(body);
    FenceRemoved(inner);
    TagDropped(body);
    BodyStripped(body);
    CleanSteps(Fenced(body), Fenced(body), inner, body + "\n");
  }

  /** The cleanup, one step at a time. */
  lemma CleanSteps(reply: string, x: string, y: string, z: string)
    requires Strip(reply) == x && StripChars(x, Fence) == y && ReplaceFirst(y, JsonTag, "") == z
    ensures CleanReply(reply) == Strip(z)
  {
  }

  lemma FencedStripped(inner: string)
    ensures Strip("```" + inner + "```") == "```" + inner + "```"
  {
    var s := "```" + inner + "```";
    assert s[0] == '`' && s[|s| - 1] == '`';
    BacktickNotSpace();
    StripCharsKeeps(s, Whitespace);
  }

  lemma BacktickNotSpace()
    ensures '`' !in Whitespace
  {
  }

  lemma TaggedInner(body: string)
    ensures var inner := JsonTag + body + "\n";
      inner != [] && inner[0] == 'j' && inner[|inner| - 1] == '\n'
  {
  }

  lemma FenceRemoved(inner: string)
    requires inner != [] && inner[0] == 'j' && inner[|inner| - 1] == '\n'
    ensures StripChars("```" + inner + "```", Fence) == inner
  {
    assert AllIn("```", Fence);
    StripCharsPadded("```", inner, "```", Fence);
    StripCharsKeeps(inner, Fence);
  }

  lemma TagDropped(body: string)
    ensures ReplaceFirst(JsonTag + body + "\n", JsonTag, "") == body + "\n"
  {
    var s := JsonTag + body + "\n";
    assert s[..5] == JsonTag;
    assert OccursAt(s, JsonTag, 0);
    FindIs(s, JsonTag, 0);
    assert s[5..] == body + "\n";
  }

  lemma BodyStripped(body: string)
    requires Strip(body) == body
    ensures Strip(body + "\n") == body
  {
    assert AllIn("\n", Whitespace);
    StripCharsTrail(body, "\n", Whitespace);
  }

  /** A reply that is already bare JSON text, with no surrounding whitespace
      or backticks and no "json\n" inside, is left as it is. */
  lemma CleanBare(body: string)
    requires Strip(body) == body
    requires body == [] || (body[0] != '`' && body[|body| - 1] != '`')
    requires !Contains(body, JsonTag)
    ensures CleanReply(body) == body
  {
  }

  /** The removal is not anchored: in an unfenced reply the first "json\n"
      is dropped wherever it stands, inside a string value included. */
  lemma TagDroppedInside(a: string, b: string)
    requires a != [] && !IsSpace(a[0]) && a[0] != '`'
    requires b != [] && !IsSpace(b[|b| - 1]) && b[|b| - 1] != '`'
    requires Lacks(a, 'j')
    ensures CleanReply(a + JsonTag + b) == a + b
  {
    TaggedKept(a, b);
    TagCut(a, b);
    JoinedKept(a, b);
    CleanChain(a, b);
  }

  lemma CleanChain(a: string, b: string)
    requires Strip(a + JsonTag + b) == a + JsonTag + b
    requires StripChars(a + JsonTag + b, Fence) == a + JsonTag + b
    requires ReplaceFirst(a + JsonTag + b, JsonTag, "") == a + b
    requires Strip(a + b) == a + b
    ensures CleanReply(a + JsonTag + b) == a + b
  {
  }

  lemma TaggedKept(a: string, b: string)
    requires a != [] && !IsSpace(a[0]) && a[0] != '`'
    requires b != [] && !IsSpace(b[|b| - 1]) && b[|b| - 1] != '`'
    ensures Strip(a + JsonTag + b) == a + JsonTag + b
    ensures StripChars(a + JsonTag + b, Fence) == a + JsonTag + b
  {
    EndsOf(a, JsonTag, b);
    Kept(a + JsonTag + b);
  }

  lemma JoinedKept(a: string, b: string)
    requires a != [] && !IsSpace(a[0]) && a[0] != '`'
    requires b != [] && !IsSpace(b[|b| - 1]) && b[|b| - 1] != '`'
    ensures Strip(a + b) == a + b
  {
    EndsOf(a, [], b);
    assert a + [] + b == a + b;
    Kept(a + b);
  }

  /** The character `c` does not occur in `s`. */
  predicate Lacks(s: string, c: char)
  {
    forall k | 0 <= k < |s| :: s[k] != c
  }

  lemma TagCut(a: string, b: string)
    requires Lacks(a, 'j')
    ensures ReplaceFirst(a + JsonTag + b, JsonTag, "") == a + b
  {
    var s := a + JsonTag + b;
    FirstTagAt(a, b);
    Pieces(a, JsonTag, b);
    assert ReplaceFirst(s, JsonTag, "") == s[..|a|] + "" + s[|a| + |JsonTag|..];
  }

  /** Text that starts and ends with neither whitespace nor a backtick goes
      through both strips unchanged. */
  lemma Kept(s: string)
    requires s != [] && !IsSpace(s[0]) && s[0] != '`'
    requires !IsSpace(s[|s| - 1]) && s[|s| - 1] != '`'
    ensures Strip(s) == s && StripChars(s, Fence) == s
  {
    StripCharsKeeps(s, Whitespace);
    StripCharsKeeps(s, Fence);
  }

  lemma EndsOf(a: string, m: string, b: string)
    requires a != [] && b != []
    ensures (a + m + b)[0] == a[0] && (a + m + b)[|a + m + b| - 1] == b[|b| - 1]
    ensures a + m + b != []
  {
  }

  lemma Pieces(a: string, m: string, b: string)
    ensures (a + m + b)[..|a|] == a && (a + m + b)[|a| + |m|..] == b
  {
  }

  lemma FirstTagAt(a: string, b: string)
    requires Lacks(a, 'j')
    ensures Find(a + JsonTag + b, JsonTag) == Some(|a|)
  {
    var s := a + JsonTag + b;
    assert s[|a|..|a| + 5] == JsonTag;
    forall j | 0 <= j < |a| ensures !OccursAt(s, JsonTag, j) {
      assert s[j] == a[j];
    }
    FindIs(s, JsonTag, |a|);
  }

  // ---------------------------------------------------------------------------
  // Name cycling

  const MaterialUsageKey := "material_usage_table"

  /** The names the source fills into "performed_by", one per row. */
  const PerformedBy: seq<string> := [
    "M. Praveen Reddy", "M. Praveen Reddy", "M. Praveen Reddy", "M. Praveen Reddy", "M. Praveen Reddy",
    "P. Venkatesh", "P. Venkatesh", "U. Sankara Rao", "U. Sankara Rao", "U. Sankara Rao",
    "Ravi Chatragadda", "Ravi Chatragadda", "Ravi Chatragadda", "G. Nithin Kumar", "K. Chinna Rao",
    "U. Sankara Rao"]

  /** The names the source fills into "checked_by", one per row. */
  const CheckedBy: seq<string> := [
    "K. Chinna Rao", "K. Chinna Rao", "K. Chinna Rao", "K. Chinna Rao", "K. Chinna Rao",
    "S.K. Saidavali", "S.K. Saidavali", "K. Chinna Rao", "K. Chinna Rao", "K. Chinna Rao",
    "K. Chinna Rao", "K. Chinna Rao", "K. Chinna Rao", "K. Chinna Rao", "K. Chinna Rao",
    "Amit Kumar", "A. Bala Swamy", "Ravi Chatragadda"]

  /** `names * k`: the list repeated `k` times. */
  function Repeat(names: seq<string>, k: nat): (r: seq<string>)
    requires names != []
    ensures |r| == |names| * k
    ensures forall i | 0 <= i < |r| :: r[i] == names[i % |names|]
  {
    if k == 0 then []
    else
      var rest := Repeat(names, k - 1);
      RepeatStep(names, rest, k);
      names + rest
  }

  /** One more copy in front keeps every entry at its place in the cycle. */
  lemma RepeatStep(names: seq<string>, rest: seq<string>, k: nat)
    requires names != [] && k >= 1
    requires |rest| == |names| * (k - 1)
    requires forall i | 0 <= i < |rest| :: rest[i] == names[i % |names|]
    ensures |names + rest| == |names| * k
    ensures forall i | 0 <= i < |names + rest| :: (names + rest)[i] == names[i % |names|]
  {
    var n := |names|;
    assert n * k == n + n * (k - 1);
    forall i | 0 <= i < |names + rest| ensures (names + rest)[i] == names[i % n] {
      if i < n {
        DivModUnique(i, n, 0, i);
      } else {
        ModShift(i - n, n);
        assert (names + rest)[i] == rest[i - n];
      }
    }
  }

  lemma ModShift(j: nat, n: nat)
    requires n > 0
    ensures (j + n) % n == j % n
  {
    var q, r := j / n, j % n;
    assert j + n == (q + 1) * n + r;
    DivModUnique(j + n, n, q + 1, r);
  }

  /** The remainder is determined by any quotient/remainder pair. */
  lemma DivModUnique(x: int, n: int, q: int, r: int)
    requires n > 0 && 0 <= r < n && x == q * n + r
    ensures x % n == r
  {
    var q', r' := x / n, x % n;
    assert (q - q') * n == r' - r;
    MulBounds(q - q', n);
  }

  lemma MulBounds(d: int, n: int)
    requires n > 0
    ensures d >= 1 ==> d * n >= n
    ensures d <= -1 ==> d * n <= -n
  {
  }

  lemma RepeatEnough(n: nat, total: nat)
    requires n > 0
    ensures n * (total / n + 1) >= total
  {
    assert n * (total / n + 1) == n * (total / n) + n;
    assert n * (total / n) + total % n == total;
  }

  /** `(names * (total // len(names) + 1))[:total]` when the list is
      shorter than `total`, the list itself otherwise. An empty list facing
      rows divides by zero. */
  function CycleNames(names: seq<string>, total: nat): (r: Result<seq<string>>)
    ensures r.Err? <==> names == [] && total > 0
    ensures r.Err? ==> r.error == ZeroDivisionError
    ensures r.Ok? && |names| >= total ==> r.value == names
    ensures r.Ok? && |names| < total ==>
      |r.value| == total && forall i | 0 <= i < total :: r.value[i] == names[i % |names|]
  {
    if |names| < total then
      if names == [] then Err(ZeroDivisionError)
      else
        RepeatEnough(|names|, total);
        Ok(Repeat(names, total / |names| + 1)[..total])
    else Ok(names)
  }

  /** After cycling there is a name for every row, and the names used are
      exactly those of the list (all of them once there are at least as
      many rows as names). */
  lemma CycleCovers(names: seq<string>, total: nat)
    requires CycleNames(names, total).Ok?
    ensures |CycleNames(names, total).value| >= total
    ensures forall x | x in CycleNames(names, total).value :: x in names
    ensures total >= |names| ==> forall x | x in names :: x in CycleNames(names, total).value
  {
    var r := CycleNames(names, total).value;
    if |names| < total {
      forall x | x in r ensures x in names {
        var i :| 0 <= i < |r| && r[i] == x;
        assert r[i] == names[i % |names|];
      }
      forall x | x in names ensures x in r {
        var i :| 0 <= i < |names| && names[i] == x;
        assert r[i] == names[i % |names|];
      }
    }
  }

  /** The first `len(names)` rows get the names in their given order. */
  lemma CycleStartsWithNames(names: seq<string>, total: nat)
    requires names != [] && |names| < total
    ensures CycleNames(names, total).value[..|names|] == names
  {
    var r := CycleNames(names, total).value;
    forall i | 0 <= i < |names| ensures r[i] == names[i] {
      assert i % |names| == i;
    }
  }

  /** The built-in lists cover a table of up to 16 rows as they are; the
      17th row restarts "performed_by" from its first name. */
  lemma BuiltInLists(total: nat)
    ensures total <= 16 ==>
      CycleNames(PerformedBy, total) == Ok(PerformedBy) && CycleNames(CheckedBy, total) == Ok(CheckedBy)
    ensures total > 16 ==> CycleNames(PerformedBy, total).value[16] == "M. Praveen Reddy"
  {
    assert |PerformedBy| == 16 && |CheckedBy| == 18;
    if total > 16 {
      assert CycleNames(PerformedBy, total).value[16] == PerformedBy[16 % 16];
    }
  }

  // ---------------------------------------------------------------------------
  // Row count

  /** `len(json_data.get("material_usage_table", {}).get("rows", []))`: a
      missing key counts as no rows; `len` of a string or dict counts its
      characters or keys; a table that is not a dict has no `.get`
      (AttributeError) and a number, boolean or null has no `len`
      (TypeError). */
  function TotalRows(data: seq<Field>): (r: Result<nat>)
    ensures !HasKey(data, MaterialUsageKey) ==> r == Ok(0)
    ensures Get(data, MaterialUsageKey).Some? && !Get(data, MaterialUsageKey).value.JObj? ==> r == Err(AttributeError)
    ensures r.Err? ==> r.error in {AttributeError, TypeError}
    ensures Get(data, MaterialUsageKey).Some? && Get(data, MaterialUsageKey).value.JObj? ==>
      var rows := Get(Get(data, MaterialUsageKey).value.fields, MaterialUsage.RowsKey);
      && (rows.None? ==> r == Ok(0))
      && (rows.Some? && rows.value.JArr? ==> r == Ok(|rows.value.items|))
      && (rows.Some? && rows.value.JStr? ==> r == Ok(|rows.value.s|))
      && (rows.Some? && rows.value.JObj? ==> r == Ok(|rows.value.fields|))
      && (rows.Some? && !(rows.value.JArr? || rows.value.JStr? || rows.value.JObj?) ==> r == Err(TypeError))
  {
    match Get(data, MaterialUsageKey)
    case None => Ok(0)
    case Some(JObj(table)) =>
      (match Get(table, MaterialUsage.RowsKey)
       case None => Ok(0)
       case Some(JArr(rows)) => Ok(|rows|)
       case Some(JStr(s)) => Ok(|s|)
       case Some(JObj(keys)) => Ok(|keys|)
       case Some(_) => Err(TypeError))
    case Some(_) => Err(AttributeError)
  }

  // ---------------------------------------------------------------------------
  // The two model calls

  /** How a run ends: with data, with an exception, or through `error_exit`
      (`sys.exit(1)` after printing the message). */
  datatype Outcome = Done(data: Json) | Raised(error: PyError) | Exited(status: int, message: string)

  const EmptyReply := "LLM returned an empty response. Check the prompt or LLM configuration."
  const BadJson := "Failed to decode JSON from LLM response."

  /** What lies outside the model: the schema files and the attributes
      their execution defines, the extraction model (given the extracted
      text), the filling model (given the two name lists and the data), and
      `json.loads`. */
  datatype Services = Services(
    files: set<string>,
    exec: string -> map<string, SchemaHelper.Attr>,
    extract: string -> string,
    fill: (seq<string>, seq<string>, Json) -> string,
    decode: string -> Option<Json>)

  /** `process_inspection_information_with_llm`: the name lists are cycled
      over the rows, the filling model's cleaned reply is decoded; an empty
      or undecodable reply exits with status 1. */
  function FillNames(data: seq<Field>, performed: seq<string>, checked: seq<string>, s: Services): (r: Outcome)
    ensures r.Exited? ==> r.status == 1
    ensures r.Raised? ==> r.error in {AttributeError, TypeError, ZeroDivisionError}
  {
    match TotalRows(data)
    case Err(e) => Raised(e)
    case Ok(total) =>
      match CycleNames(performed, total)
      case Err(e) => Raised(e)
      case Ok(p) =>
        match CycleNames(checked, total)
        case Err(e) => Raised(e)
        case Ok(c) =>
          var result := CleanReply(s.fill(p, c, JObj(data)));
          if result == [] then Exited(1, EmptyReply)
          else match s.decode(result)
            case None => Exited(1, BadJson)
            case Some(j) => Done(j)
  }

  /** The message of the ValueError `load_schema` raises. */
  function MissingClassMessage(documentType: string): string
  {
    "Schema class '" + SchemaHelper.ClassName(documentType) + "' not found in '" + documentType + ".py'."
  }

  /** `process_inspection_information`: a schema whose class is missing
      answers `{"error": ...}`; otherwise the extraction reply is cleaned
      and decoded (a decoding failure raises ValueError), and a decoded
      object holding "material_usage_table" has that table validated in
      place and its names filled by the second model call. */
  function ProcessInformation(extractedText: string, documentType: string, s: Services): (r: Outcome)
    ensures SchemaHelper.LoadSchema(documentType, s.files, s.exec).Err? ==>
      r == Done(JObj([("error", JStr(MissingClassMessage(documentType)))]))
    ensures r.Exited? ==> r.status == 1
  {
    if SchemaHelper.LoadSchema(documentType, s.files, s.exec).Err? then
      Done(JObj([("error", JStr(MissingClassMessage(documentType)))]))
    else
      match s.decode(CleanReply(s.extract(extractedText)))
      case None => Raised(ValueError)
      case Some(parsed) => ProcessParsed(parsed, s)
  }

  /** The steps after `json.loads`. `in` on a list tests membership and on a
      string tests for a substring, and indexing either with a string
      raises TypeError; other values do not support `in` at all. */
  function ProcessParsed(parsed: Json, s: Services): (r: Outcome)
    ensures r.Exited? ==> r.status == 1
  {
    match parsed
    case JObj(fs) =>
      (match Get(fs, MaterialUsageKey)
       case None => Done(parsed)
       case Some(JObj(table)) =>
         var (validated, error) := MaterialUsage.Validate(table);
         if error.Some? then Raised(error.value)
         else FillNames(Set(fs, MaterialUsageKey, JObj(validated)), PerformedBy, CheckedBy, s)
       case Some(_) => Raised(AttributeError))
    case JArr(items) => if JStr(MaterialUsageKey) in items then Raised(TypeError) else Done(parsed)
    case JStr(text) => if Contains(text, MaterialUsageKey) then Raised(TypeError) else Done(parsed)
    case _ => Raised(TypeError)
  }

  /** Parsed data without a material-usage table is returned as it is: the
      filling model is never consulted. */
  lemma NoTableNoFill(fs: seq<Field>, s: Services, other: Services)
    requires !HasKey(fs, MaterialUsageKey)
    ensures ProcessParsed(JObj(fs), s) == Done(JObj(fs))
    ensures ProcessParsed(JObj(fs), other) == Done(JObj(fs))
  {
  }

  /** With a table present, the filling model sees the data with the table
      validated (every row flagged) and name lists covering every row. */
  lemma FillSeesValidatedTable(fs: seq<Field>, table: seq<Field>, s: Services)
    requires Get(fs, MaterialUsageKey) == Some(JObj(table))
    requires MaterialUsage.Validate(table).1.None?
    ensures var data := Set(fs, MaterialUsageKey, JObj(MaterialUsage.Validate(table).0));
      && ProcessParsed(JObj(fs), s) == FillNames(data, PerformedBy, CheckedBy, s)
      && Get(data, MaterialUsageKey) == Some(JObj(MaterialUsage.Validate(table).0))
  {
    GetSet(fs, MaterialUsageKey, JObj(MaterialUsage.Validate(table).0), MaterialUsageKey);
  }

  /** A validation error propagates before the filling model is called. */
  lemma ValidationErrorRaised(fs: seq<Field>, table: seq<Field>, s: Services)
    requires Get(fs, MaterialUsageKey) == Some(JObj(table))
    requires MaterialUsage.Validate(table).1.Some?
    ensures ProcessParsed(JObj(fs), s) == Raised(MaterialUsage.Validate(table).1.value)
  {
  }

  /** A filling reply that cleans to nothing ends the process with status 1
      and the empty-response message, whatever the decoder would say. */
  lemma EmptyReplyExits(data: seq<Field>, performed: seq<string>, checked: seq<string>, s: Services)
    requires TotalRows(data).Ok?
    requires performed != [] && checked != []
    requires CleanReply(s.fill(CycleNames(performed, TotalRows(data).value).value,
                              CycleNames(checked, TotalRows(data).value).value, JObj(data))) == []
    ensures FillNames(data, performed, checked, s) == Exited(1, EmptyReply)
  {
  }

  /** With rows to fill, an empty "performed_by" list raises
      ZeroDivisionError before "checked_by" is looked at. */
  lemma NoNamesRaise(data: seq<Field>, checked: seq<string>, s: Services)
    requires TotalRows(data).Ok? && TotalRows(data).value > 0
    ensures FillNames(data, [], checked, s) == Raised(ZeroDivisionError)
  {
  }
}
