/** `validate_material_usage`: every row of a material-usage table gets a
    `quantity_within_range` flag saying whether its actual quantity lies
    within its allowed range. */
module MaterialUsage {
  import opened Wrappers
  import opened JsonValue
  import opened Sorting

  const RowsKey := "rows"
  const Actual := "actual_quantity"
  const Min := "allowed_range_min"
  const Max := "allowed_range_max"
  const InRange := "quantity_within_range"

  /** The numeric value Python compares: integers, floats and booleans
      (`True` is 1) are all numbers. */
  function Number(j: Json): Option<real>
  {
    match j
    case JInt(i) => Some(i as real)
    case JReal(r) => Some(r)
    case JBool(b) => Some(if b then 1.0 else 0.0)
    case _ => None
  }

  /** `a <= b`: numbers compare by value, strings by code points, every
      other pairing raises TypeError. */
  function Le(a: Json, b: Json): (r: Result<bool>)
    ensures r.Err? ==> r.error == TypeError
    ensures Number(a).Some? && Number(b).Some? ==> r == Ok(Number(a).value <= Number(b).value)
    ensures a.JNull? || b.JNull? ==> r == Err(TypeError)
  {
    if Number(a).Some? && Number(b).Some? then Ok(Number(a).value <= Number(b).value)
    else if a.JStr? && b.JStr? then Ok(LexLe(a.s, b.s))
    else Err(TypeError)
  }

  /** `row.get(k)`: a missing key reads as `None`. */
  function Lookup(fs: seq<Field>, k: string): Json
  {
    match Get(fs, k)
    case Some(v) => v
    case None => JNull
  }

  /** `allowed_range_min <= actual_quantity <= allowed_range_max`, a chained
      comparison: the second comparison runs only when the first holds. */
  function WithinRange(fs: seq<Field>): Result<bool>
  {
    match Le(Lookup(fs, Min), Lookup(fs, Actual))
    case Err(e) => Err(e)
    case Ok(false) => Ok(false)
    case Ok(true) => Le(Lookup(fs, Actual), Lookup(fs, Max))
  }

  /** One iteration: the row with its flag written, or the exception
      (`.get` on a row that is not a dict raises AttributeError). */
  function FlagRow(row: Json): Result<Json>
  {
    match row
    case JObj(fs) =>
      (match WithinRange(fs)
       case Ok(b) => Ok(JObj(Set(fs, InRange, JBool(b))))
       case Err(e) => Err(e))
    case _ => Err(AttributeError)
  }

  /** The rows once the first `k` of them have been flagged. */
  function Flagged(items: seq<Json>, k: nat): (r: seq<Json>)
    ensures |r| == |items|
  {
    seq(|items|, i requires 0 <= i < |items| =>
      if i < k && FlagRow(items[i]).Ok? then FlagRow(items[i]).value else items[i])
  }

  /** The first row whose iteration raises. */
  function FirstFailure(items: seq<Json>): (r: Option<nat>)
    ensures r.Some? ==> r.value < |items| && FlagRow(items[r.value]).Err?
    ensures r.Some? ==> forall j | 0 <= j < r.value :: FlagRow(items[j]).Ok?
    ensures r.None? ==> forall j | 0 <= j < |items| :: FlagRow(items[j]).Ok?
  {
    if items == [] then None
    else if FlagRow(items[0]).Err? then Some(0)
    else match FirstFailure(items[1..])
      case None => None
      case Some(k) => Some(k + 1)
  }

  /** The table's fields after the call, and the exception it raised if
      any. Iterating a value that is not a list goes through its elements
      (characters of a string, keys of a dict) and raises on the first one;
      other values are not iterable. */
  function Validate(fs: seq<Field>): (seq<Field>, Option<PyError>)
  {
    match Get(fs, RowsKey)
    case None => (fs, None)
    case Some(JArr(items)) =>
      (match FirstFailure(items)
       case None => (Set(fs, RowsKey, JArr(Flagged(items, |items|))), None)
       case Some(k) => (Set(fs, RowsKey, JArr(Flagged(items, k))), Some(FlagRow(items[k]).error)))
    case Some(JStr(s)) => (fs, if s == [] then None else Some(AttributeError))
    case Some(JObj(o)) => (fs, if o == [] then None else Some(AttributeError))
    case Some(_) => (fs, Some(TypeError))
  }

  /** A material-usage table: a dict whose rows are updated in place. */
  class UsageTable {
    var fields: seq<Field>

    constructor(fs: seq<Field>)
      ensures fields == fs
    {
      fields := fs;
    }

    /** `validate_material_usage(self)`: flags the rows one after the other;
        an exception leaves the rows before it flagged. On success the same
        table is returned. */
    method ValidateMaterialUsage() returns (r: Result<UsageTable>)
      modifies this
      ensures fields == Validate(old(fields)).0
      ensures r.Ok? <==> Validate(old(fields)).1.None?
      ensures r.Ok? ==> r.value == this
      ensures r.Err? ==> r.error == Validate(old(fields)).1.value
    {
      var rowsValue := Get(fields, RowsKey);
      if rowsValue.None? {
        return Ok(this);
      }
      match rowsValue.value {
        case JArr(items) =>
          var rows := items;
          SetSame(fields, RowsKey, JArr(items));
          assert Flagged(items, 0) == items;
          var i := 0;
          while i < |rows|
            invariant 0 <= i <= |items| && |rows| == |items|
            invariant rows == Flagged(items, i)
            invariant forall j | 0 <= j < i :: FlagRow(items[j]).Ok?
            invariant fields == Set(old(fields), RowsKey, JArr(rows))
          {
            assert rows[i] == items[i];
            match rows[i] {
              case JObj(row) =>
                var b := WithinRange(row);
                if b.Err? {
                  FailureAt(items, i);
                  return Err(b.error);
                }
                SetOverwrite(old(fields), RowsKey, JArr(rows), JArr(rows[i := JObj(Set(row, InRange, JBool(b.value)))]));
                rows := rows[i := JObj(Set(row, InRange, JBool(b.value)))];
                fields := Set(fields, RowsKey, JArr(rows));
              case _ =>
                FailureAt(items, i);
                return Err(AttributeError);
            }
            i := i + 1;
          }
          assert FirstFailure(items).None?;
          r := Ok(this);
        case JStr(s) =>
          r := if s == [] then Ok(this) else Err(AttributeError);
        case JObj(o) =>
          r := if o == [] then Ok(this) else Err(AttributeError);
        case _ =>
          r := Err(TypeError);
      }
    }
  }

  lemma {:induction false} FailureAt(items: seq<Json>, i: nat)
    requires i < |items| && FlagRow(items[i]).Err?
    requires forall j | 0 <= j < i :: FlagRow(items[j]).Ok?
    ensures FirstFailure(items) == Some(i)
  {
    if i > 0 {
      FailureAt(items[1..], i - 1);
    }
  }

  /** With three numbers the flag is exactly `min <= actual <= max`. */
  lemma NumbersCompare(fs: seq<Field>)
    requires Number(Lookup(fs, Min)).Some? && Number(Lookup(fs, Actual)).Some?
    requires Number(Lookup(fs, Max)).Some?
    ensures WithinRange(fs) == Ok(
      Number(Lookup(fs, Min)).value <= Number(Lookup(fs, Actual)).value <= Number(Lookup(fs, Max)).value)
  {
  }

  /** A missing or `None` bound or quantity raises TypeError, except that
      the upper bound is never read when the quantity is already below the
      lower bound. */
  lemma MissingValueRaises(fs: seq<Field>)
    ensures Lookup(fs, Min).JNull? || Lookup(fs, Actual).JNull? ==> WithinRange(fs) == Err(TypeError)
    ensures Lookup(fs, Max).JNull? && Le(Lookup(fs, Min), Lookup(fs, Actual)) == Ok(true) ==>
      WithinRange(fs) == Err(TypeError)
    ensures Le(Lookup(fs, Min), Lookup(fs, Actual)) == Ok(false) ==> WithinRange(fs) == Ok(false)
  {
  }

  /** The flag does not take part in the comparison. */
  lemma WithinRangeIgnoresFlag(fs: seq<Field>, v: Json)
    ensures WithinRange(Set(fs, InRange, v)) == WithinRange(fs)
  {
    GetSet(fs, InRange, v, Min);
    GetSet(fs, InRange, v, Actual);
    GetSet(fs, InRange, v, Max);
  }

  /** Flagging a row writes only `quantity_within_range`: every other key
      keeps its value and the keys keep their order, the flag going last
      when it is new. */
  lemma FlagRowTouchesOnlyFlag(fs: seq<Field>, k: string)
    requires FlagRow(JObj(fs)).Ok?
    ensures FlagRow(JObj(fs)).value.JObj?
    ensures k != InRange ==> Get(FlagRow(JObj(fs)).value.fields, k) == Get(fs, k)
    ensures Keys(FlagRow(JObj(fs)).value.fields) ==
      if HasKey(fs, InRange) then Keys(fs) else Keys(fs) + [InRange]
  {
    var v := JBool(WithinRange(fs).value);
    GetSet(fs, InRange, v, k);
    SetKeys(fs, InRange, v);
  }

  /** A flagged row flags to itself. */
  lemma FlagRowFixed(row: Json)
    requires FlagRow(row).Ok?
    ensures FlagRow(FlagRow(row).value) == FlagRow(row)
  {
    var fs := row.fields;
    var v := JBool(WithinRange(fs).value);
    WithinRangeIgnoresFlag(fs, v);
    SetOverwrite(fs, InRange, v, v);
  }

  /** On success the rows keep their number and order, row `i` becoming
      the flagged row `i`, and no other key of the table changes. */
  lemma ValidateRows(fs: seq<Field>, items: seq<Json>, k: string)
    requires Get(fs, RowsKey) == Some(JArr(items)) && Validate(fs).1.None?
    ensures Get(Validate(fs).0, RowsKey).Some? && Get(Validate(fs).0, RowsKey).value.JArr?
    ensures var rows := Get(Validate(fs).0, RowsKey).value.items;
      && |rows| == |items|
      && forall i | 0 <= i < |items| :: FlagRow(items[i]) == Ok(rows[i])
    ensures k != RowsKey ==> Get(Validate(fs).0, k) == Get(fs, k)
  {
    GetSet(fs, RowsKey, JArr(Flagged(items, |items|)), RowsKey);
    GetSet(fs, RowsKey, JArr(Flagged(items, |items|)), k);
  }

  /** Validating twice gives the same table as validating once. */
  lemma ValidateIdempotent(fs: seq<Field>)
    requires Validate(fs).1.None?
    ensures Validate(Validate(fs).0) == Validate(fs)
  {
    match Get(fs, RowsKey)
    case None =>
    case Some(JArr(items)) =>
      var rows := Flagged(items, |items|);
      var after := Set(fs, RowsKey, JArr(rows));
      GetSet(fs, RowsKey, JArr(rows), RowsKey);
      forall i | 0 <= i < |rows| ensures FlagRow(rows[i]) == Ok(rows[i]) {
        FlagRowFixed(items[i]);
      }
      assert FirstFailure(rows).None?;
      assert Flagged(rows, |rows|) == rows;
      SetOverwrite(fs, RowsKey, JArr(rows), JArr(rows));
    case Some(_) =>
  }
}
