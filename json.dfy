/** JSON values as `json.load` produces them: objects keep their key order. */
module JsonValue {
  import opened Wrappers

  datatype Json =
    | JObj(fields: seq<Field>)
    | JArr(items: seq<Json>)
    | JInt(i: int)
    | JReal(r: real)
    | JStr(s: string)
    | JBool(b: bool)
    | JNull

  /** One key/value pair of an object, in the object's order. */
  type Field = (string, Json)

  /** Neither an object nor a list: the values that become table columns. */
  predicate IsScalar(j: Json)
  {
    !j.JObj? && !j.JArr?
  }

  /** `d.get(k)`: the value under `k`, if any. */
  function Get(fs: seq<Field>, k: string): (r: Option<Json>)
    ensures r.Some? <==> exists i | 0 <= i < |fs| :: fs[i].0 == k
  {
    if fs == [] then None
    else if fs[0].0 == k then Some(fs[0].1)
    else Get(fs[1..], k)
  }

  predicate HasKey(fs: seq<Field>, k: string)
  {
    Get(fs, k).Some?
  }

  /** `d[k] = v`: an existing key keeps its position, a new key goes last. */
  function Set(fs: seq<Field>, k: string, v: Json): (r: seq<Field>)
    ensures HasKey(fs, k) ==> |r| == |fs|
    ensures !HasKey(fs, k) ==> r == fs + [(k, v)]
  {
    if fs == [] then [(k, v)]
    else if fs[0].0 == k then [(k, v)] + fs[1..]
    else [fs[0]] + Set(fs[1..], k, v)
  }

  lemma {:induction false} GetSet(fs: seq<Field>, k: string, v: Json, k': string)
    ensures Get(Set(fs, k, v), k') == if k' == k then Some(v) else Get(fs, k')
  {
    if fs != [] && fs[0].0 != k {
      GetSet(fs[1..], k, v, k');
    }
  }

  /** Setting a key twice keeps only the second value. */
  lemma {:induction false} SetOverwrite(fs: seq<Field>, k: string, v: Json, w: Json)
    ensures Set(Set(fs, k, v), k, w) == Set(fs, k, w)
  {
    if fs != [] && fs[0].0 != k {
      SetOverwrite(fs[1..], k, v, w);
      assert Set(fs, k, v)[1..] == Set(fs[1..], k, v);
    }
  }

  /** Setting a key to the value it already has changes nothing. */
  lemma {:induction false} SetSame(fs: seq<Field>, k: string, v: Json)
    requires Get(fs, k) == Some(v)
    ensures Set(fs, k, v) == fs
  {
    if fs != [] && fs[0].0 != k {
      SetSame(fs[1..], k, v);
      assert fs == [fs[0]] + fs[1..];
    } else if fs != [] {
      assert fs == [(k, v)] + fs[1..];
    }
  }

  /** The keys of an object, in order. */
  function Keys(fs: seq<Field>): (r: seq<string>)
    ensures |r| == |fs| && forall i | 0 <= i < |fs| :: r[i] == fs[i].0
  {
    if fs == [] then [] else [fs[0].0] + Keys(fs[1..])
  }

  /** Setting a key changes no other key and keeps the order of the keys. */
  lemma {:induction false} SetKeys(fs: seq<Field>, k: string, v: Json)
    ensures Keys(Set(fs, k, v)) == if HasKey(fs, k) then Keys(fs) else Keys(fs) + [k]
  {
    if fs != [] && fs[0].0 != k {
      SetKeys(fs[1..], k, v);
      assert Set(fs, k, v)[1..] == Set(fs[1..], k, v);
    } else if fs != [] {
      assert Set(fs, k, v)[1..] == fs[1..];
    }
  }

  /** A size measure that decreases from an object or list to its members;
      every value counts at least 1. */
  function Size(j: Json): (r: nat)
    ensures r >= 1
  {
    match j
    case JObj(fs) => 1 + FieldsSize(fs)
    case JArr(xs) => 1 + ItemsSize(xs)
    case _ => 1
  }

  function FieldsSize(fs: seq<Field>): nat
  {
    if fs == [] then 0
    else
      assert fs[0].1 < fs[0];
      Size(fs[0].1) + FieldsSize(fs[1..])
  }

  function ItemsSize(xs: seq<Json>): nat
  {
    if xs == [] then 0 else Size(xs[0]) + ItemsSize(xs[1..])
  }

  lemma {:induction false} FieldsSizeAt(fs: seq<Field>, i: nat)
    requires i < |fs|
    ensures Size(fs[i].1) + FieldsSize(fs[i + 1..]) <= FieldsSize(fs[i..])
    ensures FieldsSize(fs[i..]) <= FieldsSize(fs)
  {
    assert fs[i..][1..] == fs[i + 1..];
    if i > 0 {
      FieldsSizeAt(fs[1..], i - 1);
      assert fs[1..][i - 1..] == fs[i..];
    }
  }

  lemma {:induction false} ItemsSizeAt(xs: seq<Json>, i: nat)
    requires i < |xs|
    ensures Size(xs[i]) + ItemsSize(xs[i + 1..]) <= ItemsSize(xs[i..])
    ensures ItemsSize(xs[i..]) <= ItemsSize(xs)
  {
    assert xs[i..][1..] == xs[i + 1..];
    if i > 0 {
      ItemsSizeAt(xs[1..], i - 1);
      assert xs[1..][i - 1..] == xs[i..];
    }
  }
}
