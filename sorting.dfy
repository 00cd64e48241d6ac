/** Python's `sorted` on strings: code-point lexicographic order, and a sort
    of a set into a list under that order. */
module Sorting {

  /** `a <= b` for Python strings. */
  predicate LexLe(a: string, b: string)
  {
    a == [] || (b != [] && (a[0] < b[0] || (a[0] == b[0] && LexLe(a[1..], b[1..]))))
  }

  lemma {:induction false} LexLeTotal(a: string, b: string)
    ensures LexLe(a, b) || LexLe(b, a)
  {
    if a != [] && b != [] && a[0] == b[0] {
      LexLeTotal(a[1..], b[1..]);
    }
  }

  lemma {:induction false} LexLeTrans(a: string, b: string, c: string)
    requires LexLe(a, b) && LexLe(b, c)
    ensures LexLe(a, c)
  {
    if a != [] && b != [] && c != [] && a[0] == b[0] && b[0] == c[0] {
      LexLeTrans(a[1..], b[1..], c[1..]);
    }
  }

  lemma {:induction false} LexLeAntisym(a: string, b: string)
    requires LexLe(a, b) && LexLe(b, a)
    ensures a == b
  {
    if a != [] && b != [] {
      LexLeAntisym(a[1..], b[1..]);
    }
  }

  /** Ascending by `key`, any two positions compared. */
  ghost predicate SortedBy<T>(s: seq<T>, key: T -> string)
  {
    forall i, j | 0 <= i < j < |s| :: LexLe(key(s[i]), key(s[j]))
  }

  /** `x` placed before the first element it does not exceed. */
  function InsertBy<T>(x: T, s: seq<T>, key: T -> string): (r: seq<T>)
    ensures |r| == |s| + 1
    ensures multiset(r) == multiset(s) + multiset{x}
  {
    if s == [] || LexLe(key(x), key(s[0])) then [x] + s
    else
      assert s == [s[0]] + s[1..];
      [s[0]] + InsertBy(x, s[1..], key)
  }

  lemma {:induction false} InsertBySorted<T>(x: T, s: seq<T>, key: T -> string)
    requires SortedBy(s, key)
    ensures SortedBy(InsertBy(x, s, key), key)
  {
    if s == [] || LexLe(key(x), key(s[0])) {
      forall j | 0 <= j < |s|
        ensures LexLe(key(x), key(s[j]))
      {
        if j > 0 {
          LexLeTrans(key(x), key(s[0]), key(s[j]));
        }
      }
      var r := [x] + s;
      forall i, j | 0 <= i < j < |r|
        ensures LexLe(key(r[i]), key(r[j]))
      {
        if i > 0 {
          assert r[i] == s[i - 1] && r[j] == s[j - 1];
        } else {
          assert r[j] == s[j - 1];
        }
      }
    } else {
      LexLeTotal(key(x), key(s[0]));
      InsertBySorted(x, s[1..], key);
      var rest := InsertBy(x, s[1..], key);
      forall y | y in multiset(rest)
        ensures LexLe(key(s[0]), key(y))
      {
        if y != x {
          assert y in multiset(s[1..]);
          var k :| 0 <= k < |s[1..]| && s[1..][k] == y;
          assert s[k + 1] == y;
        }
      }
      forall j | 0 <= j < |rest|
        ensures LexLe(key(s[0]), key(rest[j]))
      {
        assert rest[j] in multiset(rest);
      }
    }
  }

  /** `sorted(s)` for a set: every element once, in ascending key order. */
  method SortSet<T(==)>(s: set<T>, key: T -> string) returns (r: seq<T>)
    ensures SortedBy(r, key)
    ensures |r| == |s|
    ensures forall x :: x in r <==> x in s
  {
    r := [];
    var rest := s;
    while rest != {}
      invariant SortedBy(r, key)
      invariant rest <= s
      invariant |r| + |rest| == |s|
      invariant forall x :: x in r <==> x in s - rest
      decreases |rest|
    {
      var x :| x in rest;
      InsertBySorted(x, r, key);
      var r' := InsertBy(x, r, key);
      assert forall y :: y in r' <==> y in multiset(r') by {
        forall y ensures y in r' <==> y in multiset(r') { }
      }
      assert forall y :: y in r' <==> y in r || y == x by {
        forall y ensures y in r' <==> y in r || y == x {
          assert y in multiset(r') <==> y in multiset(r) || y == x;
        }
      }
      r := r';
      rest := rest - {x};
    }
  }

  /** A list as long as the set of its elements has no repeats. */
  lemma {:induction false} CardinalityDistinct<T>(s: seq<T>, e: set<T>)
    requires |s| == |e| && forall x :: x in s <==> x in e
    ensures forall i, j | 0 <= i < j < |s| :: s[i] != s[j]
  {
    if exists i, j | 0 <= i < j < |s| :: s[i] == s[j] {
      var i, j :| 0 <= i < j < |s| && s[i] == s[j];
      var t := s[..j] + s[j + 1..];
      assert forall x :: x in t <==> x in e by {
        forall x ensures x in t <==> x in e {
          if x in s {
            var k :| 0 <= k < |s| && s[k] == x;
            if k == j { assert t[i] == x; }
            else if k < j { assert t[k] == x; }
            else { assert t[k - 1] == x; }
          }
        }
      }
      SetOfSeqBound(t, e);
      assert false;
    }
  }

  /** A list covering a set is at least as long as the set. */
  lemma {:induction false} SetOfSeqBound<T>(s: seq<T>, e: set<T>)
    requires forall x :: x in e ==> x in s
    ensures |e| <= |s|
  {
    if s != [] {
      var e' := e - {s[0]};
      forall x | x in e' ensures x in s[1..] {
        var k :| 0 <= k < |s| && s[k] == x;
        assert k != 0;
        assert s[1..][k - 1] == x;
      }
      SetOfSeqBound(s[1..], e');
    } else {
      assert forall x :: x !in e;
      assert e == {};
    }
  }

  function Id(x: string): string { x }

  /** `sorted` of a set of strings is determined by the set: two sorted
      lists holding exactly its elements, each once, are equal. */
  lemma {:induction false} SortedUnique(xs: seq<string>, ys: seq<string>, s: set<string>)
    requires SortedBy(xs, Id) && |xs| == |s| && forall x :: x in xs <==> x in s
    requires SortedBy(ys, Id) && |ys| == |s| && forall y :: y in ys <==> y in s
    ensures xs == ys
  {
    if xs != [] {
      CardinalityDistinct(xs, s);
      CardinalityDistinct(ys, s);
      assert ys[0] in s && xs[0] in s;
      if xs[0] != ys[0] {
        var i :| 0 <= i < |xs| && xs[i] == ys[0];
        var j :| 0 <= j < |ys| && ys[j] == xs[0];
        assert LexLe(Id(xs[0]), Id(xs[i]));
        assert LexLe(Id(ys[0]), Id(ys[j]));
        LexLeAntisym(xs[0], ys[0]);
      }
      var s' := s - {xs[0]};
      forall x ensures x in xs[1..] <==> x in s' {
        if x in xs[1..] {
          var k :| 0 <= k < |xs[1..]| && xs[1..][k] == x;
          assert xs[k + 1] == x;
        }
        if x in s' {
          var k :| 0 <= k < |xs| && xs[k] == x;
          assert k != 0;
          assert xs[1..][k - 1] == x;
        }
      }
      forall y ensures y in ys[1..] <==> y in s' {
        if y in ys[1..] {
          var k :| 0 <= k < |ys[1..]| && ys[1..][k] == y;
          assert ys[k + 1] == y;
        }
        if y in s' {
          var k :| 0 <= k < |ys| && ys[k] == y;
          assert k != 0;
          assert ys[1..][k - 1] == y;
        }
      }
      assert SortedBy(xs[1..], Id) && SortedBy(ys[1..], Id);
      SortedUnique(xs[1..], ys[1..], s');
      assert xs == [xs[0]] + xs[1..] && ys == [ys[0]] + ys[1..];
    }
  }
}
