/** Python `str` operations used by the modelled code, on `seq<char>`.
    Case mapping is ASCII-only; whitespace is the set `str.isspace` accepts. */
module Text {
  import opened Wrappers

  /** Every character for which Python's `str.isspace()` is true. */
  const Whitespace: set<char> := {
    ' ', '\t', '\n', '\r', '\U{000B}', '\U{000C}',
    '\U{001C}', '\U{001D}', '\U{001E}', '\U{001F}', '\U{0085}', '\U{00A0}',
    '\U{1680}', '\U{2000}', '\U{2001}', '\U{2002}', '\U{2003}', '\U{2004}',
    '\U{2005}', '\U{2006}', '\U{2007}', '\U{2008}', '\U{2009}', '\U{200A}',
    '\U{2028}', '\U{2029}', '\U{202F}', '\U{205F}', '\U{3000}'
  }

  predicate IsSpace(c: char) { c in Whitespace }

  predicate IsDigit(c: char) { '0' <= c <= '9' }

  predicate IsUpper(c: char) { 'A' <= c <= 'Z' }

  predicate IsLower(c: char) { 'a' <= c <= 'z' }

  /** A cased character in the sense of `str.title`/`str.capitalize` (ASCII letters). */
  predicate IsLetter(c: char) { IsUpper(c) || IsLower(c) }

  function LowerChar(c: char): (r: char)
    ensures IsUpper(c) ==> IsLower(r)
    ensures !IsUpper(c) ==> r == c
  {
    if IsUpper(c) then (c as int + 32) as char else c
  }

  function UpperChar(c: char): (r: char)
    ensures IsLower(c) ==> IsUpper(r)
    ensures !IsLower(c) ==> r == c
  {
    if IsLower(c) then (c as int - 32) as char else c
  }

  /** `s.lower()` */
  function Lower(s: string): (r: string)
    ensures |r| == |s| && forall i | 0 <= i < |s| :: r[i] == LowerChar(s[i])
  {
    seq(|s|, i requires 0 <= i < |s| => LowerChar(s[i]))
  }

  // ---------------------------------------------------------------------------
  // strip / lstrip / rstrip with an explicit character set

  /** `s.lstrip(chars)`: drop the longest prefix made of characters of `cs`. */
  function LStrip(s: string, cs: set<char>): (r: string)
    ensures |r| <= |s| && r == s[|s| - |r|..]
    ensures r == [] || r[0] !in cs
    ensures forall i | 0 <= i < |s| - |r| :: s[i] in cs
  {
    if s != [] && s[0] in cs then LStrip(s[1..], cs) else s
  }

  /** `s.rstrip(chars)`: drop the longest suffix made of characters of `cs`. */
  function RStrip(s: string, cs: set<char>): (r: string)
    ensures |r| <= |s| && r == s[..|r|]
    ensures r == [] || r[|r| - 1] !in cs
    ensures forall i | |r| <= i < |s| :: s[i] in cs
  {
    if s != [] && s[|s| - 1] in cs then RStrip(s[..|s| - 1], cs) else s
  }

  /** `s.strip(chars)` */
  function StripChars(s: string, cs: set<char>): (r: string)
    ensures |r| <= |s|
    ensures r == [] || (r[0] !in cs && r[|r| - 1] !in cs)
    ensures (s == [] || (s[0] !in cs && s[|s| - 1] !in cs)) ==> r == s
  {
    RStrip(LStrip(s, cs), cs)
  }

  /** `s.strip()` */
  function Strip(s: string): string
  {
    StripChars(s, Whitespace)
  }

  /** Every character of `s` belongs to `cs`. */
  predicate AllIn(s: string, cs: set<char>)
  {
    forall i | 0 <= i < |s| :: s[i] in cs
  }

  /** `strip` leaves nothing exactly when the text is all whitespace. */
  lemma StripEmpty(s: string)
    ensures Strip(s) == [] <==> AllIn(s, Whitespace)
  {
    var l := LStrip(s, Whitespace);
    if l != [] {
      assert l[0] !in Whitespace;
      assert RStrip(l, Whitespace) != [];
      assert s[|s| - |l|] == l[0];
    } else {
      LStripAll(s, Whitespace);
    }
  }

  /** Padding made of stripped characters on either side is removed by `strip`. */
  lemma {:induction false} StripCharsPadded(a: string, s: string, b: string, cs: set<char>)
    requires AllIn(a, cs)
    requires AllIn(b, cs)
    ensures StripChars(a + s + b, cs) == StripChars(s, cs)
  {
    assert a + s + b == a + (s + b);
    LStripPadded(a, s + b, cs);
    LStripAppend(s, b, cs);
    var l := LStrip(s, cs);
    if l == [] {
      LStripAll(b, cs);
    } else {
      RStripPadded(l, b, cs);
    }
  }

  /** Text whose ends are not stripped characters is left as it is. */
  lemma StripCharsKeeps(s: string, cs: set<char>)
    requires s != [] && s[0] !in cs && s[|s| - 1] !in cs
    ensures StripChars(s, cs) == s
  {
  }

  /** Stripped text starts and ends with characters outside the set. */
  lemma StrippedEnds(s: string, cs: set<char>)
    requires s != [] && StripChars(s, cs) == s
    ensures s[0] !in cs && s[|s| - 1] !in cs
  {
  }

  /** A prefix of stripped characters is removed. */
  lemma StripCharsLead(a: string, s: string, cs: set<char>)
    requires AllIn(a, cs)
    ensures StripChars(a + s, cs) == StripChars(s, cs)
  {
    LStripPadded(a, s, cs);
  }

  /** A suffix of stripped characters is removed. */
  lemma StripCharsTrail(s: string, b: string, cs: set<char>)
    requires AllIn(b, cs)
    ensures StripChars(s + b, cs) == StripChars(s, cs)
  {
    assert [] + s + b == s + b;
    StripCharsPadded([], s, b, cs);
  }

  lemma LStripAll(b: string, cs: set<char>)
    requires AllIn(b, cs)
    ensures LStrip(b, cs) == []
  {
  }

  lemma {:induction false} LStripPadded(a: string, s: string, cs: set<char>)
    requires AllIn(a, cs)
    ensures LStrip(a + s, cs) == LStrip(s, cs)
  {
    if a != [] {
      assert (a + s)[0] == a[0];
      assert (a + s)[1..] == a[1..] + s;
      LStripPadded(a[1..], s, cs);
    } else {
      assert a + s == s;
    }
  }

  lemma {:induction false} LStripAppend(s: string, b: string, cs: set<char>)
    requires AllIn(b, cs)
    ensures LStrip(s + b, cs) == if LStrip(s, cs) == [] then LStrip(b, cs) else LStrip(s, cs) + b
  {
    if s == [] {
      assert s + b == b;
    } else if s[0] in cs {
      assert (s + b)[1..] == s[1..] + b;
      LStripAppend(s[1..], b, cs);
    } else {
      assert (s + b)[0] == s[0];
    }
  }

  lemma {:induction false} RStripPadded(s: string, b: string, cs: set<char>)
    requires AllIn(b, cs)
    ensures RStrip(s + b, cs) == RStrip(s, cs)
  {
    if b != [] {
      var b' := b[..|b| - 1];
      assert (s + b)[..|s + b| - 1] == s + b';
      assert (s + b)[|s + b| - 1] == b[|b| - 1];
      RStripPadded(s, b', cs);
    } else {
      assert s + b == s;
    }
  }

  // ---------------------------------------------------------------------------
  // Searching

  predicate StartsWith(s: string, p: string)
  {
    |p| <= |s| && s[..|p|] == p
  }

  predicate EndsWith(s: string, p: string)
  {
    |p| <= |s| && s[|s| - |p|..] == p
  }

  predicate OccursAt(s: string, p: string, i: int)
  {
    0 <= i && i + |p| <= |s| && s[i..i + |p|] == p
  }

  /** `s.find(p, k)`, as an option: the first occurrence at or after `k`. */
  function FindFrom(s: string, p: string, k: nat): (r: Option<nat>)
    ensures r.Some? ==> k <= r.value && OccursAt(s, p, r.value)
    ensures r.Some? ==> forall j | k <= j < r.value :: !OccursAt(s, p, j)
    ensures r.None? ==> forall j | k <= j :: !OccursAt(s, p, j)
    decreases |s| - k
  {
    if k + |p| > |s| then None
    else if s[k..k + |p|] == p then Some(k)
    else FindFrom(s, p, k + 1)
  }

  function Find(s: string, p: string): Option<nat>
  {
    FindFrom(s, p, 0)
  }

  /** `p in s` */
  predicate Contains(s: string, p: string)
  {
    Find(s, p).Some?
  }

  lemma ContainsAt(s: string, p: string, i: int)
    requires OccursAt(s, p, i)
    ensures Contains(s, p)
  {
  }

  /** Text found in `s` is found in any extension of `s`. */
  lemma ContainsExtended(s: string, t: string, p: string)
    requires Contains(s, p)
    ensures Contains(s + t, p)
  {
    var i := Find(s, p).value;
    assert (s + t)[i..i + |p|] == s[i..i + |p|];
    ContainsAt(s + t, p, i);
  }

  /** Text is found in anything that ends with it. */
  lemma ContainsSuffix(s: string, p: string)
    ensures Contains(s + p, p)
  {
    assert (s + p)[|s|..|s| + |p|] == p;
    ContainsAt(s + p, p, |s|);
  }

  lemma {:induction false} NotContainsPrefix(s: string, p: string, i: nat)
    requires p != [] && i <= |s|
    requires forall j | 0 <= j < i :: !OccursAt(s, p, j)
    ensures !Contains(s[..i], p)
  {
    if Contains(s[..i], p) {
      var j := Find(s[..i], p).value;
      assert s[..i][j..j + |p|] == s[j..j + |p|];
      assert OccursAt(s, p, j);
      assert false;
    }
  }

  /** An occurrence inside an occurrence. */
  lemma OccursWithin(a: string, b: string, c: string, i: int, j: int)
    requires OccursAt(a, b, i) && OccursAt(b, c, j)
    ensures OccursAt(a, c, i + j)
  {
    assert b == a[i..i + |b|];
    forall k | 0 <= k < |c| ensures a[i + j + k] == c[k] {
      assert c[k] == b[j + k];
    }
    assert a[i + j..i + j + |c|] == c;
  }

  /** The first occurrence is what `find` reports. */
  lemma FindIs(s: string, p: string, i: nat)
    requires OccursAt(s, p, i)
    requires forall j | 0 <= j < i :: !OccursAt(s, p, j)
    ensures Find(s, p) == Some(i)
  {
  }

  /** Stripping returns a slice of its input. */
  lemma StripCharsOccurs(s: string, cs: set<char>) returns (k: nat)
    ensures OccursAt(s, StripChars(s, cs), k)
  {
    var l := LStrip(s, cs);
    k := |s| - |l|;
    assert OccursAt(s, l, k) by {
      assert s[k..k + |l|] == l;
    }
    assert OccursAt(l, RStrip(l, cs), 0) by {
      assert l[0..|RStrip(l, cs)|] == RStrip(l, cs);
    }
    OccursWithin(s, l, StripChars(s, cs), k, 0);
  }

  // ---------------------------------------------------------------------------
  // split / join / replace

  /** `sep.join(parts)` */
  function Join(parts: seq<string>, sep: string): string
  {
    if parts == [] then ""
    else if |parts| == 1 then parts[0]
    else parts[0] + sep + Join(parts[1..], sep)
  }

  /** `s.split(sep)` for a non-empty separator: the pieces between
      non-overlapping occurrences found left to right. */
  function Split(s: string, sep: string): (r: seq<string>)
    requires sep != []
    ensures |r| >= 1
    ensures |r| >= 2 <==> Contains(s, sep)
    ensures forall k | 0 <= k < |r| :: !Contains(r[k], sep)
    ensures Join(r, sep) == s
    decreases |s|
  {
    match Find(s, sep)
    case None => [s]
    case Some(i) =>
      NotContainsPrefix(s, sep, i);
      var rest := Split(s[i + |sep|..], sep);
      assert s == s[..i] + sep + s[i + |sep|..];
      [s[..i]] + rest
  }

  /** Splitting on a one-character separator undoes joining with it, when
      no piece holds the separator. */
  lemma {:induction false} SplitJoin(xs: seq<string>, sep: string)
    requires |sep| == 1 && xs != []
    requires forall k | 0 <= k < |xs| :: !Contains(xs[k], sep)
    ensures Split(Join(xs, sep), sep) == xs
  {
    if |xs| > 1 {
      SplitFirst(xs[0], sep, Join(xs[1..], sep));
      SplitJoin(xs[1..], sep);
      assert xs == [xs[0]] + xs[1..];
    }
  }

  /** The first piece is cut at the first separator. */
  lemma SplitFirst(x: string, sep: string, rest: string)
    requires |sep| == 1 && !Contains(x, sep)
    ensures Split(x + sep + rest, sep) == [x] + Split(rest, sep)
  {
    var s := x + sep + rest;
    assert OccursAt(s, sep, |x|) by {
      assert s[|x|..|x| + 1] == sep;
    }
    forall j | 0 <= j < |x| ensures !OccursAt(s, sep, j) {
      if OccursAt(s, sep, j) {
        assert x[j..j + 1] == s[j..j + 1];
        ContainsAt(x, sep, j);
      }
    }
    FindIs(s, sep, |x|);
    assert s[..|x|] == x && s[|x| + 1..] == rest;
  }

  /** A text of digits holds no occurrence of a one-character text that is
      not a digit. */
  lemma DigitsLack(s: string, c: char)
    requires forall i | 0 <= i < |s| :: IsDigit(s[i])
    requires !IsDigit(c)
    ensures !Contains(s, [c])
  {
    forall j ensures !OccursAt(s, [c], j) {
      if 0 <= j < |s| {
        assert s[j..j + 1][0] == s[j];
      }
    }
  }

  /** `s.replace(old, new)`: every non-overlapping occurrence, in one pass. */
  function ReplaceAll(s: string, pat: string, rep: string): string
    requires pat != []
  {
    Join(Split(s, pat), rep)
  }

  /** `s.replace(old, new, 1)` */
  function ReplaceFirst(s: string, pat: string, rep: string): (r: string)
    ensures !Contains(s, pat) ==> r == s
  {
    match Find(s, pat)
    case None => s
    case Some(i) => s[..i] + rep + s[i + |pat|..]
  }

  /** The longest prefix of `s` without whitespace. */
  function TakeUntilSpace(s: string): (r: string)
    ensures |r| <= |s| && r == s[..|r|]
    ensures forall i | 0 <= i < |r| :: !IsSpace(r[i])
    ensures |r| < |s| ==> IsSpace(s[|r|])
  {
    if s == [] || IsSpace(s[0]) then [] else [s[0]] + TakeUntilSpace(s[1..])
  }

  /** `s.split()[0]`, or `None` where Python raises IndexError (no token). */
  function FirstToken(s: string): (r: Option<string>)
    ensures r.None? <==> forall i | 0 <= i < |s| :: IsSpace(s[i])
    ensures r.Some? ==> r.value != [] && forall i | 0 <= i < |r.value| :: !IsSpace(r.value[i])
  {
    var t := LStrip(s, Whitespace);
    if t == [] then None else Some(TakeUntilSpace(t))
  }

  // ---------------------------------------------------------------------------
  // Decimal numerals: `str(n)` and `int(s)`

  function DigitChar(d: nat): (c: char)
    requires d < 10
    ensures IsDigit(c)
  {
    ('0' as int + d) as char
  }

  function DigitValue(c: char): nat
    requires IsDigit(c)
  {
    c as int - '0' as int
  }

  /** `str(n)` for a natural number. */
  function ShowNat(n: nat): (r: string)
    ensures |r| >= 1
    ensures forall i | 0 <= i < |r| :: IsDigit(r[i])
    decreases n
  {
    if n < 10 then [DigitChar(n)] else ShowNat(n / 10) + [DigitChar(n % 10)]
  }

  /** `str(n)` */
  function Show(n: int): (r: string)
  {
    if n < 0 then "-" + ShowNat(-n) else ShowNat(n)
  }

  /** The value of a string of decimal digits. */
  function DigitsValue(ds: string): nat
    requires forall i | 0 <= i < |ds| :: IsDigit(ds[i])
  {
    if ds == [] then 0 else DigitsValue(ds[..|ds| - 1]) * 10 + DigitValue(ds[|ds| - 1])
  }

  /** Digits with single underscores between them, as `int()` accepts. */
  predicate IsNumeral(t: string)
  {
    && |t| >= 1 && IsDigit(t[0]) && IsDigit(t[|t| - 1])
    && (forall i | 0 <= i < |t| :: IsDigit(t[i]) || t[i] == '_')
    && (forall i | 0 <= i < |t| - 1 :: !(t[i] == '_' && t[i + 1] == '_'))
  }

  function RemoveUnderscores(t: string): (r: string)
    ensures (forall i | 0 <= i < |t| :: IsDigit(t[i]) || t[i] == '_') ==>
              forall i | 0 <= i < |r| :: IsDigit(r[i])
    ensures (forall i | 0 <= i < |t| :: t[i] != '_') ==> r == t
  {
    if t == [] then []
    else if t[0] == '_' then RemoveUnderscores(t[1..])
    else [t[0]] + RemoveUnderscores(t[1..])
  }

  /** `int(s)` on a `str`: surrounding whitespace, one optional sign, ASCII
      digits with single underscores; `None` where Python raises ValueError. */
  function ParseInt(s: string): Option<int>
  {
    ParseStripped(Strip(s))
  }

  /** `int()` on text that has no surrounding whitespace. */
  function ParseStripped(t: string): Option<int>
  {
    if t == [] then None
    else
      var neg := t[0] == '-';
      var body := if t[0] == '-' || t[0] == '+' then t[1..] else t;
      if !IsNumeral(body) then None
      else
        var v: int := DigitsValue(RemoveUnderscores(body));
        Some(if neg then -v else v)
  }

  lemma {:induction false} ValueOfShowNat(n: nat)
    ensures DigitsValue(ShowNat(n)) == n
    decreases n
  {
    if n >= 10 {
      var r := ShowNat(n);
      assert r[..|r| - 1] == ShowNat(n / 10);
      ValueOfShowNat(n / 10);
    }
  }

  /** `int(str(n)) == n`, also with whitespace around the numeral. */
  lemma ParseShow(n: int, a: string, b: string)
    requires AllIn(a, Whitespace)
    requires AllIn(b, Whitespace)
    ensures ParseInt(a + Show(n) + b) == Some(n)
  {
    StripCharsPadded(a, Show(n), b, Whitespace);
    ParseShowBare(n);
  }

  lemma ParseShowBare(n: int)
    ensures ParseInt(Show(n)) == Some(n)
  {
    var t := Show(n);
    ShowEnds(n);
    assert Strip(t) == t;
    ParseShowStripped(n);
  }

  lemma ParseShowStripped(n: int)
    ensures ParseStripped(Show(n)) == Some(n)
  {
    var m: nat := if n < 0 then -n else n;
    var digits := ShowNat(m);
    var t := Show(n);
    ShowEnds(n);
    DigitsAreNumeral(digits);
    ValueOfShowNat(m);
    var body := if t[0] == '-' || t[0] == '+' then t[1..] else t;
    assert body == digits by {
      if n < 0 {
        assert t[1..] == digits;
      } else {
        assert IsDigit(t[0]);
      }
    }
  }

  lemma ShowEnds(n: int)
    ensures Show(n) != []
    ensures !IsSpace(Show(n)[0]) && !IsSpace(Show(n)[|Show(n)| - 1])
    ensures n < 0 <==> Show(n)[0] == '-'
  {
    var m: nat := if n < 0 then -n else n;
    var digits := ShowNat(m);
    assert IsDigit(digits[0]) && IsDigit(digits[|digits| - 1]);
    if n < 0 {
      assert Show(n)[|Show(n)| - 1] == digits[|digits| - 1];
    }
  }

  lemma DigitsAreNumeral(ds: string)
    requires ds != [] && forall i | 0 <= i < |ds| :: IsDigit(ds[i])
    ensures IsNumeral(ds) && RemoveUnderscores(ds) == ds
  {
  }
}
