/** Python's string handling as the scripts use it: `int()` on digit strings,
    `str()` of a non-negative integer, zero-padded fields, `str.split(' ')`,
    `str.join`, `str.replace`, string ordering and `sorted(set(...))`. */
module Text {
  import opened Common

  predicate IsDigit(c: char) { '0' <= c <= '9' }

  function DigitValue(c: char): (d: nat)
    requires IsDigit(c)
    ensures d < 10
  {
    (c as int - '0' as int) as nat
  }

  function DigitChar(d: nat): (c: char)
    requires d < 10
    ensures IsDigit(c) && DigitValue(c) == d
  {
    ('0' as int + d) as char
  }

  predicate AllDigits(s: string) { forall k :: 0 <= k < |s| ==> IsDigit(s[k]) }

  /** The number a string of decimal digits denotes (leading zeros allowed). */
  function DigitsValue(s: string): nat
    requires AllDigits(s)
  {
    if s == [] then 0 else 10 * DigitsValue(s[..|s| - 1]) + DigitValue(s[|s| - 1])
  }

  /** `int(s)` for the strings the scripts hand it: a non-empty run of digits
      parses, anything else is None here. Python's `int` also accepts a
      sign, surrounding blanks and underscores between digits, which the
      scripts' reference strings never contain. */
  function ParseNat(s: string): (r: Option<nat>)
    ensures r.Some? <==> s != [] && AllDigits(s)
  {
    if s != [] && AllDigits(s) then Some(DigitsValue(s)) else None
  }

  /** `str(n)` for a non-negative integer: decimal, no leading zeros. */
  function NatToString(n: nat): (s: string)
    ensures s != [] && AllDigits(s)
    ensures |s| == 1 <==> n < 10
    ensures s[0] == '0' ==> n == 0
    decreases n
  {
    if n < 10 then [DigitChar(n)] else NatToString(n / 10) + [DigitChar(n % 10)]
  }

  /** `str(y)` for any integer. */
  function IntToString(y: int): (s: string)
    ensures s != []
  {
    if y < 0 then "-" + NatToString(-y) else NatToString(y)
  }

  /** `int(str(n)) == n`. */
  lemma {:induction false} ParseNatToString(n: nat)
    ensures ParseNat(NatToString(n)) == Some(n)
    decreases n
  {
    var s := NatToString(n);
    if n >= 10 {
      ParseNatToString(n / 10);
      assert s[..|s| - 1] == NatToString(n / 10);
      assert DigitsValue(s) == 10 * DigitsValue(NatToString(n / 10)) + n % 10;
    }
  }

  /** `str` is injective on non-negative integers. */
  lemma NatToStringInjective(a: nat, b: nat)
    requires NatToString(a) == NatToString(b)
    ensures a == b
  {
    ParseNatToString(a);
    ParseNatToString(b);
  }

  /** `f"{n:0{w}d}"` for `n < 10^w`: exactly `w` digits, zero padded. */
  function ZeroPad(n: nat, w: nat): (s: string)
    ensures |s| == w && AllDigits(s)
    decreases w
  {
    if w == 0 then [] else ZeroPad(n / 10, w - 1) + [DigitChar(n % 10)]
  }

  function Pow10(w: nat): (p: nat)
    ensures p >= 1
  {
    if w == 0 then 1 else 10 * Pow10(w - 1)
  }

  /** Reading a zero-padded field back gives the number, when it fits. */
  lemma {:induction false} ZeroPadValue(n: nat, w: nat)
    requires n < Pow10(w)
    ensures DigitsValue(ZeroPad(n, w)) == n
    decreases w
  {
    if w > 0 {
      var s := ZeroPad(n, w);
      assert s[..|s| - 1] == ZeroPad(n / 10, w - 1);
      ZeroPadValue(n / 10, w - 1);
    }
  }

  // ---------------------------------------------------------------------
  // Ordering of strings (Python compares code points lexicographically)

  predicate Less(a: string, b: string)
    decreases |a|
  {
    if a == [] then b != []
    else if b == [] then false
    else if a[0] != b[0] then a[0] < b[0]
    else Less(a[1..], b[1..])
  }

  lemma {:induction false} LessIrreflexive(a: string)
    ensures !Less(a, a)
    decreases |a|
  {
    if a != [] { LessIrreflexive(a[1..]); }
  }

  lemma {:induction false} LessTransitive(a: string, b: string, c: string)
    requires Less(a, b) && Less(b, c)
    ensures Less(a, c)
    decreases |a|
  {
    if a != [] && b != [] && c != [] && a[0] == b[0] == c[0] {
      LessTransitive(a[1..], b[1..], c[1..]);
    }
  }

  lemma {:induction false} LessTotal(a: string, b: string)
    requires a != b
    ensures Less(a, b) || Less(b, a)
    decreases |a|
  {
    if a != [] && b != [] && a[0] == b[0] {
      assert a == [a[0]] + a[1..] && b == [b[0]] + b[1..];
      LessTotal(a[1..], b[1..]);
    }
  }

  predicate StrictlySorted(s: seq<string>)
  {
    forall i, j :: 0 <= i < j < |s| ==> Less(s[i], s[j])
  }

  /** Insert `x` into a strictly sorted list, dropping it when present. */
  function InsertSorted(s: seq<string>, x: string): (r: seq<string>)
    requires StrictlySorted(s)
    ensures StrictlySorted(r)
    ensures forall y :: y in r <==> y in s || y == x
    decreases |s|
  {
    if s == [] then [x]
    else if x == s[0] then s
    else if Less(x, s[0]) then
      assert forall j :: 0 <= j < |s| ==> Less(x, s[j]) by {
        forall j | 0 <= j < |s| ensures Less(x, s[j]) {
          if j > 0 { LessTransitive(x, s[0], s[j]); }
        }
      }
      [x] + s
    else
      LessTotal(x, s[0]);
      var t := InsertSorted(s[1..], x);
      assert forall y :: y in t ==> Less(s[0], y) by {
        forall y | y in t ensures Less(s[0], y) {
          if y != x { var k :| 0 <= k < |s[1..]| && s[1..][k] == y; assert s[k + 1] == y; }
        }
      }
      [s[0]] + t
  }

  /** `sorted(set(xs))`: the distinct strings of `xs` in ascending order. */
  function SortedUnique(xs: seq<string>): (r: seq<string>)
    ensures StrictlySorted(r)
    ensures forall y :: y in r <==> y in xs
    decreases |xs|
  {
    if xs == [] then [] else InsertSorted(SortedUnique(xs[..|xs| - 1]), xs[|xs| - 1])
  }

  /** A strictly sorted list holds no string twice. */
  lemma StrictlySortedDistinct(s: seq<string>, i: nat, j: nat)
    requires StrictlySorted(s) && i < j < |s|
    ensures s[i] != s[j]
  {
    LessIrreflexive(s[i]);
  }

  /** The strictly sorted list of a set is unique: `sorted(set(xs))` does not
      depend on the order or the repetitions of `xs`. */
  lemma {:induction false} StrictlySortedUnique(a: seq<string>, b: seq<string>)
    requires StrictlySorted(a) && StrictlySorted(b)
    requires forall y :: y in a <==> y in b
    ensures a == b
    decreases |a|
  {
    assert a != [] ==> a[0] in b;
    assert b != [] ==> b[0] in a;
    if a != [] && b != [] {
      assert a[0] == b[0] by {
        assert a[0] in a && b[0] in b;
        var i :| 0 <= i < |b| && b[i] == a[0];
        var j :| 0 <= j < |a| && a[j] == b[0];
        if i > 0 && j > 0 {
          LessTransitive(a[0], a[j], b[i]);
          LessIrreflexive(a[0]);
          assert false;
        }
      }
      forall y ensures y in a[1..] <==> y in b[1..] {
        if y in a[1..] {
          var k :| 1 <= k < |a| && a[k] == y;
          StrictlySortedDistinct(a, 0, k);
          assert y in b;
          var m :| 0 <= m < |b| && b[m] == y;
          assert y == b[1..][m - 1];
        }
        if y in b[1..] {
          var k :| 1 <= k < |b| && b[k] == y;
          StrictlySortedDistinct(b, 0, k);
          assert y in a;
          var m :| 0 <= m < |a| && a[m] == y;
          assert y == a[1..][m - 1];
        }
      }
      StrictlySortedUnique(a[1..], b[1..]);
      assert a == [a[0]] + a[1..] && b == [b[0]] + b[1..];
    }
  }

  // ---------------------------------------------------------------------
  // Concatenation, join, split

  /** `sum(lists, [])`: the lists one after another. */
  function Flatten<T(!new)>(xss: seq<seq<T>>): (r: seq<T>)
    ensures forall x :: x in r <==> exists i :: 0 <= i < |xss| && x in xss[i]
    decreases |xss|
  {
    if xss == [] then []
    else
      var r := Flatten(xss[..|xss| - 1]) + xss[|xss| - 1];
      assert forall i :: 0 <= i < |xss| - 1 ==> xss[..|xss| - 1][i] == xss[i];
      r
  }

  lemma {:induction false} FlattenAppend<T(!new)>(a: seq<seq<T>>, b: seq<seq<T>>)
    ensures Flatten(a + b) == Flatten(a) + Flatten(b)
    decreases |b|
  {
    if b == [] {
      assert a + b == a;
    } else {
      var init := b[..|b| - 1];
      FlattenAppend(a, init);
      assert (a + b)[..|a + b| - 1] == a + init;
      assert (a + b)[|a + b| - 1] == b[|b| - 1];
    }
  }

  /** `sep.join(parts)`. */
  function Join(parts: seq<string>, sep: string): string
  {
    if parts == [] then ""
    else if |parts| == 1 then parts[0]
    else Join(parts[..|parts| - 1], sep) + sep + parts[|parts| - 1]
  }

  /** Position of the first `c` in `s`, |s| when there is none. */
  function FindChar(s: string, c: char): (k: nat)
    ensures k <= |s|
    ensures k < |s| ==> s[k] == c
    ensures forall j :: 0 <= j < k ==> s[j] != c
  {
    if s == [] then 0 else if s[0] == c then 0 else 1 + FindChar(s[1..], c)
  }

  /** `s.split(c)` with an explicit one-character separator: the pieces
      between consecutive separators, empty pieces included. */
  function Split(s: string, c: char): (r: seq<string>)
    ensures |r| >= 1
    ensures forall i, j :: 0 <= i < |r| && 0 <= j < |r[i]| ==> r[i][j] != c
    decreases |s|
  {
    var k := FindChar(s, c);
    if k == |s| then [s] else [s[..k]] + Split(s[k + 1..], c)
  }

  /** Joining the pieces of a split with the separator restores the string. */
  lemma {:induction false} JoinSplit(s: string, c: char)
    ensures Join(Split(s, c), [c]) == s
    decreases |s|
  {
    var k := FindChar(s, c);
    if k < |s| {
      var rest := s[k + 1..];
      JoinSplit(rest, c);
      JoinCons(s[..k], Split(rest, c), [c]);
      assert s == s[..k] + [c] + rest;
    }
  }

  lemma {:induction false} JoinCons(x: string, parts: seq<string>, sep: string)
    requires parts != []
    ensures Join([x] + parts, sep) == x + sep + Join(parts, sep)
    decreases |parts|
  {
    if |parts| == 1 {
      assert [x] + parts == [x, parts[0]];
      assert [x, parts[0]][..1] == [x];
    } else {
      var init := parts[..|parts| - 1];
      assert ([x] + parts)[..|[x] + parts| - 1] == [x] + init;
      JoinCons(x, init, sep);
    }
  }

  /** The number of pieces is one more than the number of separators. */
  function CountChar(s: string, c: char): nat
  {
    if s == [] then 0 else (if s[0] == c then 1 else 0) + CountChar(s[1..], c)
  }

  lemma {:induction false} SplitCount(s: string, c: char)
    ensures |Split(s, c)| == CountChar(s, c) + 1
    decreases |s|
  {
    var k := FindChar(s, c);
    CountCharPrefixFree(s, c, k);
    if k < |s| {
      SplitCount(s[k + 1..], c);
    }
  }

  lemma {:induction false} CountCharPrefixFree(s: string, c: char, k: nat)
    requires k <= |s|
    requires forall j :: 0 <= j < k ==> s[j] != c
    ensures k < |s| && s[k] == c ==> CountChar(s, c) == 1 + CountChar(s[k + 1..], c)
    ensures k == |s| ==> CountChar(s, c) == 0
    decreases k
  {
    if k > 0 {
      CountCharPrefixFree(s[1..], c, k - 1);
      if k < |s| { assert s[1..][k - 1 + 1..] == s[k + 1..]; }
    } else if k < |s| && s[k] == c {
      assert s[1..] == s[k + 1..];
    }
  }

  // ---------------------------------------------------------------------
  // str.replace

  predicate StartsWith(s: string, p: string)
  {
    |p| <= |s| && s[..|p|] == p
  }

  predicate OccursAt(s: string, p: string, i: nat)
  {
    i + |p| <= |s| && s[i..i + |p|] == p
  }

  /** `s.replace(pat, rep)`: scanning left to right, each occurrence of `pat`
      that does not overlap an earlier replaced one becomes `rep`. */
  function ReplaceAll(s: string, pat: string, rep: string): string
    requires pat != []
    decreases |s|
  {
    if |s| < |pat| then s
    else if StartsWith(s, pat) then rep + ReplaceAll(s[|pat|..], pat, rep)
    else [s[0]] + ReplaceAll(s[1..], pat, rep)
  }

  /** A string in which `pat` does not occur is left unchanged. */
  lemma {:induction false} ReplaceAllAbsent(s: string, pat: string, rep: string)
    requires pat != []
    requires forall i :: 0 <= i <= |s| - |pat| ==> !OccursAt(s, pat, i)
    ensures ReplaceAll(s, pat, rep) == s
    decreases |s|
  {
    if |s| >= |pat| {
      assert !OccursAt(s, pat, 0);
      forall i | 0 <= i <= |s[1..]| - |pat| ensures !OccursAt(s[1..], pat, i) {
        assert s[1..][i..i + |pat|] == s[i + 1..i + 1 + |pat|];
        assert !OccursAt(s, pat, i + 1);
      }
      ReplaceAllAbsent(s[1..], pat, rep);
      assert s == [s[0]] + s[1..];
    }
  }

  /** The first occurrence is replaced and scanning resumes after it: for
      `s == a + pat + b` where `pat` does not start anywhere inside `a`,
      the result is `a + rep + ReplaceAll(b)`. */
  lemma {:induction false} ReplaceAllFirst(a: string, pat: string, rep: string, b: string)
    requires pat != []
    requires forall i :: 0 <= i < |a| ==> !OccursAt(a + pat + b, pat, i)
    ensures ReplaceAll(a + pat + b, pat, rep) == a + rep + ReplaceAll(b, pat, rep)
    decreases |a|
  {
    var s := a + pat + b;
    if a == [] {
      assert s == pat + b;
      assert s[..|pat|] == pat;
      assert s[|pat|..] == b;
    } else {
      assert !OccursAt(s, pat, 0);
      assert !StartsWith(s, pat);
      assert s[1..] == a[1..] + pat + b;
      forall i | 0 <= i < |a[1..]| ensures !OccursAt(a[1..] + pat + b, pat, i) {
        assert (a[1..] + pat + b)[i..] == s[i + 1..];
        assert !OccursAt(s, pat, i + 1);
      }
      ReplaceAllFirst(a[1..], pat, rep, b);
      assert [s[0]] + (a[1..] + rep + ReplaceAll(b, pat, rep)) == a + rep + ReplaceAll(b, pat, rep);
    }
  }

  /** A replacement no longer than the pattern never lengthens the string. */
  lemma {:induction false} ReplaceAllShorter(s: string, pat: string, rep: string)
    requires pat != [] && |rep| <= |pat|
    ensures |ReplaceAll(s, pat, rep)| <= |s|
    decreases |s|
  {
    if |s| >= |pat| {
      if StartsWith(s, pat) {
        ReplaceAllShorter(s[|pat|..], pat, rep);
      } else {
        ReplaceAllShorter(s[1..], pat, rep);
      }
    }
  }

  /** Replacing one character by another rewrites each occurrence in place. */
  lemma {:induction false} ReplaceChar(s: string, c: char, d: char)
    ensures |ReplaceAll(s, [c], [d])| == |s|
    ensures forall i :: 0 <= i < |s| ==> ReplaceAll(s, [c], [d])[i] == if s[i] == c then d else s[i]
    decreases |s|
  {
    if s != [] {
      ReplaceChar(s[1..], c, d);
      assert StartsWith(s, [c]) <==> s[0] == c;
    }
  }
}
