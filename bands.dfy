/** The index arithmetic of the forecast scripts on the normalised
    probability density: `xs = np.arange(-101, 101)` holds the lead times in
    days, the four probability bands are fixed slices of it, and the "most
    likely ± 3 days" window is a clamped 7-wide slice. The density itself is
    an opaque sequence of reals, and NumPy's rounding of the predicted lead
    time is round-half-to-even. */
module Bands {
  import opened Common

  /** `xs`: position `k` holds the lead time `k - 101`. */
  function Xs(): (xs: seq<int>)
    ensures |xs| == 202
    ensures forall k :: 0 <= k < |xs| ==> xs[k] == k - 101
  {
    seq(202, k => k - 101)
  }

  /** The consecutive days `a, a + 1, ..., b - 1`. */
  function Range(a: int, b: int): (r: seq<int>)
    ensures |r| == if a <= b then b - a else 0
    ensures forall i :: 0 <= i < |r| ==> r[i] == a + i
  {
    if a < b then seq(b - a, i => a + i) else []
  }

  lemma RangeAppend(a: int, b: int, c: int)
    requires a <= b <= c
    ensures Range(a, b) + Range(b, c) == Range(a, c)
  {
  }

  /** The lead times of `xs[lo:hi]`. */
  lemma {:induction false} XsSlice(lo: nat, hi: nat)
    requires lo <= hi <= 202
    ensures Slice(Xs(), lo, hi) == Range(lo - 101, hi - 101)
  {
    var s := Slice(Xs(), lo, hi);
    assert |s| == hi - lo;
    forall i | 0 <= i < |s| ensures s[i] == Range(lo - 101, hi - 101)[i] {
      assert s[i] == Xs()[lo + i];
    }
  }

  // ---------------------------------------------------------------------
  // The four probability bands

  datatype Band = OneOrTwoDays | ThreeToSevenDays | WeekTwo | WeekThree

  /** The slice bounds of `prob_12`, `prob_37`, `prob_wk2` and `prob_wk3`. */
  function Lo(b: Band): nat
  {
    match b
    case OneOrTwoDays => 101
    case ThreeToSevenDays => 103
    case WeekTwo => 108
    case WeekThree => 115
  }

  function Hi(b: Band): nat
  {
    match b
    case OneOrTwoDays => 103
    case ThreeToSevenDays => 108
    case WeekTwo => 115
    case WeekThree => 122
  }

  /** The lead times a band covers. */
  function BandDays(b: Band): seq<int>
  {
    Slice(Xs(), Lo(b), Hi(b))
  }

  /** The bands cover lead times 0-1, 2-6, 7-13 and 14-20. */
  lemma BandDaysAre()
    ensures BandDays(OneOrTwoDays) == Range(0, 2)
    ensures BandDays(ThreeToSevenDays) == Range(2, 7)
    ensures BandDays(WeekTwo) == Range(7, 14)
    ensures BandDays(WeekThree) == Range(14, 21)
  {
    XsSlice(101, 103);
    XsSlice(103, 108);
    XsSlice(108, 115);
    XsSlice(115, 122);
  }

  /** Together the bands cover lead times 0 to 20, each exactly once, in
      band order: they are the slice `xs[101:122]`. */
  lemma BandsPartition()
    ensures BandDays(OneOrTwoDays) + BandDays(ThreeToSevenDays) + BandDays(WeekTwo) + BandDays(WeekThree)
            == Range(0, 21) == Slice(Xs(), 101, 122)
  {
    BandDaysAre();
    RangeAppend(0, 2, 7);
    RangeAppend(0, 7, 14);
    RangeAppend(0, 14, 21);
    XsSlice(101, 122);
  }

  /** `pdf[lo:hi].sum()` for a band. */
  function BandProb(pdf: seq<real>, b: Band): real
  {
    Sum(Slice(pdf, Lo(b), Hi(b)))
  }

  /** The four band probabilities add up to the mass on lead times 0 to 20. */
  lemma BandProbsAdd(pdf: seq<real>)
    requires |pdf| >= 122
    ensures BandProb(pdf, OneOrTwoDays) + BandProb(pdf, ThreeToSevenDays) + BandProb(pdf, WeekTwo)
            + BandProb(pdf, WeekThree) == Sum(Slice(pdf, 101, 122))
  {
    var a, b, c, d := pdf[101..103], pdf[103..108], pdf[108..115], pdf[115..122];
    assert Slice(pdf, 101, 122) == a + b + c + d;
    SumAppend(a + b + c, d);
    SumAppend(a + b, c);
    SumAppend(a, b);
  }

  // ---------------------------------------------------------------------
  // The "most likely ± 3 days" window

  /** `startidx = max(101, 100 + mostlikely - 3)`. */
  function WindowStart(mostLikely: int): (s: nat)
    ensures s >= 101
  {
    if 100 + mostLikely - 3 < 101 then 101 else 100 + mostLikely - 3
  }

  /** `pdf[startidx:endidx + 1].sum()` with `endidx = startidx + 6`. */
  function WindowProb(pdf: seq<real>, mostLikely: int): real
  {
    Sum(Slice(pdf, WindowStart(mostLikely), WindowStart(mostLikely) + 6 + 1))
  }

  /** The lead times the window sums over. */
  function WindowDays(mostLikely: int): seq<int>
  {
    Slice(Xs(), WindowStart(mostLikely), WindowStart(mostLikely) + 7)
  }

  /** `shiftflag`: the window had to be moved to start at lead time 0. */
  predicate Shifted(mostLikely: int)
  {
    100 + mostLikely - 3 < 101
  }

  /** The window never reaches back before lead time 0; it is shifted
      exactly when `mostlikely < 4`, and then covers lead times 0 to 6;
      otherwise it covers `mostlikely - 4` to `mostlikely + 2`. It has its
      full 7 days exactly when it ends inside `xs`. */
  lemma WindowShape(mostLikely: int)
    ensures Shifted(mostLikely) <==> mostLikely < 4
    ensures forall i :: 0 <= i < |WindowDays(mostLikely)| ==> WindowDays(mostLikely)[i] >= 0
    ensures Shifted(mostLikely) ==> WindowDays(mostLikely) == Range(0, 7)
    ensures !Shifted(mostLikely) && mostLikely <= 98 ==>
              WindowDays(mostLikely) == Range(mostLikely - 4, mostLikely + 3)
    ensures |WindowDays(mostLikely)| == 7 <==> mostLikely <= 98
  {
    var s := WindowStart(mostLikely);
    if s + 7 <= 202 {
      XsSlice(s, s + 7);
    } else if s < 202 {
      XsSlice(s, 202);
    }
  }

  /** The window the 2025 plot shades, `xs[startidx + 1:endidx + 2]`. */
  function ShadedDays(mostLikely: int): seq<int>
  {
    Slice(Xs(), WindowStart(mostLikely) + 1, WindowStart(mostLikely) + 8)
  }

  /** With the 2025 convention (`mostlikely = round(mu_0)`), the summed
      window is not centred on the most likely day while the shaded one is:
      for `mostlikely = 10` the sum covers lead times 6 to 12 and the plot
      shades 7 to 13. */
  lemma WindowOffCentre()
    ensures WindowDays(10) == Range(6, 13)
    ensures ShadedDays(10) == Range(7, 14)
  {
    XsSlice(107, 114);
    XsSlice(108, 115);
  }

  /** The window of `round(mu_0) ± 3` days: `max(101, 101 + r - 3)`. */
  function CentredStart(rounded: int): (s: nat)
    ensures s >= 101
  {
    if 101 + rounded - 3 < 101 then 101 else 101 + rounded - 3
  }

  function CentredWindowDays(rounded: int): seq<int>
  {
    Slice(Xs(), CentredStart(rounded), CentredStart(rounded) + 7)
  }

  function CentredWindowProb(pdf: seq<real>, rounded: int): real
  {
    Sum(Slice(pdf, CentredStart(rounded), CentredStart(rounded) + 7))
  }

  predicate CentredShifted(rounded: int)
  {
    101 + rounded - 3 < 101
  }

  /** The centred window covers `r - 3` to `r + 3` whenever that does not
      reach before lead time 0, and is lead times 0 to 6 otherwise; it is
      the 2024 window for `mostlikely = r + 1`, and agrees with the days the
      2025 plot shades. */
  lemma CentredWindowShape(rounded: int)
    ensures CentredShifted(rounded) <==> rounded < 3
    ensures CentredShifted(rounded) ==> CentredWindowDays(rounded) == Range(0, 7)
    ensures !CentredShifted(rounded) && rounded <= 97 ==>
              CentredWindowDays(rounded) == Range(rounded - 3, rounded + 4)
    ensures CentredStart(rounded) == WindowStart(rounded + 1)
    ensures CentredWindowDays(rounded) == WindowDays(rounded + 1)
    ensures !Shifted(rounded) ==> CentredWindowDays(rounded) == ShadedDays(rounded)
  {
    var s := CentredStart(rounded);
    if s + 7 <= 202 {
      XsSlice(s, s + 7);
    }
  }

  // ---------------------------------------------------------------------
  // Rounding

  /** `np.round` on an exact real: the nearest integer, ties to even. */
  function RoundHalfEven(x: real): (r: int)
    ensures (r as real) - 0.5 <= x <= (r as real) + 0.5
    ensures x == (r as real) - 0.5 || x == (r as real) + 0.5 ==> r % 2 == 0
  {
    var f := x.Floor;
    var frac := x - f as real;
    if frac < 0.5 then f
    else if frac > 0.5 then f + 1
    else if f % 2 == 0 then f
    else f + 1
  }

  /** Those two properties determine the rounded value. */
  lemma RoundHalfEvenUnique(x: real, n: int)
    requires (n as real) - 0.5 <= x <= (n as real) + 0.5
    requires x == (n as real) - 0.5 || x == (n as real) + 0.5 ==> n % 2 == 0
    ensures n == RoundHalfEven(x)
  {
    var r := RoundHalfEven(x);
    assert -1 <= n - r <= 1;
  }
}
