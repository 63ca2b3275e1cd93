/** Shared vocabulary of the model: Python's exceptions as an error datatype,
    pandas' NaN-able cells, Python slicing and summation, and positional /
    label-based access to a data frame. */
module Common {

  /** The exceptions the scripts can raise (or let escape). */
  datatype PyError =
    | KeyError(key: string)
    | IndexError
    | ValueError(reason: string)
    | AttributeError(name: string)
    | OverflowError
    | FileNotFound(path: string)
    | Raised(message: string)      // a bare `raise Exception(...)`

  datatype Option<T> = None | Some(value: T)

  /** pandas' messages when a data frame is assigned to one column
      (`df[key] = frame`): that needs a frame of exactly one column. */
  const MultiColumnAssign: string := "Cannot set a DataFrame with multiple columns to the single column"
  const NoColumnAssign: string := "Cannot set a DataFrame without columns to the column"
  const ColumnLengthMismatch: string := "Columns must be same length as key"

  datatype Result<T> = Ok(value: T) | Err(error: PyError)
  {
    predicate IsFailure() { Err? }
    function PropagateFailure<U>(): Result<U>
      requires Err?
    {
      Err(error)
    }
    function Extract(): T
      requires Ok?
    {
      value
    }
  }

  /** A numeric cell of a pandas frame: a number or NaN. */
  datatype Cell = Num(v: real) | NaN
  {
    /** `a - b` with NaN propagation. */
    function Minus(other: Cell): (r: Cell)
      ensures r.Num? <==> this.Num? && other.Num?
      ensures r.Num? ==> r.v == this.v - other.v
    {
      if this.Num? && other.Num? then Num(this.v - other.v) else NaN
    }

    /** `x ** 2` with NaN propagation. */
    function Squared(): (r: Cell)
      ensures r.Num? <==> this.Num?
      ensures r.Num? ==> r.v == this.v * this.v && r.v >= 0.0
    {
      if Num? then Num(v * v) else NaN
    }

    /** `fillna(0)` applied to one cell. */
    function ZeroIfNaN(): (r: real)
      ensures this.Num? ==> r == this.v
      ensures this.NaN? ==> r == 0.0
    {
      if Num? then v else 0.0
    }
  }

  /** A list comprehension whose element expression may raise: the first
      element that raises ends it with that exception. */
  function MapAll<A, B>(f: A -> Result<B>, xs: seq<A>): (r: Result<seq<B>>)
    decreases |xs|
  {
    if xs == [] then Ok([])
    else
      var before :- MapAll(f, xs[..|xs| - 1]);
      var y :- f(xs[|xs| - 1]);
      Ok(before + [y])
  }

  /** One result per element, in order; otherwise the exception of the
      first element that raises. */
  lemma {:induction false} MapAllMeaning<A, B>(f: A -> Result<B>, xs: seq<A>)
    ensures MapAll(f, xs).Ok? <==> forall i :: 0 <= i < |xs| ==> f(xs[i]).Ok?
    ensures MapAll(f, xs).Ok? ==>
              var v := MapAll(f, xs).value;
              |v| == |xs| && forall i :: 0 <= i < |xs| ==> f(xs[i]) == Ok(v[i])
    ensures MapAll(f, xs).Err? ==>
              exists i :: 0 <= i < |xs| && f(xs[i]) == Err(MapAll(f, xs).error)
                       && forall k :: 0 <= k < i ==> f(xs[k]).Ok?
    decreases |xs|
  {
    if xs != [] {
      var init := xs[..|xs| - 1];
      MapAllMeaning(f, init);
      assert forall i :: 0 <= i < |init| ==> init[i] == xs[i];
    }
  }

  /** Python's `s[i:j]` for non-negative bounds: both bounds are clamped to the
      length, and the slice is empty when `i >= j`. */
  function Slice<T>(s: seq<T>, i: nat, j: nat): (r: seq<T>)
    ensures |r| == if i < j && i < |s| then (if j < |s| then j else |s|) - i else 0
    ensures forall k :: 0 <= k < |r| ==> r[k] == s[i + k]
  {
    var hi := if j < |s| then j else |s|;
    if i < hi then s[i..hi] else []
  }

  /** Python's `s[:-k]` for `k > 0`: everything but the last `k` elements,
      empty when `s` is not longer than `k`. */
  function DropLast<T>(s: seq<T>, k: nat): (r: seq<T>)
    requires k > 0
    ensures |s| <= k ==> r == []
    ensures |s| > k ==> |r| == |s| - k && r + s[|s| - k..] == s
  {
    if |s| <= k then [] else s[..|s| - k]
  }

  /** `numpy.sum` over a sequence of reals (exact here). */
  function Sum(s: seq<real>): real
  {
    if s == [] then 0.0 else Sum(s[..|s| - 1]) + s[|s| - 1]
  }

  lemma {:induction false} SumAppend(a: seq<real>, b: seq<real>)
    ensures Sum(a + b) == Sum(a) + Sum(b)
    decreases |b|
  {
    if b == [] {
      assert a + b == a;
    } else {
      assert (a + b)[..|a + b| - 1] == a + b[..|b| - 1];
      SumAppend(a, b[..|b| - 1]);
    }
  }

  lemma {:induction false} SumNonNegative(s: seq<real>)
    requires forall k :: 0 <= k < |s| ==> s[k] >= 0.0
    ensures Sum(s) >= 0.0
    decreases |s|
  {
    if s != [] {
      SumNonNegative(s[..|s| - 1]);
    }
  }

  /** The position `row.iloc[p]` reads in a frame of `n` rows: non-negative
      positions count from the top, negative ones from the bottom, anything
      else is an IndexError. */
  function ILocPosition(n: nat, p: int): (r: Option<nat>)
    ensures r.Some? <==> -(n as int) <= p < n
    ensures r.Some? ==> r.value < n && (r.value == p || r.value == n + p)
    ensures r.Some? && p >= 0 ==> r.value == p
  {
    if 0 <= p < n then Some(p) else if -(n as int) <= p < 0 then Some(n + p) else None
  }

  /** A pandas frame: row labels (`index`), the set of column labels and, for
      each row position, the cells that hold a number; a column label without
      an entry in a row is a NaN cell. */
  datatype Frame<C> = Frame(index: seq<int>, columns: set<C>, rows: seq<map<C, real>>)
  {
    ghost predicate WellFormed()
    {
      |index| == |rows| && forall p :: 0 <= p < |rows| ==> rows[p].Keys <= columns
    }

    /** `frame.iloc[p][c]`: IndexError for a bad position, then KeyError for a
        missing column, otherwise the cell (possibly NaN). */
    function ILocCell(p: int, c: C): (r: Result<Cell>)
      ensures ILocPosition(|rows|, p).None? ==> r == Err(IndexError)
      ensures ILocPosition(|rows|, p).Some? && c !in columns ==> r.Err? && r.error.KeyError?
      ensures ILocPosition(|rows|, p).Some? && c in columns ==>
        var q := ILocPosition(|rows|, p).value;
        r == Ok(if c in rows[q] then Num(rows[q][c]) else NaN)
    {
      match ILocPosition(|rows|, p)
      case None => Err(IndexError)
      case Some(q) =>
        if c !in columns then Err(KeyError("column"))
        else Ok(if c in rows[q] then Num(rows[q][c]) else NaN)
    }

    /** `frame[c][rowLabel]`: KeyError for a missing column or row label,
        otherwise the cell of the first row that carries the label. The
        frames it is applied to (the combined degree-day tables, indexed by
        day) have each label once, so that row is the row of the label;
        pandas returns several cells for a repeated label, which is not
        modelled. */
    function LabelCell(c: C, rowLabel: int): (r: Result<Cell>)
      requires |index| == |rows|
      ensures r.Ok? <==> c in columns && rowLabel in index
      ensures r.Ok? ==> exists q :: 0 <= q < |index| && index[q] == rowLabel &&
                          r.value == (if c in rows[q] then Num(rows[q][c]) else NaN)
    {
      if c !in columns then Err(KeyError("column"))
      else if rowLabel !in index then Err(KeyError("row label"))
      else
        var q := FirstIndexOf(index, rowLabel);
        Ok(if c in rows[q] then Num(rows[q][c]) else NaN)
    }
  }

  /** A frame read from a CSV file: one row of cells per row label. */
  type Table<C> = f: Frame<C> | |f.index| == |f.rows| witness Frame([], {}, [])

  /** `frame[c].iloc[p]`: KeyError for a missing column, then IndexError for
      a bad position, otherwise the cell (possibly NaN). */
  function ColumnILoc<C>(f: Frame<C>, c: C, p: int): (r: Result<Cell>)
    ensures c !in f.columns ==> r.Err? && r.error.KeyError?
    ensures c in f.columns && ILocPosition(|f.rows|, p).None? ==> r == Err(IndexError)
    ensures c in f.columns && ILocPosition(|f.rows|, p).Some? ==>
      var q := ILocPosition(|f.rows|, p).value;
      r == Ok(if c in f.rows[q] then Num(f.rows[q][c]) else NaN)
  {
    if c !in f.columns then Err(KeyError("column"))
    else match ILocPosition(|f.rows|, p)
      case None => Err(IndexError)
      case Some(q) => Ok(if c in f.rows[q] then Num(f.rows[q][c]) else NaN)
  }

  // ---------------------------------------------------------------------
  // Sorted, duplicate-free lists of integers

  predicate Increasing(s: seq<int>)
  {
    forall i, j :: 0 <= i < j < |s| ==> s[i] < s[j]
  }

  lemma IncreasingAppend(a: seq<int>, x: int)
    requires Increasing(a) && forall y :: y in a ==> y < x
    ensures Increasing(a + [x])
  {
    assert forall k :: 0 <= k < |a| ==> a[k] in a;
  }

  /** Insert `x` into a strictly increasing list, dropping it when present. */
  function InsertInt(s: seq<int>, x: int): (r: seq<int>)
    requires Increasing(s)
    ensures Increasing(r)
    ensures forall y :: y in r <==> y in s || y == x
    decreases |s|
  {
    if s == [] then [x]
    else if x == s[0] then s
    else if x < s[0] then [x] + s
    else
      var t := InsertInt(s[1..], x);
      assert s == [s[0]] + s[1..];
      assert forall k :: 1 <= k < |s| ==> s[0] < s[k];
      assert forall y :: y in s[1..] ==> s[0] < y;
      IncreasingCons(s[0], t);
      [s[0]] + t
  }

  lemma IncreasingCons(h: int, t: seq<int>)
    requires Increasing(t) && forall y :: y in t ==> h < y
    ensures Increasing([h] + t)
  {
    assert forall k :: 0 <= k < |t| ==> t[k] in t;
  }

  /** `sorted(set(xs))` on integers. */
  function SortedUniqueInts(xs: seq<int>): (r: seq<int>)
    ensures Increasing(r)
    ensures forall y :: y in r <==> y in xs
    decreases |xs|
  {
    if xs == [] then [] else InsertInt(SortedUniqueInts(xs[..|xs| - 1]), xs[|xs| - 1])
  }

  /** An increasing list is determined by its members. */
  lemma {:induction false} IncreasingUnique(a: seq<int>, b: seq<int>)
    requires Increasing(a) && Increasing(b)
    requires forall y :: y in a <==> y in b
    ensures a == b
    decreases |a|
  {
    assert a != [] ==> a[0] in a && a[0] in b;
    assert b != [] ==> b[0] in b && b[0] in a;
    if a != [] && b != [] {
      assert a[0] == b[0];
      forall y ensures y in a[1..] <==> y in b[1..] {
        if y in a[1..] { assert y in b && y != b[0]; }
        if y in b[1..] { assert y in a && y != a[0]; }
      }
      IncreasingUnique(a[1..], b[1..]);
      assert a == [a[0]] + a[1..] && b == [b[0]] + b[1..];
    }
  }

  /** The first position of `x` in `s`. */
  function FirstIndexOf<T(==)>(s: seq<T>, x: T): (q: nat)
    requires x in s
    ensures q < |s| && s[q] == x
    ensures forall k :: 0 <= k < q ==> s[k] != x
  {
    if s[0] == x then 0 else 1 + FirstIndexOf(s[1..], x)
  }

  /** A sequence is its prefix and its last element. */
  lemma PrefixSnoc<T>(s: seq<T>, i: nat)
    requires i < |s|
    ensures s[..i + 1] == s[..i] + [s[i]]
  {
  }

  lemma MultisetSnoc<T>(s: seq<T>)
    requires s != []
    ensures multiset(s) == multiset(s[..|s| - 1]) + multiset{s[|s| - 1]}
  {
    assert s == s[..|s| - 1] + [s[|s| - 1]];
  }
}
