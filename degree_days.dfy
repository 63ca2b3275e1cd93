/** The degree-day tables of scripts/riverice_util.py: a station's daily
    series, its March-June season, the clamped daily degree days and their
    per-year running sum, the julian-day x year pivot, and the lookups the
    forecast and correlation scripts make in those tables. */
module DegreeDays {
  import opened Common
  import opened Text
  import opened Calendar

  /** `DD_CONFIG[prefix]['deltaT']`: the base temperature (degrees F) of each
      kind of degree day; any other prefix is a KeyError. */
  function DeltaT(prefix: string): (r: Result<int>)
    ensures r.Ok? <==> prefix == "TDD" || prefix == "DD20" || prefix == "DD25"
    ensures prefix == "TDD" ==> r == Ok(32)
    ensures prefix == "DD20" ==> r == Ok(20)
    ensures prefix == "DD25" ==> r == Ok(25)
    ensures r.Err? ==> r.error == KeyError(prefix)
  {
    if prefix == "TDD" then Ok(32)
    else if prefix == "DD20" then Ok(20)
    else if prefix == "DD25" then Ok(25)
    else Err(KeyError(prefix))
  }

  /** `LASTYEAR`: the last season kept. */
  const LastYear: int := 2025

  // ---------------------------------------------------------------------
  // Station series

  /** A daily `Tavg_F` entry of an ACIS station file: a number, the missing
      flag "M", or an empty cell. */
  datatype Reading = Observed(v: real) | MissingFlag | Blank

  /** The numeric stand-in for a missing day. */
  const Sentinel: real := -9999.0

  /** `replace("M", "-9999")` followed by `astype(float)` on one entry. */
  function TavgCell(x: Reading): (c: Cell)
    ensures c.NaN? <==> x.Blank?
    ensures c.Num? ==> c.v == if x.MissingFlag? then Sentinel else x.v
  {
    match x
    case Observed(v) => Num(v)
    case MissingFlag => Num(Sentinel)
    case Blank => NaN
  }

  datatype RawDay = RawDay(date: ValidDate, tavg: Reading)

  /** A row of a station frame: its date (the index) and `Tavg_F`; the other
      measured columns are carried by name only. */
  datatype StationDay = StationDay(date: ValidDate, tavg: Cell)

  const StationColumns: set<string> := {"Tmax_f", "Tmin_F", "Tavg_F", "sd_m", "swe", "year"}
  const DroppedColumns: set<string> := {"Tmax_f", "Tmin_F", "sd_m", "swe"}

  /** A station data frame whose column set is changed in place. */
  class StationFrame {
    var columns: set<string>
    var days: seq<StationDay>

    /** `station2df(path)` on the daily rows of the file. */
    constructor FromRaw(raw: seq<RawDay>)
      ensures columns == StationColumns
      ensures |days| == |raw|
      ensures forall i :: 0 <= i < |raw| ==> days[i] == StationDay(raw[i].date, TavgCell(raw[i].tavg))
    {
      columns := StationColumns;
      days := seq(|raw|, i requires 0 <= i < |raw| => StationDay(raw[i].date, TavgCell(raw[i].tavg)));
    }
  }

  /** Months March to June of a year no later than `LASTYEAR`. */
  predicate InSeason(d: Date)
  {
    3 <= d.month <= 6 && d.year < LastYear + 1
  }

  /** The season rows of a series, in their order. */
  function SeasonDays(days: seq<StationDay>): (r: seq<StationDay>)
    ensures forall x :: x in r <==> x in days && InSeason(x.date)
    ensures |r| <= |days|
    decreases |days|
  {
    if days == [] then []
    else
      var init := SeasonDays(days[..|days| - 1]);
      var last := days[|days| - 1];
      assert forall x :: x in days <==> x in days[..|days| - 1] || x == last;
      init + (if InSeason(last.date) then [last] else [])
  }

  /** `get_MAMJ_dd(stationdf)`: drops the Tmax, Tmin, snow-depth and SWE
      columns of `stationdf` in place (a KeyError, with nothing changed,
      when one is absent) and returns the rows of March to June of the
      years up to `LASTYEAR`. */
  method GetMAMJ(st: StationFrame) returns (r: Result<seq<StationDay>>)
    modifies st
    ensures st.days == old(st.days)
    ensures r.Ok? <==> DroppedColumns <= old(st.columns)
    ensures r.Ok? ==> st.columns == old(st.columns) - DroppedColumns && r.value == SeasonDays(st.days)
    ensures r.Err? ==> st.columns == old(st.columns) && r.error.KeyError?
  {
    if !(DroppedColumns <= st.columns) {
      return Err(KeyError("not found in axis"));
    }
    st.columns := st.columns - DroppedColumns;
    var kept: seq<StationDay> := [];
    var i := 0;
    while i < |st.days|
      invariant 0 <= i <= |st.days|
      invariant kept == SeasonDays(st.days[..i])
    {
      assert st.days[..i + 1][..i] == st.days[..i];
      if InSeason(st.days[i].date) {
        kept := kept + [st.days[i]];
      }
      i := i + 1;
    }
    assert st.days[..i] == st.days;
    return Ok(kept);
  }

  // ---------------------------------------------------------------------
  // Daily degree days

  function Max0(x: real): (r: real)
    ensures r >= 0.0 && r >= x && (r == x || r == 0.0)
  {
    if x < 0.0 then 0.0 else x
  }

  /** `df.loc[df['dd'] < 0, 'dd'] = 0` on one cell. */
  function Clamp(c: Cell): (r: Cell)
    ensures r.NaN? <==> c.NaN?
    ensures r.Num? ==> r.v == Max0(c.v)
  {
    if c.Num? && c.v < 0.0 then Num(0.0) else c
  }

  /** The `dd` of a day: `Tavg_F - deltaT`, zero where negative, NaN where
      the temperature is NaN. A missing day (the sentinel) counts zero. */
  function DailyDd(tavg: Cell, deltaT: int): (c: Cell)
    ensures c.Num? <==> tavg.Num?
    ensures c.Num? ==> c.v >= 0.0 && c.v == Max0(tavg.v - deltaT as real)
    ensures tavg == Num(Sentinel) && deltaT >= 0 ==> c == Num(0.0)
  {
    Clamp(tavg.Minus(Num(deltaT as real)))
  }

  /** The `.loc` clamp of get_dddf, in place on the `dd` column. */
  method ClampNegatives(a: array<Cell>)
    modifies a
    ensures forall i :: 0 <= i < a.Length ==> a[i] == Clamp(old(a[i]))
  {
    for i := 0 to a.Length
      invariant forall k :: 0 <= k < i ==> a[k] == Clamp(old(a[k]))
      invariant forall k :: i <= k < a.Length ==> a[k] == old(a[k])
    {
      if a[i].Num? && a[i].v < 0.0 {
        a[i] := Num(0.0);
      }
    }
  }

  /** A row that survives the grouping: groupby drops rows whose `Tavg_F`
      key is NaN. */
  datatype Obs = Obs(date: ValidDate, tavg: real)

  function Kept(days: seq<StationDay>): (r: seq<Obs>)
    ensures |r| <= |days|
    decreases |days|
  {
    if days == [] then []
    else
      var last := days[|days| - 1];
      Kept(days[..|days| - 1]) + (if last.tavg.Num? then [Obs(last.date, last.tavg.v)] else [])
  }

  /** The grouped table keeps exactly the days whose temperature is a number. */
  lemma {:induction false} KeptMembers(days: seq<StationDay>)
    ensures forall o :: o in Kept(days) <==> StationDay(o.date, Num(o.tavg)) in days
    decreases |days|
  {
    if days != [] {
      var last := days[|days| - 1];
      KeptMembers(days[..|days| - 1]);
      assert forall x :: x in days <==> x in days[..|days| - 1] || x == last;
    }
  }

  /** The degree days of one observation. */
  function ObsDd(o: Obs, deltaT: int): (r: real)
    ensures r >= 0.0 && r >= o.tavg - deltaT as real
  {
    Max0(o.tavg - deltaT as real)
  }

  /** The degree days of the observations of year `y`. */
  function YearTotal(obs: seq<Obs>, y: int, deltaT: int): (s: real)
    ensures s >= 0.0
    decreases |obs|
  {
    if obs == [] then 0.0
    else
      var last := obs[|obs| - 1];
      YearTotal(obs[..|obs| - 1], y, deltaT) + (if last.date.year == y then ObsDd(last, deltaT) else 0.0)
  }

  /** A row of the frame get_dddf returns. */
  datatype DdRow = DdRow(year: int, julianDay: int, tavg: real, dd: real, ddCumul: real)

  /** The table of get_dddf for observations in date order: one row per
      observation, `dd_cumul` being the degree days of its year up to and
      including that day. */
  function DdTable(obs: seq<Obs>, deltaT: int): (t: seq<DdRow>)
    ensures |t| == |obs|
  {
    seq(|obs|, k requires 0 <= k < |obs| =>
      DdRow(obs[k].date.year, JulianDay(obs[k].date), obs[k].tavg, ObsDd(obs[k], deltaT),
            YearTotal(obs[..k + 1], obs[k].date.year, deltaT)))
  }

  lemma DdTableAppend(obs: seq<Obs>, o: Obs, deltaT: int)
    ensures DdTable(obs + [o], deltaT) ==
      DdTable(obs, deltaT) + [DdRow(o.date.year, JulianDay(o.date), o.tavg, ObsDd(o, deltaT),
                                    YearTotal(obs + [o], o.date.year, deltaT))]
  {
    var a := DdTable(obs + [o], deltaT);
    var b := DdTable(obs, deltaT);
    forall k | 0 <= k < |obs|
      ensures a[k] == b[k]
    {
      assert (obs + [o])[..k + 1] == obs[..k + 1];
    }
    assert (obs + [o])[..|obs| + 1] == obs + [o];
  }

  lemma YearTotalStep(obs: seq<Obs>, o: Obs, y: int, deltaT: int)
    ensures YearTotal(obs + [o], y, deltaT) ==
      YearTotal(obs, y, deltaT) + (if o.date.year == y then ObsDd(o, deltaT) else 0.0)
  {
    assert (obs + [o])[..|obs|] == obs;
  }

  lemma {:induction false} YearTotalAppend(a: seq<Obs>, b: seq<Obs>, y: int, deltaT: int)
    ensures YearTotal(a + b, y, deltaT) == YearTotal(a, y, deltaT) + YearTotal(b, y, deltaT)
    decreases |b|
  {
    if b == [] {
      assert a + b == a;
    } else {
      var b0 := b[..|b| - 1];
      assert a + b == (a + b0) + [b[|b| - 1]];
      YearTotalStep(a + b0, b[|b| - 1], y, deltaT);
      YearTotalStep(b0, b[|b| - 1], y, deltaT);
      assert b == b0 + [b[|b| - 1]];
      YearTotalAppend(a, b0, y, deltaT);
    }
  }

  /** A year with no observation totals zero. */
  lemma {:induction false} YearTotalAbsent(obs: seq<Obs>, y: int, deltaT: int)
    requires forall k :: 0 <= k < |obs| ==> obs[k].date.year != y
    ensures YearTotal(obs, y, deltaT) == 0.0
    decreases |obs|
  {
    if obs != [] {
      YearTotalAbsent(obs[..|obs| - 1], y, deltaT);
    }
  }

  function TotalOf(totals: map<int, real>, y: int): real
  {
    if y in totals then totals[y] else 0.0
  }

  /** One observation more: the running totals and the table grow by it. */
  lemma TableStep(obs: seq<Obs>, o: Obs, totals: map<int, real>, deltaT: int)
    requires forall y :: TotalOf(totals, y) == YearTotal(obs, y, deltaT)
    ensures var c := TotalOf(totals, o.date.year) + ObsDd(o, deltaT);
      (forall y :: TotalOf(totals[o.date.year := c], y) == YearTotal(obs + [o], y, deltaT)) &&
      DdTable(obs + [o], deltaT) ==
        DdTable(obs, deltaT) + [DdRow(o.date.year, JulianDay(o.date), o.tavg, ObsDd(o, deltaT), c)]
  {
    forall y ensures YearTotal(obs + [o], y, deltaT) ==
                     YearTotal(obs, y, deltaT) + (if o.date.year == y then ObsDd(o, deltaT) else 0.0) {
      YearTotalStep(obs, o, y, deltaT);
    }
    DdTableAppend(obs, o, deltaT);
  }

  /** The `dd` column of get_dddf: `Tavg_F - deltaT`, then clamped in place. */
  method DdColumn(days: seq<StationDay>, deltaT: int) returns (dd: array<Cell>)
    ensures fresh(dd) && dd.Length == |days|
    ensures forall k :: 0 <= k < |days| ==> dd[k] == DailyDd(days[k].tavg, deltaT)
  {
    dd := new Cell[|days|](i requires 0 <= i < |days| => days[i].tavg.Minus(Num(deltaT as real)));
    ClampNegatives(dd);
  }

  /** A row of `groupby(['year', 'julian_day', 'Tavg_F']).sum()`: the key
      and the summed `dd` of the rows with that key. */
  datatype Group = Group(year: int, julianDay: int, tavg: real, dd: real)

  /** The order of the grouping keys: by year, then julian day, then
      `Tavg_F`. */
  predicate KeyLess(a: Group, b: Group)
  {
    a.year < b.year ||
    (a.year == b.year && (a.julianDay < b.julianDay || (a.julianDay == b.julianDay && a.tavg < b.tavg)))
  }

  predicate SameKey(a: Group, b: Group)
  {
    a.year == b.year && a.julianDay == b.julianDay && a.tavg == b.tavg
  }

  /** Every group comes before the later ones, so no key repeats. */
  predicate GroupsSorted(g: seq<Group>)
  {
    forall i, j :: 0 <= i < j < |g| ==> KeyLess(g[i], g[j])
  }

  function KeySet(g: seq<Group>): set<(int, int, real)>
  {
    set i | 0 <= i < |g| :: (g[i].year, g[i].julianDay, g[i].tavg)
  }

  /** One row into the sorted groups: its `dd` joins the group of its key,
      or it opens a new group in key order. */
  function GroupInsert(g: seq<Group>, x: Group): seq<Group>
    decreases |g|
  {
    if g == [] then [x]
    else if SameKey(g[0], x) then [g[0].(dd := g[0].dd + x.dd)] + g[1..]
    else if KeyLess(x, g[0]) then [x] + g
    else [g[0]] + GroupInsert(g[1..], x)
  }

  function GroupOf(o: Obs, deltaT: int): Group
  {
    Group(o.date.year, JulianDay(o.date), o.tavg, ObsDd(o, deltaT))
  }

  /** The grouped frame: every kept row inserted in turn. */
  function Grouped(obs: seq<Obs>, deltaT: int): seq<Group>
    decreases |obs|
  {
    if obs == [] then [] else GroupInsert(Grouped(obs[..|obs| - 1], deltaT), GroupOf(obs[|obs| - 1], deltaT))
  }

  /** The summed `dd` of the groups of year `y`. */
  function GroupYearTotal(g: seq<Group>, y: int): real
    decreases |g|
  {
    if g == [] then 0.0
    else GroupYearTotal(g[..|g| - 1], y) + (if g[|g| - 1].year == y then g[|g| - 1].dd else 0.0)
  }

  /** `.assign(dd_cumul=lambda x: x.groupby('year')['dd'].cumsum())`: the
      `dd` of a year's groups up to and including each row. */
  function CumSum(g: seq<Group>): (t: seq<DdRow>)
    ensures |t| == |g|
  {
    seq(|g|, k requires 0 <= k < |g| =>
      DdRow(g[k].year, g[k].julianDay, g[k].tavg, g[k].dd, GroupYearTotal(g[..k + 1], g[k].year)))
  }

  /** The frame get_dddf returns for the kept observations. */
  function GroupedTable(obs: seq<Obs>, deltaT: int): seq<DdRow>
  {
    CumSum(Grouped(obs, deltaT))
  }

  lemma {:induction false} GroupYearTotalAppend(a: seq<Group>, b: seq<Group>, y: int)
    ensures GroupYearTotal(a + b, y) == GroupYearTotal(a, y) + GroupYearTotal(b, y)
    decreases |b|
  {
    if b == [] {
      assert a + b == a;
    } else {
      var b0 := b[..|b| - 1];
      assert (a + b)[..|a + b| - 1] == a + b0;
      GroupYearTotalAppend(a, b0, y);
    }
  }

  lemma GroupYearTotalOne(x: Group, y: int)
    ensures GroupYearTotal([x], y) == if x.year == y then x.dd else 0.0
  {
    assert [x][..0] == [];
  }

  lemma KeySetCons(a: Group, t: seq<Group>)
    ensures KeySet([a] + t) == {(a.year, a.julianDay, a.tavg)} + KeySet(t)
  {
    var r := [a] + t;
    forall k | k in KeySet(r) ensures k in {(a.year, a.julianDay, a.tavg)} + KeySet(t) {
      var i :| 0 <= i < |r| && k == (r[i].year, r[i].julianDay, r[i].tavg);
      if i > 0 {
        assert r[i] == t[i - 1];
      }
    }
    forall k | k in KeySet(t) ensures k in KeySet(r) {
      var i :| 0 <= i < |t| && k == (t[i].year, t[i].julianDay, t[i].tavg);
      assert r[i + 1] == t[i];
    }
    assert r[0] == a;
  }

  /** Inserting a row adds exactly its key. */
  lemma {:induction false} GroupInsertKeys(g: seq<Group>, x: Group)
    ensures KeySet(GroupInsert(g, x)) == KeySet(g) + {(x.year, x.julianDay, x.tavg)}
    decreases |g|
  {
    if g == [] {
      KeySetCons(x, []);
    } else {
      var t := g[1..];
      assert g == [g[0]] + t;
      KeySetCons(g[0], t);
      if SameKey(g[0], x) {
        KeySetCons(g[0].(dd := g[0].dd + x.dd), t);
      } else if KeyLess(x, g[0]) {
        KeySetCons(x, g);
      } else {
        GroupInsertKeys(t, x);
        KeySetCons(g[0], GroupInsert(t, x));
      }
    }
  }

  /** A key below the row and below every group stays below every group
      after the insertion. */
  lemma {:induction false} GroupInsertAbove(g: seq<Group>, x: Group, b: Group)
    requires KeyLess(b, x) && forall i :: 0 <= i < |g| ==> KeyLess(b, g[i])
    ensures forall j :: 0 <= j < |GroupInsert(g, x)| ==> KeyLess(b, GroupInsert(g, x)[j])
    decreases |g|
  {
    if g != [] && !SameKey(g[0], x) && !KeyLess(x, g[0]) {
      GroupInsertAbove(g[1..], x, b);
      var r := GroupInsert(g, x);
      assert forall j :: 1 <= j < |r| ==> r[j] == GroupInsert(g[1..], x)[j - 1];
    } else if g != [] && SameKey(g[0], x) {
      var r := GroupInsert(g, x);
      assert forall j :: 1 <= j < |r| ==> r[j] == g[j];
    }
  }

  /** Inserting a row keeps the groups sorted and adds exactly its key. */
  lemma GroupInsertSorted(g: seq<Group>, x: Group)
    requires GroupsSorted(g)
    ensures GroupsSorted(GroupInsert(g, x))
    ensures KeySet(GroupInsert(g, x)) == KeySet(g) + {(x.year, x.julianDay, x.tavg)}
  {
    GroupInsertKeys(g, x);
    GroupInsertOrdered(g, x);
  }

  lemma {:induction false} GroupInsertOrdered(g: seq<Group>, x: Group)
    requires GroupsSorted(g)
    ensures GroupsSorted(GroupInsert(g, x))
    decreases |g|
  {
    if g != [] && !SameKey(g[0], x) && !KeyLess(x, g[0]) {
      var t := g[1..];
      GroupInsertOrdered(t, x);
      GroupInsertAbove(t, x, g[0]);
      var r := GroupInsert(g, x);
      assert forall i :: 1 <= i < |r| ==> r[i] == GroupInsert(t, x)[i - 1];
    } else if g != [] && SameKey(g[0], x) {
      var r := GroupInsert(g, x);
      assert forall i :: 0 <= i < |g| ==> SameKey(r[i], g[i]);
    }
  }

  /** Inserting a row adds its `dd` to its year and nothing to the others:
      merging loses no degree days. */
  lemma {:induction false} GroupInsertTotal(g: seq<Group>, x: Group, y: int)
    ensures GroupYearTotal(GroupInsert(g, x), y) == GroupYearTotal(g, y) + (if x.year == y then x.dd else 0.0)
    decreases |g|
  {
    GroupYearTotalOne(x, y);
    if g == [] {
    } else {
      var t := g[1..];
      assert g == [g[0]] + t;
      GroupYearTotalAppend([g[0]], t, y);
      GroupYearTotalOne(g[0], y);
      if SameKey(g[0], x) {
        GroupYearTotalAppend([g[0].(dd := g[0].dd + x.dd)], t, y);
        GroupYearTotalOne(g[0].(dd := g[0].dd + x.dd), y);
      } else if KeyLess(x, g[0]) {
        GroupYearTotalAppend([x], g, y);
      } else {
        GroupInsertTotal(t, x, y);
        GroupYearTotalAppend([g[0]], GroupInsert(t, x), y);
      }
    }
  }

  /** The grouped frame is sorted by key, has exactly the keys of the
      observations, and keeps each year's total of degree days. */
  lemma GroupedMeaning(obs: seq<Obs>, deltaT: int)
    ensures GroupsSorted(Grouped(obs, deltaT))
    ensures KeySet(Grouped(obs, deltaT)) == set k | 0 <= k < |obs| :: (obs[k].date.year, JulianDay(obs[k].date), obs[k].tavg)
    ensures forall y :: GroupYearTotal(Grouped(obs, deltaT), y) == YearTotal(obs, y, deltaT)
  {
    GroupedKeys(obs, deltaT);
    forall y ensures GroupYearTotal(Grouped(obs, deltaT), y) == YearTotal(obs, y, deltaT) {
      GroupedTotal(obs, deltaT, y);
    }
  }

  lemma {:induction false} GroupedKeys(obs: seq<Obs>, deltaT: int)
    ensures GroupsSorted(Grouped(obs, deltaT))
    ensures KeySet(Grouped(obs, deltaT)) == set k | 0 <= k < |obs| :: (obs[k].date.year, JulianDay(obs[k].date), obs[k].tavg)
    decreases |obs|
  {
    if obs != [] {
      var init := obs[..|obs| - 1];
      var o := obs[|obs| - 1];
      GroupedKeys(init, deltaT);
      GroupInsertSorted(Grouped(init, deltaT), GroupOf(o, deltaT));
      ObsKeysLast(obs);
    }
  }

  lemma ObsKeysLast(obs: seq<Obs>)
    requires obs != []
    ensures var init := obs[..|obs| - 1];
      var o := obs[|obs| - 1];
      (set k | 0 <= k < |obs| :: (obs[k].date.year, JulianDay(obs[k].date), obs[k].tavg)) ==
      (set k | 0 <= k < |init| :: (init[k].date.year, JulianDay(init[k].date), init[k].tavg)) + {(o.date.year, JulianDay(o.date), o.tavg)}
  {
    var init := obs[..|obs| - 1];
    var o := obs[|obs| - 1];
    var ks := set k | 0 <= k < |obs| :: (obs[k].date.year, JulianDay(obs[k].date), obs[k].tavg);
    var ki := set k | 0 <= k < |init| :: (init[k].date.year, JulianDay(init[k].date), init[k].tavg);
    forall c | c in ks ensures c in ki + {(o.date.year, JulianDay(o.date), o.tavg)} {
      var k :| 0 <= k < |obs| && c == (obs[k].date.year, JulianDay(obs[k].date), obs[k].tavg);
      if k < |init| {
        assert c == (init[k].date.year, JulianDay(init[k].date), init[k].tavg);
      }
    }
    forall c | c in ki ensures c in ks {
      var k :| 0 <= k < |init| && c == (init[k].date.year, JulianDay(init[k].date), init[k].tavg);
      assert c == (obs[k].date.year, JulianDay(obs[k].date), obs[k].tavg);
    }
  }

  lemma {:induction false} GroupedTotal(obs: seq<Obs>, deltaT: int, y: int)
    ensures GroupYearTotal(Grouped(obs, deltaT), y) == YearTotal(obs, y, deltaT)
    decreases |obs|
  {
    if obs != [] {
      var init := obs[..|obs| - 1];
      GroupedTotal(init, deltaT, y);
      GroupInsertTotal(Grouped(init, deltaT), GroupOf(obs[|obs| - 1], deltaT), y);
    }
  }

  /** A row whose key follows every group goes last. */
  lemma {:induction false} GroupInsertLast(g: seq<Group>, x: Group)
    requires forall i :: 0 <= i < |g| ==> KeyLess(g[i], x)
    ensures GroupInsert(g, x) == g + [x]
    decreases |g|
  {
    if g != [] {
      GroupInsertLast(g[1..], x);
      assert g == [g[0]] + g[1..];
    }
  }

  /** One group per observation, in the observations' order. */
  function OneGroupEach(obs: seq<Obs>, deltaT: int): (g: seq<Group>)
    ensures |g| == |obs|
  {
    seq(|obs|, k requires 0 <= k < |obs| => GroupOf(obs[k], deltaT))
  }

  lemma {:induction false} OneGroupEachTotal(obs: seq<Obs>, deltaT: int, y: int)
    ensures GroupYearTotal(OneGroupEach(obs, deltaT), y) == YearTotal(obs, y, deltaT)
    decreases |obs|
  {
    if obs != [] {
      var init := obs[..|obs| - 1];
      assert OneGroupEach(obs, deltaT)[..|obs| - 1] == OneGroupEach(init, deltaT);
      OneGroupEachTotal(init, deltaT, y);
    }
  }

  /** For a date-ordered series every group is a single day and the sort
      keeps the order of the series, so the frame is the running-sum table
      `DdTable` in date order. */
  lemma GroupedInDateOrder(obs: seq<Obs>, deltaT: int)
    requires ObsIncreasing(obs)
    ensures Grouped(obs, deltaT) == OneGroupEach(obs, deltaT)
    ensures GroupedTable(obs, deltaT) == DdTable(obs, deltaT)
  {
    GroupedOneEach(obs, deltaT);
    var e := OneGroupEach(obs, deltaT);
    forall k | 0 <= k < |obs| ensures GroupedTable(obs, deltaT)[k] == DdTable(obs, deltaT)[k] {
      assert e[..k + 1] == OneGroupEach(obs[..k + 1], deltaT);
      OneGroupEachTotal(obs[..k + 1], deltaT, obs[k].date.year);
    }
  }

  lemma {:induction false} GroupedOneEach(obs: seq<Obs>, deltaT: int)
    requires ObsIncreasing(obs)
    ensures Grouped(obs, deltaT) == OneGroupEach(obs, deltaT)
    decreases |obs|
  {
    if obs != [] {
      var init := obs[..|obs| - 1];
      var o := obs[|obs| - 1];
      assert ObsIncreasing(init);
      GroupedOneEach(init, deltaT);
      var g := OneGroupEach(init, deltaT);
      forall i | 0 <= i < |g| ensures KeyLess(g[i], GroupOf(o, deltaT)) {
        assert Before(init[i].date, o.date);
        if init[i].date.year == o.date.year {
          DayOfYearMonotone(init[i].date, o.date);
        }
      }
      GroupInsertLast(g, GroupOf(o, deltaT));
      assert OneGroupEach(obs, deltaT) == g + [GroupOf(o, deltaT)];
    }
  }

  lemma {:induction false} GroupYearTotalAbsent(g: seq<Group>, y: int)
    requires forall k :: 0 <= k < |g| ==> g[k].year != y
    ensures GroupYearTotal(g, y) == 0.0
    decreases |g|
  {
    if g != [] {
      GroupYearTotalAbsent(g[..|g| - 1], y);
    }
  }

  /** For any order of the input rows, the frame's `dd_cumul` runs per
      year: the next row of a year adds its own `dd`, and a row whose year
      differs from the row before starts afresh at its own `dd`. */
  lemma GroupedCumul(obs: seq<Obs>, deltaT: int, k: nat)
    requires k < |GroupedTable(obs, deltaT)|
    ensures var t := GroupedTable(obs, deltaT);
      && (k > 0 && t[k - 1].year == t[k].year ==> t[k].ddCumul == t[k - 1].ddCumul + t[k].dd)
      && (k == 0 || t[k - 1].year != t[k].year ==> t[k].ddCumul == t[k].dd)
  {
    var g := Grouped(obs, deltaT);
    GroupedMeaning(obs, deltaT);
    assert g[..k + 1][..k] == g[..k];
    if k == 0 || g[k - 1].year != g[k].year {
      forall j | 0 <= j < k ensures g[..k][j].year != g[k].year {
        assert KeyLess(g[j], g[k]);
        if j < k - 1 {
          assert KeyLess(g[j], g[k - 1]);
        }
      }
      GroupYearTotalAbsent(g[..k], g[k].year);
    } else {
      assert g[..k] == g[..k - 1 + 1];
    }
  }

  lemma KeptStep(days: seq<StationDay>, i: nat)
    requires i < |days|
    ensures Kept(days[..i + 1]) ==
      Kept(days[..i]) + (if days[i].tavg.Num? then [Obs(days[i].date, days[i].tavg.v)] else [])
  {
    assert days[..i + 1][..i] == days[..i];
  }

  /** One more kept row: the grouped frame takes it in. */
  lemma GroupedStep(days: seq<StationDay>, i: nat, deltaT: int)
    requires i < |days|
    ensures days[i].tavg.NaN? ==> Grouped(Kept(days[..i + 1]), deltaT) == Grouped(Kept(days[..i]), deltaT)
    ensures days[i].tavg.Num? ==>
              Grouped(Kept(days[..i + 1]), deltaT) ==
              GroupInsert(Grouped(Kept(days[..i]), deltaT), GroupOf(Obs(days[i].date, days[i].tavg.v), deltaT))
  {
    KeptStep(days, i);
    if days[i].tavg.NaN? {
      assert Kept(days[..i + 1]) == Kept(days[..i]);
    } else {
      var k := Kept(days[..i + 1]);
      assert k[..|k| - 1] == Kept(days[..i]);
    }
  }

  lemma CumSumStep(g: seq<Group>, i: nat)
    requires i < |g|
    ensures CumSum(g[..i + 1]) ==
      CumSum(g[..i]) + [DdRow(g[i].year, g[i].julianDay, g[i].tavg, g[i].dd, GroupYearTotal(g[..i + 1], g[i].year))]
    ensures forall y :: GroupYearTotal(g[..i + 1], y) == GroupYearTotal(g[..i], y) + (if g[i].year == y then g[i].dd else 0.0)
  {
    assert g[..i + 1][..i] == g[..i];
    var a := CumSum(g[..i + 1]);
    var b := CumSum(g[..i]);
    forall k | 0 <= k < i ensures a[k] == b[k] {
      assert g[..i + 1][..k + 1] == g[..i][..k + 1];
    }
    assert g[..i + 1][..i + 1] == g[..i + 1];
    assert a == b + [a[i]];
  }

  /** The per-year `cumsum` over the grouped frame, row by row. */
  method CumulativeSums(g: seq<Group>) returns (out: seq<DdRow>)
    ensures out == CumSum(g)
  {
    var totals: map<int, real> := map[];
    out := [];
    for i := 0 to |g|
      invariant out == CumSum(g[..i])
      invariant forall y :: TotalOf(totals, y) == GroupYearTotal(g[..i], y)
    {
      CumSumStep(g, i);
      var c := TotalOf(totals, g[i].year) + g[i].dd;
      var next, pre := totals[g[i].year := c], g[..i + 1];
      forall y ensures TotalOf(next, y) == GroupYearTotal(pre, y) {
        assert y == g[i].year || TotalOf(next, y) == TotalOf(totals, y);
      }
      totals := next;
      out := out + [DdRow(g[i].year, g[i].julianDay, g[i].tavg, g[i].dd, c)];
    }
    assert g[..|g|] == g;
  }

  /** The grouping and per-year `cumsum` of get_dddf over the clamped column:
      rows with a NaN `Tavg_F` are dropped, the rest grouped in key order
      with their `dd` summed, and `dd_cumul` accumulated per year. */
  method Accumulate(days: seq<StationDay>, dd: array<Cell>, deltaT: int) returns (out: seq<DdRow>)
    requires dd.Length == |days|
    requires forall k :: 0 <= k < |days| ==> dd[k] == DailyDd(days[k].tavg, deltaT)
    ensures out == GroupedTable(Kept(days), deltaT)
  {
    var groups: seq<Group> := [];
    for i := 0 to |days|
      invariant groups == Grouped(Kept(days[..i]), deltaT)
    {
      GroupedStep(days, i, deltaT);
      if days[i].tavg.Num? {
        groups := GroupInsert(groups, Group(days[i].date.year, JulianDay(days[i].date), days[i].tavg.v, dd[i].v));
      }
    }
    assert days[..|days|] == days;
    out := CumulativeSums(groups);
  }

  /** `get_dddf(tempdf, prefix)`: adds the julian-day and `dd` columns, clamps
      `dd` at zero in place, then groups by (year, julian day, `Tavg_F`) and
      accumulates `dd` per year. An unknown prefix is a KeyError. */
  method GetDdDf(days: seq<StationDay>, prefix: string) returns (r: Result<seq<DdRow>>)
    ensures DeltaT(prefix).Err? ==> r == Err(DeltaT(prefix).error)
    ensures DeltaT(prefix).Ok? ==> r == Ok(GroupedTable(Kept(days), DeltaT(prefix).value))
  {
    var deltaT :- DeltaT(prefix);
    var dd := DdColumn(days, deltaT);
    var out := Accumulate(days, dd, deltaT);
    return Ok(out);
  }

  // ---------------------------------------------------------------------
  // Laws of the running sum

  /** Every `dd` is the clamped difference and `dd_cumul` is at least `dd`. */
  lemma DdIsClamped(obs: seq<Obs>, deltaT: int, k: nat)
    requires k < |obs|
    ensures DdTable(obs, deltaT)[k].dd == Max0(obs[k].tavg - deltaT as real)
    ensures DdTable(obs, deltaT)[k].ddCumul >= DdTable(obs, deltaT)[k].dd
  {
    var pre := obs[..k];
    assert obs[..k + 1] == pre + [obs[k]];
    YearTotalStep(pre, obs[k], obs[k].date.year, deltaT);
  }

  /** Within a year, a later `dd_cumul` is the earlier one plus the degree
      days in between; in particular it never decreases. */
  lemma CumulNonDecreasing(obs: seq<Obs>, deltaT: int, i: nat, j: nat)
    requires i < j < |obs| && obs[i].date.year == obs[j].date.year
    ensures DdTable(obs, deltaT)[j].ddCumul ==
      DdTable(obs, deltaT)[i].ddCumul + YearTotal(obs[i + 1..j + 1], obs[i].date.year, deltaT)
    ensures DdTable(obs, deltaT)[i].ddCumul <= DdTable(obs, deltaT)[j].ddCumul
  {
    assert obs[..j + 1] == obs[..i + 1] + obs[i + 1..j + 1];
    YearTotalAppend(obs[..i + 1], obs[i + 1..j + 1], obs[i].date.year, deltaT);
  }

  /** The next day of the same year adds its own degree days. */
  lemma CumulStep(obs: seq<Obs>, deltaT: int, k: nat)
    requires 0 < k < |obs| && obs[k - 1].date.year == obs[k].date.year
    ensures DdTable(obs, deltaT)[k].ddCumul == DdTable(obs, deltaT)[k - 1].ddCumul + DdTable(obs, deltaT)[k].dd
  {
    assert obs[..k + 1] == obs[..k] + [obs[k]];
    YearTotalStep(obs[..k], obs[k], obs[k].date.year, deltaT);
  }

  /** The first day of a year starts the sum afresh: its `dd_cumul` is its
      own `dd`. */
  lemma CumulFirstOfYear(obs: seq<Obs>, deltaT: int, k: nat)
    requires k < |obs|
    requires forall j :: 0 <= j < k ==> obs[j].date.year != obs[k].date.year
    ensures DdTable(obs, deltaT)[k].ddCumul == DdTable(obs, deltaT)[k].dd
  {
    assert obs[..k + 1] == obs[..k] + [obs[k]];
    YearTotalStep(obs[..k], obs[k], obs[k].date.year, deltaT);
    YearTotalAbsent(obs[..k], obs[k].date.year, deltaT);
  }

  predicate DatesIncreasing(days: seq<StationDay>)
  {
    forall i, j :: 0 <= i < j < |days| ==> Before(days[i].date, days[j].date)
  }

  predicate ObsIncreasing(obs: seq<Obs>)
  {
    forall i, j :: 0 <= i < j < |obs| ==> Before(obs[i].date, obs[j].date)
  }

  lemma {:induction false} KeptIncreasing(days: seq<StationDay>)
    requires DatesIncreasing(days)
    ensures ObsIncreasing(Kept(days))
    decreases |days|
  {
    if days != [] {
      var init := days[..|days| - 1];
      var last := days[|days| - 1];
      KeptIncreasing(init);
      KeptMembers(init);
      var k := Kept(init);
      forall o | o in k ensures Before(o.date, last.date) {
        var i :| 0 <= i < |init| && init[i] == StationDay(o.date, Num(o.tavg));
      }
    }
  }

  /** For a date-ordered series, a new year in the table restarts the sum:
      the row after the last one of a year holds just its own `dd`. */
  lemma CumulRestartsEachYear(obs: seq<Obs>, deltaT: int, k: nat)
    requires ObsIncreasing(obs)
    requires 0 < k < |obs| && obs[k - 1].date.year != obs[k].date.year
    ensures DdTable(obs, deltaT)[k].ddCumul == DdTable(obs, deltaT)[k].dd
  {
    forall j | 0 <= j < k ensures obs[j].date.year != obs[k].date.year {
      if j < k - 1 {
        assert Before(obs[j].date, obs[k - 1].date);
      }
      assert Before(obs[k - 1].date, obs[k].date);
    }
    CumulFirstOfYear(obs, deltaT, k);
  }

  /** For a date-ordered series the grouping keys (year, julian day) are
      strictly increasing, so every group is a single day and the sort of
      the grouping keeps the order of the series. */
  lemma GroupKeysIncreasing(obs: seq<Obs>, deltaT: int, i: nat, j: nat)
    requires ObsIncreasing(obs) && i < j < |obs|
    ensures var t := DdTable(obs, deltaT);
      t[i].year < t[j].year || (t[i].year == t[j].year && t[i].julianDay < t[j].julianDay)
  {
    assert Before(obs[i].date, obs[j].date);
    if obs[i].date.year == obs[j].date.year {
      DayOfYearMonotone(obs[i].date, obs[j].date);
    }
  }

  // ---------------------------------------------------------------------
  // Pivot

  /** Which column of the get_dddf table fills the pivot. */
  datatype PivotValue = DailyValue | CumulativeValue

  function ValueOf(t: DdRow, v: PivotValue): real
  {
    if v.DailyValue? then t.dd else t.ddCumul
  }

  /** No two rows share (julian day, year). */
  predicate UniqueKeys(t: seq<DdRow>)
  {
    forall i, j :: 0 <= i < j < |t| ==> t[i].julianDay != t[j].julianDay || t[i].year != t[j].year
  }

  /** The value of the first row with the given julian day and year. */
  function CellAt(t: seq<DdRow>, jd: int, y: int, v: PivotValue): (r: Option<real>)
    ensures r.Some? <==> exists k :: 0 <= k < |t| && t[k].julianDay == jd && t[k].year == y
    ensures r.Some? ==> exists k :: 0 <= k < |t| && t[k].julianDay == jd && t[k].year == y && r.value == ValueOf(t[k], v)
    decreases |t|
  {
    if t == [] then None
    else if t[0].julianDay == jd && t[0].year == y then Some(ValueOf(t[0], v))
    else
      var r := CellAt(t[1..], jd, y, v);
      assert forall k :: 1 <= k < |t| ==> t[k] == t[1..][k - 1];
      r
  }

  function JulianDays(t: seq<DdRow>): (r: seq<int>)
    ensures |r| == |t| && forall k :: 0 <= k < |t| ==> r[k] == t[k].julianDay
  {
    seq(|t|, k requires 0 <= k < |t| => t[k].julianDay)
  }

  function Years(t: seq<DdRow>): set<int>
  {
    set k | 0 <= k < |t| :: t[k].year
  }

  /** `get_pivotdf(tdddf, value=...)`: rows are the julian days present in
      ascending order, columns the years, each cell the value of the row with
      that day and year (NaN when there is none). Two rows with the same day
      and year are pandas' "duplicate entries" ValueError. */
  function Pivot(t: seq<DdRow>, v: PivotValue): (r: Result<Frame<int>>)
    ensures r.Ok? <==> UniqueKeys(t)
    ensures r.Err? ==> r.error.ValueError?
    ensures r.Ok? ==> r.value.WellFormed() && Increasing(r.value.index) && r.value.columns == Years(t)
    ensures r.Ok? ==> forall jd :: jd in r.value.index <==> exists k :: 0 <= k < |t| && t[k].julianDay == jd
    ensures r.Ok? ==> forall p, k :: 0 <= p < |r.value.index| && 0 <= k < |t| && t[k].julianDay == r.value.index[p] ==>
                        t[k].year in r.value.rows[p] && r.value.rows[p][t[k].year] == ValueOf(t[k], v)
    ensures r.Ok? ==> forall p, y :: 0 <= p < |r.value.index| && y in r.value.rows[p] ==>
                        exists k :: 0 <= k < |t| && t[k].julianDay == r.value.index[p] && t[k].year == y
  {
    if !UniqueKeys(t) then Err(ValueError("Index contains duplicate entries, cannot reshape"))
    else
      var index := SortedUniqueInts(JulianDays(t));
      var years := Years(t);
      var rows := seq(|index|, p requires 0 <= p < |index| =>
        map y | y in years && CellAt(t, index[p], y, v).Some? :: CellAt(t, index[p], y, v).value);
      assert forall jd :: jd in index <==> exists k :: 0 <= k < |t| && t[k].julianDay == jd by {
        forall jd ensures jd in index <==> exists k :: 0 <= k < |t| && t[k].julianDay == jd {
          if jd in index {
            var k :| 0 <= k < |t| && JulianDays(t)[k] == jd;
          }
        }
      }
      Ok(Frame(index, years, rows))
  }

  // ---------------------------------------------------------------------
  // Lookups

  /** The `year` and `JulianDay` of a row of the breakup table. */
  datatype BreakupDay = BreakupDay(year: int, julianDay: int)

  /** The row position the lookups read: March 1 is position 0 of a table
      whose first row is julian day 60. */
  function Position(jd: int, offset: int): int
  {
    jd - 60 - offset
  }

  /** `stationDF.iloc[p][str(year)]` with a KeyError turned into NaN; an
      IndexError is not caught. */
  function DdAt(f: Frame<string>, p: int, year: int): (r: Result<Cell>)
    ensures r.Err? <==> ILocPosition(|f.rows|, p).None?
    ensures r.Err? ==> r.error == IndexError
    ensures r.Ok? && IntToString(year) !in f.columns ==> r.value == NaN
    ensures r.Ok? && IntToString(year) in f.columns ==> Ok(r.value) == f.ILocCell(p, IntToString(year))
  {
    match f.ILocCell(p, IntToString(year))
    case Err(e) => if e.KeyError? then Ok(NaN) else Err(e)
    case Ok(c) => Ok(c)
  }

  /** `retrieve_dd(row, stationDF, offset)`. */
  function RetrieveDd(row: BreakupDay, f: Frame<string>, offset: int): Result<Cell>
  {
    DdAt(f, Position(row.julianDay, offset), row.year)
  }

  /** `stationDF.iloc[p][str(year)] - climatologies[stationname].iloc[p]`
      with any KeyError turned into NaN; the station lookup is made first,
      and an IndexError from either side is not caught. */
  function AnomalyAt(f: Frame<string>, clim: Frame<string>, stationname: string, p: int, year: int): (r: Result<Cell>)
    ensures ILocPosition(|f.rows|, p).None? ==> r == Err(IndexError)
    ensures ILocPosition(|f.rows|, p).Some? && IntToString(year) !in f.columns ==> r == Ok(NaN)
    ensures ILocPosition(|f.rows|, p).Some? && IntToString(year) in f.columns ==>
              (stationname !in clim.columns ==> r == Ok(NaN)) &&
              (stationname in clim.columns && ILocPosition(|clim.rows|, p).None? ==> r == Err(IndexError)) &&
              (stationname in clim.columns && ILocPosition(|clim.rows|, p).Some? ==>
                 r.Ok? && r.value == DdAt(f, p, year).value.Minus(ColumnILoc(clim, stationname, p).value))
  {
    match f.ILocCell(p, IntToString(year))
    case Err(e) => if e.KeyError? then Ok(NaN) else Err(e)
    case Ok(a) =>
      match ColumnILoc(clim, stationname, p)
      case Err(e) => if e.KeyError? then Ok(NaN) else Err(e)
      case Ok(b) => Ok(a.Minus(b))
  }

  /** `retrieve_dd_anomaly(row, stationname, stationDF, offset)` with the
      climatology table given. */
  function RetrieveDdAnomaly(row: BreakupDay, stationname: string, f: Frame<string>, clim: Frame<string>, offset: int): Result<Cell>
  {
    AnomalyAt(f, clim, stationname, Position(row.julianDay, offset), row.year)
  }

  /** `retrieve_dd_anomaly_fixed(row, stationname, stationDF, datestring)`:
      the anomaly at the julian day of `datestring` ('MM-DD') in the row's
      own year; a date string that does not parse is a ValueError. */
  function RetrieveDdAnomalyFixed(row: BreakupDay, stationname: string, f: Frame<string>, clim: Frame<string>,
                                  datestring: string): (r: Result<Cell>)
    ensures DatestrToJulianDay(IntToString(row.year) + "-" + datestring).Err? ==> r.Err? && r.error.ValueError?
    ensures DatestrToJulianDay(IntToString(row.year) + "-" + datestring).Ok? ==>
      r == AnomalyAt(f, clim, stationname, DatestrToJulianDay(IntToString(row.year) + "-" + datestring).value - 60, row.year)
  {
    var jd :- DatestrToJulianDay(IntToString(row.year) + "-" + datestring);
    AnomalyAt(f, clim, stationname, jd - 60, row.year)
  }

  /** The fixed-date anomaly of a date `MM-DD` of the row's year is read at
      that date's day of the year. */
  lemma AnomalyFixedAtDayOfYear(row: BreakupDay, stationname: string, f: Frame<string>, clim: Frame<string>, md: Date)
    requires Valid(md) && md.year == row.year && 1000 <= row.year
    ensures RetrieveDdAnomalyFixed(row, stationname, f, clim, FormatMonthDay(md)) ==
            AnomalyAt(f, clim, stationname, DayOfYear(md) - 60, row.year)
  {
    assert Pow10(3) == 1000 && Pow10(4) == 10000;
    NatToStringPadded(row.year, 4);
    assert IntToString(row.year) + "-" + FormatMonthDay(md) == FormatIso(md);
    ParseFormatIso(md);
  }

  /** A frame whose rows are the consecutive julian days from 60 (as the
      pivot of a full season is): the position lookup of retrieve_dd reads
      the row labelled `JulianDay - offset`, and a day outside the table is an
      IndexError. */
  lemma RetrieveDdByLabel(row: BreakupDay, f: Frame<string>, offset: int)
    requires |f.index| == |f.rows|
    requires forall p :: 0 <= p < |f.index| ==> f.index[p] == 60 + p
    ensures var jd := row.julianDay - offset;
      if 60 <= jd < 60 + |f.rows| then
        RetrieveDd(row, f, offset) == (match f.LabelCell(IntToString(row.year), jd)
                                       case Ok(c) => Ok(c)
                                       case Err(_) => Ok(NaN))
      else if 60 - |f.rows| <= jd < 60 then RetrieveDd(row, f, offset).Ok?
      else RetrieveDd(row, f, offset) == Err(IndexError)
  {
    var jd := row.julianDay - offset;
    if 60 <= jd < 60 + |f.rows| {
      assert f.index[jd - 60] == jd;
      var c := IntToString(row.year);
      if c in f.columns {
        var q := FirstIndexOf(f.index, jd);
        assert f.index[q] == 60 + q;
      }
    }
  }

  /** `station2pivot(stationdf)`: the season of the series, its DD25 table
      (the prefix is not passed on, so get_dddf's default applies) and the
      pivot of `dd_cumul`; the column drop happens in `stationdf`. */
  method Station2Pivot(st: StationFrame) returns (r: Result<Frame<int>>)
    modifies st
    ensures st.days == old(st.days)
    ensures !(DroppedColumns <= old(st.columns)) ==> r.Err? && r.error.KeyError? && st.columns == old(st.columns)
    ensures DroppedColumns <= old(st.columns) ==>
      st.columns == old(st.columns) - DroppedColumns &&
      r == Pivot(GroupedTable(Kept(SeasonDays(st.days)), 25), CumulativeValue)
  {
    var season :- GetMAMJ(st);
    var table := GetDdDf(season, "DD25");
    r := Pivot(table.value, CumulativeValue);
  }
}
