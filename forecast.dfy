/** What the two forecast scripts share: the breakup history of a site,
    `make_likelihood_DF`'s training table built by three nested loops, the
    result records, and the daily reports written from the `results`
    dictionary. The two scripts differ in how they number days (Julian day
    or days since March 1) and in the forecast-day range; both are
    parameters here. */
module Forecast {
  import opened Common
  import opened Text
  import opened Calendar
  import opened Groups
  import opened Report

  /** A row of the cleaned breakup table: site, year and breakup date. */
  datatype BreakupRow = BreakupRow(siteID: string, year: int, breakup: string)

  /** A row of the site table the main loop walks. */
  datatype Site = Site(siteID: string, river: string, locality: string, averageBreakup: string)

  /** One year of a site's history: the year and its breakup day. */
  datatype Breakup = Breakup(year: int, day: int)

  // ---------------------------------------------------------------------
  // A site's history: `breakup[breakup.siteID == location].sort_values(by='year')`

  predicate YearsAscending(h: seq<Breakup>)
  {
    forall i, j :: 0 <= i < j < |h| ==> h[i].year <= h[j].year
  }

  /** Insert `e` after every entry of its year or earlier. */
  function InsertByYear(h: seq<Breakup>, e: Breakup): seq<Breakup>
    decreases |h|
  {
    if h == [] then [e]
    else if e.year < h[0].year then [e] + h
    else [h[0]] + InsertByYear(h[1..], e)
  }

  function SortByYear(h: seq<Breakup>): seq<Breakup>
    decreases |h|
  {
    if h == [] then [] else InsertByYear(SortByYear(h[..|h| - 1]), h[|h| - 1])
  }

  lemma {:induction false} InsertByYearMembers(h: seq<Breakup>, e: Breakup)
    ensures multiset(InsertByYear(h, e)) == multiset(h) + multiset{e}
    ensures forall x :: x in InsertByYear(h, e) <==> x in h || x == e
    decreases |h|
  {
    if h != [] && e.year >= h[0].year {
      InsertByYearMembers(h[1..], e);
      assert h == [h[0]] + h[1..];
    }
  }

  lemma {:induction false} InsertByYearMeaning(h: seq<Breakup>, e: Breakup)
    requires YearsAscending(h)
    ensures YearsAscending(InsertByYear(h, e))
    ensures multiset(InsertByYear(h, e)) == multiset(h) + multiset{e}
    decreases |h|
  {
    InsertByYearMembers(h, e);
    if h != [] && e.year >= h[0].year {
      InsertByYearMeaning(h[1..], e);
      var t := InsertByYear(h[1..], e);
      InsertByYearMembers(h[1..], e);
      forall j | 0 <= j < |t| ensures h[0].year <= t[j].year {
        assert t[j] in t;
      }
    }
  }

  /** The history is in year order, and holds exactly the given entries. */
  lemma {:induction false} SortByYearMeaning(h: seq<Breakup>)
    ensures YearsAscending(SortByYear(h))
    ensures multiset(SortByYear(h)) == multiset(h)
    decreases |h|
  {
    if h != [] {
      SortByYearMeaning(h[..|h| - 1]);
      InsertByYearMeaning(SortByYear(h[..|h| - 1]), h[|h| - 1]);
      assert h == h[..|h| - 1] + [h[|h| - 1]];
    }
  }

  /** The rows of one site, with their breakup days, in table order. */
  function SiteEntries(rows: seq<(BreakupRow, int)>, siteID: string): seq<Breakup>
    decreases |rows|
  {
    if rows == [] then []
    else
      var (row, day) := rows[|rows| - 1];
      SiteEntries(rows[..|rows| - 1], siteID) + (if row.siteID == siteID then [Breakup(row.year, day)] else [])
  }

  /** `breakupDF.apply(lambda row: toDay(row.breakup), axis=1)` on a table
      with rows: every row's breakup date converted, or the first exception. */
  function Converted(rows: seq<BreakupRow>, toDay: string -> Result<int>): Result<seq<(BreakupRow, int)>>
    decreases |rows|
  {
    if rows == [] then Ok([])
    else
      var before :- Converted(rows[..|rows| - 1], toDay);
      var d :- toDay(rows[|rows| - 1].breakup);
      Ok(before + [(rows[|rows| - 1], d)])
  }

  /** `breakupDF[<day column>] = breakupDF.apply(...)`. On a table with no
      rows pandas probes the lambda, swallows its exception and returns a
      copy of the whole frame, which cannot be assigned to one column. */
  function DayColumn(rows: seq<BreakupRow>, toDay: string -> Result<int>): Result<seq<(BreakupRow, int)>>
  {
    if rows == [] then Err(ValueError(MultiColumnAssign)) else Converted(rows, toDay)
  }

  lemma {:induction false} ConvertedMeaning(rows: seq<BreakupRow>, toDay: string -> Result<int>)
    ensures Converted(rows, toDay).Ok? <==> forall k :: 0 <= k < |rows| ==> toDay(rows[k].breakup).Ok?
    ensures Converted(rows, toDay).Ok? ==>
              |Converted(rows, toDay).value| == |rows| &&
              forall k :: 0 <= k < |rows| ==> Converted(rows, toDay).value[k] == (rows[k], toDay(rows[k].breakup).value)
    decreases |rows|
  {
    if rows != [] {
      var init := rows[..|rows| - 1];
      ConvertedMeaning(init, toDay);
      assert forall k :: 0 <= k < |init| ==> init[k] == rows[k];
    }
  }

  /** The column exists exactly when the table has rows and every date
      converts, and then pairs each row with its converted date; an empty
      table is a ValueError. */
  lemma DayColumnMeaning(rows: seq<BreakupRow>, toDay: string -> Result<int>)
    ensures rows == [] ==> DayColumn(rows, toDay) == Err(ValueError(MultiColumnAssign))
    ensures DayColumn(rows, toDay).Ok? <==> rows != [] && forall k :: 0 <= k < |rows| ==> toDay(rows[k].breakup).Ok?
    ensures DayColumn(rows, toDay).Ok? ==>
              |DayColumn(rows, toDay).value| == |rows| &&
              forall k :: 0 <= k < |rows| ==> DayColumn(rows, toDay).value[k] == (rows[k], toDay(rows[k].breakup).value)
  {
    ConvertedMeaning(rows, toDay);
  }

  /** `f"{prefix}_combined_{location.replace(' ', '_')}.csv"` with the DD25 prefix. */
  function CombinedName(location: string): string
  {
    "DD25_combined_" + ReplaceAll(location, " ", "_") + ".csv"
  }

  /** The location appears in the file name with each space turned into an
      underscore and nothing else changed. */
  lemma CombinedNameMeaning(location: string)
    ensures |CombinedName(location)| == |location| + 18
    ensures CombinedName(location)[..14] == "DD25_combined_"
    ensures CombinedName(location)[14 + |location|..] == ".csv"
    ensures forall i :: 0 <= i < |location| ==>
              CombinedName(location)[14 + i] == if location[i] == ' ' then '_' else location[i]
  {
    ReplaceChar(location, ' ', '_');
  }

  function SiteHistory(rows: seq<(BreakupRow, int)>, siteID: string): seq<Breakup>
  {
    SortByYear(SiteEntries(rows, siteID))
  }

  // ---------------------------------------------------------------------
  // make_likelihood_DF

  /** One record of the training table: forecast day, year (as a column
      label), lead time to that year's breakup, the degree days of that year
      on the forecast day, and the absolute breakup day. */
  datatype LikelihoodRow = LikelihoodRow(forecastDay: int, year: string, daysFromThen: int, meanDd: Cell, absoluteDay: int)

  /** `sorted(list(set(...)))` of the breakup days. */
  function PossibleDays(h: seq<Breakup>): seq<int>
  {
    SortedUniqueInts(seq(|h|, i requires 0 <= i < |h| => h[i].day))
  }

  /** `breakup[breakup.day == d].year.astype(str).to_list()`. */
  function YearsOn(h: seq<Breakup>, d: int): seq<string>
    decreases |h|
  {
    if h == [] then []
    else YearsOn(h[..|h| - 1], d) + (if h[|h| - 1].day == d then [IntToString(h[|h| - 1].year)] else [])
  }

  /** The cell `mean_station[year][day]`, NaN where the lookup fails. */
  function CellAt(station: Table<string>, year: string, day: int): Cell
  {
    var c := station.LabelCell(year, day);
    if c.Ok? then c.value else NaN
  }

  /** The record for forecast day `f` and a year that broke up on day `d`. */
  function Row(f: int, year: string, d: int, station: Table<string>): LikelihoodRow
  {
    LikelihoodRow(f, year, d - f, CellAt(station, year, f), f + (d - f))
  }

  /** The innermost loop: one record per year that broke up on `d`. */
  function ItemRows(f: int, d: int, years: seq<string>, station: Table<string>): Result<seq<LikelihoodRow>>
    decreases |years|
  {
    if years == [] then Ok([])
    else
      var before :- ItemRows(f, d, years[..|years| - 1], station);
      var dd :- station.LabelCell(years[|years| - 1], f);
      Ok(before + [LikelihoodRow(f, years[|years| - 1], d - f, dd, f + (d - f))])
  }

  /** The middle loop over the possible breakup days. */
  function DayRows(f: int, days: seq<int>, h: seq<Breakup>, station: Table<string>): Result<seq<LikelihoodRow>>
    decreases |days|
  {
    if days == [] then Ok([])
    else
      var before :- DayRows(f, days[..|days| - 1], h, station);
      var more :- ItemRows(f, days[|days| - 1], YearsOn(h, days[|days| - 1]), station);
      Ok(before + more)
  }

  /** The outer loop over the forecast days `lo .. f - 1`. */
  function RowsBefore(lo: int, f: int, days: seq<int>, h: seq<Breakup>, station: Table<string>): Result<seq<LikelihoodRow>>
    decreases f - lo
  {
    if f <= lo then Ok([])
    else
      var before :- RowsBefore(lo, f - 1, days, h, station);
      var more :- DayRows(f - 1, days, h, station);
      Ok(before + more)
  }

  /** The training table over forecast days `lo .. hi - 1`; an empty table
      has no `column` to add the absolute day to (KeyError). */
  function Likelihood(h: seq<Breakup>, station: Table<string>, lo: int, hi: int, column: string): Result<seq<LikelihoodRow>>
  {
    var rows :- RowsBefore(lo, hi, PossibleDays(h), h, station);
    if rows == [] then Err(KeyError(column)) else Ok(rows)
  }

  // What the training table holds.

  /** Some year of the history broke up on day `d`, and `y` is its label. */
  ghost predicate BrokeUpOn(h: seq<Breakup>, y: string, d: int)
  {
    exists i :: 0 <= i < |h| && h[i].day == d && IntToString(h[i].year) == y
  }

  lemma {:induction false} YearsOnMeaning(h: seq<Breakup>, d: int)
    ensures forall y :: y in YearsOn(h, d) <==> BrokeUpOn(h, y, d)
    decreases |h|
  {
    if h != [] {
      var init := h[..|h| - 1];
      YearsOnMeaning(init, d);
      forall y ensures BrokeUpOn(h, y, d) <==> BrokeUpOn(init, y, d) || (h[|h| - 1].day == d && IntToString(h[|h| - 1].year) == y) {
        if BrokeUpOn(h, y, d) {
          var i :| 0 <= i < |h| && h[i].day == d && IntToString(h[i].year) == y;
          if i < |init| {
            assert init[i] == h[i];
          }
        }
        if BrokeUpOn(init, y, d) {
          var i :| 0 <= i < |init| && init[i].day == d && IntToString(init[i].year) == y;
          assert h[i] == init[i];
        }
      }
    }
  }

  lemma {:induction false} PossibleDaysMeaning(h: seq<Breakup>)
    ensures Increasing(PossibleDays(h))
    ensures forall d :: d in PossibleDays(h) <==> exists i :: 0 <= i < |h| && h[i].day == d
  {
    var days := seq(|h|, i requires 0 <= i < |h| => h[i].day);
    forall d ensures d in days <==> exists i :: 0 <= i < |h| && h[i].day == d {
      if exists i :: 0 <= i < |h| && h[i].day == d {
        var i :| 0 <= i < |h| && h[i].day == d;
        assert days[i] == d;
      }
    }
  }

  lemma {:induction false} ItemRowsMeaning(f: int, d: int, years: seq<string>, station: Table<string>)
    ensures ItemRows(f, d, years, station).Ok? <==> forall y :: y in years ==> station.LabelCell(y, f).Ok?
    ensures ItemRows(f, d, years, station).Ok? ==>
              |ItemRows(f, d, years, station).value| == |years| &&
              forall k :: 0 <= k < |years| ==> ItemRows(f, d, years, station).value[k] == Row(f, years[k], d, station)
    decreases |years|
  {
    if years != [] {
      var init := years[..|years| - 1];
      var last := years[|years| - 1];
      assert years == init + [last];
      ItemRowsMeaning(f, d, init, station);
      var r := ItemRows(f, d, years, station);
      if r.Ok? {
        assert r.value == ItemRows(f, d, init, station).value + [Row(f, last, d, station)];
      }
    }
  }

  /** A record of forecast day `f` for one of `days`: it is the record of a
      year that broke up on that day. */
  predicate RowFor(f: int, days: seq<int>, h: seq<Breakup>, station: Table<string>, r: LikelihoodRow)
  {
    r.forecastDay == f && r.absoluteDay in days && r.year in YearsOn(h, r.absoluteDay) &&
    r == Row(f, r.year, r.absoluteDay, station)
  }

  /** Every degree-day lookup of forecast day `f` for `days` succeeds. */
  ghost predicate LookupsOk(f: int, days: seq<int>, h: seq<Breakup>, station: Table<string>)
  {
    forall d, y :: d in days && y in YearsOn(h, d) ==> station.LabelCell(y, f).Ok?
  }

  /** `rows` holds the record of forecast day `f` of every year that broke
      up on one of `days`. */
  ghost predicate Complete(f: int, days: seq<int>, h: seq<Breakup>, station: Table<string>, rows: seq<LikelihoodRow>)
  {
    forall d, y :: d in days && y in YearsOn(h, d) ==> Row(f, y, d, station) in rows
  }

  lemma {:induction false} DayRowsSucceed(f: int, days: seq<int>, h: seq<Breakup>, station: Table<string>)
    ensures DayRows(f, days, h, station).Ok? <==> LookupsOk(f, days, h, station)
    decreases |days|
  {
    if days != [] {
      var init := days[..|days| - 1];
      var last := days[|days| - 1];
      var ys := YearsOn(h, last);
      assert days == init + [last];
      DayRowsSucceed(f, init, h, station);
      ItemRowsMeaning(f, last, ys, station);
      if LookupsOk(f, init, h, station) && forall y :: y in ys ==> station.LabelCell(y, f).Ok? {
        forall d, y | d in days && y in YearsOn(h, d) ensures station.LabelCell(y, f).Ok? {
          if d !in init {
            assert d == last;
          }
        }
      }
      if LookupsOk(f, days, h, station) {
        forall d, y | d in init && y in YearsOn(h, d) ensures station.LabelCell(y, f).Ok? {
          assert d in days;
        }
        assert last in days;
      }
    }
  }

  lemma CompleteGrows(f: int, days: seq<int>, h: seq<Breakup>, station: Table<string>, a: seq<LikelihoodRow>, b: seq<LikelihoodRow>)
    requires Complete(f, days, h, station, a)
    ensures Complete(f, days, h, station, a + b) && Complete(f, days, h, station, b + a)
  {
  }

  lemma {:induction false} DayRowsContents(f: int, days: seq<int>, h: seq<Breakup>, station: Table<string>)
    requires DayRows(f, days, h, station).Ok?
    ensures forall r :: r in DayRows(f, days, h, station).value ==> RowFor(f, days, h, station, r)
    ensures Complete(f, days, h, station, DayRows(f, days, h, station).value)
    decreases |days|
  {
    if days != [] {
      var init := days[..|days| - 1];
      var last := days[|days| - 1];
      assert days == init + [last];
      DayRowsContents(f, init, h, station);
      var ys := YearsOn(h, last);
      ItemRowsMeaning(f, last, ys, station);
      var before := DayRows(f, init, h, station).value;
      var more := ItemRows(f, last, ys, station).value;
      assert DayRows(f, days, h, station).value == before + more;
      forall d, y | d in days && y in YearsOn(h, d) ensures Row(f, y, d, station) in before + more {
        if d in init {
          assert Row(f, y, d, station) in before;
        } else {
          assert d == last;
          var k :| 0 <= k < |ys| && ys[k] == y;
          assert more[k] == Row(f, y, last, station);
        }
      }
      forall r | r in more ensures RowFor(f, days, h, station, r) {
        var k :| 0 <= k < |more| && more[k] == r;
        assert r == Row(f, ys[k], last, station);
      }
      forall r | r in before ensures RowFor(f, days, h, station, r) {
        assert RowFor(f, init, h, station, r);
      }
    }
  }

  lemma {:induction false} RowsBeforeSucceed(lo: int, f: int, days: seq<int>, h: seq<Breakup>, station: Table<string>)
    ensures RowsBefore(lo, f, days, h, station).Ok? <==> forall g :: lo <= g < f ==> LookupsOk(g, days, h, station)
    decreases f - lo
  {
    if f > lo {
      RowsBeforeSucceed(lo, f - 1, days, h, station);
      DayRowsSucceed(f - 1, days, h, station);
    }
  }

  lemma {:induction false} RowsBeforeContents(lo: int, f: int, days: seq<int>, h: seq<Breakup>, station: Table<string>)
    requires RowsBefore(lo, f, days, h, station).Ok?
    ensures forall r :: r in RowsBefore(lo, f, days, h, station).value ==>
              lo <= r.forecastDay < f && RowFor(r.forecastDay, days, h, station, r)
    ensures forall g :: lo <= g < f ==> Complete(g, days, h, station, RowsBefore(lo, f, days, h, station).value)
    decreases f - lo
  {
    if f > lo {
      RowsBeforeContents(lo, f - 1, days, h, station);
      DayRowsContents(f - 1, days, h, station);
      var before := RowsBefore(lo, f - 1, days, h, station).value;
      var more := DayRows(f - 1, days, h, station).value;
      forall g | lo <= g < f ensures Complete(g, days, h, station, before + more) {
        if g < f - 1 {
          CompleteGrows(g, days, h, station, before, more);
        } else {
          CompleteGrows(g, days, h, station, more, before);
        }
      }
    }
  }

  /** Every breakup day of the history is one of `days`. */
  predicate CoversHistory(days: seq<int>, h: seq<Breakup>)
  {
    forall i :: 0 <= i < |h| ==> h[i].day in days
  }

  lemma PossibleDaysCover(h: seq<Breakup>)
    ensures CoversHistory(PossibleDays(h), h)
  {
    PossibleDaysMeaning(h);
  }

  /** A year of the history is among the years that broke up on its day. */
  lemma InHistory(h: seq<Breakup>, i: int)
    requires 0 <= i < |h|
    ensures IntToString(h[i].year) in YearsOn(h, h[i].day)
  {
    YearsOnMeaning(h, h[i].day);
  }

  /** The lookups of forecast day `g` for such days are those of the
      history's years. */
  lemma HistoryLookups(g: int, days: seq<int>, h: seq<Breakup>, station: Table<string>)
    requires CoversHistory(days, h)
    ensures LookupsOk(g, days, h, station) <==>
              forall i :: 0 <= i < |h| ==> station.LabelCell(IntToString(h[i].year), g).Ok?
  {
    forall i | 0 <= i < |h| ensures IntToString(h[i].year) in YearsOn(h, h[i].day) {
      InHistory(h, i);
    }
    if forall i :: 0 <= i < |h| ==> station.LabelCell(IntToString(h[i].year), g).Ok? {
      forall d, y | d in days && y in YearsOn(h, d) ensures station.LabelCell(y, g).Ok? {
        YearsOnMeaning(h, d);
      }
    }
  }

  /** A complete set of records of forecast day `g` holds the record of
      every year of the history. */
  lemma HistoryComplete(g: int, days: seq<int>, h: seq<Breakup>, station: Table<string>, rows: seq<LikelihoodRow>)
    requires CoversHistory(days, h) && Complete(g, days, h, station, rows)
    ensures forall i :: 0 <= i < |h| ==> Row(g, IntToString(h[i].year), h[i].day, station) in rows
  {
    forall i | 0 <= i < |h| ensures Row(g, IntToString(h[i].year), h[i].day, station) in rows {
      InHistory(h, i);
      assert h[i].day in days;
    }
  }

  /** The three nested loops succeed exactly when every lookup for a
      forecast day `lo <= g < hi` and a year of the history succeeds. */
  lemma TableSucceeds(lo: int, hi: int, days: seq<int>, h: seq<Breakup>, station: Table<string>)
    requires CoversHistory(days, h)
    ensures RowsBefore(lo, hi, days, h, station).Ok? <==>
              forall g, i :: lo <= g < hi && 0 <= i < |h| ==> station.LabelCell(IntToString(h[i].year), g).Ok?
  {
    RowsBeforeSucceed(lo, hi, days, h, station);
    if RowsBefore(lo, hi, days, h, station).Ok? {
      forall g, i | lo <= g < hi && 0 <= i < |h| ensures station.LabelCell(IntToString(h[i].year), g).Ok? {
        assert LookupsOk(g, days, h, station);
        HistoryLookups(g, days, h, station);
      }
    } else if forall g, i :: lo <= g < hi && 0 <= i < |h| ==> station.LabelCell(IntToString(h[i].year), g).Ok? {
      forall g | lo <= g < hi ensures LookupsOk(g, days, h, station) {
        HistoryLookups(g, days, h, station);
      }
    }
  }

  /** Their table is empty exactly when the history or the range of
      forecast days is. */
  lemma TableNonEmpty(lo: int, hi: int, days: seq<int>, h: seq<Breakup>, station: Table<string>)
    requires CoversHistory(days, h) && RowsBefore(lo, hi, days, h, station).Ok?
    ensures RowsBefore(lo, hi, days, h, station).value != [] <==> h != [] && lo < hi
  {
    var rows := RowsBefore(lo, hi, days, h, station).value;
    RowsBeforeContents(lo, hi, days, h, station);
    if h != [] && lo < hi {
      assert Complete(lo, days, h, station, rows);
      HistoryComplete(lo, days, h, station, rows);
      assert Row(lo, IntToString(h[0].year), h[0].day, station) in rows;
    }
    if rows != [] {
      var r := rows[0];
      assert r in rows;
      assert lo <= r.forecastDay < hi && RowFor(r.forecastDay, days, h, station, r);
      YearsOnMeaning(h, r.absoluteDay);
      assert BrokeUpOn(h, r.year, r.absoluteDay);
      var i :| 0 <= i < |h| && h[i].day == r.absoluteDay && IntToString(h[i].year) == r.year;
    }
  }

  /** The training table is built exactly when the history and the range
      of forecast days are not empty and every degree-day lookup
      `mean_station[year][day]` it makes succeeds. */
  lemma LikelihoodSucceeds(h: seq<Breakup>, station: Table<string>, lo: int, hi: int, column: string)
    ensures Likelihood(h, station, lo, hi, column).Ok? <==>
              h != [] && lo < hi &&
              forall g, i :: lo <= g < hi && 0 <= i < |h| ==> station.LabelCell(IntToString(h[i].year), g).Ok?
  {
    var P := PossibleDays(h);
    PossibleDaysCover(h);
    TableSucceeds(lo, hi, P, h, station);
    if RowsBefore(lo, hi, P, h, station).Ok? {
      TableNonEmpty(lo, hi, P, h, station);
    }
  }

  /** Every record of a table built from such days is the record, seen
      from a forecast day `lo <= g < hi`, of a year of the history. */
  lemma TableSound(lo: int, hi: int, days: seq<int>, h: seq<Breakup>, station: Table<string>)
    requires RowsBefore(lo, hi, days, h, station).Ok?
    ensures forall r :: r in RowsBefore(lo, hi, days, h, station).value ==>
              lo <= r.forecastDay < hi && BrokeUpOn(h, r.year, r.absoluteDay) &&
              r.daysFromThen == r.absoluteDay - r.forecastDay &&
              station.LabelCell(r.year, r.forecastDay) == Ok(r.meanDd)
  {
    RowsBeforeContents(lo, hi, days, h, station);
    RowsBeforeSucceed(lo, hi, days, h, station);
    var rows := RowsBefore(lo, hi, days, h, station).value;
    forall r | r in rows
      ensures BrokeUpOn(h, r.year, r.absoluteDay) && station.LabelCell(r.year, r.forecastDay) == Ok(r.meanDd)
    {
      assert RowFor(r.forecastDay, days, h, station, r);
      YearsOnMeaning(h, r.absoluteDay);
      assert LookupsOk(r.forecastDay, days, h, station);
    }
  }

  /** And every (forecast day, year) pair has its record. */
  lemma TableComplete(lo: int, hi: int, days: seq<int>, h: seq<Breakup>, station: Table<string>)
    requires CoversHistory(days, h) && RowsBefore(lo, hi, days, h, station).Ok?
    ensures forall g, i :: lo <= g < hi && 0 <= i < |h| ==>
              Row(g, IntToString(h[i].year), h[i].day, station) in RowsBefore(lo, hi, days, h, station).value
  {
    RowsBeforeContents(lo, hi, days, h, station);
    var rows := RowsBefore(lo, hi, days, h, station).value;
    forall g, i | lo <= g < hi && 0 <= i < |h| ensures Row(g, IntToString(h[i].year), h[i].day, station) in rows {
      assert Complete(g, days, h, station, rows);
      HistoryComplete(g, days, h, station, rows);
    }
  }

  /** Every record of the training table is the record, seen from a
      forecast day `lo <= g < hi`, of a year of the history: its lead time
      is that year's breakup day minus `g`, its absolute day is the breakup
      day, and its degree days are that year's on day `g`. And every
      (forecast day, year) pair has its record. */
  lemma LikelihoodContents(h: seq<Breakup>, station: Table<string>, lo: int, hi: int, column: string)
    requires Likelihood(h, station, lo, hi, column).Ok?
    ensures forall r :: r in Likelihood(h, station, lo, hi, column).value ==>
              lo <= r.forecastDay < hi && BrokeUpOn(h, r.year, r.absoluteDay) &&
              r.daysFromThen == r.absoluteDay - r.forecastDay &&
              station.LabelCell(r.year, r.forecastDay) == Ok(r.meanDd)
    ensures forall g, i :: lo <= g < hi && 0 <= i < |h| ==>
              Row(g, IntToString(h[i].year), h[i].day, station) in Likelihood(h, station, lo, hi, column).value
  {
    PossibleDaysCover(h);
    TableSound(lo, hi, PossibleDays(h), h, station);
    TableComplete(lo, hi, PossibleDays(h), h, station);
  }

  // Once a loop level fails, the whole level fails with the same error.

  lemma {:induction false} ItemRowsSticky(f: int, d: int, years: seq<string>, station: Table<string>, k: nat)
    requires k <= |years| && ItemRows(f, d, years[..k], station).Err?
    ensures ItemRows(f, d, years, station) == ItemRows(f, d, years[..k], station)
    decreases |years| - k
  {
    if k < |years| {
      assert years[..k + 1][..k] == years[..k];
      ItemRowsSticky(f, d, years, station, k + 1);
    } else {
      assert years[..k] == years;
    }
  }

  lemma {:induction false} DayRowsSticky(f: int, days: seq<int>, h: seq<Breakup>, station: Table<string>, k: nat)
    requires k <= |days| && DayRows(f, days[..k], h, station).Err?
    ensures DayRows(f, days, h, station) == DayRows(f, days[..k], h, station)
    decreases |days| - k
  {
    if k < |days| {
      assert days[..k + 1][..k] == days[..k];
      DayRowsSticky(f, days, h, station, k + 1);
    } else {
      assert days[..k] == days;
    }
  }

  lemma {:induction false} RowsBeforeSticky(lo: int, f: int, hi: int, days: seq<int>, h: seq<Breakup>, station: Table<string>)
    requires lo <= f <= hi && RowsBefore(lo, f, days, h, station).Err?
    ensures RowsBefore(lo, hi, days, h, station) == RowsBefore(lo, f, days, h, station)
    decreases hi - f
  {
    if f < hi {
      RowsBeforeSticky(lo, f + 1, hi, days, h, station);
    }
  }

  lemma RowsBeforeStep(lo: int, f: int, days: seq<int>, h: seq<Breakup>, station: Table<string>)
    requires lo <= f && RowsBefore(lo, f, days, h, station).Ok?
    ensures DayRows(f, days, h, station).Err? ==>
              RowsBefore(lo, f + 1, days, h, station) == Err(DayRows(f, days, h, station).error)
    ensures DayRows(f, days, h, station).Ok? ==>
              RowsBefore(lo, f + 1, days, h, station) ==
              Ok(RowsBefore(lo, f, days, h, station).value + DayRows(f, days, h, station).value)
  {
  }

  // The three loops, as the script runs them.

  method ItemRowsOf(f: int, d: int, years: seq<string>, station: Table<string>) returns (r: Result<seq<LikelihoodRow>>)
    ensures r == ItemRows(f, d, years, station)
  {
    var acc: seq<LikelihoodRow> := [];
    for k := 0 to |years|
      invariant ItemRows(f, d, years[..k], station) == Ok(acc)
    {
      assert years[..k + 1][..k] == years[..k];
      var dd := station.LabelCell(years[k], f);
      if dd.Err? {
        ItemRowsSticky(f, d, years, station, k + 1);
        return Err(dd.error);
      }
      acc := acc + [LikelihoodRow(f, years[k], d - f, dd.value, f + (d - f))];
    }
    assert years[..|years|] == years;
    return Ok(acc);
  }

  method DayRowsOf(f: int, days: seq<int>, h: seq<Breakup>, station: Table<string>) returns (r: Result<seq<LikelihoodRow>>)
    ensures r == DayRows(f, days, h, station)
  {
    var acc: seq<LikelihoodRow> := [];
    for k := 0 to |days|
      invariant DayRows(f, days[..k], h, station) == Ok(acc)
    {
      assert days[..k + 1][..k] == days[..k];
      var more := ItemRowsOf(f, days[k], YearsOn(h, days[k]), station);
      if more.Err? {
        DayRowsSticky(f, days, h, station, k + 1);
        return Err(more.error);
      }
      acc := acc + more.value;
    }
    assert days[..|days|] == days;
    return Ok(acc);
  }

  /** The outer loop of `make_likelihood_DF`, over forecast days `lo .. hi - 1`. */
  method RowsBeforeOf(lo: int, hi: int, days: seq<int>, h: seq<Breakup>, station: Table<string>) returns (r: Result<seq<LikelihoodRow>>)
    requires lo <= hi
    ensures r == RowsBefore(lo, hi, days, h, station)
  {
    var records: seq<LikelihoodRow> := [];
    for f := lo to hi
      invariant RowsBefore(lo, f, days, h, station) == Ok(records)
    {
      var more := DayRowsOf(f, days, h, station);
      RowsBeforeStep(lo, f, days, h, station);
      if more.Err? {
        RowsBeforeSticky(lo, f + 1, hi, days, h, station);
        return Err(more.error);
      }
      records := records + more.value;
    }
    return Ok(records);
  }

  /** `make_likelihood_DF` over forecast days `lo .. hi - 1`. */
  method MakeLikelihood(h: seq<Breakup>, station: Table<string>, lo: int, hi: int, column: string)
    returns (r: Result<seq<LikelihoodRow>>)
    ensures r == Likelihood(h, station, lo, hi, column)
  {
    if hi <= lo {
      return Err(KeyError(column));
    }
    var records := RowsBeforeOf(lo, hi, PossibleDays(h), h, station);
    if records.Err? {
      return Err(records.error);
    }
    if records.value == [] {
      return Err(KeyError(column));
    }
    return records;
  }

  // ---------------------------------------------------------------------
  // The training set of one forecast day

  /** `likelihoodDF[likelihoodDF.<forecast day column> == g]`, in table order. */
  function OnDay(rows: seq<LikelihoodRow>, g: int): seq<LikelihoodRow>
    decreases |rows|
  {
    if rows == [] then []
    else OnDay(rows[..|rows| - 1], g) + (if rows[|rows| - 1].forecastDay == g then [rows[|rows| - 1]] else [])
  }

  lemma {:induction false} OnDayAppend(a: seq<LikelihoodRow>, b: seq<LikelihoodRow>, g: int)
    ensures OnDay(a + b, g) == OnDay(a, g) + OnDay(b, g)
    decreases |b|
  {
    if b != [] {
      assert (a + b)[..|a + b| - 1] == a + b[..|b| - 1];
      assert (a + b)[|a + b| - 1] == b[|b| - 1];
      OnDayAppend(a, b[..|b| - 1], g);
    } else {
      assert a + b == a;
    }
  }

  /** Selecting a day keeps the records of that day and drops the others. */
  lemma {:induction false} OnDaySingle(rows: seq<LikelihoodRow>, f: int, g: int)
    requires forall r :: r in rows ==> r.forecastDay == f
    ensures OnDay(rows, g) == if f == g then rows else []
    decreases |rows|
  {
    if rows != [] {
      assert rows[|rows| - 1] in rows;
      assert rows == rows[..|rows| - 1] + [rows[|rows| - 1]];
      OnDaySingle(rows[..|rows| - 1], f, g);
    }
  }

  /** The records of forecast day `g` in the table the outer loop builds
      are the records its middle loop made for `g`. */
  lemma {:induction false} RowsBeforeOnDay(lo: int, hi: int, days: seq<int>, h: seq<Breakup>, station: Table<string>, g: int)
    requires RowsBefore(lo, hi, days, h, station).Ok?
    ensures lo <= g < hi ==>
              DayRows(g, days, h, station).Ok? &&
              OnDay(RowsBefore(lo, hi, days, h, station).value, g) == DayRows(g, days, h, station).value
    ensures !(lo <= g < hi) ==> OnDay(RowsBefore(lo, hi, days, h, station).value, g) == []
    decreases hi - lo
  {
    if hi > lo {
      RowsBeforeOnDay(lo, hi - 1, days, h, station, g);
      var more := DayRows(hi - 1, days, h, station).value;
      DayRowsContents(hi - 1, days, h, station);
      OnDaySingle(more, hi - 1, g);
      OnDayAppend(RowsBefore(lo, hi - 1, days, h, station).value, more, g);
    }
  }

  /** Occurrences of `x` in `s`. */
  function Occurrences(s: seq<int>, x: int): nat
    decreases |s|
  {
    if s == [] then 0 else Occurrences(s[..|s| - 1], x) + (if s[|s| - 1] == x then 1 else 0)
  }

  lemma {:induction false} OccursOnce(s: seq<int>, x: int)
    requires Increasing(s) && x in s
    ensures Occurrences(s, x) == 1
    decreases |s|
  {
    var init := s[..|s| - 1];
    assert Increasing(init);
    if s[|s| - 1] == x {
      OccursNever(init, x);
    } else {
      assert x in init by {
        var k :| 0 <= k < |s| && s[k] == x;
        assert init[k] == x;
      }
      OccursOnce(init, x);
    }
  }

  lemma {:induction false} OccursNever(s: seq<int>, x: int)
    requires Increasing(s) && forall y :: y in s ==> y < x
    ensures Occurrences(s, x) == 0
    decreases |s|
  {
    if s != [] {
      assert s[|s| - 1] in s;
      assert forall y :: y in s[..|s| - 1] ==> y in s;
      OccursNever(s[..|s| - 1], x);
    }
  }

  /** How many years the middle loop visits: those that broke up on each
      of `days`, added up. */
  function YearsVisited(h: seq<Breakup>, days: seq<int>): nat
    decreases |days|
  {
    if days == [] then 0 else YearsVisited(h, days[..|days| - 1]) + |YearsOn(h, days[|days| - 1])|
  }

  lemma {:induction false} DayRowsCount(f: int, days: seq<int>, h: seq<Breakup>, station: Table<string>)
    requires DayRows(f, days, h, station).Ok?
    ensures |DayRows(f, days, h, station).value| == YearsVisited(h, days)
    decreases |days|
  {
    if days != [] {
      DayRowsCount(f, days[..|days| - 1], h, station);
      ItemRowsMeaning(f, days[|days| - 1], YearsOn(h, days[|days| - 1]), station);
    }
  }

  lemma {:induction false} YearsVisitedSnoc(h: seq<Breakup>, e: Breakup, days: seq<int>)
    ensures YearsVisited(h + [e], days) == YearsVisited(h, days) + Occurrences(days, e.day)
    decreases |days|
  {
    if days != [] {
      YearsVisitedSnoc(h, e, days[..|days| - 1]);
      assert (h + [e])[..|h|] == h;
    }
  }

  /** Visiting each possible day once visits every year of the history once. */
  lemma {:induction false} YearsVisitedAll(h: seq<Breakup>, days: seq<int>)
    requires Increasing(days) && CoversHistory(days, h)
    ensures YearsVisited(h, days) == |h|
    decreases |h|
  {
    if h == [] {
      YearsVisitedNone(days);
    } else {
      var init := h[..|h| - 1];
      assert h == init + [h[|h| - 1]];
      YearsVisitedAll(init, days);
      YearsVisitedSnoc(init, h[|h| - 1], days);
      OccursOnce(days, h[|h| - 1].day);
    }
  }

  lemma {:induction false} YearsVisitedNone(days: seq<int>)
    ensures YearsVisited([], days) == 0
    decreases |days|
  {
    if days != [] {
      YearsVisitedNone(days[..|days| - 1]);
    }
  }

  /** The training set of each forecast day `lo <= g < hi` has one record
      per year of the site's history; other days have none. */
  lemma TrainingSetSize(h: seq<Breakup>, station: Table<string>, lo: int, hi: int, column: string, g: int)
    requires Likelihood(h, station, lo, hi, column).Ok?
    ensures |OnDay(Likelihood(h, station, lo, hi, column).value, g)| == if lo <= g < hi then |h| else 0
  {
    var P := PossibleDays(h);
    PossibleDaysCover(h);
    PossibleDaysMeaning(h);
    RowsBeforeOnDay(lo, hi, P, h, station, g);
    if lo <= g < hi {
      DayRowsCount(g, P, h, station);
      YearsVisitedAll(h, P);
    }
  }

  /** Every record of a day's training set is a record of that day. */
  lemma {:induction false} OnDayMembers(rows: seq<LikelihoodRow>, g: int)
    ensures forall r :: r in OnDay(rows, g) <==> r in rows && r.forecastDay == g
    decreases |rows|
  {
    if rows != [] {
      OnDayMembers(rows[..|rows| - 1], g);
      assert rows == rows[..|rows| - 1] + [rows[|rows| - 1]];
    }
  }

  /** `DF[['mean_DD']].values` paired with `DF[['days_from_then']].values`. */
  function Training(rows: seq<LikelihoodRow>): (t: seq<(Cell, int)>)
    ensures |t| == |rows|
  {
    seq(|rows|, k requires 0 <= k < |rows| => (rows[k].meanDd, rows[k].daysFromThen))
  }

  // ---------------------------------------------------------------------
  // Fitting and predicting, and the day loop

  /** What `fit` followed by `predict([[DDval]])` gives: `fit` raises a
      ValueError (an empty or NaN-holding training set), `predict` raises a
      ValueError (a NaN `DDval`), or the prediction `mu_0` comes back with
      the normalised density `pdf` over `xs`. */
  datatype Fit = FitRaises | PredictRaises | Predicted(mu: real, pdf: seq<real>)

  /** The regression, RMSE and Gaussian density, taken as given. */
  type Regression = (seq<(Cell, int)>, Cell) -> Fit

  /** One pass of the day loop: an exception (Err), the `break` (None), or a
      result record. */
  type Step = int -> Result<Option<ResultRecord>>

  /** `for ii in range(lo, hi)` with its `break`. */
  function DaysFrom(step: Step, lo: int, hi: int): Result<seq<ResultRecord>>
    decreases hi - lo
  {
    if hi <= lo then Ok([])
    else
      var s :- step(lo);
      if s.None? then Ok([])
      else
        var rest :- DaysFrom(step, lo + 1, hi);
        Ok([s.value] + rest)
  }

  /** A finished day loop made one record for each of the days `lo`,
      `lo + 1`, ... in turn, and stopped either at `hi` or at the first day
      whose prediction raised. */
  lemma {:induction false} DaysFromMeaning(step: Step, lo: int, hi: int)
    requires DaysFrom(step, lo, hi).Ok?
    ensures |DaysFrom(step, lo, hi).value| <= if lo <= hi then hi - lo else 0
    ensures forall k :: 0 <= k < |DaysFrom(step, lo, hi).value| ==> step(lo + k) == Ok(Some(DaysFrom(step, lo, hi).value[k]))
    ensures |DaysFrom(step, lo, hi).value| < hi - lo ==> step(lo + |DaysFrom(step, lo, hi).value|) == Ok(None)
    decreases hi - lo
  {
    if lo < hi && step(lo).Ok? && step(lo).value.Some? {
      DaysFromMeaning(step, lo + 1, hi);
      var rest := DaysFrom(step, lo + 1, hi).value;
      forall k | 0 <= k < 1 + |rest| ensures step(lo + k) == Ok(Some(([step(lo).value.value] + rest)[k])) {
        if k > 0 {
          assert step((lo + 1) + (k - 1)) == Ok(Some(rest[k - 1]));
        }
      }
      if 1 + |rest| < hi - lo {
        assert step((lo + 1) + |rest|) == Ok(None);
      }
    }
  }

  /** The `k`-th record of a finished day loop was made on day `lo + k`. */
  lemma DaysFromAt(step: Step, lo: int, hi: int, recs: seq<ResultRecord>, k: int)
    requires DaysFrom(step, lo, hi) == Ok(recs) && 0 <= k < |recs|
    ensures lo + k < hi && step(lo + k) == Ok(Some(recs[k]))
  {
    DaysFromMeaning(step, lo, hi);
  }

  /** A failed day loop hit an exception on some day after a run of days
      that each made a record. */
  lemma {:induction false} DaysFromFails(step: Step, lo: int, hi: int)
    requires DaysFrom(step, lo, hi).Err?
    ensures exists k :: lo <= k < hi && step(k) == Err(DaysFrom(step, lo, hi).error) &&
              forall j :: lo <= j < k ==> step(j).Ok? && step(j).value.Some?
    decreases hi - lo
  {
    if step(lo).Ok? {
      DaysFromFails(step, lo + 1, hi);
      var k :| lo + 1 <= k < hi && step(k) == Err(DaysFrom(step, lo + 1, hi).error) &&
               forall j :: lo + 1 <= j < k ==> step(j).Ok? && step(j).value.Some?;
      assert forall j :: lo <= j < k ==> step(j).Ok? && step(j).value.Some?;
    } else {
      assert step(lo) == Err(DaysFrom(step, lo, hi).error);
    }
  }

  /** The pairs `(record.forecastdate, record)` the loop files into `results`. */
  function Filed(recs: seq<ResultRecord>): (kvs: seq<(ValidDate, ResultRecord)>)
    ensures |kvs| == |recs|
    ensures forall k :: 0 <= k < |kvs| ==> kvs[k] == (recs[k].forecastDate, recs[k])
  {
    seq(|recs|, k requires 0 <= k < |recs| => (recs[k].forecastDate, recs[k]))
  }

  lemma FiledAppend(a: seq<ResultRecord>, b: seq<ResultRecord>)
    ensures Filed(a + b) == Filed(a) + Filed(b)
  {
    forall k | 0 <= k < |a + b| ensures Filed(a + b)[k] == (Filed(a) + Filed(b))[k] {
      if k < |a| {
        assert (a + b)[k] == a[k];
      } else {
        assert (a + b)[k] == b[k - |a|];
      }
    }
  }

  lemma FiledSnoc(before: seq<(ValidDate, ResultRecord)>, acc: seq<ResultRecord>, record: ResultRecord)
    ensures before + Filed(acc + [record]) == before + Filed(acc) + [(record.forecastDate, record)]
  {
    FiledAppend(acc, [record]);
    assert Filed([record]) == [(record.forecastDate, record)];
    assert before + (Filed(acc) + [(record.forecastDate, record)])
        == before + Filed(acc) + [(record.forecastDate, record)];
  }

  /** `acc` followed by the outcome `r` of the rest of a loop. */
  function Then(acc: seq<ResultRecord>, r: Result<seq<ResultRecord>>): Result<seq<ResultRecord>>
  {
    match r
    case Ok(v) => Ok(acc + v)
    case Err(e) => Err(e)
  }

  lemma DaysFromStep(step: Step, lo: int, ii: int, hi: int, acc: seq<ResultRecord>)
    requires ii < hi && step(ii).Ok? && step(ii).value.Some?
    ensures Then(acc, DaysFrom(step, ii, hi)) == Then(acc + [step(ii).value.value], DaysFrom(step, ii + 1, hi))
  {
    if DaysFrom(step, ii + 1, hi).Ok? {
      var rest := DaysFrom(step, ii + 1, hi).value;
      assert acc + ([step(ii).value.value] + rest) == (acc + [step(ii).value.value]) + rest;
    }
  }

  /** The loop stops here: what it has is its outcome. */
  lemma DaysFromStops(step: Step, lo: int, ii: int, hi: int, acc: seq<ResultRecord>)
    requires ii >= hi || (step(ii).Ok? && step(ii).value.None?)
    ensures Then(acc, DaysFrom(step, ii, hi)) == Ok(acc)
  {
    assert acc + [] == acc;
  }

  /** An exception here is the outcome of the whole loop. */
  lemma DaysFromRaises(step: Step, lo: int, ii: int, hi: int, acc: seq<ResultRecord>)
    requires ii < hi && step(ii).Err?
    ensures Then(acc, DaysFrom(step, ii, hi)) == Err(step(ii).error)
  {
  }

  /** `results[record.forecastdate].append(record)`, one more filed record. */
  method FileRecord(results: OrderedGroups<ValidDate, ResultRecord>, ghost before: seq<(ValidDate, ResultRecord)>,
                    acc: seq<ResultRecord>, record: ResultRecord)
    requires results.Valid() && results.added == before + Filed(acc)
    modifies results
    ensures results.Valid() && results.added == before + Filed(acc + [record])
  {
    results.Append(record.forecastDate, record);
    FiledSnoc(before, acc, record);
  }

  /** The day loop as the script runs it, filing each record under its
      forecast date as soon as it is made. */
  method RunDays(results: OrderedGroups<ValidDate, ResultRecord>, step: Step, lo: int, hi: int)
    returns (r: Result<seq<ResultRecord>>)
    requires results.Valid()
    modifies results
    ensures results.Valid()
    ensures r == DaysFrom(step, lo, hi)
    ensures r.Ok? ==> results.added == old(results.added) + Filed(r.value)
  {
    if hi <= lo {
      return Ok([]);
    }
    var acc: seq<ResultRecord> := [];
    assert Filed(acc) == [];
    if DaysFrom(step, lo, hi).Ok? {
      assert acc + DaysFrom(step, lo, hi).value == DaysFrom(step, lo, hi).value;
    }
    for ii := lo to hi
      invariant results.Valid()
      invariant DaysFrom(step, lo, hi) == Then(acc, DaysFrom(step, ii, hi))
      invariant results.added == old(results.added) + Filed(acc)
    {
      var s := step(ii);
      if s.Err? {
        DaysFromRaises(step, lo, ii, hi, acc);
        return Err(s.error);
      }
      if s.value.None? {
        DaysFromStops(step, lo, ii, hi, acc);
        return Ok(acc);
      }
      var record := s.value.value;
      DaysFromStep(step, lo, ii, hi, acc);
      FileRecord(results, old(results.added), acc, record);
      acc := acc + [record];
    }
    DaysFromStops(step, lo, hi, hi, acc);
    return Ok(acc);
  }
}
