/** The correlation study: `calculate_corr` in riverice_util.py pairs, for
    every breakup location, the breakup Julian days of the location's years
    with each weather station's degree-day anomalies and records Pearson's r,
    its p-value and r²; generate_TDDcorr.py keys those records by a
    candidate date "MM-DD" and flattens them into one table. Pearson's
    statistic and p-value are an uninterpreted function of the paired
    samples. */
module Correlation {
  import opened Common
  import opened Text
  import opened Calendar
  import Report

  // ---------------------------------------------------------------------
  // The breakup frame

  /** One row of the breakup frame: its site, its year and its numeric
      cells by column label (a label without an entry is NaN). */
  datatype Obs = Obs(siteID: string, year: int, cells: map<string, real>)

  /** `breakupDF`: the column labels in order, and the rows. */
  datatype BreakupFrame = BreakupFrame(columns: seq<string>, rows: seq<Obs>)

  const JulianDayColumn: string := "JulianDay"
  const NoLocation: string := "Sorry, the location isn't available " + "in the breakup dataset. Check spelling?"
  const NoStation: string := "Sorry, the station " + "isn't a valid name"

  /** `set(breakupDF.siteID)`. */
  function SiteIDs(t: BreakupFrame): set<string>
  {
    set o | o in t.rows :: o.siteID
  }

  function CellOf(o: Obs, c: string): Cell
  {
    if c in o.cells then Num(o.cells[c]) else NaN
  }

  /** `testDF[c]`: the cells of column `c`, row by row. */
  function Column(rows: seq<Obs>, c: string): (r: seq<Cell>)
    ensures |r| == |rows|
  {
    seq(|rows|, k requires 0 <= k < |rows| => CellOf(rows[k], c))
  }

  /** `breakupDF[breakupDF.siteID == location]`, in frame order. */
  function SiteRows(rows: seq<Obs>, site: string): (r: seq<Obs>)
    ensures forall o :: o in r <==> o in rows && o.siteID == site
    decreases |rows|
  {
    if rows == [] then []
    else
      var init := rows[..|rows| - 1];
      assert rows == init + [rows[|rows| - 1]];
      SiteRows(init, site) + (if rows[|rows| - 1].siteID == site then [rows[|rows| - 1]] else [])
  }

  predicate ByYear(s: seq<Obs>)
  {
    forall i, j :: 0 <= i < j < |s| ==> s[i].year <= s[j].year
  }

  /** Insert `o` after every row whose year is not later than its own. */
  function InsertByYear(s: seq<Obs>, o: Obs): (r: seq<Obs>)
    requires ByYear(s)
    ensures |r| == |s| + 1
    ensures r[0] == o || (s != [] && r[0] == s[0])
    ensures ByYear(r)
    decreases |s|
  {
    if s == [] then [o]
    else if o.year < s[0].year then [o] + s
    else [s[0]] + InsertByYear(s[1..], o)
  }

  /** `sort_values(by='year')`, rows of equal years kept in frame order. */
  function SortByYear(s: seq<Obs>): (r: seq<Obs>)
    ensures ByYear(r)
    decreases |s|
  {
    if s == [] then [] else InsertByYear(SortByYear(s[..|s| - 1]), s[|s| - 1])
  }

  lemma {:induction false} InsertByYearPermutes(s: seq<Obs>, o: Obs)
    requires ByYear(s)
    ensures multiset(InsertByYear(s, o)) == multiset(s) + multiset{o}
    decreases |s|
  {
    if s != [] && o.year >= s[0].year {
      InsertByYearPermutes(s[1..], o);
      assert s == [s[0]] + s[1..];
    }
  }

  /** The sort only reorders the rows. */
  lemma {:induction false} SortByYearPermutes(s: seq<Obs>)
    ensures multiset(SortByYear(s)) == multiset(s)
    decreases |s|
  {
    if s != [] {
      var init := s[..|s| - 1];
      var last := s[|s| - 1];
      var sorted := SortByYear(init);
      SortByYearPermutes(init);
      InsertByYearPermutes(sorted, last);
      assert SortByYear(s) == InsertByYear(sorted, last);
      MultisetSnoc(s);
    }
  }

  /** `testDF`: the location's rows, in year order. */
  function LocationRows(t: BreakupFrame, location: string): seq<Obs>
  {
    SortByYear(SiteRows(t.rows, location))
  }

  /** `testDF` holds exactly the location's rows, each as often as in the
      frame, sorted by year. */
  lemma LocationRowsMeaning(t: BreakupFrame, location: string)
    ensures ByYear(LocationRows(t, location))
    ensures multiset(LocationRows(t, location)) == multiset(SiteRows(t.rows, location))
    ensures forall o :: o in LocationRows(t, location) <==> o in t.rows && o.siteID == location
  {
    var s := SiteRows(t.rows, location);
    SortByYearPermutes(s);
    assert forall o :: o in LocationRows(t, location) <==> o in multiset(s);
  }

  // ---------------------------------------------------------------------
  // One correlation

  /** What scipy's `pearsonr` returns: the statistic and its p-value. */
  datatype PearsonResult = PearsonResult(statistic: Cell, pvalue: Cell)

  /** `pearsonr` on paired samples, left uninterpreted. */
  type Pearson = seq<(real, real)> -> PearsonResult

  /** The pairs `Series.corr` hands to its method: the rows in which both
      cells are numbers, in order. */
  function Paired(xs: seq<Cell>, ys: seq<Cell>): (r: seq<(real, real)>)
    requires |xs| == |ys|
    ensures |r| <= |xs|
    decreases |xs|
  {
    if xs == [] then []
    else
      var n := |xs| - 1;
      Paired(xs[..n], ys[..n]) + (if xs[n].Num? && ys[n].Num? then [(xs[n].v, ys[n].v)] else [])
  }

  /** With no NaN on either side, every row is paired, in order. */
  lemma {:induction false} PairedComplete(xs: seq<Cell>, ys: seq<Cell>)
    requires |xs| == |ys|
    requires forall k :: 0 <= k < |xs| ==> xs[k].Num? && ys[k].Num?
    ensures |Paired(xs, ys)| == |xs|
    ensures forall k :: 0 <= k < |xs| ==> Paired(xs, ys)[k] == (xs[k].v, ys[k].v)
    decreases |xs|
  {
    if xs != [] {
      var n := |xs| - 1;
      PairedComplete(xs[..n], ys[..n]);
    }
  }

  /** The station's cells against the breakup days, for one location. */
  function Samples(t: BreakupFrame, location: string, station: string): seq<(real, real)>
  {
    var rows := LocationRows(t, location);
    Paired(Column(rows, station), Column(rows, JulianDayColumn))
  }

  const TooShort: string := "x and y must have " + "length at least 2."

  /** One output record of `calculate_corr`. */
  datatype CorrRecord = CorrRecord(stationName: string, location: string, pvalue: Cell, rvalue: Cell, r2value: Cell)

  /** `testDF[station].corr(testDF['JulianDay'], method=pearsonr)` and the
      record made of it. A missing `JulianDay` column is a KeyError. With no
      complete pair `corr` returns NaN, whose `.pvalue` is an
      AttributeError; with one pair `pearsonr` raises a ValueError. */
  function CorrOf(t: BreakupFrame, location: string, station: string, pearson: Pearson): (r: Result<CorrRecord>)
    ensures JulianDayColumn !in t.columns ==> r == Err(KeyError(JulianDayColumn))
    ensures r.Ok? <==> JulianDayColumn in t.columns && |Samples(t, location, station)| >= 2
    ensures r.Err? ==> !r.error.Raised?
    ensures r.Ok? ==> r.value.stationName == station && r.value.location == location
    ensures r.Ok? ==> (r.value.rvalue == pearson(Samples(t, location, station)).statistic
                       && r.value.pvalue == pearson(Samples(t, location, station)).pvalue)
    ensures r.Ok? ==> r.value.r2value == r.value.rvalue.Squared()
  {
    if JulianDayColumn !in t.columns then Err(KeyError(JulianDayColumn))
    else
      var pairs := Samples(t, location, station);
      if |pairs| == 0 then Err(AttributeError("pvalue"))
      else if |pairs| == 1 then Err(ValueError(TooShort))
      else
        var result := pearson(pairs);
        Ok(CorrRecord(station, location, result.pvalue, result.statistic, result.statistic.Squared()))
  }

  // ---------------------------------------------------------------------
  // calculate_corr

  /** The correlation of a (location, station) pair, as the loops below
      see it. */
  type Correlate = (string, string) -> Result<CorrRecord>

  /** `CorrOf` on a fixed frame and statistic. */
  function CorrOn(t: BreakupFrame, pearson: Pearson): Correlate
  {
    (location, station) => CorrOf(t, location, station, pearson)
  }

  /** The records of one location, one per station, in station order. */
  function StationRecords(corr: Correlate, location: string, stations: seq<string>): (r: Result<seq<CorrRecord>>)
    decreases |stations|
  {
    if stations == [] then Ok([])
    else
      var before :- StationRecords(corr, location, stations[..|stations| - 1]);
      var rec :- corr(location, stations[|stations| - 1]);
      Ok(before + [rec])
  }

  /** The records of all locations, location by location. */
  function LocationRecords(corr: Correlate, locations: seq<string>, stations: seq<string>): (r: Result<seq<CorrRecord>>)
    decreases |locations|
  {
    if locations == [] then Ok([])
    else
      var before :- LocationRecords(corr, locations[..|locations| - 1], stations);
      var recs :- StationRecords(corr, locations[|locations| - 1], stations);
      Ok(before + recs)
  }

  /** The stations correlated: the ones given, or every column from the
      sixth on. */
  function StationNames(t: BreakupFrame, given: Option<seq<string>>): seq<string>
  {
    match given
    case Some(names) => names
    case None => Slice(t.columns, 5, |t.columns|)
  }

  predicate KnownLocations(t: BreakupFrame, locations: seq<string>)
  {
    forall l :: l in locations ==> l in SiteIDs(t)
  }

  predicate KnownStations(t: BreakupFrame, stations: seq<string>)
  {
    forall s :: s in stations ==> s in t.columns
  }

  /** What `calculate_corr(breakupDF, locations, stationnames=given)`
      returns or raises. The station test runs inside the location loop, so
      with no location it never runs. */
  function CorrRecords(t: BreakupFrame, locations: seq<string>, given: Option<seq<string>>, pearson: Pearson): (r: Result<seq<CorrRecord>>)
  {
    if !KnownLocations(t, locations) then Err(Raised(NoLocation))
    else if locations != [] && !KnownStations(t, StationNames(t, given)) then Err(Raised(NoStation))
    else LocationRecords(CorrOn(t, pearson), locations, StationNames(t, given))
  }

  /** Every record a correlation yields has `r2value == rvalue²` and the
      location it was asked for, and its failures are not the two `raise`s
      of `calculate_corr`. */
  ghost predicate WellFormedCorr(corr: Correlate)
  {
    forall l, s :: (corr(l, s).Ok? ==> (corr(l, s).value.r2value == corr(l, s).value.rvalue.Squared()
                                       && corr(l, s).value.location == l))
                && (corr(l, s).Err? ==> !corr(l, s).error.Raised?)
  }

  lemma CorrOnWellFormed(t: BreakupFrame, pearson: Pearson)
    ensures WellFormedCorr(CorrOn(t, pearson))
  {
  }

  lemma {:induction false} StationRecordsMeaning(corr: Correlate, location: string, stations: seq<string>)
    ensures StationRecords(corr, location, stations).Ok? <==>
              forall j :: 0 <= j < |stations| ==> corr(location, stations[j]).Ok?
    ensures StationRecords(corr, location, stations).Ok? ==>
              var v := StationRecords(corr, location, stations).value;
              |v| == |stations| &&
              forall j :: 0 <= j < |stations| ==> corr(location, stations[j]) == Ok(v[j])
    ensures StationRecords(corr, location, stations).Err? ==>
              exists j :: 0 <= j < |stations| &&
                corr(location, stations[j]) == Err(StationRecords(corr, location, stations).error)
    decreases |stations|
  {
    if stations != [] {
      var init := stations[..|stations| - 1];
      StationRecordsMeaning(corr, location, init);
      assert forall j :: 0 <= j < |init| ==> init[j] == stations[j];
    }
  }

  lemma {:induction false} LocationRecordsMeaning(corr: Correlate, locations: seq<string>, stations: seq<string>)
    ensures LocationRecords(corr, locations, stations).Ok? <==>
              forall i, j :: 0 <= i < |locations| && 0 <= j < |stations| ==> corr(locations[i], stations[j]).Ok?
    ensures LocationRecords(corr, locations, stations).Ok? ==>
              |LocationRecords(corr, locations, stations).value| == |locations| * |stations|
    ensures LocationRecords(corr, locations, stations).Err? ==>
              exists i, j :: 0 <= i < |locations| && 0 <= j < |stations| &&
                corr(locations[i], stations[j]) == Err(LocationRecords(corr, locations, stations).error)
    decreases |locations|
  {
    if locations != [] {
      var n := |locations| - 1;
      var init := locations[..n];
      LocationRecordsMeaning(corr, init, stations);
      StationRecordsMeaning(corr, locations[n], stations);
      assert forall i :: 0 <= i < n ==> init[i] == locations[i];
      if LocationRecords(corr, locations, stations).Ok? {
        assert n * |stations| + |stations| == (n + 1) * |stations|;
      }
    }
  }

  /** The record of location `i` and station `j` is record `i * |stations| + j`:
      one block of stations per location, in loop order. */
  lemma {:induction false} LocationRecordAt(corr: Correlate, locations: seq<string>, stations: seq<string>, i: nat, j: nat)
    requires LocationRecords(corr, locations, stations).Ok?
    requires i < |locations| && j < |stations|
    ensures i * |stations| + j < |LocationRecords(corr, locations, stations).value|
    ensures corr(locations[i], stations[j]) == Ok(LocationRecords(corr, locations, stations).value[i * |stations| + j])
    decreases |locations|
  {
    var n := |locations| - 1;
    var init := locations[..n];
    LocationRecordsMeaning(corr, init, stations);
    StationRecordsMeaning(corr, locations[n], stations);
    var before := LocationRecords(corr, init, stations).value;
    var recs := StationRecords(corr, locations[n], stations).value;
    assert LocationRecords(corr, locations, stations).value == before + recs;
    if i < n {
      LocationRecordAt(corr, init, stations, i, j);
      assert init[i] == locations[i];
    } else {
      assert i * |stations| + j == |before| + j;
    }
  }

  /** Every record comes from some (location, station) pair, so it keeps
      what the correlation promises of its records. */
  lemma {:induction false} LocationRecordsWellFormed(corr: Correlate, locations: seq<string>, stations: seq<string>)
    requires WellFormedCorr(corr) && LocationRecords(corr, locations, stations).Ok?
    ensures var v := LocationRecords(corr, locations, stations).value;
            forall k :: 0 <= k < |v| ==> v[k].r2value == v[k].rvalue.Squared() && v[k].location in locations
    decreases |locations|
  {
    if locations != [] {
      var n := |locations| - 1;
      var init := locations[..n];
      StationRecordsMeaning(corr, locations[n], stations);
      var recs := StationRecords(corr, locations[n], stations).value;
      var v := LocationRecords(corr, locations, stations).value;
      LocationRecordsWellFormed(corr, init, stations);
      var before := LocationRecords(corr, init, stations).value;
      assert v == before + recs;
      forall k | 0 <= k < |v| ensures v[k].r2value == v[k].rvalue.Squared() && v[k].location in locations {
        if k < |before| {
          assert v[k] == before[k] && before[k].location in init;
        } else {
          assert v[k] == recs[k - |before|];
          assert corr(locations[n], stations[k - |before|]) == Ok(v[k]);
        }
      }
    }
  }

  /** The records `calculate_corr` emits, or why it raises: a location
      missing from the frame, then (with at least one location) a station
      that is not a column; otherwise one record per (location, station)
      pair, each with `r2value == rvalue²`, placed as `LocationRecordAt`
      says. */
  lemma CorrRecordsMeaning(t: BreakupFrame, locations: seq<string>, given: Option<seq<string>>, pearson: Pearson)
    ensures CorrRecords(t, locations, given, pearson) == Err(Raised(NoLocation)) <==> !KnownLocations(t, locations)
    ensures CorrRecords(t, locations, given, pearson) == Err(Raised(NoStation)) <==>
              KnownLocations(t, locations) && locations != [] && !KnownStations(t, StationNames(t, given))
    ensures CorrRecords(t, locations, given, pearson).Ok? <==>
              KnownLocations(t, locations) &&
              (locations == [] ||
               (KnownStations(t, StationNames(t, given)) &&
                forall i, j :: 0 <= i < |locations| && 0 <= j < |StationNames(t, given)| ==>
                  CorrOf(t, locations[i], StationNames(t, given)[j], pearson).Ok?))
    ensures CorrRecords(t, locations, given, pearson).Ok? ==>
              var v := CorrRecords(t, locations, given, pearson).value;
              v == LocationRecords(CorrOn(t, pearson), locations, StationNames(t, given)).value &&
              |v| == |locations| * |StationNames(t, given)| &&
              forall k :: 0 <= k < |v| ==> v[k].r2value == v[k].rvalue.Squared() && v[k].location in locations
  {
    var corr := CorrOn(t, pearson);
    var names := StationNames(t, given);
    LocationRecordsMeaning(corr, locations, names);
    CorrOnWellFormed(t, pearson);
    if LocationRecords(corr, locations, names).Ok? && locations != [] {
      LocationRecordsWellFormed(corr, locations, names);
    }
  }

  /** Once a block of records fails, so does every longer loop. */
  lemma {:induction false} StationRecordsSticky(corr: Correlate, location: string, stations: seq<string>, j: nat)
    requires j <= |stations| && StationRecords(corr, location, stations[..j]).Err?
    ensures StationRecords(corr, location, stations) == StationRecords(corr, location, stations[..j])
    decreases |stations| - j
  {
    if j < |stations| {
      assert stations[..j + 1][..j] == stations[..j];
      StationRecordsSticky(corr, location, stations, j + 1);
    } else {
      assert stations[..j] == stations;
    }
  }

  lemma {:induction false} LocationRecordsSticky(corr: Correlate, locations: seq<string>, stations: seq<string>, i: nat)
    requires i <= |locations| && LocationRecords(corr, locations[..i], stations).Err?
    ensures LocationRecords(corr, locations, stations) == LocationRecords(corr, locations[..i], stations)
    decreases |locations| - i
  {
    if i < |locations| {
      assert locations[..i + 1][..i] == locations[..i];
      LocationRecordsSticky(corr, locations, stations, i + 1);
    } else {
      assert locations[..i] == locations;
    }
  }

  /** The station loop of `calculate_corr` for one location: one record
      per station, in order, stopping at the first failure. */
  method StationLoop(corr: Correlate, location: string, names: seq<string>)
    returns (r: Result<seq<CorrRecord>>)
    ensures r == StationRecords(corr, location, names)
  {
    var outputRecords: seq<CorrRecord> := [];
    for j := 0 to |names|
      invariant StationRecords(corr, location, names[..j]) == Ok(outputRecords)
    {
      assert names[..j + 1][..j] == names[..j];
      var result := corr(location, names[j]);
      if result.Err? {
        StationRecordsSticky(corr, location, names, j + 1);
        return Err(result.error);
      }
      outputRecords := outputRecords + [result.value];
    }
    assert names[..|names|] == names;
    return Ok(outputRecords);
  }

  /** `calculate_corr` as written: the location test, then for each
      location its rows and (the first time) the default station list, the
      station test, and one appended record per station. */
  method CalculateCorr(t: BreakupFrame, locations: seq<string>, given: Option<seq<string>>, pearson: Pearson)
    returns (r: Result<seq<CorrRecord>>)
    ensures r == CorrRecords(t, locations, given, pearson)
  {
    if !KnownLocations(t, locations) {
      return Err(Raised(NoLocation));
    }
    var outputRecords: seq<CorrRecord> := [];
    var stationNames := given;
    ghost var all := StationNames(t, given);
    var corr := CorrOn(t, pearson);
    for i := 0 to |locations|
      invariant i == 0 ==> stationNames == given
      invariant i > 0 ==> stationNames == Some(all) && KnownStations(t, all)
      invariant LocationRecords(corr, locations[..i], all) == Ok(outputRecords)
    {
      if stationNames.None? {
        stationNames := Some(Slice(t.columns, 5, |t.columns|));
      }
      var names := stationNames.value;
      assert names == all;
      if !KnownStations(t, names) {
        assert CorrRecords(t, locations, given, pearson) == Err(Raised(NoStation));
        return Err(Raised(NoStation));
      }
      assert locations[..i + 1][..i] == locations[..i];
      var recs := StationLoop(corr, locations[i], names);
      if recs.Err? {
        LocationRecordsSticky(corr, locations, all, i + 1);
        return Err(recs.error);
      }
      outputRecords := outputRecords + recs.value;
    }
    assert locations[..|locations|] == locations;
    return Ok(outputRecords);
  }

  // ---------------------------------------------------------------------
  // makeDF_from_records

  /** `records`: an insertion-ordered dict from a candidate date "MM-DD"
      to the records `calculate_corr` produced for it. */
  type CorrDict = seq<(string, seq<CorrRecord>)>

  /** A row of the frame `makeDF_from_records` builds. */
  datatype FlatRow = FlatRow(date: string, stationName: string, location: string, r2: Cell, r: Cell, p: Cell)

  function RowOf(date: string, rec: CorrRecord): FlatRow
  {
    FlatRow(date, rec.stationName, rec.location, rec.r2value, rec.rvalue, rec.pvalue)
  }

  function RowsOf(date: string, recs: seq<CorrRecord>): (r: seq<FlatRow>)
    ensures |r| == |recs|
  {
    seq(|recs|, j requires 0 <= j < |recs| => RowOf(date, recs[j]))
  }

  /** The comprehension `for item in records for subitem in records[item]`. */
  function FlatRows(records: CorrDict): seq<FlatRow>
    decreases |records|
  {
    if records == [] then []
    else FlatRows(records[..|records| - 1]) + RowsOf(records[|records| - 1].0, records[|records| - 1].1)
  }

  /** The comprehension yields no row exactly when every list is empty. */
  lemma {:induction false} FlatRowsEmpty(records: CorrDict)
    ensures FlatRows(records) == [] <==> forall i :: 0 <= i < |records| ==> records[i].1 == []
    decreases |records|
  {
    if records != [] {
      var init := records[..|records| - 1];
      FlatRowsEmpty(init);
      assert forall i :: 0 <= i < |init| ==> init[i] == records[i];
    }
  }

  lemma {:induction false} FlatRowsAppend(a: CorrDict, b: CorrDict)
    ensures FlatRows(a + b) == FlatRows(a) + FlatRows(b)
    decreases |b|
  {
    if b == [] {
      assert a + b == a;
    } else {
      var b0, last := b[..|b| - 1], b[|b| - 1];
      assert (a + b)[..|a + b| - 1] == a + b0;
      assert (a + b)[|a + b| - 1] == last;
      FlatRowsAppend(a, b0);
      assert FlatRows(a + b) == FlatRows(a + b0) + RowsOf(last.0, last.1);
      assert FlatRows(b) == FlatRows(b0) + RowsOf(last.0, last.1);
    }
  }

  /** The position of the first row of key `i`. */
  function Offset(records: CorrDict, i: nat): nat
    requires i <= |records|
  {
    |FlatRows(records[..i])|
  }

  /** The rows come key by key in dict order and, within a key, in list
      order: sub-record `j` of key `i` is row `Offset(records, i) + j`, and
      the next key starts right after the last sub-record. */
  lemma {:induction false} FlatRowsOrder(records: CorrDict, i: nat, j: nat)
    requires i < |records| && j < |records[i].1|
    ensures Offset(records, i + 1) == Offset(records, i) + |records[i].1|
    ensures Offset(records, i) + j < |FlatRows(records)|
    ensures FlatRows(records)[Offset(records, i) + j] == RowOf(records[i].0, records[i].1[j])
  {
    var head, rest := records[..i + 1], records[i + 1..];
    assert head[..i] == records[..i];
    var here := RowsOf(records[i].0, records[i].1);
    assert FlatRows(head) == FlatRows(records[..i]) + here;
    assert records == head + rest;
    FlatRowsAppend(head, rest);
    assert FlatRows(records) == FlatRows(records[..i]) + here + FlatRows(rest);
    assert FlatRows(records)[Offset(records, i) + j] == here[j];
  }

  /** A row after `fillna(0)`: a missing r, r² or p becomes 0. */
  datatype FilledRow = FilledRow(date: string, stationName: string, location: string, r2: real, r: real, p: real)

  function Fill(row: FlatRow): (f: FilledRow)
    ensures f.date == row.date && f.stationName == row.stationName && f.location == row.location
    ensures row.r.NaN? ==> f.r == 0.0
    ensures row.r.Num? ==> f.r == row.r.v
    ensures row.r2.NaN? ==> f.r2 == 0.0
    ensures row.r2.Num? ==> f.r2 == row.r2.v
    ensures row.p.NaN? ==> f.p == 0.0
    ensures row.p.Num? ==> f.p == row.p.v
  {
    FilledRow(row.date, row.stationName, row.location, row.r2.ZeroIfNaN(), row.r.ZeroIfNaN(), row.p.ZeroIfNaN())
  }

  function ZeroFill(rows: seq<FlatRow>): (r: seq<FilledRow>)
    ensures |r| == |rows|
  {
    seq(|rows|, k requires 0 <= k < |rows| => Fill(rows[k]))
  }

  /** The filled rows carry each record's r² as r·r, with 0 for a missing r. */
  lemma FilledSquares(records: CorrDict, i: nat, j: nat)
    requires i < |records| && j < |records[i].1|
    requires records[i].1[j].r2value == records[i].1[j].rvalue.Squared()
    ensures Offset(records, i) + j < |ZeroFill(FlatRows(records))|
    ensures var f := ZeroFill(FlatRows(records))[Offset(records, i) + j];
            f.r2 == f.r * f.r && f.r2 >= 0.0 && f.date == records[i].0
  {
    FlatRowsOrder(records, i, j);
    var rows := FlatRows(records);
    var k := Offset(records, i) + j;
    var row := RowOf(records[i].0, records[i].1[j]);
    assert rows[k] == row;
    assert ZeroFill(rows)[k] == Fill(row);
  }

  const DummyDate: string := "dummydate"

  /** `makeDF_from_records`: the comprehension, then `fillna(0)`. With no
      row the frame has no `date` column and line 23 raises; otherwise line
      24 drops the `dummydate` column line 25 then reads. Either way no
      frame is returned, and the station-name rewrite that follows is never
      reached. */
  function MakeDFFromRecords(records: CorrDict): (r: Result<seq<FilledRow>>)
    ensures r == Err(KeyError("date")) <==> forall i :: 0 <= i < |records| ==> records[i].1 == []
    ensures r == Err(KeyError(DummyDate)) <==> exists i :: 0 <= i < |records| && records[i].1 != []
  {
    FlatRowsEmpty(records);
    var rows := ZeroFill(FlatRows(records));
    if rows == [] then Err(KeyError("date")) else Err(KeyError(DummyDate))
  }

  /** The station-name rewrite of lines 26-27. */
  function NormalizeStationName(s: string): string
  {
    ReplaceAll(ReplaceAll(s, "AIRPORT", "AP"), "INTERNATIONAL", "INTL")
  }

  /** A name in which neither word occurs is unchanged. */
  lemma NormalizeAbsent(s: string)
    requires forall i :: 0 <= i <= |s| - 7 ==> !OccursAt(s, "AIRPORT", i)
    requires forall i :: 0 <= i <= |s| - 13 ==> !OccursAt(s, "INTERNATIONAL", i)
    ensures NormalizeStationName(s) == s
  {
    ReplaceAllAbsent(s, "AIRPORT", "AP");
    ReplaceAllAbsent(s, "INTERNATIONAL", "INTL");
  }

  /** The rewrite never lengthens a name. */
  lemma NormalizeShorter(s: string)
    ensures |NormalizeStationName(s)| <= |s|
  {
    ReplaceAllShorter(s, "AIRPORT", "AP");
    ReplaceAllShorter(ReplaceAll(s, "AIRPORT", "AP"), "INTERNATIONAL", "INTL");
  }

  /** The word AIRPORT alone becomes AP. */
  lemma NormalizeExample()
    ensures NormalizeStationName("AIRPORT") == "AP"
  {
  }

  // ---------------------------------------------------------------------
  // get_correlationrecords and the candidate dates

  const RetrieveName: string := "retrieve_tdd_" + "anomaly_fixed"

  /** The columns of a frame with no rows after
      `df[name] = df.apply(lambda row: ..., axis=1)` for each name in turn.
      On no rows pandas probes the lambda, swallows its exception and
      returns a copy of the frame; assigning that copy to one column needs
      it to have exactly one column. A new name then adds a second column,
      so every later name fails. */
  function EmptyFrameColumns(names: seq<string>, columns: seq<string>): (r: Result<seq<string>>)
    ensures names == [] ==> r == Ok(columns)
    ensures names != [] ==> (r.Ok? <==> |columns| == 1 && forall k :: 0 <= k < |names| - 1 ==> names[k] in columns)
    ensures names != [] && r.Ok? ==>
              r.value == if names[|names| - 1] in columns then columns else columns + [names[|names| - 1]]
    ensures r.Err? ==> r.error.ValueError?
    decreases |names|
  {
    if names == [] then Ok(columns)
    else
      var cols :- EmptyFrameColumns(names[..|names| - 1], columns);
      var name := names[|names| - 1];
      if name in cols then
        if |cols| == 1 then Ok(cols) else Err(ValueError(ColumnLengthMismatch))
      else if |cols| > 1 then Err(ValueError(MultiColumnAssign))
      else if |cols| == 0 then Err(ValueError(NoColumnAssign))
      else Ok(cols + [name])
  }

  /** `get_correlationrecords` with the globals it reads (`breakup_anomaly_fixed`,
      `records`, `datestr`) as parameters, and the station files as their
      names (`pth.stem[:-17]`). Each station adds a column computed through
      `rutil.retrieve_tdd_anomaly_fixed`, a name riverice_util.py does not
      define: on a frame with rows that is an AttributeError, on one without
      rows the column assignment of `EmptyFrameColumns`. Then
      `records[datestr]` is set to the output of `calculate_corr` with the
      default station list. */
  function GetCorrelationRecords(stationNames: seq<string>, t: BreakupFrame, locations: seq<string>, pearson: Pearson,
                                 records: CorrDict, datestr: string): (r: Result<CorrDict>)
    ensures stationNames != [] && t.rows != [] ==> r == Err(AttributeError(RetrieveName))
    ensures stationNames != [] && t.rows == [] &&
            (|t.columns| != 1 || exists k :: 0 <= k < |stationNames| - 1 && stationNames[k] !in t.columns) ==>
              r.Err? && r.error.ValueError?
    ensures stationNames == [] ==> (r.Ok? <==> CorrRecords(t, locations, None, pearson).Ok?)
    ensures stationNames == [] && r.Err? ==> r == CorrRecords(t, locations, None, pearson).PropagateFailure()
  {
    if stationNames != [] && t.rows != [] then Err(AttributeError(RetrieveName))
    else
      var cols :- EmptyFrameColumns(stationNames, t.columns);
      assert stationNames == [] ==> t.(columns := cols) == t;
      var returnRec :- CorrRecords(t.(columns := cols), locations, None, pearson);
      Ok(Report.Put(records, datestr, returnRec))
  }

  /** On success `records[datestr]` holds the new records and every other
      date keeps its own. */
  lemma GetCorrelationRecordsStores(t: BreakupFrame, locations: seq<string>, pearson: Pearson,
                                    records: CorrDict, datestr: string, other: string)
    requires GetCorrelationRecords([], t, locations, pearson, records, datestr).Ok?
    ensures var r := GetCorrelationRecords([], t, locations, pearson, records, datestr).value;
            Report.Lookup(r, datestr) == Some(CorrRecords(t, locations, None, pearson).value) &&
            (other != datestr ==> Report.Lookup(r, other) == Report.Lookup(records, other))
  {
    Report.PutLookup(records, datestr, CorrRecords(t, locations, None, pearson).value, other);
  }

  const StartDate := Date(2000, 4, 1)
  const NumDays := 65

  /** `STARTDATE + timedelta(days=i)`. */
  function CandidateDay(i: nat): (d: Date)
    requires i < NumDays
    ensures Valid(d) && d.year == 2000 && DayOfYear(d) == 92 + i
  {
    AddDaysWithinYear(StartDate, i);
    AddDays(StartDate, i).value
  }

  /** Its `strftime('%m-%d')`. */
  function CandidateDate(i: nat): string
    requires i < NumDays
  {
    FormatMonthDay(CandidateDay(i))
  }

  function CandidateDates(): (r: seq<string>)
    ensures |r| == NumDays
  {
    seq(NumDays, i requires 0 <= i < NumDays => CandidateDate(i))
  }

  /** Two dates of one year with the same "MM-DD" are the same date. */
  lemma FormatMonthDayInjective(a: Date, b: Date)
    requires Valid(a) && Valid(b) && a.year == b.year && FormatMonthDay(a) == FormatMonthDay(b)
    ensures a == b
  {
    var s := FormatMonthDay(a);
    assert s[..2] == ZeroPad(a.month, 2) == ZeroPad(b.month, 2);
    assert s[3..] == ZeroPad(a.day, 2) == ZeroPad(b.day, 2);
    ZeroPadValue(a.month, 2);
    ZeroPadValue(b.month, 2);
    ZeroPadValue(a.day, 2);
    ZeroPadValue(b.day, 2);
  }

  /** The candidate day with day number `92 + i` of 2000 is that date. */
  lemma CandidateDayIs(i: nat, d: Date)
    requires i < NumDays && Valid(d) && d.year == 2000 && DayOfYear(d) == 92 + i
    ensures CandidateDay(i) == d && CandidateDates()[i] == FormatMonthDay(d)
  {
    OrdinalInjective(CandidateDay(i), d);
  }

  /** The first candidate date is April 1 and the last June 4. */
  lemma CandidateEnds(i: nat)
    requires i == 0 || i == NumDays - 1
    ensures i == 0 ==> CandidateDay(i) == Date(2000, 4, 1) && CandidateDates()[i] == "04-01"
    ensures i == NumDays - 1 ==> CandidateDay(i) == Date(2000, 6, 4) && CandidateDates()[i] == "06-04"
  {
    MonthDayEnds();
    if i == 0 {
      CandidateDayIs(i, Date(2000, 4, 1));
    } else {
      assert DayOfYear(Date(2000, 6, 4)) == 156;
      CandidateDayIs(i, Date(2000, 6, 4));
    }
  }

  lemma MonthDayEnds()
    ensures FormatMonthDay(Date(2000, 4, 1)) == "04-01"
    ensures FormatMonthDay(Date(2000, 6, 4)) == "06-04"
  {
  }

  lemma CandidateNext(i: nat)
    requires i < NumDays - 1
    ensures CandidateDay(i + 1) == NextDay(CandidateDay(i))
  {
    var d := CandidateDay(i);
    NextDayOrdinal(d);
    OrdinalInjective(CandidateDay(i + 1), NextDay(d));
  }

  lemma CandidateDistinct(i: nat, j: nat)
    requires i < j < NumDays
    ensures CandidateDates()[i] != CandidateDates()[j]
  {
    assert CandidateDates()[i] == FormatMonthDay(CandidateDay(i));
    assert CandidateDates()[j] == FormatMonthDay(CandidateDay(j));
    if CandidateDates()[i] == CandidateDates()[j] {
      FormatMonthDayInjective(CandidateDay(i), CandidateDay(j));
    }
  }

  /** The candidate dates are consecutive days, each the day after the one
      before, and no two share their "MM-DD". */
  lemma CandidateDatesMeaning()
    ensures forall i :: 0 <= i < NumDays - 1 ==> CandidateDay(i + 1) == NextDay(CandidateDay(i))
    ensures forall i, j :: 0 <= i < j < NumDays ==> CandidateDates()[i] != CandidateDates()[j]
  {
    forall i | 0 <= i < NumDays - 1 ensures CandidateDay(i + 1) == NextDay(CandidateDay(i)) {
      CandidateNext(i);
    }
    forall i, j | 0 <= i < j < NumDays ensures CandidateDates()[i] != CandidateDates()[j] {
      CandidateDistinct(i, j);
    }
  }

  lemma CandidatePrefix(ii: nat)
    requires ii < NumDays
    ensures CandidateDates()[..ii + 1] == CandidateDates()[..ii] + [CandidateDate(ii)]
  {
    var c := CandidateDates();
    assert c[ii] == CandidateDate(ii);
    PrefixSnoc(c, ii);
  }

  /** The `__main__` loop of generate_TDDcorr.py: for each of the 65 days it
      computes the date and its string and copies the breakup frame, and
      does nothing else, so `records` stays empty. The date strings are
      returned so that what the loop visits can be stated. */
  method CandidateLoop(breakup: BreakupFrame) returns (records: CorrDict, dateStrings: seq<string>)
    ensures records == []
    ensures dateStrings == CandidateDates()
  {
    records := [];
    dateStrings := [];
    for ii := 0 to NumDays
      invariant dateStrings == CandidateDates()[..ii]
    {
      var datepoint := CandidateDay(ii);
      var datestr := FormatMonthDay(datepoint);
      CandidatePrefix(ii);
      dateStrings := dateStrings + [datestr];
    }
  }
}
