/** `make_forecast_2024.py`: days are counted from March 1, the training
    table covers forecast days 20 to 89, every site of the table is
    forecast from day 31 on, the most likely lead time is `round(mu_0) + 1`,
    and the forecast is dated on the day of the data it uses. */
module Forecast2024 {
  import opened Common
  import opened Text
  import opened Calendar
  import opened Groups
  import opened Report
  import opened Bands
  import opened Forecast

  const Year: int := 2024
  const Column := "forecast_day_past_march1"

  /** The forecast-day range of `make_likelihood_DF`: `range(20, 90)`. */
  const TableLo: int := 20
  const TableHi: int := 90

  /** The first day of the day loop, `range(31, days_end)`. */
  const FirstDay: int := 31

  /** Everything the script reads: the site table (`huctable`), the breakup
      table, the combined degree-day files by name, the statistics, the
      `DAILY` switch and today's date. */
  datatype Inputs = Inputs(
    sites: seq<Site>,
    breakups: seq<BreakupRow>,
    combined: map<string, Table<string>>,
    regress: Regression,
    daily: bool,
    today: ValidDate)

  /** `days_end`: 90, or with `DAILY` the day after today, counted from
      March 1. The loop always starts at day 31; the script's `days_start`
      is set but never read. */
  function DaysEnd(daily: bool, today: ValidDate): (r: int)
    ensures daily ==> r == DayOfYear(today) - (if IsLeap(today.year) then 61 else 60) + 1
    ensures !daily ==> r == 90
  {
    if daily then DaysPastMarch1(today) + 1 else 90
  }

  /** `ru.datestr2dayssince(today)` on today's ISO string is the number of
      days since March 1. */
  lemma TodayDaysSince(today: ValidDate)
    ensures DatestrToDaysSince(FormatIso(today), "0301") == Ok(DaysPastMarch1(today))
  {
    DaysSinceMarch1OfString(today);
  }

  /** `ru.datestr2dayssince(row.breakup)`, the breakup day of a row. */
  function BreakupDay(datestr: string): (r: Result<int>)
    ensures r == DatestrToDaysSince(datestr, "0301")
    ensures r == DatestrToDaysSinceAsWritten(datestr, "0301")
  {
    AsWrittenAgreesOnMarch1(datestr);
    DatestrToDaysSince(datestr, "0301")
  }

  /** `dayssince2date(ii, year)`, the date of the forecast, and
      `dayssince2date(mostlikely + ii - 1, year)`, the forecasted breakup. */
  function RecordDates(year: int, ii: int, mostLikely: int): Result<(Date, Date)>
  {
    var forecastDate :- DaysSinceToDate(ii, year, "0301");
    var forecasted :- DaysSinceToDate(mostLikely + ii - 1, year, "0301");
    Ok((forecastDate, forecasted))
  }

  /** The record of a prediction `mu_0` with density `pdf` made from the
      data of day `ii` of `year`. */
  function MakeRecord(year: int, site: Site, ii: int, mu: real, pdf: seq<real>): Result<ResultRecord>
  {
    var mostLikely := RoundHalfEven(mu) + 1;
    var dates :- RecordDates(year, ii, mostLikely);
    Ok(ResultRecord(site.locality, site.river, dates.0, mostLikely, dates.1, site.averageBreakup,
                    WindowProb(pdf, mostLikely),
                    BandProb(pdf, OneOrTwoDays), BandProb(pdf, ThreeToSevenDays),
                    BandProb(pdf, WeekTwo), BandProb(pdf, WeekThree)))
  }

  /** One pass of the day loop for day `ii`. */
  function Predict(year: int, site: Site, station: Table<string>, likelihood: seq<LikelihoodRow>, regress: Regression, ii: int)
    : Result<Option<ResultRecord>>
  {
    var ddval :- station.LabelCell(IntToString(year), ii);
    match regress(Training(OnDay(likelihood, ii)), ddval)
    case FitRaises => Err(ValueError("fit"))
    case PredictRaises => Ok(None)
    case Predicted(mu, pdf) =>
      var rec :- MakeRecord(year, site, ii, mu, pdf);
      Ok(Some(rec))
  }

  function StepOf(year: int, site: Site, station: Table<string>, likelihood: seq<LikelihoodRow>, regress: Regression): Step
  {
    ii => Predict(year, site, station, likelihood, regress, ii)
  }

  /** Both dates exist unless one falls outside years 1 to 9999, which
      is an OverflowError. */
  lemma RecordDatesMeaning(year: int, ii: int, mostLikely: int)
    requires 1000 <= year <= MaxYear
    ensures RecordDates(year, ii, mostLikely).Ok? <==>
              1 <= Ordinal(Date(year, 3, 1)) + ii <= MaxOrdinal &&
              1 <= Ordinal(Date(year, 3, 1)) + ii + mostLikely - 1 <= MaxOrdinal
    ensures RecordDates(year, ii, mostLikely).Err? ==> RecordDates(year, ii, mostLikely).error == OverflowError
  {
    DaysSinceToDateMarch1(ii, year);
    DaysSinceToDateMarch1(mostLikely + ii - 1, year);
  }

  /** The forecast is dated `ii` days after March 1 and the breakup
      `mostlikely - 1` days after that. */
  lemma RecordDatesOrdinals(year: int, ii: int, mostLikely: int)
    requires 1000 <= year <= MaxYear
    ensures RecordDates(year, ii, mostLikely).Ok? ==>
              Ordinal(RecordDates(year, ii, mostLikely).value.0) == Ordinal(Date(year, 3, 1)) + ii &&
              Ordinal(RecordDates(year, ii, mostLikely).value.1) == Ordinal(Date(year, 3, 1)) + ii + mostLikely - 1
  {
    DaysSinceToDateMarch1(ii, year);
    DaysSinceToDateMarch1(mostLikely + ii - 1, year);
  }

  /** Inside the year (March 1 is day 0), both dates exist. */
  lemma RecordDatesWithinYear(year: int, ii: int, mostLikely: int)
    requires 1000 <= year <= MaxYear
    ensures -(if IsLeap(year) then 60 else 59) <= ii <= 305 &&
            -(if IsLeap(year) then 60 else 59) <= mostLikely + ii - 1 <= 305 ==>
              RecordDates(year, ii, mostLikely).Ok?
  {
    if -(if IsLeap(year) then 60 else 59) <= ii <= 305 {
      DaysSinceInverse(ii, year);
    }
    if -(if IsLeap(year) then 60 else 59) <= mostLikely + ii - 1 <= 305 {
      DaysSinceInverse(mostLikely + ii - 1, year);
    }
  }

  /** Inside the year, the forecast date is `ii` days past March 1 of the
      year, and the date the report prints reads back as `ii`. */
  lemma ForecastDateIsDaysSince(year: int, ii: int, mostLikely: int)
    requires 1000 <= year <= MaxYear
    ensures RecordDates(year, ii, mostLikely).Ok? && -(if IsLeap(year) then 60 else 59) <= ii <= 305 ==>
              var fd := RecordDates(year, ii, mostLikely).value.0;
              fd.year == year && DaysPastMarch1(fd) == ii && DatestrToDaysSince(FormatIso(fd), "0301") == Ok(ii)
  {
    var r := RecordDates(year, ii, mostLikely);
    var a := DaysSinceToDate(ii, year, "0301");
    var b := DaysSinceToDate(mostLikely + ii - 1, year, "0301");
    assert r == if a.Err? then Err(a.error) else if b.Err? then Err(b.error) else Ok((a.value, b.value));
    if r.Ok? && -(if IsLeap(year) then 60 else 59) <= ii <= 305 {
      DaysSinceOf(ii, year, a.value);
    }
  }

  /** Inside the year, the forecasted breakup is `mostlikely - 1` days
      after the forecast date, counted from March 1. */
  lemma ForecastedIsDaysSince(year: int, ii: int, mostLikely: int)
    requires 1000 <= year <= MaxYear
    ensures RecordDates(year, ii, mostLikely).Ok? && -(if IsLeap(year) then 60 else 59) <= mostLikely + ii - 1 <= 305 ==>
              var fc := RecordDates(year, ii, mostLikely).value.1;
              fc.year == year && DaysPastMarch1(fc) == mostLikely + ii - 1
  {
    var r := RecordDates(year, ii, mostLikely);
    var a := DaysSinceToDate(ii, year, "0301");
    var b := DaysSinceToDate(mostLikely + ii - 1, year, "0301");
    assert r == if a.Err? then Err(a.error) else if b.Err? then Err(b.error) else Ok((a.value, b.value));
    if r.Ok? && -(if IsLeap(year) then 60 else 59) <= mostLikely + ii - 1 <= 305 {
      DaysSinceOf(mostLikely + ii - 1, year, b.value);
    }
  }

  /** A record exists exactly when both dates of `RecordDates` exist for
      `mostlikely = round(mu_0) + 1`, and then carries those dates. */
  lemma MakeRecordDated(year: int, site: Site, ii: int, mu: real, pdf: seq<real>)
    ensures MakeRecord(year, site, ii, mu, pdf).Ok? <==> RecordDates(year, ii, RoundHalfEven(mu) + 1).Ok?
    ensures MakeRecord(year, site, ii, mu, pdf).Err? ==>
              MakeRecord(year, site, ii, mu, pdf).error == RecordDates(year, ii, RoundHalfEven(mu) + 1).error
    ensures MakeRecord(year, site, ii, mu, pdf).Ok? ==>
      var rec := MakeRecord(year, site, ii, mu, pdf).value;
      rec.mostLikely == RoundHalfEven(mu) + 1 && (rec.forecastDate, rec.forecastedDate) == RecordDates(year, ii, RoundHalfEven(mu) + 1).value
  {
  }

  /** A record carries the site's names and average date, the four bands
      of the density and the window `xs[startidx:endidx + 1]`, which is the
      window of `round(mu_0) ± 3` days. */
  lemma MakeRecordFields(year: int, site: Site, ii: int, mu: real, pdf: seq<real>)
    ensures MakeRecord(year, site, ii, mu, pdf).Ok? ==>
      var rec := MakeRecord(year, site, ii, mu, pdf).value;
      && rec.location == site.locality && rec.river == site.river && rec.averageBreakup == site.averageBreakup
      && rec.probWindow == Sum(Slice(pdf, WindowStart(rec.mostLikely), WindowStart(rec.mostLikely) + 7))
      && rec.probWindow == CentredWindowProb(pdf, RoundHalfEven(mu))
      && rec.prob12 == BandProb(pdf, OneOrTwoDays) && rec.prob37 == BandProb(pdf, ThreeToSevenDays)
      && rec.probWeek2 == BandProb(pdf, WeekTwo) && rec.probWeek3 == BandProb(pdf, WeekThree)
  {
    assert CentredStart(RoundHalfEven(mu)) == WindowStart(RoundHalfEven(mu) + 1);
  }

  /** The outcomes of one day: the missing `2024` cell raises a KeyError and
      `fit` a ValueError; a ValueError from `predict` breaks the loop; a
      prediction gives the record made from it. */
  lemma PredictMeaning(year: int, site: Site, station: Table<string>, likelihood: seq<LikelihoodRow>, regress: Regression, ii: int)
    ensures var dd := station.LabelCell(IntToString(year), ii);
      var r := Predict(year, site, station, likelihood, regress, ii);
      && (dd.Err? ==> r == Err(dd.error))
      && (dd.Ok? ==>
            var fit := regress(Training(OnDay(likelihood, ii)), dd.value);
            && (fit.FitRaises? ==> r.Err? && r.error.ValueError?)
            && (fit.PredictRaises? ==> r == Ok(None))
            && (fit.Predicted? ==>
                  match MakeRecord(year, site, ii, fit.mu, fit.pdf)
                  case Ok(rec) => r == Ok(Some(rec))
                  case Err(e) => r == Err(e)))
  {
  }

  /** A record the day loop makes for day `ii`. */
  lemma RecordOfDay(year: int, site: Site, station: Table<string>, likelihood: seq<LikelihoodRow>, regress: Regression, ii: int, rec: ResultRecord)
    requires 1000 <= year <= MaxYear && Predict(year, site, station, likelihood, regress, ii) == Ok(Some(rec))
    ensures rec.location == site.locality && rec.river == site.river && rec.averageBreakup == site.averageBreakup
    ensures Ordinal(rec.forecastDate) == Ordinal(Date(year, 3, 1)) + ii
  {
    var dd := station.LabelCell(IntToString(year), ii);
    var fit := regress(Training(OnDay(likelihood, ii)), dd.value);
    MakeRecordDated(year, site, ii, fit.mu, fit.pdf);
    MakeRecordFields(year, site, ii, fit.mu, fit.pdf);
    RecordDatesOrdinals(year, ii, RoundHalfEven(fit.mu) + 1);
  }

  /** What a record made on day `ii` for `site` carries: the site's names
      and average breakup date, and the forecast date of that day. */
  ghost predicate MadeOn(site: Site, rec: ResultRecord, ii: int)
  {
    && rec.location == site.locality && rec.river == site.river && rec.averageBreakup == site.averageBreakup
    && Ordinal(rec.forecastDate) == Ordinal(Date(Year, 3, 1)) + ii
  }

  /** Every record the day loop of a site can make is made on its day. */
  lemma StepRecords(site: Site, station: Table<string>, likelihood: seq<LikelihoodRow>, regress: Regression)
    ensures forall ii, rec :: StepOf(Year, site, station, likelihood, regress)(ii) == Ok(Some(rec)) ==> MadeOn(site, rec, ii)
  {
    forall ii, rec | StepOf(Year, site, station, likelihood, regress)(ii) == Ok(Some(rec))
      ensures MadeOn(site, rec, ii)
    {
      RecordOfDay(Year, site, station, likelihood, regress, ii, rec);
    }
  }

  /** A finished day loop whose every possible record is made on its day
      made its `k`-th record on day `lo + k`. */
  lemma DayLoopMadeOn(site: Site, step: Step, lo: int, hi: int)
    requires DaysFrom(step, lo, hi).Ok?
    requires forall ii, rec :: step(ii) == Ok(Some(rec)) ==> MadeOn(site, rec, ii)
    ensures |DaysFrom(step, lo, hi).value| <= if lo <= hi then hi - lo else 0
    ensures forall k :: 0 <= k < |DaysFrom(step, lo, hi).value| ==> MadeOn(site, DaysFrom(step, lo, hi).value[k], lo + k)
  {
    DaysFromMeaning(step, lo, hi);
  }

  /** One site: its combined file, its training table and its day loop. */
  function SiteRecords(inp: Inputs, days: seq<(BreakupRow, int)>, site: Site): Result<seq<ResultRecord>>
  {
    if CombinedName(site.siteID) !in inp.combined then Err(FileNotFound(CombinedName(site.siteID)))
    else
      var station := inp.combined[CombinedName(site.siteID)];
      var likelihood :- Likelihood(SiteHistory(days, site.siteID), station, TableLo, TableHi, Column);
      DaysFrom(StepOf(Year, site, station, likelihood, inp.regress), FirstDay, DaysEnd(inp.daily, inp.today))
  }

  /** The site loop, one site after the other. */
  function AllRecords(inp: Inputs, days: seq<(BreakupRow, int)>, sites: seq<Site>): Result<seq<ResultRecord>>
    decreases |sites|
  {
    if sites == [] then Ok([])
    else
      var before :- AllRecords(inp, days, sites[..|sites| - 1]);
      var more :- SiteRecords(inp, days, sites[|sites| - 1]);
      Ok(before + more)
  }

  /** The whole script: the daily reports, or the exception that stops it. */
  function Outcome(inp: Inputs): Result<seq<DictReport>>
  {
    var days :- DayColumn(inp.breakups, BreakupDay);
    var recs :- AllRecords(inp, days, inp.sites);
    Ok(AsWrittenReports(Reports(Filed(recs))))
  }

  // ---------------------------------------------------------------------
  // What the script computes

  /** A site's records are at most one per day of the loop, carry the
      site's name, and are dated on consecutive days from day 31 on. */
  lemma SiteRecordsMeaning(inp: Inputs, days: seq<(BreakupRow, int)>, site: Site)
    requires SiteRecords(inp, days, site).Ok?
    ensures var recs := SiteRecords(inp, days, site).value;
      var hi := DaysEnd(inp.daily, inp.today);
      && |recs| <= (if FirstDay <= hi then hi - FirstDay else 0)
      && forall k :: 0 <= k < |recs| ==>
           recs[k].location == site.locality &&
           Ordinal(recs[k].forecastDate) == Ordinal(Date(Year, 3, 1)) + FirstDay + k
  {
    var station := inp.combined[CombinedName(site.siteID)];
    var likelihood := Likelihood(SiteHistory(days, site.siteID), station, TableLo, TableHi, Column).value;
    var hi := DaysEnd(inp.daily, inp.today);
    var recs := SiteRecords(inp, days, site).value;
    assert DaysFrom(StepOf(Year, site, station, likelihood, inp.regress), FirstDay, hi) == Ok(recs);
    StepRecords(site, station, likelihood, inp.regress);
    DayLoopMadeOn(site, StepOf(Year, site, station, likelihood, inp.regress), FirstDay, hi);
  }

  /** Every record comes from a site of the table and carries its names and
      average breakup date. */
  lemma {:induction false} AllRecordsFromSites(inp: Inputs, days: seq<(BreakupRow, int)>, sites: seq<Site>)
    requires AllRecords(inp, days, sites).Ok?
    ensures forall rec :: rec in AllRecords(inp, days, sites).value ==>
              exists s :: s in sites && rec.location == s.locality &&
                          rec.river == s.river && rec.averageBreakup == s.averageBreakup
    decreases |sites|
  {
    if sites != [] {
      var init := sites[..|sites| - 1];
      var site := sites[|sites| - 1];
      AllRecordsFromSites(inp, days, init);
      var more := SiteRecords(inp, days, site).value;
      forall rec | rec in more
        ensures rec.location == site.locality && rec.river == site.river && rec.averageBreakup == site.averageBreakup
      {
        var station := inp.combined[CombinedName(site.siteID)];
        var likelihood := Likelihood(SiteHistory(days, site.siteID), station, TableLo, TableHi, Column).value;
        var hi := DaysEnd(inp.daily, inp.today);
        assert DaysFrom(StepOf(Year, site, station, likelihood, inp.regress), FirstDay, hi) == Ok(more);
        var k :| 0 <= k < |more| && more[k] == rec;
        DaysFromAt(StepOf(Year, site, station, likelihood, inp.regress), FirstDay, hi, more, k);
        StepRecords(site, station, likelihood, inp.regress);
        assert MadeOn(site, more[k], FirstDay + k);
      }
      forall rec | rec in AllRecords(inp, days, sites).value
        ensures exists s :: s in sites && rec.location == s.locality &&
                            rec.river == s.river && rec.averageBreakup == s.averageBreakup
      {
        if rec in more {
          assert site in sites;
        } else {
          var s :| s in init && rec.location == s.locality &&
                   rec.river == s.river && rec.averageBreakup == s.averageBreakup;
          assert s in sites;
        }
      }
    }
  }

  /** The reports: one file per forecast date, each holding the records
      forecast on that date sorted by river and average breakup date,
      together every record once; each row is written as the record's
      ten-column dict, whose week-2 column holds `prob_wk3` and which has no
      week-3 column. */
  lemma OutcomeReports(inp: Inputs)
    requires Outcome(inp).Ok?
    ensures var days := DayColumn(inp.breakups, BreakupDay).value;
      var recs := AllRecords(inp, days, inp.sites).value;
      var sorted := Reports(Filed(recs));
      var reports := Outcome(inp).value;
      && |reports| == |sorted|
      && (forall i, j :: 0 <= i < j < |reports| ==> reports[i].fileName != reports[j].fileName)
      && (forall i :: 0 <= i < |sorted| ==>
            reports[i].fileName == sorted[i].fileName && SortedRows(sorted[i].rows) &&
            |reports[i].rows| == |sorted[i].rows|)
      && (forall i, rec :: 0 <= i < |sorted| && rec in sorted[i].rows ==> sorted[i].fileName == ReportName(rec.forecastDate))
      && multiset(AllRows(sorted)) == multiset(recs)
      && (forall i, j :: 0 <= i < |sorted| && 0 <= j < |sorted[i].rows| ==>
            var d := reports[i].rows[j];
            var rec := sorted[i].rows[j];
            |d| == 10 && Lookup(d, Week2Key) == Some(Prob(rec.probWeek3)) && Lookup(d, Week3Key) == None &&
            Lookup(d, RiverKey) == Some(Str(rec.river)) && Lookup(d, AverageKey) == Some(Str(rec.averageBreakup)))
  {
    var days := DayColumn(inp.breakups, BreakupDay).value;
    var recs := AllRecords(inp, days, inp.sites).value;
    var kvs := Filed(recs);
    ReportNamesDistinct(kvs);
    forall i | 0 <= i < |Reports(kvs)|
      ensures SortedRows(Reports(kvs)[i].rows)
      ensures forall rec :: rec in Reports(kvs)[i].rows ==> Reports(kvs)[i].fileName == ReportName(rec.forecastDate)
    {
      ReportRows(kvs, i);
      ReportRowsDated(kvs, i);
    }
    ReportsPermuteRecords(kvs);
    assert Values(kvs) == recs;
    assert Outcome(inp).value == AsWrittenReports(Reports(kvs));
    AsWrittenReportsRows(Reports(kvs));
  }

  // ---------------------------------------------------------------------
  // The script

  lemma {:induction false} AllRecordsSticky(inp: Inputs, days: seq<(BreakupRow, int)>, sites: seq<Site>, k: nat)
    requires k <= |sites| && AllRecords(inp, days, sites[..k]).Err?
    ensures AllRecords(inp, days, sites) == AllRecords(inp, days, sites[..k])
    decreases |sites|
  {
    if k < |sites| {
      assert sites[..|sites| - 1][..k] == sites[..k];
      AllRecordsSticky(inp, days, sites[..|sites| - 1], k);
    } else {
      assert sites[..k] == sites;
    }
  }

  lemma AllRecordsStep(inp: Inputs, days: seq<(BreakupRow, int)>, sites: seq<Site>, i: nat)
    requires i < |sites| && AllRecords(inp, days, sites[..i]).Ok?
    ensures AllRecords(inp, days, sites[..i + 1]) ==
            match SiteRecords(inp, days, sites[i])
            case Ok(more) => Ok(AllRecords(inp, days, sites[..i]).value + more)
            case Err(e) => Err(e)
  {
    assert sites[..i + 1][..i] == sites[..i];
  }

  /** One site of the main program: its records, filed in `results` as
      they are made. */
  method RunSite(results: OrderedGroups<ValidDate, ResultRecord>, inp: Inputs,
                 days: seq<(BreakupRow, int)>, site: Site, hi: int)
    returns (r: Result<seq<ResultRecord>>)
    requires results.Valid() && hi == DaysEnd(inp.daily, inp.today)
    modifies results
    ensures results.Valid()
    ensures r == SiteRecords(inp, days, site)
    ensures r.Ok? ==> results.added == old(results.added) + Filed(r.value)
  {
    var name := CombinedName(site.siteID);
    if name !in inp.combined {
      return Err(FileNotFound(name));
    }
    var station := inp.combined[name];
    var likelihood := MakeLikelihood(SiteHistory(days, site.siteID), station, TableLo, TableHi, Column);
    if likelihood.Err? {
      return Err(likelihood.error);
    }
    r := RunDays(results, StepOf(Year, site, station, likelihood.value, inp.regress), FirstDay, hi);
  }

  /** The main program, site by site and day by day, filing each record in
      `results` and writing the reports at the end. */
  method Run(inp: Inputs) returns (r: Result<seq<DictReport>>)
    ensures r == Outcome(inp)
  {
    var days := DayColumn(inp.breakups, BreakupDay);
    if days.Err? {
      return Err(days.error);
    }
    var results := new OrderedGroups<ValidDate, ResultRecord>();
    var hi := DaysEnd(inp.daily, inp.today);
    var recs: seq<ResultRecord> := [];
    for i := 0 to |inp.sites|
      invariant results.Valid()
      invariant AllRecords(inp, days.value, inp.sites[..i]) == Ok(recs)
      invariant results.added == Filed(recs)
    {
      AllRecordsStep(inp, days.value, inp.sites, i);
      var more := RunSite(results, inp, days.value, inp.sites[i], hi);
      if more.Err? {
        AllRecordsSticky(inp, days.value, inp.sites, i + 1);
        return Err(more.error);
      }
      FiledAppend(recs, more.value);
      recs := recs + more.value;
    }
    assert inp.sites[..|inp.sites|] == inp.sites;
    assert AllRecords(inp, days.value, inp.sites) == Ok(recs);
    var reports := WriteReports(results);
    return Ok(AsWrittenReports(reports));
  }
}
