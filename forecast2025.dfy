/** `make_forecast_2025.py`: days are Julian days of 2025, the training
    table covers forecast days 72 to 134, sites that have already broken up
    are skipped, the most likely lead time is `round(mu_0)`, and the
    forecast is dated one day after the data it uses. */
module Forecast2025 {
  import opened Common
  import opened Text
  import opened Calendar
  import opened Groups
  import opened Report
  import opened Bands
  import opened Forecast

  const Year: int := 2025
  const Column := "forecast_day_jday"

  /** The forecast-day range of `make_likelihood_DF`: `range(72, 135)`. */
  const TableLo: int := 72
  const TableHi: int := 135

  /** Everything the script reads: the site table (`breakupstats`), the
      breakup table, the combined degree-day files by name, the sites
      already broken up, the statistics, the `DAILY` switch and today's
      date. */
  datatype Inputs = Inputs(
    sites: seq<Site>,
    breakups: seq<BreakupRow>,
    combined: map<string, Table<string>>,
    brokenUp: set<string>,
    regress: Regression,
    daily: bool,
    today: ValidDate)

  /** `days_start, days_end`: 72 to 89, or with `DAILY` just the day before
      today. */
  function DayRange(daily: bool, today: ValidDate): (r: (int, int))
    ensures daily ==> r.1 == JulianDay(today) && r.0 == r.1 - 1
    ensures !daily ==> r == (72, 90)
  {
    if daily then (JulianDay(today) - 1, JulianDay(today)) else (72, 90)
  }

  /** `ru.datestr2julianday(today)` on today's ISO string is today's Julian
      day. */
  lemma TodayJulianDay(today: ValidDate)
    requires 1000 <= today.year
    ensures DatestrToJulianDay(FormatIso(today)) == Ok(JulianDay(today))
  {
    JulianDayRoundTrip(today);
  }

  /** `julianday2date(ii + 1, year)`, the date of the forecast, and
      `julianday2date(mostlikely + ii, year)`, the forecasted breakup. */
  function RecordDates(year: int, ii: int, mostLikely: int): Result<(Date, Date)>
  {
    var forecastDate :- JulianDayToDate(ii + 1, year);
    var forecasted :- JulianDayToDate(mostLikely + ii, year);
    Ok((forecastDate, forecasted))
  }

  /** The record of a prediction `mu_0` with density `pdf` made from the
      data of day `ii` of `year`, as the script computes it: the window is
      `pdf[startidx:endidx + 1]` with `startidx = max(101, 100 + mostlikely - 3)`. */
  function MakeRecord(year: int, site: Site, ii: int, mu: real, pdf: seq<real>): Result<ResultRecord>
  {
    var mostLikely := RoundHalfEven(mu);
    var dates :- RecordDates(year, ii, mostLikely);
    Ok(ResultRecord(site.locality, site.river, dates.0, mostLikely, dates.1, site.averageBreakup,
                    WindowProb(pdf, mostLikely),
                    BandProb(pdf, OneOrTwoDays), BandProb(pdf, ThreeToSevenDays),
                    BandProb(pdf, WeekTwo), BandProb(pdf, WeekThree)))
  }

  /** The record with the window the label and the plot describe: the mass
      of `round(mu_0) ± 3` days. */
  function MakeRecordCentred(year: int, site: Site, ii: int, mu: real, pdf: seq<real>): Result<ResultRecord>
  {
    var rec :- MakeRecord(year, site, ii, mu, pdf);
    Ok(rec.(probWindow := CentredWindowProb(pdf, rec.mostLikely)))
  }

  /** The corrected record differs from the script's only in its window,
      which there covers `round(mu_0) - 3` to `round(mu_0) + 3` (lead times 0
      to 6 when that would reach before 0), and so agrees with the days the
      2025 plot shades. */
  lemma MakeRecordCentredWindow(year: int, site: Site, ii: int, mu: real, pdf: seq<real>)
    ensures MakeRecordCentred(year, site, ii, mu, pdf).Ok? <==> MakeRecord(year, site, ii, mu, pdf).Ok?
    ensures MakeRecordCentred(year, site, ii, mu, pdf).Ok? ==>
      var rec := MakeRecord(year, site, ii, mu, pdf).value;
      var fixed := MakeRecordCentred(year, site, ii, mu, pdf).value;
      && fixed == rec.(probWindow := fixed.probWindow)
      && fixed.probWindow == Sum(Slice(pdf, CentredStart(rec.mostLikely), CentredStart(rec.mostLikely) + 7))
      && (rec.mostLikely < 3 ==> CentredWindowDays(rec.mostLikely) == Range(0, 7))
      && (3 <= rec.mostLikely <= 97 ==> CentredWindowDays(rec.mostLikely) == Range(rec.mostLikely - 3, rec.mostLikely + 4))
      && (!Shifted(rec.mostLikely) ==> CentredWindowDays(rec.mostLikely) == ShadedDays(rec.mostLikely))
  {
    var r := MakeRecord(year, site, ii, mu, pdf);
    if r.Ok? {
      var ml := r.value.mostLikely;
      assert MakeRecordCentred(year, site, ii, mu, pdf) == Ok(r.value.(probWindow := CentredWindowProb(pdf, ml)));
      CentredWindowShape(ml);
    }
  }

  /** Both dates exist unless one falls outside years 1 to 9999, which
      is an OverflowError. */
  lemma RecordDatesMeaning(year: int, ii: int, mostLikely: int)
    requires 1000 <= year <= MaxYear
    ensures RecordDates(year, ii, mostLikely).Ok? <==>
              1 <= Ordinal(Date(year, 1, 1)) + ii <= MaxOrdinal &&
              1 <= Ordinal(Date(year, 1, 1)) + ii + mostLikely - 1 <= MaxOrdinal
    ensures RecordDates(year, ii, mostLikely).Err? ==> RecordDates(year, ii, mostLikely).error == OverflowError
  {
    JulianDayToDateJan1(ii + 1, year);
    JulianDayToDateJan1(mostLikely + ii, year);
  }

  /** The forecast is dated `ii` days after January 1 and the breakup
      `mostlikely - 1` days after that. */
  lemma RecordDatesOrdinals(year: int, ii: int, mostLikely: int)
    requires 1000 <= year <= MaxYear
    ensures RecordDates(year, ii, mostLikely).Ok? ==>
              Ordinal(RecordDates(year, ii, mostLikely).value.0) == Ordinal(Date(year, 1, 1)) + ii &&
              Ordinal(RecordDates(year, ii, mostLikely).value.1) == Ordinal(Date(year, 1, 1)) + ii + mostLikely - 1
  {
    JulianDayToDateJan1(ii + 1, year);
    JulianDayToDateJan1(mostLikely + ii, year);
  }

  /** Within the year, both dates exist. */
  lemma RecordDatesWithinYear(year: int, ii: int, mostLikely: int)
    requires 1000 <= year <= MaxYear
    ensures 0 <= ii < YearLength(year) && 1 <= ii + mostLikely <= YearLength(year) ==>
              RecordDates(year, ii, mostLikely).Ok?
  {
    if 0 <= ii < YearLength(year) {
      JulianDayInverse(ii + 1, year);
    }
    if 1 <= ii + mostLikely <= YearLength(year) {
      JulianDayInverse(mostLikely + ii, year);
    }
  }

  /** Within the year, the forecast is dated Julian day `ii + 1`. */
  lemma ForecastDateIsJulianDay(year: int, ii: int, mostLikely: int)
    requires 1000 <= year <= MaxYear
    ensures RecordDates(year, ii, mostLikely).Ok? && 0 <= ii < YearLength(year) ==>
              var fd := RecordDates(year, ii, mostLikely).value.0;
              fd.year == year && DayOfYear(fd) == ii + 1
  {
    var r := RecordDates(year, ii, mostLikely);
    var a := JulianDayToDate(ii + 1, year);
    var b := JulianDayToDate(mostLikely + ii, year);
    assert r == if a.Err? then Err(a.error) else if b.Err? then Err(b.error) else Ok((a.value, b.value));
    if r.Ok? && 0 <= ii < YearLength(year) {
      JulianDayOf(ii + 1, year, a.value);
    }
  }

  /** Within the year, the forecasted breakup is Julian day
      `ii + mostlikely`. */
  lemma ForecastedIsJulianDay(year: int, ii: int, mostLikely: int)
    requires 1000 <= year <= MaxYear
    ensures RecordDates(year, ii, mostLikely).Ok? && 1 <= ii + mostLikely <= YearLength(year) ==>
              var fc := RecordDates(year, ii, mostLikely).value.1;
              fc.year == year && DayOfYear(fc) == ii + mostLikely
  {
    var r := RecordDates(year, ii, mostLikely);
    var a := JulianDayToDate(ii + 1, year);
    var b := JulianDayToDate(mostLikely + ii, year);
    assert r == if a.Err? then Err(a.error) else if b.Err? then Err(b.error) else Ok((a.value, b.value));
    if r.Ok? && 1 <= ii + mostLikely <= YearLength(year) {
      JulianDayOf(mostLikely + ii, year, b.value);
    }
  }

  /** A record exists exactly when both dates of `RecordDates` exist for
      `mostlikely = round(mu_0)`, and then carries those dates. */
  lemma MakeRecordDated(year: int, site: Site, ii: int, mu: real, pdf: seq<real>)
    ensures MakeRecord(year, site, ii, mu, pdf).Ok? <==> RecordDates(year, ii, RoundHalfEven(mu)).Ok?
    ensures MakeRecord(year, site, ii, mu, pdf).Err? ==>
              MakeRecord(year, site, ii, mu, pdf).error == RecordDates(year, ii, RoundHalfEven(mu)).error
    ensures MakeRecord(year, site, ii, mu, pdf).Ok? ==>
      var rec := MakeRecord(year, site, ii, mu, pdf).value;
      rec.mostLikely == RoundHalfEven(mu) && (rec.forecastDate, rec.forecastedDate) == RecordDates(year, ii, RoundHalfEven(mu)).value
  {
  }

  /** A record carries the site's names and average date, the four bands
      of the density and the seven entries of `pdf` from `startidx` on,
      which are lead times `mostlikely - 4` to `mostlikely + 2` unless the
      window is shifted to start at lead time 0. */
  lemma MakeRecordFields(year: int, site: Site, ii: int, mu: real, pdf: seq<real>)
    ensures MakeRecord(year, site, ii, mu, pdf).Ok? ==>
      var rec := MakeRecord(year, site, ii, mu, pdf).value;
      && rec.location == site.locality && rec.river == site.river && rec.averageBreakup == site.averageBreakup
      && rec.probWindow == Sum(Slice(pdf, WindowStart(rec.mostLikely), WindowStart(rec.mostLikely) + 7))
      && (Shifted(rec.mostLikely) ==> WindowDays(rec.mostLikely) == Range(0, 7))
      && (!Shifted(rec.mostLikely) && rec.mostLikely <= 98 ==>
            WindowDays(rec.mostLikely) == Range(rec.mostLikely - 4, rec.mostLikely + 3))
      && rec.prob12 == BandProb(pdf, OneOrTwoDays) && rec.prob37 == BandProb(pdf, ThreeToSevenDays)
      && rec.probWeek2 == BandProb(pdf, WeekTwo) && rec.probWeek3 == BandProb(pdf, WeekThree)
  {
    var r := MakeRecord(year, site, ii, mu, pdf);
    if r.Ok? {
      var ml := r.value.mostLikely;
      assert r.value.probWindow == WindowProb(pdf, ml);
      WindowShape(ml);
    }
  }

  /** One pass of the day loop for day `ii`. */
  function Predict(year: int, site: Site, station: Table<string>, likelihood: seq<LikelihoodRow>, regress: Regression, ii: int)
    : Result<Option<ResultRecord>>
  {
    var ddval :- station.LabelCell(IntToString(year), ii);
    match regress(Training(OnDay(likelihood, ii)), ddval)
    case FitRaises => Err(ValueError("fit"))
    case PredictRaises => Ok(None)
    case Predicted(mu, pdf) =>
      var rec :- MakeRecord(year, site, ii, mu, pdf);
      Ok(Some(rec))
  }

  function StepOf(year: int, site: Site, station: Table<string>, likelihood: seq<LikelihoodRow>, regress: Regression): Step
  {
    ii => Predict(year, site, station, likelihood, regress, ii)
  }

  /** The outcomes of one day: the missing `2025` cell raises a KeyError and
      `fit` a ValueError; a ValueError from `predict` breaks the loop; a
      prediction gives the record made from it. */
  lemma PredictMeaning(year: int, site: Site, station: Table<string>, likelihood: seq<LikelihoodRow>, regress: Regression, ii: int)
    ensures var dd := station.LabelCell(IntToString(year), ii);
      var r := Predict(year, site, station, likelihood, regress, ii);
      && (dd.Err? ==> r == Err(dd.error))
      && (dd.Ok? ==>
            var fit := regress(Training(OnDay(likelihood, ii)), dd.value);
            && (fit.FitRaises? ==> r.Err? && r.error.ValueError?)
            && (fit.PredictRaises? ==> r == Ok(None))
            && (fit.Predicted? ==>
                  match MakeRecord(year, site, ii, fit.mu, fit.pdf)
                  case Ok(rec) => r == Ok(Some(rec))
                  case Err(e) => r == Err(e)))
  {
  }

  /** A record the day loop makes for day `ii`. */
  lemma RecordOfDay(year: int, site: Site, station: Table<string>, likelihood: seq<LikelihoodRow>, regress: Regression, ii: int, rec: ResultRecord)
    requires 1000 <= year <= MaxYear && Predict(year, site, station, likelihood, regress, ii) == Ok(Some(rec))
    ensures rec.location == site.locality && rec.river == site.river && rec.averageBreakup == site.averageBreakup
    ensures Ordinal(rec.forecastDate) == Ordinal(Date(year, 1, 1)) + ii
  {
    var dd := station.LabelCell(IntToString(year), ii);
    var fit := regress(Training(OnDay(likelihood, ii)), dd.value);
    MakeRecordDated(year, site, ii, fit.mu, fit.pdf);
    MakeRecordFields(year, site, ii, fit.mu, fit.pdf);
    RecordDatesOrdinals(year, ii, RoundHalfEven(fit.mu));
  }

  /** What a record made on day `ii` for `site` carries: the site's names
      and average breakup date, and the forecast date of that day. */
  ghost predicate MadeOn(site: Site, rec: ResultRecord, ii: int)
  {
    && rec.location == site.locality && rec.river == site.river && rec.averageBreakup == site.averageBreakup
    && Ordinal(rec.forecastDate) == Ordinal(Date(Year, 1, 1)) + ii
  }

  /** Every record the day loop of a site can make is made on its day. */
  lemma StepRecords(site: Site, station: Table<string>, likelihood: seq<LikelihoodRow>, regress: Regression)
    ensures forall ii, rec :: StepOf(Year, site, station, likelihood, regress)(ii) == Ok(Some(rec)) ==> MadeOn(site, rec, ii)
  {
    forall ii, rec | StepOf(Year, site, station, likelihood, regress)(ii) == Ok(Some(rec))
      ensures MadeOn(site, rec, ii)
    {
      RecordOfDay(Year, site, station, likelihood, regress, ii, rec);
    }
  }

  /** A finished day loop whose every possible record is made on its day
      made its `k`-th record on day `lo + k`. */
  lemma DayLoopMadeOn(site: Site, step: Step, lo: int, hi: int)
    requires DaysFrom(step, lo, hi).Ok?
    requires forall ii, rec :: step(ii) == Ok(Some(rec)) ==> MadeOn(site, rec, ii)
    ensures |DaysFrom(step, lo, hi).value| <= if lo <= hi then hi - lo else 0
    ensures forall k :: 0 <= k < |DaysFrom(step, lo, hi).value| ==> MadeOn(site, DaysFrom(step, lo, hi).value[k], lo + k)
  {
    DaysFromMeaning(step, lo, hi);
  }

  /** One site: skipped when broken up, otherwise its combined file, its
      training table and its day loop. */
  function SiteRecords(inp: Inputs, days: seq<(BreakupRow, int)>, site: Site): Result<seq<ResultRecord>>
  {
    if site.siteID in inp.brokenUp then Ok([])
    else if CombinedName(site.siteID) !in inp.combined then Err(FileNotFound(CombinedName(site.siteID)))
    else
      var station := inp.combined[CombinedName(site.siteID)];
      var likelihood :- Likelihood(SiteHistory(days, site.siteID), station, TableLo, TableHi, Column);
      DaysFrom(StepOf(Year, site, station, likelihood, inp.regress), DayRange(inp.daily, inp.today).0, DayRange(inp.daily, inp.today).1)
  }

  /** The site loop, one site after the other. */
  function AllRecords(inp: Inputs, days: seq<(BreakupRow, int)>, sites: seq<Site>): Result<seq<ResultRecord>>
    decreases |sites|
  {
    if sites == [] then Ok([])
    else
      var before :- AllRecords(inp, days, sites[..|sites| - 1]);
      var more :- SiteRecords(inp, days, sites[|sites| - 1]);
      Ok(before + more)
  }

  /** The whole script: the daily reports, or the exception that stops it. */
  function Outcome(inp: Inputs): Result<seq<DailyReport>>
  {
    var days :- DayColumn(inp.breakups, DatestrToJulianDay);
    var recs :- AllRecords(inp, days, inp.sites);
    Ok(Reports(Filed(recs)))
  }

  // ---------------------------------------------------------------------
  // What the script computes

  /** A site that has broken up contributes nothing. */
  lemma BrokenUpSkipped(inp: Inputs, days: seq<(BreakupRow, int)>, site: Site)
    requires site.siteID in inp.brokenUp
    ensures SiteRecords(inp, days, site) == Ok([])
  {
  }

  /** A site's records are at most one per day of the range, carry the
      site's name, and are dated on consecutive days from the day after the
      first day of the range on. */
  lemma SiteRecordsMeaning(inp: Inputs, days: seq<(BreakupRow, int)>, site: Site)
    requires SiteRecords(inp, days, site).Ok? && site.siteID !in inp.brokenUp
    ensures var recs := SiteRecords(inp, days, site).value;
      var (lo, hi) := DayRange(inp.daily, inp.today);
      && |recs| <= (if lo <= hi then hi - lo else 0)
      && forall k :: 0 <= k < |recs| ==>
           recs[k].location == site.locality &&
           Ordinal(recs[k].forecastDate) == Ordinal(Date(Year, 1, 1)) + lo + k
  {
    var station := inp.combined[CombinedName(site.siteID)];
    var likelihood := Likelihood(SiteHistory(days, site.siteID), station, TableLo, TableHi, Column).value;
    var (lo, hi) := DayRange(inp.daily, inp.today);
    var recs := SiteRecords(inp, days, site).value;
    assert DaysFrom(StepOf(Year, site, station, likelihood, inp.regress), lo, hi) == Ok(recs);
    StepRecords(site, station, likelihood, inp.regress);
    DayLoopMadeOn(site, StepOf(Year, site, station, likelihood, inp.regress), lo, hi);
  }

  /** Every record comes from a site of the table that has not broken up,
      and carries its names and average breakup date. */
  lemma {:induction false} AllRecordsFromSites(inp: Inputs, days: seq<(BreakupRow, int)>, sites: seq<Site>)
    requires AllRecords(inp, days, sites).Ok?
    ensures forall rec :: rec in AllRecords(inp, days, sites).value ==>
              exists s :: s in sites && s.siteID !in inp.brokenUp && rec.location == s.locality &&
                          rec.river == s.river && rec.averageBreakup == s.averageBreakup
    decreases |sites|
  {
    if sites != [] {
      var init := sites[..|sites| - 1];
      var site := sites[|sites| - 1];
      AllRecordsFromSites(inp, days, init);
      var more := SiteRecords(inp, days, site).value;
      forall rec | rec in more
        ensures site.siteID !in inp.brokenUp && rec.location == site.locality &&
                rec.river == site.river && rec.averageBreakup == site.averageBreakup
      {
        var station := inp.combined[CombinedName(site.siteID)];
        var likelihood := Likelihood(SiteHistory(days, site.siteID), station, TableLo, TableHi, Column).value;
        var (lo, hi) := DayRange(inp.daily, inp.today);
        assert DaysFrom(StepOf(Year, site, station, likelihood, inp.regress), lo, hi) == Ok(more);
        var k :| 0 <= k < |more| && more[k] == rec;
        DaysFromAt(StepOf(Year, site, station, likelihood, inp.regress), lo, hi, more, k);
        StepRecords(site, station, likelihood, inp.regress);
        assert MadeOn(site, more[k], lo + k);
      }
      forall rec | rec in AllRecords(inp, days, sites).value
        ensures exists s :: s in sites && s.siteID !in inp.brokenUp && rec.location == s.locality &&
                            rec.river == s.river && rec.averageBreakup == s.averageBreakup
      {
        if rec in more {
          assert site in sites;
        } else {
          var s :| s in init && s.siteID !in inp.brokenUp && rec.location == s.locality &&
                   rec.river == s.river && rec.averageBreakup == s.averageBreakup;
          assert s in sites;
        }
      }
    }
  }

  /** The reports: one file per forecast date, each sorted by river and
      average breakup date, each row forecast on its file's date, and
      together every record once. */
  lemma OutcomeReports(inp: Inputs)
    requires Outcome(inp).Ok?
    ensures var days := DayColumn(inp.breakups, DatestrToJulianDay).value;
      var recs := AllRecords(inp, days, inp.sites).value;
      var reports := Outcome(inp).value;
      && (forall i, j :: 0 <= i < j < |reports| ==> reports[i].fileName != reports[j].fileName)
      && (forall i :: 0 <= i < |reports| ==> SortedRows(reports[i].rows))
      && (forall i, rec :: 0 <= i < |reports| && rec in reports[i].rows ==> reports[i].fileName == ReportName(rec.forecastDate))
      && multiset(AllRows(reports)) == multiset(recs)
  {
    var days := DayColumn(inp.breakups, DatestrToJulianDay).value;
    var recs := AllRecords(inp, days, inp.sites).value;
    var kvs := Filed(recs);
    ReportNamesDistinct(kvs);
    forall i | 0 <= i < |Reports(kvs)|
      ensures SortedRows(Reports(kvs)[i].rows)
      ensures forall rec :: rec in Reports(kvs)[i].rows ==> Reports(kvs)[i].fileName == ReportName(rec.forecastDate)
    {
      ReportRows(kvs, i);
      ReportRowsDated(kvs, i);
    }
    ReportsPermuteRecords(kvs);
    assert Values(kvs) == recs;
  }

  // ---------------------------------------------------------------------
  // The script

  lemma {:induction false} AllRecordsSticky(inp: Inputs, days: seq<(BreakupRow, int)>, sites: seq<Site>, k: nat)
    requires k <= |sites| && AllRecords(inp, days, sites[..k]).Err?
    ensures AllRecords(inp, days, sites) == AllRecords(inp, days, sites[..k])
    decreases |sites|
  {
    if k < |sites| {
      assert sites[..|sites| - 1][..k] == sites[..k];
      AllRecordsSticky(inp, days, sites[..|sites| - 1], k);
    } else {
      assert sites[..k] == sites;
    }
  }

  lemma AllRecordsStep(inp: Inputs, days: seq<(BreakupRow, int)>, sites: seq<Site>, i: nat)
    requires i < |sites| && AllRecords(inp, days, sites[..i]).Ok?
    ensures AllRecords(inp, days, sites[..i + 1]) ==
            match SiteRecords(inp, days, sites[i])
            case Ok(more) => Ok(AllRecords(inp, days, sites[..i]).value + more)
            case Err(e) => Err(e)
  {
    assert sites[..i + 1][..i] == sites[..i];
  }

  /** The main program, site by site and day by day, filing each record in
      `results` and writing the reports at the end. */
  method Run(inp: Inputs) returns (r: Result<seq<DailyReport>>)
    ensures r == Outcome(inp)
  {
    var days := DayColumn(inp.breakups, DatestrToJulianDay);
    if days.Err? {
      return Err(days.error);
    }
    var results := new OrderedGroups<ValidDate, ResultRecord>();
    var (lo, hi) := DayRange(inp.daily, inp.today);
    var recs: seq<ResultRecord> := [];
    for i := 0 to |inp.sites|
      invariant results.Valid()
      invariant AllRecords(inp, days.value, inp.sites[..i]) == Ok(recs)
      invariant results.added == Filed(recs)
    {
      var site := inp.sites[i];
      AllRecordsStep(inp, days.value, inp.sites, i);
      if site.siteID in inp.brokenUp {
        assert recs + [] == recs;
        continue;
      }
      var name := CombinedName(site.siteID);
      if name !in inp.combined {
        AllRecordsSticky(inp, days.value, inp.sites, i + 1);
        return Err(FileNotFound(name));
      }
      var station := inp.combined[name];
      var likelihood := MakeLikelihood(SiteHistory(days.value, site.siteID), station, TableLo, TableHi, Column);
      if likelihood.Err? {
        AllRecordsSticky(inp, days.value, inp.sites, i + 1);
        return Err(likelihood.error);
      }
      var more := RunDays(results, StepOf(Year, site, station, likelihood.value, inp.regress), lo, hi);
      if more.Err? {
        AllRecordsSticky(inp, days.value, inp.sites, i + 1);
        return Err(more.error);
      }
      FiledAppend(recs, more.value);
      recs := recs + more.value;
    }
    assert inp.sites[..|inp.sites|] == inp.sites;
    var reports := WriteReports(results);
    return Ok(reports);
  }
}
