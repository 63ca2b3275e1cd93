/** scripts/acis2combinedDD.py: for every climatology file of a station in
    the forecast set, read the station's daily series, drop the seasons with
    too many missing days, fill the remaining gaps from the climatology, and
    write the daily and the cumulative degree-day tables, each under a
    four-line comment header. */
module GapFill {
  import opened Common
  import opened Text
  import opened Calendar
  import opened DegreeDays

  /** The script's own `prefix` and `nmissing`. */
  const Prefix: string := "DD25"
  const NMissing: nat := 10
  /** The season that is never excluded. */
  const ExemptYear: int := 2024
  const DataSuffix: string := "_T_max_min_avg_sd_swe.csv"

  // ---------------------------------------------------------------------
  // Which stations are processed

  /** `sorted(list(set(sum(st.values(), []))))`. */
  function FinalSet(lists: seq<seq<string>>): (r: seq<string>)
    ensures StrictlySorted(r)
    ensures forall s :: s in r <==> exists i :: 0 <= i < |lists| && s in lists[i]
  {
    SortedUnique(Flatten(lists))
  }

  /** `fp.stem[:-14]`: the station name of a climatology file. */
  function ClimName(stem: string): string
  {
    DropLast(stem, 14)
  }

  /** The test of the main loop: the name, with 'AIRPORT' shortened to 'AP',
      is one of the forecast stations. */
  predicate Selected(lists: seq<seq<string>>, stem: string)
  {
    ReplaceAll(ClimName(stem), "AIRPORT", "AP") in FinalSet(lists)
  }

  lemma SelectedMeans(lists: seq<seq<string>>, stem: string)
    ensures Selected(lists, stem) <==>
            exists i :: 0 <= i < |lists| && ReplaceAll(ClimName(stem), "AIRPORT", "AP") in lists[i]
  {
  }

  // ---------------------------------------------------------------------
  // Missing days and excluded years

  predicate IsMissing(d: StationDay)
  {
    d.tavg == Num(Sentinel)
  }

  /** The number of days of year `y` recorded as missing. */
  function MissingCount(days: seq<StationDay>, y: int): nat
    decreases |days|
  {
    if days == [] then 0
    else
      var last := days[|days| - 1];
      MissingCount(days[..|days| - 1], y) + (if IsMissing(last) && last.date.year == y then 1 else 0)
  }

  /** The years of the missing days, in order of appearance. */
  function MissingDayYears(days: seq<StationDay>): seq<int>
    decreases |days|
  {
    if days == [] then []
    else
      var last := days[|days| - 1];
      MissingDayYears(days[..|days| - 1]) + (if IsMissing(last) then [last.date.year] else [])
  }

  lemma {:induction false} MissingDayYearsCount(days: seq<StationDay>)
    ensures forall y :: y in MissingDayYears(days) <==> MissingCount(days, y) > 0
    decreases |days|
  {
    if days != [] {
      MissingDayYearsCount(days[..|days| - 1]);
    }
  }

  /** The years of `keys` with more than `nmissing` missing days. */
  function Significant(keys: seq<int>, days: seq<StationDay>): (r: seq<int>)
    decreases |keys|
  {
    if keys == [] then []
    else
      Significant(keys[..|keys| - 1], days) + (var y := keys[|keys| - 1]; if MissingCount(days, y) > NMissing then [y] else [])
  }

  /** `list.remove(x)` on a list that holds `x` at most once, or not at all
      (the script checks `2024 in missing_years` first). */
  function Without(s: seq<int>, x: int): (r: seq<int>)
    decreases |s|
  {
    if s == [] then []
    else Without(s[..|s| - 1], x) + (if s[|s| - 1] == x then [] else [s[|s| - 1]])
  }

  /** `missing_years`: grouping the missing days by year gives the years in
      ascending order; those over the limit are kept (`sorted` leaves an
      ascending list unchanged) and 2024 is removed. */
  function ExcludedYears(days: seq<StationDay>): seq<int>
  {
    Without(Significant(SortedUniqueInts(MissingDayYears(days)), days), ExemptYear)
  }

  lemma {:induction false} SignificantMembers(keys: seq<int>, days: seq<StationDay>)
    ensures forall y :: y in Significant(keys, days) <==> y in keys && MissingCount(days, y) > NMissing
    decreases |keys|
  {
    if keys != [] {
      SignificantMembers(keys[..|keys| - 1], days);
      assert forall y :: y in keys <==> y in keys[..|keys| - 1] || y == keys[|keys| - 1];
    }
  }

  lemma {:induction false} SignificantIncreasing(keys: seq<int>, days: seq<StationDay>)
    requires Increasing(keys)
    ensures Increasing(Significant(keys, days))
    decreases |keys|
  {
    if keys != [] {
      var init := keys[..|keys| - 1];
      var last := keys[|keys| - 1];
      SignificantIncreasing(init, days);
      SignificantMembers(init, days);
      assert forall y :: y in init ==> y < last;
      if MissingCount(days, last) > NMissing {
        IncreasingAppend(Significant(init, days), last);
      }
    }
  }

  lemma {:induction false} WithoutMembers(s: seq<int>, x: int)
    ensures forall y :: y in Without(s, x) <==> y in s && y != x
    decreases |s|
  {
    if s != [] {
      WithoutMembers(s[..|s| - 1], x);
      assert forall y :: y in s <==> y in s[..|s| - 1] || y == s[|s| - 1];
    }
  }

  lemma {:induction false} WithoutIncreasing(s: seq<int>, x: int)
    requires Increasing(s)
    ensures Increasing(Without(s, x))
    decreases |s|
  {
    if s != [] {
      var init := s[..|s| - 1];
      var last := s[|s| - 1];
      WithoutIncreasing(init, x);
      WithoutMembers(init, x);
      assert forall y :: y in init ==> y < last;
      if last != x {
        IncreasingAppend(Without(init, x), last);
      }
    }
  }

  /** The excluded years are listed once each, in ascending order, and they
      are exactly the years other than 2024 with more than ten missing days:
      ten missing days keep a season, eleven exclude it, and 2024 is never
      excluded. */
  lemma ExcludedYearsMeaning(days: seq<StationDay>)
    ensures Increasing(ExcludedYears(days))
    ensures forall y :: y in ExcludedYears(days) <==> MissingCount(days, y) > NMissing && y != ExemptYear
  {
    var keys := SortedUniqueInts(MissingDayYears(days));
    MissingDayYearsCount(days);
    SignificantMembers(keys, days);
    SignificantIncreasing(keys, days);
    WithoutMembers(Significant(keys, days), ExemptYear);
    WithoutIncreasing(Significant(keys, days), ExemptYear);
  }

  function CountOf(counts: map<int, nat>, y: int): nat
  {
    if y in counts then counts[y] else 0
  }

  /** `testdf[testdf.Tavg_F == -9999].groupby('year').size()`, then the
      selection of `missing_years`. */
  method MissingYears(days: seq<StationDay>) returns (years: seq<int>)
    ensures years == ExcludedYears(days)
  {
    var counts: map<int, nat> := map[];
    for i := 0 to |days|
      invariant forall y :: CountOf(counts, y) == MissingCount(days[..i], y)
    {
      assert days[..i + 1][..i] == days[..i];
      if IsMissing(days[i]) {
        var y := days[i].date.year;
        counts := counts[y := CountOf(counts, y) + 1];
      }
    }
    assert days[..|days|] == days;
    var keys := SortedUniqueInts(MissingDayYears(days));
    var significant: seq<int> := [];
    for j := 0 to |keys|
      invariant significant == Significant(keys[..j], days)
    {
      assert keys[..j + 1][..j] == keys[..j];
      if CountOf(counts, keys[j]) > NMissing {
        significant := significant + [keys[j]];
      }
    }
    assert keys[..|keys|] == keys;
    years := Without(significant, ExemptYear);
  }

  // ---------------------------------------------------------------------
  // Filtering and filling

  /** `testdf[~testdf.year.isin(missing_years)]`. */
  function KeepYears(days: seq<StationDay>, excluded: seq<int>): (r: seq<StationDay>)
    ensures |r| <= |days|
    decreases |days|
  {
    if days == [] then []
    else
      var last := days[|days| - 1];
      KeepYears(days[..|days| - 1], excluded) + (if last.date.year in excluded then [] else [last])
  }

  /** Every row of an excluded year is removed and every other row kept. */
  lemma {:induction false} KeepYearsMembers(days: seq<StationDay>, excluded: seq<int>)
    ensures forall x :: x in KeepYears(days, excluded) <==> x in days && x.date.year !in excluded
    decreases |days|
  {
    if days != [] {
      KeepYearsMembers(days[..|days| - 1], excluded);
      assert forall x :: x in days <==> x in days[..|days| - 1] || x == days[|days| - 1];
    }
  }

  /** The filter keeps the order of the rows: it distributes over
      concatenation, and a single row survives exactly when its year is not
      excluded. */
  lemma KeepYearsOrder(a: seq<StationDay>, b: seq<StationDay>, excluded: seq<int>)
    ensures KeepYears(a + b, excluded) == KeepYears(a, excluded) + KeepYears(b, excluded)
    ensures forall x :: KeepYears([x], excluded) == if x.date.year in excluded then [] else [x]
  {
    KeepYearsAppend(a, b, excluded);
    forall x ensures KeepYears([x], excluded) == if x.date.year in excluded then [] else [x] {
      assert [x][..0] == [];
    }
  }

  lemma {:induction false} KeepYearsAppend(a: seq<StationDay>, b: seq<StationDay>, excluded: seq<int>)
    ensures KeepYears(a + b, excluded) == KeepYears(a, excluded) + KeepYears(b, excluded)
    decreases |b|
  {
    if b == [] {
      assert a + b == a;
    } else {
      var b0 := b[..|b| - 1];
      assert (a + b)[..|a + b| - 1] == a + b0;
      assert (a + b)[|a + b| - 1] == b[|b| - 1];
      KeepYearsAppend(a, b0, excluded);
    }
  }

  /** `replace(-9999, np.nan)` on one cell. */
  function SentinelToNaN(c: Cell): (r: Cell)
    ensures r.NaN? <==> c.NaN? || c == Num(Sentinel)
    ensures r.Num? ==> r == c
  {
    if c == Num(Sentinel) then NaN else c
  }

  /** `climdf.iloc[d_since_march1]['Tavg_F']` for the row of date `d`. */
  function ClimTavg(clim: Frame<string>, d: ValidDate): Result<Cell>
  {
    clim.ILocCell(DaysPastMarch1(d), "Tavg_F")
  }

  /** The filled temperature of one row: an observed value stays, a missing
      or empty one takes the climatology value (itself NaN if the
      climatology holds the sentinel). */
  function FilledTavg(tavg: Cell, climValue: Cell): (r: Cell)
    ensures SentinelToNaN(tavg).Num? ==> r == tavg
    ensures SentinelToNaN(tavg).NaN? ==> r == SentinelToNaN(climValue)
  {
    if SentinelToNaN(tavg).Num? then tavg else SentinelToNaN(climValue)
  }

  /** The columns `d_since_march1` and `Tavg_clim` (the climatology looked up
      for every row, observed or not, so that a climatology that is too short
      or lacks `Tavg_F` fails on the first such row), then the fill of
      `Tavg_F`. */
  function FillGaps(days: seq<StationDay>, clim: Frame<string>): (r: Result<seq<StationDay>>)
    decreases |days|
  {
    if days == [] then Ok([])
    else
      var c :- ClimTavg(clim, days[0].date);
      var rest :- FillGaps(days[1..], clim);
      Ok([StationDay(days[0].date, FilledTavg(days[0].tavg, c))] + rest)
  }

  /** The fill succeeds exactly when every row's climatology lookup does; it
      then keeps the dates, keeps every observed temperature and replaces every
      missing one by the climatology of its day since March 1. */
  lemma {:induction false} FillGapsMeaning(days: seq<StationDay>, clim: Frame<string>)
    ensures FillGaps(days, clim).Ok? <==> forall k :: 0 <= k < |days| ==> ClimTavg(clim, days[k].date).Ok?
    ensures FillGaps(days, clim).Ok? ==>
      var r := FillGaps(days, clim).value;
      |r| == |days| &&
      forall k :: 0 <= k < |days| ==>
        r[k].date == days[k].date && r[k].tavg == FilledTavg(days[k].tavg, ClimTavg(clim, days[k].date).value)
    decreases |days|
  {
    if days != [] {
      FillGapsMeaning(days[1..], clim);
      assert forall k :: 1 <= k < |days| ==> days[1..][k - 1] == days[k];
    }
  }

  /** For season rows the position is 0..121, so a climatology of at least
      122 rows with a `Tavg_F` column always fills. */
  lemma FillGapsSucceeds(days: seq<StationDay>, clim: Frame<string>)
    requires forall k :: 0 <= k < |days| ==> InSeason(days[k].date)
    requires |clim.rows| >= 122 && "Tavg_F" in clim.columns
    ensures FillGaps(days, clim).Ok?
  {
    FillGapsMeaning(days, clim);
  }

  // ---------------------------------------------------------------------
  // Output text

  function YearsText(years: seq<int>): string
  {
    Join(seq(|years|, i requires 0 <= i < |years| => IntToString(years[i])), ", ")
  }

  /** `missingstr`. */
  function ProvenanceLine(years: seq<int>): string
  {
    if years != [] then ExcludedLead + NatToString(NMissing) + ExcludedMiddle + YearsText(years) + "\n"
    else NoneLead + NatToString(NMissing) + NoneTail + "\n"
  }

  /** Whether a header introduces the daily or the cumulative table. */
  datatype TableKind = Daily | Cumulative

  /** The four comment lines written before a table. */
  function Header(name: string, kind: TableKind, deltaT: int, years: seq<int>): (h: seq<string>)
    ensures |h| == 4
  {
    ["# " + name + "\n",
     (if kind.Daily? then DailyLead else CumulativeLead) + IntToString(deltaT) + DescriptionTail + "\n",
     ProvenanceLine(years),
     "#\n"]
  }

  predicate HasNoNewline(s: string)
  {
    '\n' !in s
  }

  /** A comment line: it starts with '#' and ends with its only newline. */
  predicate CommentLine(s: string)
  {
    |s| >= 2 && s[0] == '#' && s[|s| - 1] == '\n' && HasNoNewline(s[..|s| - 1])
  }

  lemma IntToStringNoNewline(y: int)
    ensures HasNoNewline(IntToString(y))
  {
  }

  lemma {:induction false} JoinNoNewline(parts: seq<string>, sep: string)
    requires HasNoNewline(sep) && forall i :: 0 <= i < |parts| ==> HasNoNewline(parts[i])
    ensures HasNoNewline(Join(parts, sep))
    decreases |parts|
  {
    if |parts| > 1 {
      JoinNoNewline(parts[..|parts| - 1], sep);
    }
  }

  lemma YearsTextNoNewline(years: seq<int>)
    ensures HasNoNewline(YearsText(years))
  {
    var ss := seq(|years|, i requires 0 <= i < |years| => IntToString(years[i]));
    forall i | 0 <= i < |ss| ensures HasNoNewline(ss[i]) {
      IntToStringNoNewline(years[i]);
    }
    JoinNoNewline(ss, ", ");
  }

  lemma NoNewlineConcat(a: string, b: string)
    requires HasNoNewline(a) && HasNoNewline(b)
    ensures HasNoNewline(a + b)
  {
  }

  lemma CommentLineOf(body: string)
    requires |body| >= 1 && body[0] == '#' && HasNoNewline(body)
    ensures CommentLine(body + "\n")
  {
    assert (body + "\n")[..|body|] == body;
  }

  const ExcludedLead: string := "# Excluded years (more than "
  const ExcludedMiddle: string := " days of missing data): "
  const NoneLead: string := "# No years excluded (all years had "
  const NoneTail: string := " or fewer days of missing data)"
  const DailyLead: string := "# Degree days egree days > "
  const CumulativeLead: string := "# Cumulative degree days > "
  const DescriptionTail: string := DescriptionTail1 + DescriptionTail2 + DescriptionTail3
  const DescriptionTail1: string := " starting March 1 from "
  const DescriptionTail2: string := "ACIS, gaps filled from "
  const DescriptionTail3: string := "climatology"

  lemma ExcludedLiteralsNoNewline()
    ensures HasNoNewline(ExcludedLead) && HasNoNewline(ExcludedMiddle)
  {
  }

  lemma NoneLiteralsNoNewline()
    ensures HasNoNewline(NoneLead) && HasNoNewline(NoneTail)
  {
  }

  lemma DescriptionLiteralsNoNewline()
    ensures HasNoNewline(DailyLead) && HasNoNewline(CumulativeLead) && HasNoNewline(DescriptionTail)
  {
    LeadsNoNewline();
    TailsNoNewline();
  }

  lemma LeadsNoNewline()
    ensures HasNoNewline(DailyLead) && HasNoNewline(CumulativeLead)
  {
  }

  lemma TailsNoNewline()
    ensures HasNoNewline(DescriptionTail1) && HasNoNewline(DescriptionTail2) && HasNoNewline(DescriptionTail3)
  {
  }

  lemma TenIsTen()
    ensures NatToString(NMissing) == "10"
  {
    assert NatToString(1) == "1" && NatToString(0) == "0";
  }

  lemma ProvenanceComment(years: seq<int>)
    ensures CommentLine(ProvenanceLine(years))
    ensures years == [] <==> ProvenanceLine(years) == NoneLead + "10" + NoneTail + "\n"
  {
    TenIsTen();
    var ten := NatToString(NMissing);
    IntToStringNoNewline(NMissing);
    if years != [] {
      YearsTextNoNewline(years);
      ExcludedLiteralsNoNewline();
      var body := ExcludedLead + ten + ExcludedMiddle + YearsText(years);
      NoNewlineConcat(ExcludedLead, ten);
      NoNewlineConcat(ExcludedLead + ten, ExcludedMiddle);
      NoNewlineConcat(ExcludedLead + ten + ExcludedMiddle, YearsText(years));
      CommentLineOf(body);
      assert ProvenanceLine(years) == body + "\n";
      assert ProvenanceLine(years)[2] == 'E' != (NoneLead + "10" + NoneTail + "\n")[2];
    } else {
      NoneLiteralsNoNewline();
      var body := NoneLead + ten + NoneTail;
      NoNewlineConcat(NoneLead, ten);
      NoNewlineConcat(NoneLead + ten, NoneTail);
      CommentLineOf(body);
      assert ProvenanceLine(years) == body + "\n";
    }
  }

  lemma DescriptionComment(kind: TableKind, deltaT: int)
    ensures CommentLine(Header("", kind, deltaT, [])[1])
    ensures forall name: string, years: seq<int> {:trigger Header(name, kind, deltaT, years)} ::
      Header(name, kind, deltaT, years)[1] == Header("", kind, deltaT, [])[1]
  {
    var lead := if kind.Daily? then DailyLead else CumulativeLead;
    DescriptionLiteralsNoNewline();
    IntToStringNoNewline(deltaT);
    NoNewlineConcat(lead, IntToString(deltaT));
    NoNewlineConcat(lead + IntToString(deltaT), DescriptionTail);
    CommentLineOf(lead + IntToString(deltaT) + DescriptionTail);
    assert Header("", kind, deltaT, [])[1] == lead + IntToString(deltaT) + DescriptionTail + "\n";
  }

  lemma NameComment(name: string)
    requires HasNoNewline(name)
    ensures CommentLine("# " + name + "\n")
  {
    NoNewlineConcat("# ", name);
    CommentLineOf("# " + name);
  }

  /** Each header is four comment lines: the station name, the description
      with the base temperature, the provenance line, and a bare '#'. The
      provenance line is the "No years excluded" line exactly when no year
      is excluded. */
  lemma HeaderShape(name: string, kind: TableKind, deltaT: int, years: seq<int>)
    requires HasNoNewline(name)
    ensures forall i :: 0 <= i < 4 ==> CommentLine(Header(name, kind, deltaT, years)[i])
    ensures Header(name, kind, deltaT, years)[0] == "# " + name + "\n"
    ensures Header(name, kind, deltaT, years)[2] == ProvenanceLine(years)
    ensures Header(name, kind, deltaT, years)[3] == "#\n"
    ensures years == [] <==> Header(name, kind, deltaT, years)[2] == NoneLead + "10" + NoneTail + "\n"
  {
    var h := Header(name, kind, deltaT, years);
    ProvenanceComment(years);
    DescriptionComment(kind, deltaT);
    NameComment(name);
    CommentLineOf("#");
    FourComments(h);
  }

  lemma FourComments(h: seq<string>)
    requires |h| == 4 && CommentLine(h[0]) && CommentLine(h[1]) && CommentLine(h[2]) && CommentLine(h[3])
    ensures forall i :: 0 <= i < 4 ==> CommentLine(h[i])
  {
  }

  // ---------------------------------------------------------------------
  // One station, and the main loop

  /** A climatology file: its stem and its table (`header=4, index_col=0`). */
  datatype ClimFile = ClimFile(stem: string, table: Frame<string>)

  /** A file the script writes: its path below the output directory, the
      comment header, and the table written after it. */
  datatype OutFile = OutFile(path: string, header: seq<string>, table: Frame<int>)

  /** `station2df` on the raw rows. */
  function Station2Days(raw: seq<RawDay>): (r: seq<StationDay>)
    ensures |r| == |raw|
  {
    seq(|raw|, i requires 0 <= i < |raw| => StationDay(raw[i].date, TavgCell(raw[i].tavg)))
  }

  /** The two files written for one selected station. */
  function StationOutputs(name: string, raw: seq<RawDay>, clim: Frame<string>): Result<seq<OutFile>>
  {
    var season := SeasonDays(Station2Days(raw));
    var years := ExcludedYears(season);
    var filled :- FillGaps(KeepYears(season, years), clim);
    var table := GroupedTable(Kept(filled), 25);
    var daily :- Pivot(table, DailyValue);
    var cumul :- Pivot(table, CumulativeValue);
    Ok([OutFile("dd_bystation/" + name + "_yearly_DD.csv", Header(name, Daily, 25, years), daily),
        OutFile("dd_cumul_bystation/" + name + "_yearly_" + Prefix + "_cumul.csv", Header(name, Cumulative, 25, years), cumul)])
  }

  /** One pass of the main loop: a station outside the forecast set is
      skipped; a selected station whose data file is absent stops the run. */
  function StepOutputs(lists: seq<seq<string>>, cf: ClimFile, stations: map<string, seq<RawDay>>): Result<seq<OutFile>>
  {
    var name := ClimName(cf.stem);
    if !Selected(lists, cf.stem) then Ok([])
    else if name + DataSuffix !in stations then Err(FileNotFound(name + DataSuffix))
    else StationOutputs(name, stations[name + DataSuffix], cf.table)
  }

  /** What a run leaves behind: the files written, in order, and the
      exception that stopped it, if any. */
  datatype RunResult = RunResult(written: seq<OutFile>, failure: Option<PyError>)

  /** The files written by the first climatology files, in order; the first
      failure ends the run, and the files written before it stay. */
  function RunOutputs(lists: seq<seq<string>>, clims: seq<ClimFile>, stations: map<string, seq<RawDay>>): RunResult
    decreases |clims|
  {
    if clims == [] then RunResult([], None)
    else
      var before := RunOutputs(lists, clims[..|clims| - 1], stations);
      if before.failure.Some? then before
      else
        match StepOutputs(lists, clims[|clims| - 1], stations)
        case Err(e) => RunResult(before.written, Some(e))
        case Ok(more) => RunResult(before.written + more, None)
  }

  /** The processing of one selected station, as the script does it: the
      frame is read, its season taken (dropping columns in place), the
      missing years found, the rows filtered and filled, and the two tables
      built. */
  method ProcessStation(name: string, raw: seq<RawDay>, clim: Frame<string>) returns (r: Result<seq<OutFile>>)
    ensures r == StationOutputs(name, raw, clim)
  {
    var st := new StationFrame.FromRaw(raw);
    assert st.days == Station2Days(raw);
    var mamj := GetMAMJ(st);
    var season := mamj.value;
    var years := MissingYears(season);
    var filled :- FillGaps(KeepYears(season, years), clim);
    var table := GetDdDf(filled, Prefix);
    var daily :- Pivot(table.value, DailyValue);
    var cumul := Pivot(table.value, CumulativeValue);
    var deltaT := DeltaT(Prefix).value;
    r := Ok([OutFile("dd_bystation/" + name + "_yearly_DD.csv", Header(name, Daily, deltaT, years), daily),
             OutFile("dd_cumul_bystation/" + name + "_yearly_" + Prefix + "_cumul.csv", Header(name, Cumulative, deltaT, years), cumul.value)]);
  }

  /** One climatology file of the main loop. */
  method RunOne(lists: seq<seq<string>>, finalset: seq<string>, fp: ClimFile, stations: map<string, seq<RawDay>>)
    returns (r: Result<seq<OutFile>>)
    requires finalset == FinalSet(lists)
    ensures r == StepOutputs(lists, fp, stations)
  {
    var name := ClimName(fp.stem);
    if ReplaceAll(name, "AIRPORT", "AP") !in finalset {
      return Ok([]);
    }
    var path := name + DataSuffix;
    if path !in stations {
      return Err(FileNotFound(path));
    }
    r := ProcessStation(name, stations[path], fp.table);
  }

  lemma RunStep(lists: seq<seq<string>>, clims: seq<ClimFile>, stations: map<string, seq<RawDay>>, i: nat)
    requires i < |clims|
    ensures var before := RunOutputs(lists, clims[..i], stations);
      RunOutputs(lists, clims[..i + 1], stations) ==
        if before.failure.Some? then before
        else match StepOutputs(lists, clims[i], stations)
          case Err(e) => RunResult(before.written, Some(e))
          case Ok(more) => RunResult(before.written + more, None)
  {
    assert clims[..i + 1][..i] == clims[..i];
  }

  /** The `__main__` loop over the climatology files, in listing order: each
      selected station's two files are written before the next file is
      looked at, so an exception keeps the files already written. */
  method Run(lists: seq<seq<string>>, clims: seq<ClimFile>, stations: map<string, seq<RawDay>>) returns (r: RunResult)
    ensures r == RunOutputs(lists, clims, stations)
  {
    var finalset := FinalSet(lists);
    var written: seq<OutFile> := [];
    for i := 0 to |clims|
      invariant RunOutputs(lists, clims[..i], stations) == RunResult(written, None)
    {
      RunStep(lists, clims, stations, i);
      var files := RunOne(lists, finalset, clims[i], stations);
      if files.Err? {
        RunFailureSticks(lists, clims, stations, i + 1);
        return RunResult(written, Some(files.error));
      }
      written := written + files.value;
    }
    assert clims[..|clims|] == clims;
    return RunResult(written, None);
  }

  /** A failure ends the run: once a prefix of the files fails, the whole
      listing leaves the same files and the same exception. */
  lemma {:induction false} RunFailureSticks(lists: seq<seq<string>>, clims: seq<ClimFile>, stations: map<string, seq<RawDay>>, i: nat)
    requires i <= |clims| && RunOutputs(lists, clims[..i], stations).failure.Some?
    ensures RunOutputs(lists, clims, stations) == RunOutputs(lists, clims[..i], stations)
    decreases |clims| - i
  {
    if i == |clims| {
      assert clims[..i] == clims;
    } else {
      RunStep(lists, clims, stations, i);
      RunFailureSticks(lists, clims, stations, i + 1);
    }
  }

  /** A longer listing only adds files: what a prefix wrote stays at the
      front of what the whole run writes. */
  lemma {:induction false} RunWrittenGrows(lists: seq<seq<string>>, clims: seq<ClimFile>, stations: map<string, seq<RawDay>>, i: nat)
    requires i <= |clims|
    ensures RunOutputs(lists, clims[..i], stations).written <= RunOutputs(lists, clims, stations).written
    decreases |clims| - i
  {
    if i == |clims| {
      assert clims[..i] == clims;
    } else {
      RunStep(lists, clims, stations, i);
      RunWrittenGrows(lists, clims, stations, i + 1);
    }
  }

  /** Every file written belongs to a selected station whose files come as a
      pair: the daily table, then the cumulative one. */
  lemma StationOutputsPair(name: string, raw: seq<RawDay>, clim: Frame<string>)
    requires HasNoNewline(name)
    ensures var r := StationOutputs(name, raw, clim);
      r.Ok? ==> (|r.value| == 2 &&
        r.value[0].header[2] == r.value[1].header[2] == ProvenanceLine(ExcludedYears(SeasonDays(Station2Days(raw)))) &&
        (forall f, i :: f in r.value && 0 <= i < 4 ==> CommentLine(f.header[i])))
  {
    var years := ExcludedYears(SeasonDays(Station2Days(raw)));
    HeaderShape(name, Daily, 25, years);
    HeaderShape(name, Cumulative, 25, years);
  }
}
