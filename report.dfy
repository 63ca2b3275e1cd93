/** The output side of the forecast scripts: a result record per forecast,
    the Python dict literal that carries it into the data frame, the sort by
    river and average breakup date, and one daily report per forecast date,
    written from the `results` dictionary. */
module Report {
  import opened Common
  import opened Text
  import opened Calendar
  import opened Groups

  /** The eleven columns of a row of a daily report. */
  datatype ResultRecord = ResultRecord(
    location: string,
    river: string,
    forecastDate: ValidDate,
    mostLikely: int,
    forecastedDate: ValidDate,
    averageBreakup: string,
    probWindow: real,
    prob12: real,
    prob37: real,
    probWeek2: real,
    probWeek3: real)

  // ---------------------------------------------------------------------
  // The `resultrecord = {...}` literal

  /** A value of the record dict. */
  datatype Value = Str(s: string) | Day(d: Date) | Int(i: int) | Prob(p: real)

  type Dict = seq<(string, Value)>

  /** `d[k] = v` on an insertion-ordered dict: a present key keeps its
      position and takes the new value, a new key goes last. */
  function Put<V>(d: seq<(string, V)>, k: string, v: V): (r: seq<(string, V)>)
    decreases |d|
  {
    if d == [] then [(k, v)]
    else if d[0].0 == k then [(k, v)] + d[1..]
    else [d[0]] + Put(d[1..], k, v)
  }

  /** A dict display `{k1: v1, k2: v2, ...}`: the pairs are stored one after
      the other, so a repeated key ends up holding its last value. */
  function DictLiteral(pairs: Dict): Dict
    decreases |pairs|
  {
    if pairs == [] then [] else Put(DictLiteral(pairs[..|pairs| - 1]), pairs[|pairs| - 1].0, pairs[|pairs| - 1].1)
  }

  function Keys<V>(d: seq<(string, V)>): (ks: seq<string>)
    ensures |ks| == |d|
  {
    seq(|d|, i requires 0 <= i < |d| => d[i].0)
  }

  /** `d.get(k)`. */
  function Lookup<V>(d: seq<(string, V)>, k: string): (r: Option<V>)
    ensures r.Some? <==> k in Keys(d)
    decreases |d|
  {
    if d == [] then None
    else
      assert Keys(d) == [d[0].0] + Keys(d[1..]);
      if d[0].0 == k then Some(d[0].1) else Lookup(d[1..], k)
  }

  /** In a dict whose keys are all different, each key finds its own value. */
  lemma {:induction false} LookupAt<V>(d: seq<(string, V)>, i: nat)
    requires i < |d| && Distinct(Keys(d))
    ensures Lookup(d, d[i].0) == Some(d[i].1)
    decreases |d|
  {
    assert Keys(d) == [d[0].0] + Keys(d[1..]);
    if i > 0 {
      assert Keys(d)[0] != Keys(d)[i];
      assert Keys(d[1..]) == Keys(d)[1..];
      LookupAt(d[1..], i - 1);
    }
  }

  lemma {:induction false} PutFresh<V>(d: seq<(string, V)>, k: string, v: V)
    requires k !in Keys(d)
    ensures Put(d, k, v) == d + [(k, v)]
    decreases |d|
  {
    if d != [] {
      assert Keys(d) == [d[0].0] + Keys(d[1..]);
      PutFresh(d[1..], k, v);
    }
  }

  lemma {:induction false} PutReplaces<V>(d: seq<(string, V)>, i: nat, v: V)
    requires i < |d| && Distinct(Keys(d))
    ensures Put(d, d[i].0, v) == d[i := (d[i].0, v)]
    decreases |d|
  {
    assert Keys(d) == [d[0].0] + Keys(d[1..]);
    if i > 0 {
      assert Keys(d)[0] != Keys(d)[i];
      assert Keys(d[1..]) == Keys(d)[1..];
      PutReplaces(d[1..], i - 1, v);
    }
  }

  /** After `d[k] = v`, `k` finds `v` and every other key finds what it found before. */
  lemma {:induction false} PutLookup<V>(d: seq<(string, V)>, k: string, v: V, k': string)
    ensures Lookup(Put(d, k, v), k) == Some(v)
    ensures k' != k ==> Lookup(Put(d, k, v), k') == Lookup(d, k')
    decreases |d|
  {
    if d != [] && d[0].0 != k {
      PutLookup(d[1..], k, v, k');
    }
  }

  /** A display whose keys are all different is the dict of its pairs. */
  lemma {:induction false} DistinctLiteral(pairs: Dict)
    requires Distinct(Keys(pairs))
    ensures DictLiteral(pairs) == pairs
    decreases |pairs|
  {
    if pairs != [] {
      var init := pairs[..|pairs| - 1];
      assert Keys(init) == Keys(pairs)[..|pairs| - 1];
      DistinctLiteral(init);
      assert Keys(pairs)[|pairs| - 1] !in Keys(init);
      PutFresh(init, pairs[|pairs| - 1].0, pairs[|pairs| - 1].1);
    }
  }

  /** A display whose last key repeats the key at position `i` of the
      others: it has one entry fewer, and position `i` holds the last value. */
  lemma RepeatedLastKey(pairs: Dict, i: nat, k: string, v: Value)
    requires Distinct(Keys(pairs)) && i < |pairs| && pairs[i].0 == k
    ensures DictLiteral(pairs + [(k, v)]) == pairs[i := (k, v)]
  {
    assert (pairs + [(k, v)])[..|pairs|] == pairs;
    DistinctLiteral(pairs);
    PutReplaces(pairs, i, v);
  }

  // The column names.

  const LocationKey := "location"
  const RiverKey := "river"
  const ForecastDateKey := "forecastdate"
  const MostLikelyKey := "most likely breakup in (days)"
  const ForecastedKey := "forecasted date"
  const AverageKey := "average breakup date"
  const ProbLead := "probability of breakup within "
  const WindowKey := ProbLead + "± 3 days around forecasted"
  const Prob12Key := ProbLead + "1 or 2 days"
  const Prob37Key := ProbLead + "3-7 days"
  const Week2Key := ProbLead + "week 2 from now"
  const Week3Key := ProbLead + "week 3 from now"

  /** The pairs of the record literal, in the order the scripts write them,
      with the eleventh key as given. */
  function RecordPairs(r: ResultRecord, lastKey: string): Dict
  {
    [(LocationKey, Str(r.location)), (RiverKey, Str(r.river)), (ForecastDateKey, Day(r.forecastDate)),
     (MostLikelyKey, Int(r.mostLikely)), (ForecastedKey, Day(r.forecastedDate)), (AverageKey, Str(r.averageBreakup)),
     (WindowKey, Prob(r.probWindow)), (Prob12Key, Prob(r.prob12)), (Prob37Key, Prob(r.prob37)),
     (Week2Key, Prob(r.probWeek2)), (lastKey, Prob(r.probWeek3))]
  }

  /** The 2024 literal as written: its last key repeats the week-2 key. */
  function RecordDictAsWritten(r: ResultRecord): Dict
  {
    DictLiteral(RecordPairs(r, Week2Key))
  }

  /** The literal with the week-3 key, as the 2025 script writes it. */
  function RecordDict(r: ResultRecord): Dict
  {
    DictLiteral(RecordPairs(r, Week3Key))
  }

  lemma WeekKeysDiffer()
    ensures Week2Key != Week3Key
  {
    assert Week2Key[|ProbLead| + 5] != Week3Key[|ProbLead| + 5];
  }

  lemma TenKeysDistinct(r: ResultRecord)
    ensures Distinct(Keys(RecordPairs(r, Week3Key)[..10]))
  {
  }

  /** The record dict has eleven columns, one per field, each holding that
      field; in particular week 3 holds `prob_wk3`. */
  lemma RecordDictComplete(r: ResultRecord)
    ensures RecordDict(r) == RecordPairs(r, Week3Key)
    ensures |RecordDict(r)| == 11 && Distinct(Keys(RecordDict(r)))
    ensures Lookup(RecordDict(r), Week2Key) == Some(Prob(r.probWeek2))
    ensures Lookup(RecordDict(r), Week3Key) == Some(Prob(r.probWeek3))
  {
    var p := RecordPairs(r, Week3Key);
    WeekKeysDiffer();
    TenKeysDistinct(r);
    assert Keys(p)[10] !in Keys(p)[..10];
    assert Distinct(Keys(p)) by {
      forall i, j | 0 <= i < j < 11 ensures Keys(p)[i] != Keys(p)[j] {
        if j < 10 {
          assert Keys(p)[..10][i] != Keys(p)[..10][j];
        } else {
          assert Keys(p)[i] in Keys(p)[..10];
        }
      }
    }
    DistinctLiteral(p);
    LookupAt(p, 9);
    LookupAt(p, 10);
  }

  /** The 2024 literal is the first ten pairs with `prob_wk3` in the
      week-2 position, and its keys are all different. */
  lemma AsWrittenPairs(r: ResultRecord)
    ensures var d := RecordPairs(r, Week3Key)[..10][9 := (Week2Key, Prob(r.probWeek3))];
      RecordDictAsWritten(r) == d && Distinct(Keys(d)) && Week3Key !in Keys(d)
  {
    var ten := RecordPairs(r, Week3Key)[..10];
    TenKeysDistinct(r);
    assert RecordPairs(r, Week2Key) == ten + [(Week2Key, Prob(r.probWeek3))];
    RepeatedLastKey(ten, 9, Week2Key, Prob(r.probWeek3));
    var d := ten[9 := (Week2Key, Prob(r.probWeek3))];
    WeekKeysDiffer();
    assert Keys(d) == Keys(ten)[9 := Week2Key];
    assert Distinct(Keys(d));
  }

  /** As written, the 2024 dict has only ten columns: its week-2 column holds
      `prob_wk3`, and there is no week-3 column. */
  lemma WeekThreeLost(r: ResultRecord)
    ensures |RecordDictAsWritten(r)| == 10
    ensures Lookup(RecordDictAsWritten(r), Week2Key) == Some(Prob(r.probWeek3))
    ensures Lookup(RecordDictAsWritten(r), Week3Key) == None
  {
    AsWrittenPairs(r);
    LookupAt(RecordDictAsWritten(r), 9);
  }

  /** The columns the reports are sorted by, and the forecast date, survive
      in the 2024 dict. */
  lemma AsWrittenSortKeys(r: ResultRecord)
    ensures Lookup(RecordDictAsWritten(r), RiverKey) == Some(Str(r.river))
    ensures Lookup(RecordDictAsWritten(r), AverageKey) == Some(Str(r.averageBreakup))
    ensures Lookup(RecordDictAsWritten(r), ForecastDateKey) == Some(Day(r.forecastDate))
  {
    AsWrittenPairs(r);
    LookupAt(RecordDictAsWritten(r), 1);
    LookupAt(RecordDictAsWritten(r), 2);
    LookupAt(RecordDictAsWritten(r), 5);
  }

  // ---------------------------------------------------------------------
  // `outdf.sort_values(['river', "average breakup date"])`

  /** The sort order: by river, then by average breakup date. */
  predicate RowLess(a: ResultRecord, b: ResultRecord)
  {
    Less(a.river, b.river) || (a.river == b.river && Less(a.averageBreakup, b.averageBreakup))
  }

  /** No row sorts before one that precedes it. */
  predicate SortedRows(rows: seq<ResultRecord>)
  {
    forall i, j :: 0 <= i < j < |rows| ==> !RowLess(rows[j], rows[i])
  }

  /** Insert `x` after every row that does not sort after it. */
  function InsertRow(rows: seq<ResultRecord>, x: ResultRecord): seq<ResultRecord>
    decreases |rows|
  {
    if rows == [] then [x]
    else if RowLess(x, rows[0]) then [x] + rows
    else [rows[0]] + InsertRow(rows[1..], x)
  }

  /** A stable insertion sort. */
  function SortRows(rows: seq<ResultRecord>): seq<ResultRecord>
    decreases |rows|
  {
    if rows == [] then [] else InsertRow(SortRows(rows[..|rows| - 1]), rows[|rows| - 1])
  }

  lemma {:induction false} InsertRowMembers(rows: seq<ResultRecord>, x: ResultRecord)
    ensures multiset(InsertRow(rows, x)) == multiset(rows) + multiset{x}
    decreases |rows|
  {
    if rows != [] && !RowLess(x, rows[0]) {
      InsertRowMembers(rows[1..], x);
      assert rows == [rows[0]] + rows[1..];
    }
  }

  lemma RowLessTransitive(a: ResultRecord, b: ResultRecord, c: ResultRecord)
    ensures RowLess(a, b) && RowLess(b, c) ==> RowLess(a, c)
  {
    if Less(a.river, b.river) && Less(b.river, c.river) {
      LessTransitive(a.river, b.river, c.river);
    } else if a.river == b.river == c.river && Less(a.averageBreakup, b.averageBreakup) && Less(b.averageBreakup, c.averageBreakup) {
      LessTransitive(a.averageBreakup, b.averageBreakup, c.averageBreakup);
    }
  }

  lemma RowLessAsymmetric(a: ResultRecord, b: ResultRecord)
    ensures RowLess(a, b) ==> !RowLess(b, a)
  {
    RowLessTransitive(a, b, a);
    LessIrreflexive(a.river);
    LessIrreflexive(a.averageBreakup);
  }

  lemma {:induction false} InsertRowSorted(rows: seq<ResultRecord>, x: ResultRecord)
    requires SortedRows(rows)
    ensures SortedRows(InsertRow(rows, x))
    decreases |rows|
  {
    if rows == [] {
    } else if RowLess(x, rows[0]) {
      var r := [x] + rows;
      forall j | 1 <= j < |r| ensures !RowLess(r[j], x) {
        RowLessTransitive(r[j], x, rows[0]);
        RowLessAsymmetric(x, rows[0]);
      }
    } else {
      var t := InsertRow(rows[1..], x);
      InsertRowSorted(rows[1..], x);
      InsertRowMembers(rows[1..], x);
      forall j | 0 <= j < |t| ensures !RowLess(t[j], rows[0]) {
        assert t[j] in multiset(t);
        if t[j] != x {
          var k :| 0 <= k < |rows[1..]| && rows[1..][k] == t[j];
          assert rows[k + 1] == t[j];
        }
      }
    }
  }

  /** The report rows are in (river, average breakup date) order and are
      exactly the rows filed. */
  lemma SortRowsMeaning(rows: seq<ResultRecord>)
    ensures SortedRows(SortRows(rows))
    ensures multiset(SortRows(rows)) == multiset(rows)
  {
    SortRowsSorted(rows);
    SortRowsPermutes(rows);
  }

  lemma {:induction false} SortRowsSorted(rows: seq<ResultRecord>)
    ensures SortedRows(SortRows(rows))
    decreases |rows|
  {
    if rows != [] {
      SortRowsSorted(rows[..|rows| - 1]);
      InsertRowSorted(SortRows(rows[..|rows| - 1]), rows[|rows| - 1]);
    }
  }

  lemma {:induction false} SortRowsPermutes(rows: seq<ResultRecord>)
    ensures multiset(SortRows(rows)) == multiset(rows)
    decreases |rows|
  {
    if rows != [] {
      var init, last := rows[..|rows| - 1], rows[|rows| - 1];
      var sorted := SortRows(init);
      SortRowsPermutes(init);
      InsertRowMembers(sorted, last);
      assert SortRows(rows) == InsertRow(sorted, last);
      MultisetSnoc(rows);
    }
  }

  // ---------------------------------------------------------------------
  // The daily reports

  datatype DailyReport = DailyReport(fileName: string, rows: seq<ResultRecord>)

  /** `f"daily_report_{forecastdate}.csv"`. */
  function ReportName(d: ValidDate): string
  {
    "daily_report_" + FormatIso(d) + ".csv"
  }

  /** Different forecast dates give different file names. */
  lemma ReportNameInjective(a: ValidDate, b: ValidDate)
    requires ReportName(a) == ReportName(b)
    ensures a == b
  {
    assert FormatIso(a) == ReportName(a)[13..23];
    assert FormatIso(b) == ReportName(b)[13..23];
    ParseFormatIso(a);
    ParseFormatIso(b);
  }

  /** One report per forecast date of `results`, in the dict's key order. */
  function ReportsFor(keys: seq<ValidDate>, kvs: seq<(ValidDate, ResultRecord)>): (r: seq<DailyReport>)
    ensures |r| == |keys|
    decreases |keys|
  {
    if keys == [] then []
    else
      var k := keys[|keys| - 1];
      ReportsFor(keys[..|keys| - 1], kvs) + [DailyReport(ReportName(k), SortRows(Members(kvs, k)))]
  }

  /** The reports written once every record has been filed under its date. */
  function Reports(kvs: seq<(ValidDate, ResultRecord)>): seq<DailyReport>
  {
    ReportsFor(FirstKeys(kvs), kvs)
  }

  lemma {:induction false} ReportsForAt(keys: seq<ValidDate>, kvs: seq<(ValidDate, ResultRecord)>, i: nat)
    requires i < |keys|
    ensures ReportsFor(keys, kvs)[i] == DailyReport(ReportName(keys[i]), SortRows(Members(kvs, keys[i])))
    decreases |keys|
  {
    if i < |keys| - 1 {
      ReportsForAt(keys[..|keys| - 1], kvs, i);
    }
  }

  lemma ReportsForSnoc(keys: seq<ValidDate>, kvs: seq<(ValidDate, ResultRecord)>, i: nat)
    requires i < |keys|
    ensures ReportsFor(keys[..i + 1], kvs) ==
            ReportsFor(keys[..i], kvs) + [DailyReport(ReportName(keys[i]), SortRows(Members(kvs, keys[i])))]
  {
    assert keys[..i + 1][..i] == keys[..i];
  }

  /** Every report has its own file name. */
  lemma ReportNamesDistinct(kvs: seq<(ValidDate, ResultRecord)>)
    ensures forall i, j :: 0 <= i < j < |Reports(kvs)| ==> Reports(kvs)[i].fileName != Reports(kvs)[j].fileName
  {
    FirstKeysMeaning(kvs);
    var keys := FirstKeys(kvs);
    forall i, j | 0 <= i < j < |Reports(kvs)| ensures Reports(kvs)[i].fileName != Reports(kvs)[j].fileName {
      ReportsForAt(keys, kvs, i);
      ReportsForAt(keys, kvs, j);
      if ReportName(keys[i]) == ReportName(keys[j]) {
        ReportNameInjective(keys[i], keys[j]);
      }
    }
  }

  /** The report of a forecast date holds, sorted, exactly the records filed
      under that date, and every record filed under it is there. */
  lemma ReportRows(kvs: seq<(ValidDate, ResultRecord)>, i: nat)
    requires i < |Reports(kvs)|
    ensures Reports(kvs)[i].fileName == ReportName(FirstKeys(kvs)[i])
    ensures SortedRows(Reports(kvs)[i].rows)
    ensures multiset(Reports(kvs)[i].rows) == multiset(Members(kvs, FirstKeys(kvs)[i]))
    ensures forall r :: r in Reports(kvs)[i].rows ==> (FirstKeys(kvs)[i], r) in kvs
  {
    var k := FirstKeys(kvs)[i];
    ReportsForAt(FirstKeys(kvs), kvs, i);
    SortRowsMeaning(Members(kvs, k));
    forall r | r in Reports(kvs)[i].rows ensures (k, r) in kvs {
      assert r in multiset(Members(kvs, k));
      MembersFiledUnder(kvs, k, r);
    }
  }

  /** When every record is filed under its own forecast date, every row of a
      report was forecast on the date its file is named after. */
  lemma ReportRowsDated(kvs: seq<(ValidDate, ResultRecord)>, i: nat)
    requires forall k :: 0 <= k < |kvs| ==> kvs[k].0 == kvs[k].1.forecastDate
    requires i < |Reports(kvs)|
    ensures forall r :: r in Reports(kvs)[i].rows ==> Reports(kvs)[i].fileName == ReportName(r.forecastDate)
  {
    ReportRows(kvs, i);
    forall r | r in Reports(kvs)[i].rows ensures FirstKeys(kvs)[i] == r.forecastDate {
      var k :| 0 <= k < |kvs| && kvs[k] == (FirstKeys(kvs)[i], r);
    }
  }

  /** All the rows of a list of reports, one report after the other. */
  function AllRows(reports: seq<DailyReport>): seq<ResultRecord>
    decreases |reports|
  {
    if reports == [] then [] else AllRows(reports[..|reports| - 1]) + reports[|reports| - 1].rows
  }

  lemma {:induction false} AllRowsOfKeys(keys: seq<ValidDate>, kvs: seq<(ValidDate, ResultRecord)>)
    ensures multiset(AllRows(ReportsFor(keys, kvs))) == multiset(Concat(keys, kvs))
    decreases |keys|
  {
    if keys != [] {
      var r := ReportsFor(keys, kvs);
      assert r[..|r| - 1] == ReportsFor(keys[..|keys| - 1], kvs);
      AllRowsOfKeys(keys[..|keys| - 1], kvs);
      SortRowsMeaning(Members(kvs, keys[|keys| - 1]));
    }
  }

  /** Taken together, the reports hold every record filed, each once. */
  lemma ReportsPermuteRecords(kvs: seq<(ValidDate, ResultRecord)>)
    ensures multiset(AllRows(Reports(kvs))) == multiset(Values(kvs))
  {
    AllRowsOfKeys(FirstKeys(kvs), kvs);
    GroupsPermuteValues(kvs);
  }

  /** A report as the 2024 script writes it: `from_records` over the record
      dicts, so each row is a dict of ten columns. */
  datatype DictReport = DictReport(fileName: string, rows: seq<Dict>)

  function AsWrittenRows(rows: seq<ResultRecord>): (d: seq<Dict>)
    ensures |d| == |rows|
  {
    seq(|rows|, i requires 0 <= i < |rows| => RecordDictAsWritten(rows[i]))
  }

  /** The reports with every row turned into its 2024 dict. The sort by the
      river and average-date columns is the sort of the records, since
      those two keys hold the record's fields (AsWrittenSortKeys). */
  function AsWrittenReports(reports: seq<DailyReport>): (r: seq<DictReport>)
    ensures |r| == |reports|
  {
    seq(|reports|, i requires 0 <= i < |reports| => DictReport(reports[i].fileName, AsWrittenRows(reports[i].rows)))
  }

  /** Each dict report keeps its report's name and row count, and each row
      is the ten-column dict of its record with the sort columns intact. */
  lemma AsWrittenReportsRows(reports: seq<DailyReport>)
    ensures var out := AsWrittenReports(reports);
      forall i :: 0 <= i < |reports| ==>
        out[i].fileName == reports[i].fileName && |out[i].rows| == |reports[i].rows| &&
        forall j :: 0 <= j < |reports[i].rows| ==>
          var d := out[i].rows[j];
          var rec := reports[i].rows[j];
          |d| == 10 && Lookup(d, Week2Key) == Some(Prob(rec.probWeek3)) && Lookup(d, Week3Key) == None &&
          Lookup(d, RiverKey) == Some(Str(rec.river)) && Lookup(d, AverageKey) == Some(Str(rec.averageBreakup))
  {
    var out := AsWrittenReports(reports);
    forall i, j | 0 <= i < |reports| && 0 <= j < |reports[i].rows|
      ensures var d := out[i].rows[j];
        var rec := reports[i].rows[j];
        |d| == 10 && Lookup(d, Week2Key) == Some(Prob(rec.probWeek3)) && Lookup(d, Week3Key) == None &&
        Lookup(d, RiverKey) == Some(Str(rec.river)) && Lookup(d, AverageKey) == Some(Str(rec.averageBreakup))
    {
      WeekThreeLost(reports[i].rows[j]);
      AsWrittenSortKeys(reports[i].rows[j]);
    }
  }

  /** `for forecastdate in results: ...`: one report per key of the dict, in
      its order. */
  method WriteReports(results: OrderedGroups<ValidDate, ResultRecord>) returns (reports: seq<DailyReport>)
    requires results.Valid()
    ensures reports == Reports(results.added)
  {
    reports := [];
    var keys := results.keys;
    for i := 0 to |keys|
      invariant reports == ReportsFor(keys[..i], results.added)
    {
      var k := keys[i];
      assert k in results.groups && results.groups[k] == Members(results.added, k) by {
        assert k in keys;
        GroupsOfMeaning(results.added);
      }
      ReportsForSnoc(keys, results.added, i);
      reports := reports + [DailyReport(ReportName(k), SortRows(results.groups[k]))];
    }
    assert keys[..|keys|] == keys;
  }
}
