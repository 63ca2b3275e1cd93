/** get_acisids.py: `safelyget`, the parsing of the `sids` strings of the
    ACIS station-metadata answer, the per-station record of
    `postprocess_acis`, and the two walks over the rows of the
    breakup-model station files (`get_stationcodes`, `write_rfc_stations`).
    A CSV file is the list of rows `csv.reader` yields for it; opening and
    parsing files, the HTTP request and writing the summary file are not
    modelled. */
module StationMeta {
  import opened Common
  import opened Text

  // ---------------------------------------------------------------------
  // safelyget

  /** `safelyget(alist, idx, default)` on a list: `alist[idx]` with Python's
      indexing, where a negative position counts from the end, and `default`
      where that indexing raises IndexError. */
  function SafeIndex<T>(s: seq<T>, idx: int, default: T): (r: T)
    ensures 0 <= idx < |s| ==> r == s[idx]
    ensures -|s| <= idx < 0 ==> r == s[|s| + idx]
    ensures idx >= |s| || idx < -|s| ==> r == default
  {
    match ILocPosition(|s|, idx)
    case Some(p) => s[p]
    case None => default
  }

  /** `safelyget(adict, key, default)` on a dict: `default` where the lookup
      raises KeyError. */
  function SafeKey<K, V>(m: map<K, V>, k: K, default: V): (r: V)
    ensures k in m ==> r == m[k]
    ensures k !in m ==> r == default
  {
    if k in m then m[k] else default
  }

  // ---------------------------------------------------------------------
  // sidslist_to_dict

  /** The first space-separated field of a sid: the identifier. */
  function SidId(item: string): string
  {
    Split(item, ' ')[0]
  }

  /** The second space-separated field of a sid, its identifier type, or
      `None` when the sid has no space and `split(' ')[1]` raises. */
  function SidType(item: string): (r: Option<string>)
    ensures r.Some? <==> ' ' in item
    ensures r.Some? ==> SidId(item) + " " + r.value <= item
  {
    var k := FindChar(item, ' ');
    var parts := Split(item, ' ');
    if k == |item| then None
    else
      var rest := item[k + 1..];
      var k' := FindChar(rest, ' ');
      assert parts == [item[..k]] + Split(rest, ' ');
      assert parts[1] == rest[..k'];
      assert item == item[..k] + [' '] + rest;
      assert item[..k] + " " + rest[..k'] <= item;
      Some(parts[1])
  }

  /** `sidslist_to_dict`: each sid maps its type to its identifier, a later
      sid of a type replacing an earlier one; a sid without a second field
      raises IndexError. */
  function SidsToDict(sids: seq<string>): (r: Result<map<string, string>>)
    decreases |sids|
  {
    if sids == [] then Ok(map[])
    else
      var m :- SidsToDict(sids[..|sids| - 1]);
      var last := sids[|sids| - 1];
      match SidType(last)
      case None => Err(IndexError)
      case Some(t) => Ok(m[t := SidId(last)])
  }

  /** The identifier of the last sid of type `t`, if any: the reference the
      dictionary is checked against. */
  function LastIdOfType(sids: seq<string>, t: string): (r: Option<string>)
    ensures r.Some? <==> exists i :: 0 <= i < |sids| && SidType(sids[i]) == Some(t)
    decreases |sids|
  {
    if sids == [] then None
    else
      var init := sids[..|sids| - 1];
      assert forall i :: 0 <= i < |init| ==> init[i] == sids[i];
      if SidType(sids[|sids| - 1]) == Some(t) then Some(SidId(sids[|sids| - 1]))
      else LastIdOfType(init, t)
  }

  /** The last sid of its type wins. */
  lemma {:induction false} LastIdOfTypeAt(sids: seq<string>, t: string, i: nat)
    requires i < |sids| && SidType(sids[i]) == Some(t)
    requires forall j :: i < j < |sids| ==> SidType(sids[j]) != Some(t)
    ensures LastIdOfType(sids, t) == Some(SidId(sids[i]))
    decreases |sids|
  {
    if i < |sids| - 1 {
      var init := sids[..|sids| - 1];
      assert init[i] == sids[i];
      assert forall j :: i < j < |init| ==> init[j] == sids[j];
      LastIdOfTypeAt(init, t, i);
    }
  }

  /** `sidslist_to_dict` succeeds exactly when every sid holds a space, and
      then maps each type to the identifier of the last sid of that type. */
  lemma {:induction false} SidsToDictMeaning(sids: seq<string>)
    ensures SidsToDict(sids).Ok? <==> forall i :: 0 <= i < |sids| ==> ' ' in sids[i]
    ensures SidsToDict(sids).Ok? ==>
              forall t :: (t in SidsToDict(sids).value <==> LastIdOfType(sids, t).Some?)
                       && (t in SidsToDict(sids).value ==> SidsToDict(sids).value[t] == LastIdOfType(sids, t).value)
    ensures SidsToDict(sids).Err? ==> SidsToDict(sids).error == IndexError
    decreases |sids|
  {
    if sids != [] {
      var init := sids[..|sids| - 1];
      SidsToDictMeaning(init);
      assert forall i :: 0 <= i < |init| ==> init[i] == sids[i];
    }
  }

  /** `safelyget(sidslist_to_dict(sids), t, '')`: the identifier of the last
      sid of type `t`, or the empty string when there is none. */
  lemma SidLookup(sids: seq<string>, t: string)
    requires SidsToDict(sids).Ok?
    ensures SafeKey(SidsToDict(sids).value, t, "") == match LastIdOfType(sids, t) case Some(id) => id case None => ""
  {
    SidsToDictMeaning(sids);
  }

  // ---------------------------------------------------------------------
  // postprocess_acis

  /** One station of the ACIS `StnMeta` answer; `None` is a key the JSON
      object lacks. */
  datatype StationJson = StationJson(name: Option<string>, uid: Option<int>, sids: Option<seq<string>>,
                                     ll: Option<seq<real>>, elev: Option<real>,
                                     validDateRange: Option<seq<seq<string>>>)

  /** One record of the `postprocess_acis` frame. */
  datatype AcisRecord = AcisRecord(name: string, acisID: int, icao: string, nwsID: string,
                                   longitude: Cell, latitude: Cell, elevFt: Cell,
                                   validAvgTStart: string, validAvgTEnd: string,
                                   validSnowdepthStart: string, validSnowdepthEnd: string)

  const IcaoType: string := "5"
  const NwsType: string := "7"

  /** `safelyget(safelyget(stat, 'll', []), idx, np.nan)`. */
  function Coordinate(ll: Option<seq<real>>, idx: nat): (c: Cell)
    ensures ll.Some? && idx < |ll.value| ==> c == Num(ll.value[idx])
    ensures ll.None? || idx >= |ll.value| ==> c == NaN
  {
    var cells := match ll case Some(xs) => seq(|xs|, k requires 0 <= k < |xs| => Num(xs[k])) case None => [];
    SafeIndex(cells, idx, NaN)
  }

  /** The record `postprocess_acis` builds for one station, fields in the
      order Python evaluates them: `name`, `uid` and `sids` are required
      keys, the sids must parse, and `valid_daterange` must exist and hold
      at least two ranges; everything else falls back to a default. */
  function StationRecord(stat: StationJson): (r: Result<AcisRecord>)
    ensures r.Ok? <==> stat.name.Some? && stat.uid.Some? && stat.sids.Some?
                       && SidsToDict(stat.sids.value).Ok?
                       && stat.validDateRange.Some? && |stat.validDateRange.value| >= 2
    ensures stat.name.None? ==> r == Err(KeyError("name"))
    ensures stat.name.Some? && stat.uid.None? ==> r == Err(KeyError("uid"))
    ensures stat.name.Some? && stat.uid.Some? && stat.sids.None? ==> r == Err(KeyError("sids"))
    ensures r.Ok? ==> r.value.name == stat.name.value && r.value.acisID == stat.uid.value
    ensures r.Ok? ==> r.value.longitude == Coordinate(stat.ll, 0) && r.value.latitude == Coordinate(stat.ll, 1)
    ensures r.Ok? ==> r.value.elevFt == (match stat.elev case Some(e) => Num(e) case None => NaN)
    ensures r.Ok? ==>
      var ranges := stat.validDateRange.value;
      r.value.validAvgTStart == (if |ranges[0]| > 0 then ranges[0][0] else "") &&
      r.value.validAvgTEnd == (if |ranges[0]| > 1 then ranges[0][1] else "") &&
      r.value.validSnowdepthStart == (if |ranges[1]| > 0 then ranges[1][0] else "") &&
      r.value.validSnowdepthEnd == (if |ranges[1]| > 1 then ranges[1][1] else "")
  {
    if stat.name.None? then Err(KeyError("name"))
    else if stat.uid.None? then Err(KeyError("uid"))
    else if stat.sids.None? then Err(KeyError("sids"))
    else
      var ids :- SidsToDict(stat.sids.value);
      if stat.validDateRange.None? then Err(KeyError("valid_daterange"))
      else
        var ranges := stat.validDateRange.value;
        if |ranges| < 2 then Err(IndexError)
        else
          Ok(AcisRecord(stat.name.value, stat.uid.value,
                        SafeKey(ids, IcaoType, ""), SafeKey(ids, NwsType, ""),
                        Coordinate(stat.ll, 0), Coordinate(stat.ll, 1),
                        match stat.elev case Some(e) => Num(e) case None => NaN,
                        SafeIndex(ranges[0], 0, ""), SafeIndex(ranges[0], 1, ""),
                        SafeIndex(ranges[1], 0, ""), SafeIndex(ranges[1], 1, "")))
  }

  /** ICAO and NWSID are the identifiers of the last sids of types 5 and 7,
      empty when the station has none. */
  lemma StationRecordIds(stat: StationJson)
    requires StationRecord(stat).Ok?
    ensures StationRecord(stat).value.icao ==
              match LastIdOfType(stat.sids.value, IcaoType) case Some(id) => id case None => ""
    ensures StationRecord(stat).value.nwsID ==
              match LastIdOfType(stat.sids.value, NwsType) case Some(id) => id case None => ""
  {
    SidLookup(stat.sids.value, IcaoType);
    SidLookup(stat.sids.value, NwsType);
  }

  /** `postprocess_acis`: the list comprehension over the stations; the
      first station whose record raises ends it. */
  function PostprocessAcis(stations: seq<StationJson>): Result<seq<AcisRecord>>
  {
    MapAll(StationRecord, stations)
  }

  /** One record per station in input order; otherwise the error of the
      first station whose record fails. */
  lemma PostprocessAcisMeaning(stations: seq<StationJson>)
    ensures PostprocessAcis(stations).Ok? <==> forall i :: 0 <= i < |stations| ==> StationRecord(stations[i]).Ok?
    ensures PostprocessAcis(stations).Ok? ==>
              var v := PostprocessAcis(stations).value;
              |v| == |stations| && forall i :: 0 <= i < |stations| ==> StationRecord(stations[i]) == Ok(v[i])
    ensures PostprocessAcis(stations).Err? ==>
              exists i :: 0 <= i < |stations| && StationRecord(stations[i]) == Err(PostprocessAcis(stations).error)
                       && forall k :: 0 <= k < i ==> StationRecord(stations[k]).Ok?
  {
    MapAllMeaning(StationRecord, stations);
  }

  // ---------------------------------------------------------------------
  // get_stationcodes

  /** The rows of one CSV file, as `csv.reader` yields them (a blank line
      is an empty row). */
  type CsvRows = seq<seq<string>>

  /** `row[0]` of every row in order; an empty row raises IndexError. */
  function FirstFields(rows: CsvRows): (r: Result<seq<string>>)
    decreases |rows|
  {
    if rows == [] then Ok([])
    else
      var before :- FirstFields(rows[..|rows| - 1]);
      var row := rows[|rows| - 1];
      if row == [] then Err(IndexError) else Ok(before + [row[0]])
  }

  lemma {:induction false} FirstFieldsAppend(a: CsvRows, b: CsvRows)
    ensures FirstFields(a).Err? ==> FirstFields(a + b) == FirstFields(a)
    ensures FirstFields(a).Ok? && FirstFields(b).Err? ==> FirstFields(a + b) == FirstFields(b)
    ensures FirstFields(a).Ok? && FirstFields(b).Ok? ==>
              FirstFields(a + b) == Ok(FirstFields(a).value + FirstFields(b).value)
    decreases |b|
  {
    if b == [] {
      assert a + b == a;
      assert FirstFields(b) == Ok([]);
      if FirstFields(a).Ok? {
        assert FirstFields(a).value + [] == FirstFields(a).value;
      }
    } else {
      assert (a + b)[..|a + b| - 1] == a + b[..|b| - 1];
      var init, row := b[..|b| - 1], b[|b| - 1];
      assert (a + b)[|a + b| - 1] == row;
      FirstFieldsAppend(a, init);
      if FirstFields(a).Ok? && FirstFields(b).Ok? {
        var x, y := FirstFields(a).value, FirstFields(init).value;
        assert row != [] && FirstFields(b) == Ok(y + [row[0]]);
        assert FirstFields(a + b) == Ok((x + y) + [row[0]]);
        assert (x + y) + [row[0]] == x + (y + [row[0]]);
      }
    }
  }

  lemma {:induction false} FirstFieldsMeaning(rows: CsvRows)
    ensures FirstFields(rows).Ok? <==> forall j :: 0 <= j < |rows| ==> rows[j] != []
    ensures FirstFields(rows).Ok? ==>
              var v := FirstFields(rows).value;
              |v| == |rows| && forall j :: 0 <= j < |rows| ==> v[j] == rows[j][0]
    ensures FirstFields(rows).Err? ==> FirstFields(rows).error == IndexError
    decreases |rows|
  {
    if rows != [] {
      var init := rows[..|rows| - 1];
      FirstFieldsMeaning(init);
      assert forall j :: 0 <= j < |init| ==> init[j] == rows[j];
    }
  }

  /** What `get_stationcodes(filelist)` returns or raises. */
  function StationCodes(files: seq<CsvRows>): (r: Result<seq<string>>)
  {
    var firsts :- FirstFields(Flatten(files));
    Ok(SortedUnique(firsts))
  }

  /** Every row of every file is a row of the walk. */
  lemma FlattenRows(files: seq<CsvRows>)
    ensures forall row :: row in Flatten(files) <==> exists i :: 0 <= i < |files| && row in files[i]
  {
  }

  /** Any empty row makes the call raise IndexError. */
  lemma StationCodesOk(files: seq<CsvRows>)
    ensures StationCodes(files).Ok? <==> forall i, row :: 0 <= i < |files| && row in files[i] ==> row != []
    ensures StationCodes(files).Err? ==> StationCodes(files).error == IndexError
  {
    var rows := Flatten(files);
    FirstFieldsMeaning(rows);
    FlattenRows(files);
    if FirstFields(rows).Ok? {
      forall i, row | 0 <= i < |files| && row in files[i] ensures row != [] {
        assert row in rows;
      }
    } else {
      var j :| 0 <= j < |rows| && rows[j] == [];
      assert rows[j] in rows;
    }
  }

  /** The first fields are those of the non-empty rows. */
  lemma FirstFieldsMembers(rows: CsvRows, y: string)
    requires FirstFields(rows).Ok?
    ensures y in FirstFields(rows).value <==> exists row :: row in rows && row != [] && row[0] == y
  {
    FirstFieldsMeaning(rows);
    var v := FirstFields(rows).value;
    if y in v {
      var j :| 0 <= j < |v| && v[j] == y;
      assert rows[j] in rows;
    }
    if exists row :: row in rows && row != [] && row[0] == y {
      var row :| row in rows && row != [] && row[0] == y;
      var j :| 0 <= j < |rows| && rows[j] == row;
      assert v[j] == y;
    }
  }

  /** The codes are the distinct first fields of all rows of all files
      (`FlattenRows`), in ascending order. */
  lemma StationCodesMeaning(files: seq<CsvRows>)
    requires StationCodes(files).Ok?
    ensures StrictlySorted(StationCodes(files).value)
    ensures forall y :: y in StationCodes(files).value <==>
              exists row :: row in Flatten(files) && row != [] && row[0] == y
  {
    forall y ensures y in StationCodes(files).value <==> exists row :: row in Flatten(files) && row != [] && row[0] == y {
      FirstFieldsMembers(Flatten(files), y);
    }
  }

  /** `sorted(set(...))` does not depend on the order of the files. */
  lemma StationCodesOrderFree(files: seq<CsvRows>, other: seq<CsvRows>)
    requires StationCodes(files).Ok? && StationCodes(other).Ok?
    requires forall row :: row in Flatten(files) <==> row in Flatten(other)
    ensures StationCodes(files) == StationCodes(other)
  {
    StationCodesMeaning(files);
    StationCodesMeaning(other);
    StrictlySortedUnique(StationCodes(files).value, StationCodes(other).value);
  }

  /** `get_stationcodes` as written: the file and row loops appending
      `row[0]`, then `sorted(list(set(...)))`. */
  method GetStationCodes(files: seq<CsvRows>) returns (r: Result<seq<string>>)
    ensures r == StationCodes(files)
  {
    var stationcodes: seq<string> := [];
    for i := 0 to |files|
      invariant FirstFields(Flatten(files[..i])) == Ok(stationcodes)
    {
      assert files[..i + 1][..i] == files[..i];
      var next := FileFirstFields(Flatten(files[..i]), files[i], stationcodes);
      if next.Err? {
        assert files == files[..i + 1] + files[i + 1..];
        FlattenAppend(files[..i + 1], files[i + 1..]);
        FirstFieldsAppend(Flatten(files[..i + 1]), Flatten(files[i + 1..]));
        return Err(next.error);
      }
      stationcodes := next.value;
    }
    assert files[..|files|] == files;
    return Ok(SortedUnique(stationcodes));
  }

  /** The row loop over one file: `row[0]` of each row appended to the
      codes of the rows `done` before it. */
  method FileFirstFields(ghost done: CsvRows, rows: CsvRows, codes: seq<string>) returns (r: Result<seq<string>>)
    requires FirstFields(done) == Ok(codes)
    ensures r == FirstFields(done + rows)
  {
    var stationcodes := codes;
    assert done + rows[..0] == done;
    for j := 0 to |rows|
      invariant FirstFields(done + rows[..j]) == Ok(stationcodes)
    {
      var row := rows[j];
      ghost var upto := done + rows[..j + 1];
      assert upto[..|upto| - 1] == done + rows[..j] && upto[|upto| - 1] == row;
      if row == [] {
        assert FirstFields(upto) == Err(IndexError);
        assert done + rows == upto + rows[j + 1..];
        FirstFieldsAppend(upto, rows[j + 1..]);
        return Err(IndexError);
      }
      stationcodes := stationcodes + [row[0]];
    }
    assert rows[..|rows|] == rows;
    return Ok(stationcodes);
  }

  // ---------------------------------------------------------------------
  // write_rfc_stations

  /** A station file: its stem and its rows. */
  type StationFile = (string, CsvRows)

  /** The column names line 38 assigns. */
  const RfcColumns: seq<string> := ["breakuploc", "ICAO", "weight", "GSODURL", "ID", "lat", "lon"]

  const LengthMismatch: string := "Length mismatch"

  /** `[fpth.stem[:-4]] + row` for each row of one file. */
  function PrefixedRows(file: StationFile): (r: seq<seq<string>>)
    ensures |r| == |file.1|
  {
    seq(|file.1|, j requires 0 <= j < |file.1| => [DropLast(file.0, 4)] + file.1[j])
  }

  /** The list `stationcodes` the loops build: file by file, row by row. */
  function Prefixed(files: seq<StationFile>): seq<seq<string>>
    decreases |files|
  {
    if files == [] then [] else Prefixed(files[..|files| - 1]) + PrefixedRows(files[|files| - 1])
  }

  lemma {:induction false} PrefixedAppend(a: seq<StationFile>, b: seq<StationFile>)
    ensures Prefixed(a + b) == Prefixed(a) + Prefixed(b)
    decreases |b|
  {
    if b == [] {
      assert a + b == a;
    } else {
      var b0, last := b[..|b| - 1], b[|b| - 1];
      assert (a + b)[..|a + b| - 1] == a + b0;
      assert (a + b)[|a + b| - 1] == last;
      PrefixedAppend(a, b0);
      assert Prefixed(a + b) == Prefixed(a + b0) + PrefixedRows(last);
      assert Prefixed(b) == Prefixed(b0) + PrefixedRows(last);
    }
  }

  /** The position of the first row of file `i`. */
  function RowOffset(files: seq<StationFile>, i: nat): nat
    requires i <= |files|
  {
    |Prefixed(files[..i])|
  }

  /** Row `j` of file `i` is entry `RowOffset(files, i) + j`: the stem of its
      file without the last four characters, then the row itself. */
  lemma {:induction false} PrefixedOrder(files: seq<StationFile>, i: nat, j: nat)
    requires i < |files| && j < |files[i].1|
    ensures RowOffset(files, i + 1) == RowOffset(files, i) + |files[i].1|
    ensures RowOffset(files, i) + j < |Prefixed(files)|
    ensures Prefixed(files)[RowOffset(files, i) + j] == [DropLast(files[i].0, 4)] + files[i].1[j]
  {
    var head, rest := files[..i + 1], files[i + 1..];
    assert head[..i] == files[..i];
    var here := PrefixedRows(files[i]);
    assert Prefixed(head) == Prefixed(files[..i]) + here;
    assert files == head + rest;
    PrefixedAppend(head, rest);
    assert Prefixed(files) == Prefixed(files[..i]) + here + Prefixed(rest);
    assert Prefixed(files)[RowOffset(files, i) + j] == here[j];
  }

  /** The widest row: `DataFrame.from_records` makes that many columns. */
  function MaxWidth(rows: seq<seq<string>>): (w: nat)
    ensures forall k :: 0 <= k < |rows| ==> |rows[k]| <= w
    ensures rows == [] ==> w == 0
    ensures rows != [] ==> exists k :: 0 <= k < |rows| && |rows[k]| == w
    decreases |rows|
  {
    if rows == [] then 0
    else
      var w := MaxWidth(rows[..|rows| - 1]);
      var last := |rows[|rows| - 1]|;
      assert forall k :: 0 <= k < |rows| - 1 ==> rows[..|rows| - 1][k] == rows[k];
      if last > w then last else w
  }

  /** A row of the frame: shorter rows are padded with missing cells. */
  function PadRow(row: seq<string>, w: nat): (r: seq<Option<string>>)
    ensures |r| == w
    ensures forall k :: 0 <= k < w ==> r[k] == if k < |row| then Some(row[k]) else None
  {
    seq(w, k requires 0 <= k < w => if k < |row| then Some(row[k]) else None)
  }

  /** `pd.DataFrame.from_records(stationcodes)` followed by the assignment
      of the seven column names, which raises ValueError unless the frame
      has exactly seven columns (an empty list gives none). */
  function FrameOf(stationcodes: seq<seq<string>>): (r: Result<seq<seq<Option<string>>>>)
    ensures r.Ok? <==> MaxWidth(stationcodes) == |RfcColumns|
    ensures r.Err? ==> r.error == ValueError(LengthMismatch)
    ensures r.Ok? ==> (|r.value| == |stationcodes| &&
              forall k :: 0 <= k < |stationcodes| ==> r.value[k] == PadRow(stationcodes[k], |RfcColumns|))
  {
    var w := MaxWidth(stationcodes);
    if w != |RfcColumns| then Err(ValueError(LengthMismatch))
    else Ok(seq(|stationcodes|, k requires 0 <= k < |stationcodes| => PadRow(stationcodes[k], w)))
  }

  /** What `write_rfc_stations(filelist)` returns or raises. */
  function RfcStations(files: seq<StationFile>): Result<seq<seq<Option<string>>>>
  {
    FrameOf(Prefixed(files))
  }

  /** The call succeeds exactly when the widest CSV row has six fields, and
      then entry `RowOffset(files, i) + j` is row `j` of file `i`, prefixed
      by its breakup location and padded to seven cells. */
  lemma RfcStationsMeaning(files: seq<StationFile>, i: nat, j: nat)
    requires i < |files| && j < |files[i].1|
    ensures RfcStations(files).Ok? ==>
              var row := files[i].1[j];
              var out := RfcStations(files).value;
              RowOffset(files, i) + j < |out| &&
              out[RowOffset(files, i) + j] == PadRow([DropLast(files[i].0, 4)] + row, 7) &&
              out[RowOffset(files, i) + j][0] == Some(DropLast(files[i].0, 4)) &&
              |row| <= 6
  {
    PrefixedOrder(files, i, j);
    assert ([DropLast(files[i].0, 4)] + files[i].1[j])[0] == DropLast(files[i].0, 4);
  }

  /** With no row at all there is no column to name, so the call raises. */
  lemma RfcStationsNoRows(files: seq<StationFile>)
    requires forall i :: 0 <= i < |files| ==> files[i].1 == []
    ensures RfcStations(files) == Err(ValueError(LengthMismatch))
  {
    PrefixedEmpty(files);
  }

  lemma {:induction false} PrefixedEmpty(files: seq<StationFile>)
    requires forall i :: 0 <= i < |files| ==> files[i].1 == []
    ensures Prefixed(files) == []
    decreases |files|
  {
    if files != [] {
      var init := files[..|files| - 1];
      assert forall i :: 0 <= i < |init| ==> init[i] == files[i];
      PrefixedEmpty(init);
    }
  }

  /** `write_rfc_stations` as written: the file and row loops appending the
      prefixed rows, then the frame. */
  method WriteRfcStations(files: seq<StationFile>) returns (r: Result<seq<seq<Option<string>>>>)
    ensures r == RfcStations(files)
  {
    var stationcodes: seq<seq<string>> := [];
    for i := 0 to |files|
      invariant stationcodes == Prefixed(files[..i])
    {
      var (stem, rows) := files[i];
      ghost var before := stationcodes;
      for j := 0 to |rows|
        invariant stationcodes == before + PrefixedRows(files[i])[..j]
      {
        assert PrefixedRows(files[i])[..j + 1] == PrefixedRows(files[i])[..j] + [[DropLast(stem, 4)] + rows[j]];
        stationcodes := stationcodes + [[DropLast(stem, 4)] + rows[j]];
      }
      assert PrefixedRows(files[i])[..|rows|] == PrefixedRows(files[i]);
      assert files[..i + 1][..i] == files[..i];
    }
    assert files[..|files|] == files;
    return FrameOf(stationcodes);
  }
}
