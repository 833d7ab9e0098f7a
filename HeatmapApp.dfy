/**
 * The Heatmap driver: loadData reads the header and groups the data rows by
 * frame key; makeFrames visits the keys in sorted order, names each frame's
 * file and issues its label and its cell fills on a fresh canvas.
 */
module HeatmapApp {
  import opened Outcomes
  import opened JavaLang
  import opened Render
  import opened Datasets
  import opened Grouping

  // ---------------------------------------------------------------------
  // Frame file names
  // ---------------------------------------------------------------------

  /** The sequence number zero-padded to four digits ("" + n from 1000 on). */
  function SeqNumDigits(imgSeqNum: nat): string {
    if imgSeqNum < 10 then "000" + IntToString(imgSeqNum)
    else if imgSeqNum < 100 then "00" + IntToString(imgSeqNum)
    else if imgSeqNum < 1000 then "0" + IntToString(imgSeqNum)
    else IntToString(imgSeqNum)
  }

  /** The file name of frame number imgSeqNum in a numbered run. */
  function AutoFileName(imgSeqNum: nat): string {
    SeqNumDigits(imgSeqNum) + ".png"
  }

  /** The digits of a numbered file denote its sequence number; there are at
      least four of them, and exactly four below 10000. */
  lemma SeqNumDigitsValue(n: nat)
    ensures AllDigits(SeqNumDigits(n)) && DigitsValue(SeqNumDigits(n)) == n
    ensures |SeqNumDigits(n)| >= 4
    ensures n < 10000 ==> |SeqNumDigits(n)| == 4
  {
    var s := IntToString(n);
    IntToStringValue(n);
    if n < 10 {
      IntToStringLength(n, 0);
      var s1 := "0" + s;
      var s2 := "0" + s1;
      LeadingZeroValue(s);
      LeadingZeroValue(s1);
      LeadingZeroValue(s2);
      assert "000" + s == "0" + s2;
    } else if n < 100 {
      IntToStringLength(n, 1);
      var s1 := "0" + s;
      LeadingZeroValue(s);
      LeadingZeroValue(s1);
      assert "00" + s == "0" + s1;
    } else if n < 1000 {
      IntToStringLength(n, 2);
      LeadingZeroValue(s);
    } else {
      IntToStringMinLength(n, 3);
      if n < 10000 { IntToStringLength(n, 3); }
    }
  }

  /** Numbered frames never share a file name. */
  lemma AutoFileNamesDistinct(i: nat, j: nat)
    requires i != j
    ensures AutoFileName(i) != AutoFileName(j)
  {
    SeqNumDigitsValue(i);
    SeqNumDigitsValue(j);
    var a, b := SeqNumDigits(i), SeqNumDigits(j);
    assert AutoFileName(i)[..|a|] == a && |AutoFileName(i)| == |a| + 4;
    assert AutoFileName(j)[..|b|] == b && |AutoFileName(j)| == |b| + 4;
  }

  /** The first numbered names, and a number past the padding. */
  lemma NumberedNamesExample()
    ensures AutoFileName(0) == "0000.png" && AutoFileName(42) == "0042.png"
    ensures AutoFileName(12345) == "12345.png"
  {
    assert IntToString(4) == "4";
    assert IntToString(42) == "42";
    assert IntToString(1) == "1";
    assert IntToString(12) == "12";
    assert IntToString(123) == "123";
    assert IntToString(1234) == "1234";
    assert IntToString(12345) == "12345";
  }

  // ---------------------------------------------------------------------
  // What makeFrames writes, as a function of dataMap
  // ---------------------------------------------------------------------

  /** A written frame: its path and the drawing calls made on its canvas. */
  datatype FrameFile = FrameFile(path: string, drawing: seq<DrawCommand>)

  function FrameFileName(imgSeqNum: nat, data: seq<Dataset>, auto: bool): string
    requires |data| > 0
  {
    if auto then AutoFileName(imgSeqNum) else data[0].fileName
  }

  function FillOf(projection: Projection, d: Dataset): DrawCommand
    requires d.color.Some?
  {
    FillCommand(projection, d.latitude, d.longitude, d.width, d.color.value)
  }

  /** One fill per coloured record, in list order. */
  function Fills(data: seq<Dataset>, projection: Projection): seq<DrawCommand> {
    if data == [] then []
    else
      var d := data[|data| - 1];
      Fills(data[..|data| - 1], projection) + (if d.color.Some? then [FillOf(projection, d)] else [])
  }

  /** The label of the first record, then the fills. */
  function FrameDrawing(data: seq<Dataset>, m: MercatorMap): seq<DrawCommand>
    requires |data| > 0
  {
    [LabelCommand(data[0].labelText, m.height)] + Fills(data, m.projection)
  }

  function RenderFrame(imgSeqNum: nat, data: seq<Dataset>, auto: bool, framePath: string, m: MercatorMap): FrameFile
    requires |data| > 0
  {
    FrameFile(framePath + "/" + FrameFileName(imgSeqNum, data, auto), FrameDrawing(data, m))
  }

  predicate KeysPresent(keys: seq<string>, groups: Groups) {
    forall i :: 0 <= i < |keys| ==> keys[i] in groups && |groups[keys[i]]| > 0
  }

  /** The frames for the keys in the order given, numbered from 0. */
  function RenderFrames(keys: seq<string>, groups: Groups, auto: bool, framePath: string, m: MercatorMap): seq<FrameFile>
    requires KeysPresent(keys, groups)
  {
    seq(|keys|, i requires 0 <= i < |keys| => RenderFrame(i, groups[keys[i]], auto, framePath, m))
  }

  /** Fills follow the list: the fills of a + b are those of a, then those of b. */
  lemma {:induction false} FillsAppend(a: seq<Dataset>, b: seq<Dataset>, projection: Projection)
    ensures Fills(a + b, projection) == Fills(a, projection) + Fills(b, projection)
    decreases |b|
  {
    if b == [] {
      assert a + b == a;
    } else {
      var b' := b[..|b| - 1];
      assert (a + b)[..|a + b| - 1] == a + b';
      assert (a + b)[|a + b| - 1] == b[|b| - 1];
      FillsAppend(a, b', projection);
    }
  }

  /** Every coloured record is filled; uncoloured records draw nothing. */
  lemma {:induction false} FillsCoverColored(data: seq<Dataset>, projection: Projection)
    ensures forall i :: 0 <= i < |data| && data[i].color.Some? ==> FillOf(projection, data[i]) in Fills(data, projection)
    ensures |Fills(data, projection)| <= |data|
    decreases |data|
  {
    if data != [] {
      var before, d := data[..|data| - 1], data[|data| - 1];
      FillsCoverColored(before, projection);
      var fb := Fills(before, projection);
      var f := Fills(data, projection);
      assert f[..|fb|] == fb;
      forall i | 0 <= i < |data| && data[i].color.Some? ensures FillOf(projection, data[i]) in f {
        if i < |before| {
          assert data[i] == before[i];
          var j :| 0 <= j < |fb| && fb[j] == FillOf(projection, before[i]);
          assert f[j] == fb[j];
        } else {
          assert f[|f| - 1] == FillOf(projection, d);
        }
      }
    }
  }

  /** c is the fill of some coloured record of data. */
  predicate IsFillOf(data: seq<Dataset>, projection: Projection, c: DrawCommand) {
    exists i :: 0 <= i < |data| && data[i].color.Some? && c == FillOf(projection, data[i])
  }

  /** Every fill is the cell of some coloured record. */
  lemma {:induction false} FillsFromColored(data: seq<Dataset>, projection: Projection)
    ensures forall c :: c in Fills(data, projection) ==> IsFillOf(data, projection, c)
    decreases |data|
  {
    if data != [] {
      var before, d := data[..|data| - 1], data[|data| - 1];
      FillsFromColored(before, projection);
      var fb := Fills(before, projection);
      forall c | c in Fills(data, projection) ensures IsFillOf(data, projection, c) {
        if c in fb {
          var i :| 0 <= i < |before| && before[i].color.Some? && c == FillOf(projection, before[i]);
          assert data[i] == before[i];
        } else {
          assert d.color.Some? && c == FillOf(projection, d);
          assert data[|data| - 1] == d;
        }
      }
    }
  }

  /** The file name of frame i: its number in a numbered run, its key otherwise. */
  lemma FramePaths(keys: seq<string>, groups: Groups, auto: bool, framePath: string, m: MercatorMap, i: nat)
    requires GroupsWellFormed(groups, auto) && KeysPresent(keys, groups) && i < |keys|
    ensures RenderFrames(keys, groups, auto, framePath, m)[i].path
         == framePath + "/" + (if auto then AutoFileName(i) else keys[i])
  {
    if !auto {
      ExplicitNamesAreKeys(groups, keys[i]);
      assert groups[keys[i]][0] in groups[keys[i]];
    }
  }

  /** In a run whose every record is named "auto", frame i is labelled with
      the i-th key in sorted order, which is its label. */
  lemma FrameLabels(keys: seq<string>, groups: Groups, auto: bool, framePath: string, m: MercatorMap, i: nat)
    requires GroupsWellFormed(groups, auto) && KeysPresent(keys, groups) && i < |keys|
    requires forall k, d :: k in groups && d in groups[k] ==> d.fileName == AUTO
    ensures RenderFrames(keys, groups, auto, framePath, m)[i].drawing[0] == LabelCommand(keys[i], m.height)
  {
    var data := groups[keys[i]];
    assert data[0] in data;
    assert KeyOf(data[0]) == keys[i] && data[0].fileName == AUTO;
    assert RenderFrames(keys, groups, auto, framePath, m)[i] == RenderFrame(i, data, auto, framePath, m);
  }

  /** No two frames are written to the same path. */
  lemma FramePathsDistinct(keys: seq<string>, groups: Groups, auto: bool, framePath: string, m: MercatorMap)
    requires GroupsWellFormed(groups, auto) && KeysPresent(keys, groups) && Distinct(keys)
    ensures var frames := RenderFrames(keys, groups, auto, framePath, m);
      forall i, j :: 0 <= i < j < |frames| ==> frames[i].path != frames[j].path
  {
    var frames := RenderFrames(keys, groups, auto, framePath, m);
    forall i, j | 0 <= i < j < |frames| ensures frames[i].path != frames[j].path {
      FramePaths(keys, groups, auto, framePath, m, i);
      FramePaths(keys, groups, auto, framePath, m, j);
      var prefix := framePath + "/";
      var a := if auto then AutoFileName(i) else keys[i];
      var b := if auto then AutoFileName(j) else keys[j];
      if auto { AutoFileNamesDistinct(i, j); }
      assert (prefix + a)[|prefix|..] == a;
      assert (prefix + b)[|prefix|..] == b;
    }
  }

  // ---------------------------------------------------------------------
  // The Heatmap object
  // ---------------------------------------------------------------------

  class Heatmap {
    const framePath: string
    const mercatorMap: MercatorMap
    var dataMap: Groups
    var autoNumberFiles: bool

    ghost predicate Valid()
      reads this
    {
      GroupsWellFormed(dataMap, autoNumberFiles)
    }

    constructor (framePath: string, mercatorMap: MercatorMap)
      ensures Valid() && this.framePath == framePath && this.mercatorMap == mercatorMap
      ensures dataMap == map[] && !autoNumberFiles
    {
      this.framePath := framePath;
      this.mercatorMap := mercatorMap;
      dataMap := map[];
      autoNumberFiles := false;
    }

    /** One data row into dataMap (the body of the synchronized block). */
    method Add(dataset: Dataset)
      requires Valid()
      modifies this
      ensures Valid()
      ensures dataMap == Insert(old(dataMap), dataset)
      ensures autoNumberFiles == (old(autoNumberFiles) || dataset.fileName == AUTO)
    {
      InsertWellFormed(dataMap, autoNumberFiles, dataset);
      ghost var before := dataMap;
      var key := dataset.fileName;
      if key == AUTO {
        key := dataset.labelText;
        autoNumberFiles := true;
      }
      var data: seq<Dataset>;
      if key in dataMap {
        data := dataMap[key];
      } else {
        data := [];
        dataMap := dataMap[key := data];
      }
      assert key == KeyOf(dataset) && data == Get(before, key);
      data := data + [dataset];
      dataMap := dataMap[key := data];
      assert dataMap == before[key := data];
    }

    /** loadData over the already-split lines of the input file: line 0 must
        be the header, every later line becomes a record. */
    method LoadData(lines: seq<Row>, parse: NumberParser) returns (result: Outcome<LoadError>)
      requires Valid()
      modifies this
      ensures Valid()
      ensures |lines| == 0 || HeaderBad(lines[0]) ==>
        && result == (if |lines| == 0 then Pass else Fail(ImproperHeader(lines[0])))
        && dataMap == old(dataMap) && autoNumberFiles == old(autoNumberFiles)
      ensures |lines| > 0 && !HeaderBad(lines[0]) ==>
        var p := ParseRows(lines[1..], parse);
        && result == (if p.error.None? then Pass else Fail(p.error.value))
        && dataMap == AddAll(old(dataMap), p.records)
        && autoNumberFiles == (old(autoNumberFiles) || AnyAuto(p.records))
    {
      if |lines| == 0 {
        return Pass;
      }
      ghost var rows := lines[1..];
      var lineNum := 0;
      while lineNum < |lines|
        invariant 0 <= lineNum <= |lines|
        invariant Valid()
        invariant lineNum == 0 ==> dataMap == old(dataMap) && autoNumberFiles == old(autoNumberFiles)
        invariant lineNum > 0 ==>
          !HeaderBad(lines[0]) && LoadedSoFar(old(dataMap), old(autoNumberFiles), rows[..lineNum - 1], parse, dataMap, autoNumberFiles)
      {
        var parts := lines[lineNum];
        if lineNum == 0 {
          if HeaderBad(parts) {
            return Fail(ImproperHeader(parts));
          }
          assert rows[..0] == [];
        } else {
          assert parts == rows[lineNum - 1];
          var dataset := NewDataset(parts, parse);
          if dataset.Err? {
            ParsePrefixStops(rows, lineNum, parse);
            return Fail(dataset.error);
          }
          LoadStep(old(dataMap), old(autoNumberFiles), rows, lineNum - 1, parse, dataMap, autoNumberFiles);
          Add(dataset.value);
        }
        lineNum := lineNum + 1;
      }
      assert rows[..|lines| - 1] == rows;
      return Pass;
    }

    /** makeFrames: one frame per key of dataMap, in sorted key order. */
    method MakeFrames() returns (frames: seq<FrameFile>)
      requires Valid()
      ensures frames == RenderFrames(SortedSet(dataMap.Keys), dataMap, autoNumberFiles, framePath, mercatorMap)
    {
      var groups, auto := dataMap, autoNumberFiles;
      var keys := SortKeys(groups.Keys);
      assert KeysPresent(keys, groups) by {
        forall i | 0 <= i < |keys| ensures keys[i] in groups && |groups[keys[i]]| > 0 {
          assert keys[i] in keys;
        }
      }
      frames := WriteFrames(keys, groups, auto, framePath, mercatorMap);
    }
  }

  /** The loop of makeFrames over the sorted keys: frame number imgSeqNum is
      named, drawn and written for the imgSeqNum-th key. */
  method WriteFrames(keys: seq<string>, groups: Groups, auto: bool, framePath: string, m: MercatorMap)
    returns (frames: seq<FrameFile>)
    requires KeysPresent(keys, groups)
    ensures frames == RenderFrames(keys, groups, auto, framePath, m)
  {
    ghost var spec := RenderFrames(keys, groups, auto, framePath, m);
    var imgSeqNum := 0;
    frames := [];
    for idx := 0 to |keys|
      invariant imgSeqNum == idx && |frames| == idx
      invariant forall i :: 0 <= i < idx ==> frames[i] == spec[i]
    {
      var data := groups[keys[idx]];
      var imgFileName := if auto then AutoFileName(imgSeqNum) else data[0].fileName;
      var path := framePath + "/" + imgFileName;
      var drawing := DrawFrame(data, m);
      // The frame file is written to path here.
      assert spec[idx] == FrameFile(path, drawing);
      frames := frames + [FrameFile(path, drawing)];
      imgSeqNum := imgSeqNum + 1;
    }
  }

  /** Under the invariant every sorted key names a non-empty group. */
  lemma SortedKeysPresent(groups: Groups, auto: bool)
    requires GroupsWellFormed(groups, auto)
    ensures KeysPresent(SortedSet(groups.Keys), groups)
  {
    var keys := SortedSet(groups.Keys);
    forall i | 0 <= i < |keys| ensures keys[i] in groups && |groups[keys[i]]| > 0 {
      assert keys[i] in keys;
    }
  }

  /** Loading records from empty establishes the invariant, with the flag
      set exactly when some record is named "auto". */
  lemma {:induction false} GroupedWellFormed(ds: seq<Dataset>)
    ensures GroupsWellFormed(Grouped(ds), AnyAuto(ds))
    decreases |ds|
  {
    if ds != [] {
      var before, d := ds[..|ds| - 1], ds[|ds| - 1];
      assert ds == before + [d];
      GroupedWellFormed(before);
      InsertWellFormed(Grouped(before), AnyAuto(before), d);
      AnyAutoSnoc(before, d);
      assert Grouped(ds) == Insert(Grouped(before), d);
    }
  }

  /** The frames a run writes when every data row loads: one per key of the
      grouped records, in sorted key order. */
  ghost function LoadedFrames(records: seq<Dataset>, framePath: string, m: MercatorMap): seq<FrameFile> {
    GroupedWellFormed(records);
    SortedKeysPresent(Grouped(records), AnyAuto(records));
    RenderFrames(SortedSet(Grouped(records).Keys), Grouped(records), AnyAuto(records), framePath, m)
  }

  /** main after argument parsing: the Heatmap constructor loads the file, and
      frames are made only when loading succeeded, since a bad header exits
      and a failing row's exception leaves the constructor. */
  method Run(lines: seq<Row>, parse: NumberParser, framePath: string, m: MercatorMap)
    returns (r: Result<seq<FrameFile>, LoadError>)
    ensures r.Err? <==> |lines| > 0 && (HeaderBad(lines[0]) || ParseRows(lines[1..], parse).error.Some?)
    ensures |lines| > 0 && HeaderBad(lines[0]) ==> r == Err(ImproperHeader(lines[0]))
    ensures |lines| > 0 && !HeaderBad(lines[0]) && ParseRows(lines[1..], parse).error.Some? ==>
      r == Err(ParseRows(lines[1..], parse).error.value)
    ensures |lines| == 0 ==> r == Ok([])
    ensures |lines| > 0 && !HeaderBad(lines[0]) && ParseRows(lines[1..], parse).error.None? ==>
      r == Ok(LoadedFrames(ParseRows(lines[1..], parse).records, framePath, m))
  {
    var heatmap := new Heatmap(framePath, m);
    var loaded := heatmap.LoadData(lines, parse);
    if loaded.Fail? {
      return Err(loaded.error);
    }
    var frames := heatmap.MakeFrames();
    return Ok(frames);
  }

  /** The drawing of one frame: a fresh canvas from the map, the first
      record's label, then a fill for each record that has a colour. */
  method DrawFrame(data: seq<Dataset>, m: MercatorMap) returns (drawing: seq<DrawCommand>)
    requires |data| > 0
    ensures drawing == FrameDrawing(data, m)
  {
    var heatmap := MakeHeatmap(m);
    // data[0].label is never null: String.split yields no null fields.
    heatmap.AddLabel(data[0].labelText);
    for j := 0 to |data|
      invariant heatmap.commands == [LabelCommand(data[0].labelText, m.height)] + Fills(data[..j], m.projection)
    {
      var dataset := data[j];
      assert data[..j + 1][..j] == data[..j];
      if dataset.color.Some? {
        heatmap.FillGrid(dataset.latitude, dataset.longitude, dataset.width, dataset.color.value);
      }
    }
    assert data[..|data|] == data;
    drawing := heatmap.commands;
  }

  /** The key list of makeFrames: dataMap.keySet() copied and sorted with
      Collections.sort, i.e. by String.compareTo. */
  method SortKeys(keys: set<string>) returns (sorted: seq<string>)
    ensures sorted == SortedSet(keys)
  {
    sorted := [];
    var remaining := keys;
    while remaining != {}
      invariant remaining <= keys
      invariant StrictlySorted(sorted)
      invariant forall x :: x in sorted <==> x in keys && x !in remaining
      invariant |sorted| + |remaining| == |keys|
      decreases |remaining|
    {
      var k :| k in remaining;
      sorted := InsertSorted(sorted, k);
      remaining := remaining - {k};
    }
    SortedUnique(sorted, SortedSet(keys));
  }

  /** Day labels sort by date whatever order they arrived in, so a numbered
      run writes the earliest day to 0000.png. */
  lemma SortedKeysExample()
    ensures SortedSet({"2016-10-02", "2016-10-01", "2016-10-03"}) == ["2016-10-01", "2016-10-02", "2016-10-03"]
  {
    var day := "2016-10-0";
    var d1, d2, d3 := day + "1", day + "2", day + "3";
    assert d1 == "2016-10-01" && d2 == "2016-10-02" && d3 == "2016-10-03";
    CompareToCommonPrefix(day, "1", "2");
    CompareToCommonPrefix(day, "1", "3");
    CompareToCommonPrefix(day, "2", "3");
    assert Less(d1, d2) && Less(d1, d3) && Less(d2, d3);
    var s := [d1, d2, d3];
    assert StrictlySorted(s);
    var keys := {d2, d1, d3};
    assert d1 != d2 && d1 != d3 && d2 != d3 by {
      LessIrreflexive(d1);
      LessIrreflexive(d2);
    }
    assert |keys| == 3;
    SortedUnique(s, SortedSet(keys));
  }

  lemma AnyAutoSnoc(ds: seq<Dataset>, d: Dataset)
    ensures AnyAuto(ds + [d]) == (AnyAuto(ds) || d.fileName == AUTO)
  {
    var e := ds + [d];
    if AnyAuto(ds) {
      var i :| 0 <= i < |ds| && ds[i].fileName == AUTO;
      assert e[i] == ds[i];
    }
    if d.fileName == AUTO {
      assert e[|ds|] == d;
    }
    if AnyAuto(e) {
      var i :| 0 <= i < |e| && e[i].fileName == AUTO;
      if i < |ds| { assert ds[i] == e[i]; }
    }
  }

  /** The state after the rows so far have all been loaded into m0, a0. */
  predicate LoadedSoFar(m0: Groups, a0: bool, rows: seq<Row>, parse: NumberParser, m: Groups, a: bool) {
    var p := ParseRows(rows, parse);
    && p.error.None?
    && m == AddAll(m0, p.records)
    && a == (a0 || AnyAuto(p.records))
  }

  /** Loading one more row that parses appends it to its group. */
  lemma LoadStep(m0: Groups, a0: bool, rows: seq<Row>, n: nat, parse: NumberParser, m: Groups, a: bool)
    requires n < |rows| && NewDataset(rows[n], parse).Ok?
    requires LoadedSoFar(m0, a0, rows[..n], parse, m, a)
    ensures var d := NewDataset(rows[n], parse).value;
      LoadedSoFar(m0, a0, rows[..n + 1], parse, Insert(m, d), a || d.fileName == AUTO)
  {
    var d := NewDataset(rows[n], parse).value;
    var before := ParseRows(rows[..n], parse);
    assert rows[..n + 1][..n] == rows[..n];
    assert rows[..n + 1][n] == rows[n];
    assert ParseRows(rows[..n + 1], parse) == Parsed(before.records + [d], None);
    assert (before.records + [d])[..|before.records|] == before.records;
    AnyAutoSnoc(before.records, d);
  }

  /** Parsing stops at the first row that throws: every later row is ignored. */
  lemma {:induction false} ParsePrefixStops(rows: seq<Row>, n: nat, parse: NumberParser)
    requires 0 < n <= |rows|
    requires ParseRows(rows[..n - 1], parse).error.None?
    requires NewDataset(rows[n - 1], parse).Err?
    ensures ParseRows(rows, parse) == Parsed(ParseRows(rows[..n - 1], parse).records, Some(NewDataset(rows[n - 1], parse).error))
    decreases |rows|
  {
    if |rows| == n {
      assert rows[..|rows| - 1] == rows[..n - 1];
    } else {
      var shorter := rows[..|rows| - 1];
      assert shorter[..n - 1] == rows[..n - 1];
      assert shorter[n - 1] == rows[n - 1];
      ParsePrefixStops(shorter, n, parse);
    }
  }
}
