/**
 * The input side of Heatmap: the header check on line 0, the Dataset record
 * built from each later line and the colour bucket it is given.
 */
module Datasets {
  import opened Outcomes
  import opened JavaLang
  import opened Render

  /** One already-split line of the tab-delimited input. */
  type Row = seq<string>

  /** Double.parseDouble: a number, or None where it would throw. */
  type NumberParser = string -> Option<real>

  /** The reasons loading stops: System.exit(1) on a bad header, or an
      exception out of the Dataset constructor. */
  datatype LoadError =
    | ImproperHeader(line: Row)
    | IndexOutOfBounds(index: nat)
    | NumberFormat(text: string)

  /** One data row. `color` is None where the source stores null. */
  datatype Dataset = Dataset(
    fileName: string,
    labelText: string,  // the source's `label` (a reserved word in Dafny)
    latitude: real,
    longitude: real,
    width: real,
    deviations: real,
    color: Option<Color>)

  /** The baseline subtracted from every deviation before bucketing. */
  const BASELINE: real := 2.0

  /** The palette index for a deviation score, -1 for "no colour": the
      shifted score truncated to int and clipped to the palette. */
  function ColorIndex(deviations: real): (i: int)
    ensures -1 <= i < |COLORS|
    ensures i == -1 <==> deviations < BASELINE
    ensures deviations >= BASELINE + |COLORS| as real ==> i == |COLORS| - 1
    ensures BASELINE <= deviations < BASELINE + |COLORS| as real ==> i == (deviations - BASELINE).Floor
  {
    var normDeviations := deviations - BASELINE;
    if normDeviations < 0.0 then -1
    else if normDeviations >= |COLORS| as real then |COLORS| - 1
    else JavaIntCast(normDeviations)
  }

  /** A higher deviation never gets a lower bucket. */
  lemma ColorIndexMonotonic(d1: real, d2: real)
    requires d1 <= d2
    ensures ColorIndex(d1) <= ColorIndex(d2)
  {
  }

  function ColorOf(deviations: real): (c: Option<Color>)
    ensures c.None? <==> deviations < BASELINE
    ensures c.Some? ==> c.value in COLORS && c.value.alpha == ALPHA
    ensures c.Some? ==> c.value == COLORS[ColorIndex(deviations)]
    ensures deviations >= BASELINE + |COLORS| as real ==> c == Some(COLORS[|COLORS| - 1])
  {
    var colorIndex := ColorIndex(deviations);
    if colorIndex == -1 then None else Some(COLORS[colorIndex])
  }

  // ---------------------------------------------------------------------
  // Line 0: the header
  // ---------------------------------------------------------------------

  const HEADER: seq<string> := ["filename", "label", "latitude", "longitude", "width", "stddeviations"]

  /** The source's `bad` flag: the chain of short-circuiting tests, so that a
      short row is rejected before any field of it is read. */
  predicate HeaderBad(parts: Row) {
    || |parts| != 6
    || !EqualsIgnoreCase("filename", parts[0])
    || !EqualsIgnoreCase("label", parts[1])
    || !EqualsIgnoreCase("latitude", parts[2])
    || !EqualsIgnoreCase("longitude", parts[3])
    || !EqualsIgnoreCase("width", parts[4])
    || !EqualsIgnoreCase("stddeviations", parts[5])
  }

  /** A header is accepted exactly when it has the six column names, in order,
      up to the case of their letters. */
  lemma HeaderAccepted(parts: Row)
    ensures !HeaderBad(parts) <==>
      |parts| == |HEADER| && forall i :: 0 <= i < |HEADER| ==> Lower(parts[i]) == HEADER[i]
  {
    forall i | 0 <= i < |HEADER| ensures Lower(HEADER[i]) == HEADER[i] {
    }
    if |parts| == |HEADER| {
      forall i | 0 <= i < |HEADER|
        ensures EqualsIgnoreCase(HEADER[i], parts[i]) <==> Lower(parts[i]) == HEADER[i]
      {
        EqualsIgnoreCaseIff(HEADER[i], parts[i]);
      }
    }
  }

  // ---------------------------------------------------------------------
  // Later lines: the Dataset constructor
  // ---------------------------------------------------------------------

  /** parts[i], or the exception reading it past the end raises. */
  function Field(parts: Row, i: nat): (r: Result<string, LoadError>)
    ensures i < |parts| ==> r == Ok(parts[i])
    ensures i >= |parts| ==> r == Err(IndexOutOfBounds(i))
  {
    if i < |parts| then Ok(parts[i]) else Err(IndexOutOfBounds(i))
  }

  /** Double.parseDouble(parts[i]), or the exception it raises. */
  function Number(parts: Row, i: nat, parse: NumberParser): (r: Result<real, LoadError>)
    ensures r.Ok? <==> i < |parts| && parse(parts[i]).Some?
    ensures r.Ok? ==> r.value == parse(parts[i]).value
  {
    var text :- Field(parts, i);
    match parse(text)
    case Some(x) => Ok(x)
    case None => Err(NumberFormat(text))
  }

  /** new Dataset(parts): fields read and parsed left to right, so the first
      missing or malformed field decides the exception. */
  function NewDataset(parts: Row, parse: NumberParser): (r: Result<Dataset, LoadError>)
    ensures r.Ok? <==> |parts| >= 6 && forall i :: 2 <= i < 6 ==> parse(parts[i]).Some?
    ensures r.Ok? ==> r.value == Dataset(parts[0], parts[1],
      parse(parts[2]).value, parse(parts[3]).value, parse(parts[4]).value, parse(parts[5]).value,
      ColorOf(parse(parts[5]).value))
    ensures |parts| < 3 ==> r == Err(IndexOutOfBounds(|parts|))
  {
    var fileName :- Field(parts, 0);
    var labelText :- Field(parts, 1);
    var latitude :- Number(parts, 2, parse);
    var longitude :- Number(parts, 3, parse);
    var width :- Number(parts, 4, parse);
    var deviations :- Number(parts, 5, parse);
    Ok(Dataset(fileName, labelText, latitude, longitude, width, deviations, ColorOf(deviations)))
  }

  /** The records built from the data rows before the first one that throws,
      and that row's exception, if any. */
  datatype Parsed = Parsed(records: seq<Dataset>, error: Option<LoadError>)

  function ParseRows(rows: seq<Row>, parse: NumberParser): (p: Parsed)
    ensures |p.records| <= |rows|
    ensures forall i :: 0 <= i < |p.records| ==> NewDataset(rows[i], parse) == Ok(p.records[i])
    ensures p.error.None? ==> |p.records| == |rows|
    ensures p.error.Some? ==> |p.records| < |rows| && NewDataset(rows[|p.records|], parse) == Err(p.error.value)
  {
    if rows == [] then Parsed([], None)
    else
      var before := ParseRows(rows[..|rows| - 1], parse);
      if before.error.Some? then before
      else match NewDataset(rows[|rows| - 1], parse)
        case Ok(d) => Parsed(before.records + [d], None)
        case Err(e) => Parsed(before.records, Some(e))
  }
}
