/** The upload form of the page (app/page.jsx, `Home`): the interval text
    `buildIntervals` writes from the six time fields, the way `handleUpload`
    reads the lane fields and that text back, and the state `handleUpload`
    leaves behind. The CSV file is represented by the rows its reader yields. */
module Page {
  import opened Base
  import opened Text
  import opened Numbers
  import opened Records
  import opened Direction

  /** `parseInt(x.trim())` for one comma-separated lane piece. */
  function LanePiece(x: string): Option<int> {
    ParseInt(Trim(x))
  }

  /** A lane field: `[]` when it is empty, otherwise one `parseInt` of the
      trimmed piece per comma-separated piece, in order. */
  function ParseLanes(text: string): (lanes: seq<Option<int>>)
    ensures text == "" ==> lanes == []
    ensures text != "" ==> |lanes| == |Split(text, ',')| >= 1
    ensures text != "" ==> forall i :: 0 <= i < |lanes| ==> lanes[i] == ParseInt(Trim(Split(text, ',')[i]))
  {
    if text == "" then [] else Map(Split(text, ','), LanePiece)
  }

  /** `parseInt` finds no number in a text that starts with a letter. */
  lemma ParseIntOfWord(s: string)
    requires s != [] && !IsSpace(s[0]) && !IsDigit(s[0]) && s[0] != '-' && s[0] != '+'
    ensures ParseInt(s) == None
  {
    assert TrimStart(s) == s;
  }

  /** Reading back the `Carriles` text of a non-empty lane list gives the list,
      `NaN` lanes included. */
  lemma LanesRoundTrip(lanes: seq<Option<int>>)
    requires |lanes| > 0
    ensures ParseLanes(LanesLabel(lanes)) == lanes
  {
    var texts := Map(lanes, LaneText);
    LanesLabelSplits(lanes);
    assert texts[0] != [] by {
      match lanes[0]
      case Some(n) => IntToStringShape(n);
      case None =>
    }
    assert Split([], ',') == [[]];
    assert LanesLabel(lanes) != [];
    forall i | 0 <= i < |lanes|
      ensures LanePiece(texts[i]) == lanes[i]
    {
      match lanes[i]
      case Some(n) =>
        IntToStringShape(n);
        IntToStringParseInt(n);
      case None =>
        TrimTrimmed("NaN");
        ParseIntOfWord("NaN");
    }
  }

  /** What a browser time field can hold: no comma, no hyphen, no surrounding
      whitespace (the empty string included). */
  predicate TimeValue(t: string) {
    Plain(t) && '-' !in t
  }

  /** The morning, afternoon and night ranges whose two ends are both filled
      in, in that order. */
  function IncludedPairs(mf: string, mt: string, af: string, at: string, nf: string, nt: string): seq<Interval> {
    (if mf != "" && mt != "" then [(mf, mt)] else [])
    + (if af != "" && at != "" then [(af, at)] else [])
    + (if nf != "" && nt != "" then [(nf, nt)] else [])
  }

  /** The text `buildIntervals` returns: the included ranges written
      `from-to`, joined with commas. */
  function IntervalsText(mf: string, mt: string, af: string, at: string, nf: string, nt: string): string {
    Join(Map(IncludedPairs(mf, mt, af, at, nf, nt), IntervalLabel), ',')
  }

  predicate NonEmpty(s: string) {
    s != ""
  }

  /** `r.split("-").map((x) => x.trim())`. */
  function RangePieces(r: string): seq<string> {
    Map(Split(r, '-'), Trim)
  }

  /** `text.split(",").filter(Boolean).map(...)`: the non-empty comma-separated
      pieces, each split on `-` and trimmed. */
  function ParseIntervals(text: string): (ranges: seq<seq<string>>)
    ensures forall i :: 0 <= i < |ranges| ==> |ranges[i]| >= 1
  {
    Map(Filter(Split(text, ','), NonEmpty), RangePieces)
  }

  function PairPieces(iv: Interval): seq<string> {
    [iv.0, iv.1]
  }

  /** A range written `from-to` reads back as its two ends. */
  lemma RangeLabelPieces(iv: Interval)
    requires TimeValue(iv.0) && TimeValue(iv.1)
    ensures RangePieces(IntervalLabel(iv)) == PairPieces(iv)
  {
    SplitAfterFirst(iv.0, '-', iv.1);
    SplitNoSeparator(iv.1, '-');
    TrimTrimmed(iv.0);
    TrimTrimmed(iv.1);
    assert IntervalLabel(iv) == iv.0 + ['-'] + iv.1;
  }

  /** Reading back the comma-joined `from-to` labels of some ranges gives the
      ranges, in order, as `[from, to]` pairs, as long as no end holds a comma
      or a hyphen or surrounding whitespace. */
  lemma LabelsRoundTrip(pairs: seq<Interval>)
    requires forall i :: 0 <= i < |pairs| ==> TimeValue(pairs[i].0) && TimeValue(pairs[i].1)
    ensures ParseIntervals(Join(Map(pairs, IntervalLabel), ',')) == Map(pairs, PairPieces)
  {
    var labels := Map(pairs, IntervalLabel);
    if labels == [] {
      assert Join(labels, ',') == [];
      assert Split([], ',') == [[]];
      assert Filter([[]], NonEmpty) == Filter([], NonEmpty) + [];
    } else {
      var text := Join(labels, ',');
      assert Filter(Split(text, ','), NonEmpty) == labels by {
        forall i | 0 <= i < |labels|
          ensures ',' !in labels[i] && NonEmpty(labels[i])
        {
          LabelShape(pairs[i]);
        }
        SplitJoin(labels, ',');
        FilterAll(labels, NonEmpty);
      }
      var parsed := ParseIntervals(text);
      assert parsed == Map(labels, RangePieces);
      forall i | 0 <= i < |labels|
        ensures parsed[i] == PairPieces(pairs[i])
      {
        RangeLabelPieces(pairs[i]);
      }
      assert parsed == Map(pairs, PairPieces);
    }
  }

  lemma LabelShape(iv: Interval)
    requires TimeValue(iv.0) && TimeValue(iv.1)
    ensures ',' !in IntervalLabel(iv) && IntervalLabel(iv) != []
  {
    assert IntervalLabel(iv)[|iv.0|] == '-';
  }

  /** Reading back the text `buildIntervals` writes gives exactly the included
      ranges, in order, as `[from, to]` pairs, as long as no time holds a comma
      or a hyphen or surrounding whitespace. */
  lemma IntervalsRoundTrip(mf: string, mt: string, af: string, at: string, nf: string, nt: string)
    requires TimeValue(mf) && TimeValue(mt) && TimeValue(af) && TimeValue(at) && TimeValue(nf) && TimeValue(nt)
    ensures ParseIntervals(IntervalsText(mf, mt, af, at, nf, nt)) == Map(IncludedPairs(mf, mt, af, at, nf, nt), PairPieces)
  {
    var pairs := IncludedPairs(mf, mt, af, at, nf, nt);
    assert forall i :: 0 <= i < |pairs| ==> TimeValue(pairs[i].0) && TimeValue(pairs[i].1);
    LabelsRoundTrip(pairs);
  }

  /** `for (const [inicio, fin] of intervalosDia)` takes the first two pieces
      of every range. */
  function AsIntervals(ranges: seq<seq<string>>): (ivs: seq<Interval>)
    requires forall i :: 0 <= i < |ranges| ==> |ranges[i]| >= 2
    ensures |ivs| == |ranges|
    ensures forall i :: 0 <= i < |ranges| ==> ivs[i] == (ranges[i][0], ranges[i][1])
  {
    seq(|ranges|, i requires 0 <= i < |ranges| => (ranges[i][0], ranges[i][1]))
  }

  /** The ranges `handleUpload` hands on are exactly the included ones. */
  lemma UploadIntervals(text: string, mf: string, mt: string, af: string, at: string, nf: string, nt: string)
    requires TimeValue(mf) && TimeValue(mt) && TimeValue(af) && TimeValue(at) && TimeValue(nf) && TimeValue(nt)
    requires text == IntervalsText(mf, mt, af, at, nf, nt)
    ensures forall i :: 0 <= i < |ParseIntervals(text)| ==> |ParseIntervals(text)[i]| >= 2
    ensures AsIntervals(ParseIntervals(text)) == IncludedPairs(mf, mt, af, at, nf, nt)
  {
    IntervalsRoundTrip(mf, mt, af, at, nf, nt);
    var pairs := IncludedPairs(mf, mt, af, at, nf, nt);
    assert ParseIntervals(text) == Map(pairs, PairPieces);
    assert AsIntervals(ParseIntervals(text)) == pairs;
  }

  datatype NoticeKind = Warning | Info | Succeeded | Failed

  /** A notification: its kind, title and description. */
  datatype Notice = Notice(kind: NoticeKind, title: string, description: string)

  const MissingFile := Notice(Warning, "Falta archivo", "Selecciona un archivo CSV antes de continuar.")
  const MissingLanes := Notice(Warning, "Faltan carriles", "Debes ingresar al menos un grupo de carriles.")
  const NoResults := Notice(Info, "Sin resultados", "No se generaron resultados con los filtros aplicados.")
  const Processed := Notice(Succeeded, "Procesamiento exitoso", "Los datos fueron analizados correctamente.")

  function ProcessingError(message: string): Notice {
    Notice(Failed, "Error al procesar", message)
  }

  /** How `handleUpload` reports an outcome: on success the results are the
      rows and the notice says whether there are any; on a rejection there are
      no results and the notice carries the message. */
  predicate Reports(outcome: Result<seq<Row>, string>, results: seq<Row>, notice: Notice) {
    match outcome
    case Success(found) => results == found && notice == (if found == [] then NoResults else Processed)
    case Failure(message) => results == [] && notice == ProcessingError(message)
  }

  /** The `try` block of `handleUpload` once both guards passed: parse the lane
      fields and the interval text, process the file, and report. On success
      the results are the rows and the notice says whether there are any; on a
      rejection there are no results and the notice carries the message. */
  method Submit(rows: seq<RawRow>, nsText: string, snText: string, text: string,
                mf: string, mt: string, af: string, at: string, nf: string, nt: string)
    returns (results: seq<Row>, notice: Notice)
    requires TimeValue(mf) && TimeValue(mt) && TimeValue(af) && TimeValue(at) && TimeValue(nf) && TimeValue(nt)
    requires text == IntervalsText(mf, mt, af, at, nf, nt)
    ensures Reports(Pipeline(rows, ParseLanes(nsText), ParseLanes(snText), IncludedPairs(mf, mt, af, at, nf, nt)), results, notice)
  {
    var lanesNSArr := ParseLanes(nsText);
    var lanesSNArr := ParseLanes(snText);
    UploadIntervals(text, mf, mt, af, at, nf, nt);
    var intervalos := AsIntervals(ParseIntervals(text));
    var data := ProcessFile(rows, lanesNSArr, lanesSNArr, intervalos);
    match data {
      case Success(found) =>
        results := found;
        notice := if |found| == 0 then NoResults else Processed;
      case Failure(message) =>
        results := [];
        notice := ProcessingError(message);
    }
  }

  /** The page's form state. */
  class Home {
    /** The rows of the chosen CSV file, or `None` when no file is chosen. */
    var file: Option<seq<RawRow>>
    var lanesNS: string
    var lanesSN: string
    var morningFrom: string
    var morningTo: string
    var afternoonFrom: string
    var afternoonTo: string
    var nightFrom: string
    var nightTo: string
    var loading: bool
    var results: seq<Row>

    /** The time fields hold browser time values. */
    predicate Valid()
      reads this
    {
      TimeValue(morningFrom) && TimeValue(morningTo) && TimeValue(afternoonFrom)
      && TimeValue(afternoonTo) && TimeValue(nightFrom) && TimeValue(nightTo)
    }

    /** The initial state: no file, no lanes, the ranges 05:00-10:00,
        13:00-16:00 and 16:00-22:00, not loading, no results. */
    constructor ()
      ensures Valid()
      ensures file == None && lanesNS == "" && lanesSN == "" && !loading && results == []
      ensures morningFrom == "05:00" && morningTo == "10:00"
      ensures afternoonFrom == "13:00" && afternoonTo == "16:00"
      ensures nightFrom == "16:00" && nightTo == "22:00"
    {
      file := None;
      lanesNS, lanesSN := "", "";
      morningFrom, morningTo := "05:00", "10:00";
      afternoonFrom, afternoonTo := "13:00", "16:00";
      nightFrom, nightTo := "16:00", "22:00";
      loading := false;
      results := [];
    }

    /** `buildIntervals`: push `from-to` for every range whose two ends are
        filled in, then join with commas. */
    method BuildIntervals() returns (text: string)
      ensures text == IntervalsText(morningFrom, morningTo, afternoonFrom, afternoonTo, nightFrom, nightTo)
    {
      var ranges: seq<string> := [];
      if morningFrom != "" && morningTo != "" {
        ranges := ranges + [morningFrom + "-" + morningTo];
      }
      if afternoonFrom != "" && afternoonTo != "" {
        ranges := ranges + [afternoonFrom + "-" + afternoonTo];
      }
      if nightFrom != "" && nightTo != "" {
        ranges := ranges + [nightFrom + "-" + nightTo];
      }
      assert ranges == Map(IncludedPairs(morningFrom, morningTo, afternoonFrom, afternoonTo, nightFrom, nightTo), IntervalLabel);
      text := Join(ranges, ',');
    }

    /** `handleUpload`. Without a file, or with both lane fields empty, it only
        warns and changes nothing. Otherwise it processes the file with the
        parsed lanes and ranges: on success the results are the rows and the
        notice says whether there are any; on a rejection the results stay
        empty and the notice carries the message; loading ends either way. */
    method HandleUpload() returns (notice: Notice)
      requires Valid()
      modifies this
      ensures file.None? ==> notice == MissingFile && unchanged(this)
      ensures file.Some? && lanesNS == "" && lanesSN == "" ==> notice == MissingLanes && unchanged(this)
      ensures file.Some? && (lanesNS != "" || lanesSN != "") ==>
                !loading &&
                Reports(Pipeline(file.value, ParseLanes(lanesNS), ParseLanes(lanesSN),
                                 IncludedPairs(morningFrom, morningTo, afternoonFrom, afternoonTo, nightFrom, nightTo)),
                        results, notice)
      ensures file == old(file) && lanesNS == old(lanesNS) && lanesSN == old(lanesSN)
      ensures morningFrom == old(morningFrom) && morningTo == old(morningTo)
      ensures afternoonFrom == old(afternoonFrom) && afternoonTo == old(afternoonTo)
      ensures nightFrom == old(nightFrom) && nightTo == old(nightTo)
    {
      if file.None? {
        return MissingFile;
      }
      if lanesNS == "" && lanesSN == "" {
        return MissingLanes;
      }
      var text := BuildIntervals();
      loading := true;
      results := [];
      results, notice := Submit(file.value, lanesNS, lanesSN, text, morningFrom, morningTo,
                                afternoonFrom, afternoonTo, nightFrom, nightTo);
      loading := false;
    }
  }
}
