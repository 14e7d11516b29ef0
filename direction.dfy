/** The per-direction tables and the whole file step (lib/procesarExcelJS.js,
    `procesarDireccion` and `procesarArchivoCSV`): the records of the chosen
    lanes are grouped by date, in order of first appearance, and every date
    gets one row per time range, holding the range's rounded total. */
module Direction {
  import opened Base
  import opened Text
  import opened Numbers
  import opened Records
  import opened Sweep

  /** One output row: `Dirección`, `Fecha`, `Intervalo`, `Carriles` and
      `Total_vehiculos`. */
  datatype Row = Row(direction: string, date: string, interval: string, lanes: string, total: int)

  /** A time range as given: start and end text. */
  type Interval = (string, string)

  const EmptyFileMessage: string := "El archivo está vacío o no contiene datos válidos."
  const NoRecordsMessage: string := "No se pudieron leer registros válidos del CSV."
  const NorthToSouth: string := "Norte → Sur"
  const SouthToNorth: string := "Sur → Norte"

  /** The range used when none is given: the whole day. */
  const WholeDay: Interval := ("00:00", "23:59")

  function LaneIn(lanes: seq<Option<int>>): Record -> bool {
    (r: Record) => r.lane in lanes
  }

  /** `carriles.length > 0 ? df.filter((r) => carriles.includes(r.Lane)) : df`.
      `includes` finds `NaN` too, so a `NaN` lane in the list keeps the
      records whose lane is `NaN`. */
  function SelectLanes(df: seq<Record>, lanes: seq<Option<int>>): (datos: seq<Record>)
    ensures |lanes| == 0 ==> datos == df
    ensures forall i :: 0 <= i < |datos| ==> |lanes| == 0 || datos[i].lane in lanes
  {
    if |lanes| > 0 then Filter(df, LaneIn(lanes)) else df
  }

  /** A record survives the lane selection exactly when it was read and either
      no lane was asked for or its lane is one of those asked for. */
  lemma SelectLanesMembers(df: seq<Record>, lanes: seq<Option<int>>, r: Record)
    ensures r in SelectLanes(df, lanes) <==> r in df && (|lanes| == 0 || r.lane in lanes)
  {
    if |lanes| > 0 {
      FilterMembers(df, LaneIn(lanes), r);
    }
  }

  function DateOf(r: Record): string {
    r.date
  }

  /** `[...new Set(datos.map((r) => r.FechaTexto))]`. */
  function Dates(datos: seq<Record>): seq<string> {
    Distinct(Map(datos, DateOf))
  }

  function OnDay(date: string): Record -> bool {
    (r: Record) => r.date == date
  }

  /** `datos.filter((r) => r.FechaTexto === fecha)`. */
  function OnDate(datos: seq<Record>, date: string): seq<Record> {
    Filter(datos, OnDay(date))
  }

  /** The ranges walked for every date: the given ones, or the whole day when
      none is given. */
  function EffectiveIntervals(ivs: seq<Interval>): (r: seq<Interval>)
    ensures |r| >= 1
  {
    if |ivs| > 0 then ivs else [WholeDay]
  }

  /** A lane as `join` writes it: its digits, or `NaN`. */
  function LaneText(lane: Option<int>): string {
    match lane
    case Some(n) => IntToString(n)
    case None => "NaN"
  }

  /** `Carriles`: the lanes joined with commas, or `all` when the list is empty. */
  function LanesLabel(lanes: seq<Option<int>>): string {
    if |lanes| > 0 then Join(Map(lanes, LaneText), ',') else "all"
  }

  /** `Intervalo`: the range written `inicio-fin`. */
  function IntervalLabel(iv: Interval): string {
    iv.0 + "-" + iv.1
  }

  /** How the selected records of one date are totalled over a range.
      `procesarDireccion` always uses `DayTotal`; the table functions take the
      measure as a parameter only so that the facts about a table's shape
      (its length, which row sits where) are stated and proved once,
      independently of how a total is computed, and the verifier never has
      to look inside the sweep while proving them. */
  type Measure = (seq<Record>, string, Interval) -> int

  /** `sumarVehiculosPorIntervalo(registrosFecha, inicio, fin)`, where
      `registrosFecha` are the records of the date. */
  function DayTotal(datos: seq<Record>, date: string, iv: Interval): int {
    IntervalTotal(OnDate(datos, date), iv.0, iv.1)
  }

  /** The row for one date and one range. */
  function RowOf(datos: seq<Record>, date: string, iv: Interval, name: string, lanesText: string, total: Measure): Row {
    Row(name, date, IntervalLabel(iv), lanesText, total(datos, date, iv))
  }

  /** The rows of one date, one per range, in range order. */
  function DateRows(datos: seq<Record>, date: string, ivs: seq<Interval>, name: string, lanesText: string, total: Measure)
    : seq<Row>
  {
    if ivs == [] then []
    else DateRows(datos, date, ivs[..|ivs| - 1], name, lanesText, total) + [RowOf(datos, date, ivs[|ivs| - 1], name, lanesText, total)]
  }

  /** The rows of the given dates, date after date. */
  function RowsFor(datos: seq<Record>, dates: seq<string>, ivs: seq<Interval>, name: string, lanesText: string, total: Measure)
    : seq<Row>
  {
    if dates == [] then []
    else
      var date := dates[|dates| - 1];
      RowsFor(datos, dates[..|dates| - 1], ivs, name, lanesText, total) + DateRows(datos, date, ivs, name, lanesText, total)
  }

  /** The table `procesarDireccion` returns for one direction. */
  function DirectionRows(df: seq<Record>, lanes: seq<Option<int>>, ivs: seq<Interval>, name: string): seq<Row>
  {
    var datos := SelectLanes(df, lanes);
    RowsFor(datos, Dates(datos), EffectiveIntervals(ivs), name, LanesLabel(lanes), DayTotal)
  }

  /** `procesarDireccion`: keep the records of the chosen lanes, return no
      rows when none is left, and otherwise walk the dates in order of first
      appearance. */
  method ProcessDirection(df: seq<Record>, lanes: seq<Option<int>>, ivs: seq<Interval>, name: string)
    returns (rows: seq<Row>)
    ensures rows == DirectionRows(df, lanes, ivs, name)
  {
    var datos := SelectLanes(df, lanes);
    if |datos| == 0 {
      assert Map(datos, DateOf) == [];
      return [];
    }
    rows := DatesLoop(datos, Dates(datos), EffectiveIntervals(ivs), name, LanesLabel(lanes));
  }

  /** The outer loop of `procesarDireccion`: one date after the other, push
      the date's rows. */
  method DatesLoop(datos: seq<Record>, fechas: seq<string>, dayIvs: seq<Interval>, name: string, lanesText: string)
    returns (rows: seq<Row>)
    ensures rows == RowsFor(datos, fechas, dayIvs, name, lanesText, DayTotal)
  {
    rows := [];
    for d := 0 to |fechas|
      invariant rows == RowsFor(datos, fechas[..d], dayIvs, name, lanesText, DayTotal)
    {
      rows := PushDateRows(rows, datos, fechas[d], dayIvs, name, lanesText);
      assert fechas[..d + 1][..d] == fechas[..d];
    }
    assert fechas[..|fechas|] == fechas;
  }

  /** The inner loop of `procesarDireccion`: for one date, total every range
      over that date's records and push its row. */
  method PushDateRows(rows0: seq<Row>, datos: seq<Record>, fecha: string, dayIvs: seq<Interval>, name: string, lanesText: string)
    returns (rows: seq<Row>)
    ensures rows == rows0 + DateRows(datos, fecha, dayIvs, name, lanesText, DayTotal)
  {
    rows := rows0;
    var registrosFecha := OnDate(datos, fecha);
    for j := 0 to |dayIvs|
      invariant rows == rows0 + DateRows(datos, fecha, dayIvs[..j], name, lanesText, DayTotal)
    {
      var (inicio, fin) := dayIvs[j];
      var total := SumInterval(registrosFecha, inicio, fin);
      assert dayIvs[..j + 1][..j] == dayIvs[..j];
      rows := rows + [Row(name, fecha, inicio + "-" + fin, lanesText, total)];
    }
    assert dayIvs[..|dayIvs|] == dayIvs;
  }

  lemma {:induction false} DateRowsShape(datos: seq<Record>, date: string, ivs: seq<Interval>, name: string, lanesText: string, total: Measure)
    ensures |DateRows(datos, date, ivs, name, lanesText, total)| == |ivs|
    ensures forall j :: 0 <= j < |ivs| ==> DateRows(datos, date, ivs, name, lanesText, total)[j] == RowOf(datos, date, ivs[j], name, lanesText, total)
  {
    if ivs != [] {
      DateRowsShape(datos, date, ivs[..|ivs| - 1], name, lanesText, total);
    }
  }

  /** `k · n` written as repeated addition, so that table positions can be
      reasoned about without non-linear arithmetic. */
  function Cells(k: nat, n: nat): nat
  {
    if k == 0 then 0 else Cells(k - 1, n) + n
  }

  lemma {:induction false} CellsProduct(k: nat, n: nat)
    ensures Cells(k, n) == k * n
  {
    if k > 0 {
      CellsProduct(k - 1, n);
    }
  }

  /** Position `i·n + j` of a `k × n` table is inside it. */
  lemma {:induction false} CellBelow(i: nat, j: nat, k: nat, n: nat)
    requires i < k && j < n
    ensures Cells(i, n) + j < Cells(k, n)
  {
    if i + 1 < k {
      CellBelow(i, j, k - 1, n);
    }
  }

  lemma {:induction false} RowsForLength(datos: seq<Record>, dates: seq<string>, ivs: seq<Interval>, name: string, lanesText: string, total: Measure)
    ensures |RowsFor(datos, dates, ivs, name, lanesText, total)| == Cells(|dates|, |ivs|)
  {
    if dates != [] {
      var k := |dates| - 1;
      RowsForLength(datos, dates[..k], ivs, name, lanesText, total);
      DateRowsShape(datos, dates[k], ivs, name, lanesText, total);
    }
  }

  /** The rows of `dates` hold, at position `i·n + j`, the row of date `i` and range `j`. */
  lemma {:induction false} RowsForAt(datos: seq<Record>, dates: seq<string>, ivs: seq<Interval>, name: string, lanesText: string, total: Measure,
                                     i: nat, j: nat)
    requires i < |dates| && j < |ivs|
    ensures Cells(i, |ivs|) + j < |RowsFor(datos, dates, ivs, name, lanesText, total)|
    ensures RowsFor(datos, dates, ivs, name, lanesText, total)[Cells(i, |ivs|) + j]
            == RowOf(datos, dates[i], ivs[j], name, lanesText, total)
  {
    var k := |dates| - 1;
    var n := |ivs|;
    var prefix := dates[..k];
    var front := RowsFor(datos, prefix, ivs, name, lanesText, total);
    var back := DateRows(datos, dates[k], ivs, name, lanesText, total);
    assert RowsFor(datos, dates, ivs, name, lanesText, total) == front + back;
    RowsForLength(datos, prefix, ivs, name, lanesText, total);
    DateRowsShape(datos, dates[k], ivs, name, lanesText, total);
    var p := Cells(i, n) + j;
    if i < k {
      RowsForAt(datos, prefix, ivs, name, lanesText, total, i, j);
      CellBelow(i, j, k, n);
      assert prefix[i] == dates[i];
      assert (front + back)[p] == front[p];
    } else {
      assert p == |front| + j;
      assert (front + back)[p] == back[j];
    }
  }

  /** A direction's table has one row for every pair of a date (among the
      records of the chosen lanes, in order of first appearance) and a range
      (the given ones, or the whole day), date-major: row `i·n + j` belongs to
      date `i` and range `j`, and carries the direction's name, the range as
      `inicio-fin`, the lanes label and the range's total over that date's
      records, even when the total is 0. */
  lemma DirectionRowsShape(df: seq<Record>, lanes: seq<Option<int>>, ivs: seq<Interval>, name: string, i: nat, j: nat)
    requires i < |Dates(SelectLanes(df, lanes))| && j < |EffectiveIntervals(ivs)|
    ensures var datos, dayIvs := SelectLanes(df, lanes), EffectiveIntervals(ivs);
            var dates, rows := Dates(datos), DirectionRows(df, lanes, ivs, name);
            |rows| == |dates| * |dayIvs| &&
            Cells(i, |dayIvs|) + j < |rows| &&
            rows[Cells(i, |dayIvs|) + j] == Row(name, dates[i], dayIvs[j].0 + "-" + dayIvs[j].1, LanesLabel(lanes),
                                              IntervalTotal(OnDate(datos, dates[i]), dayIvs[j].0, dayIvs[j].1))
  {
    var datos, dayIvs := SelectLanes(df, lanes), EffectiveIntervals(ivs);
    var dates, lanesText := Dates(datos), LanesLabel(lanes);
    var rows := DirectionRows(df, lanes, ivs, name);
    assert rows == RowsFor(datos, dates, dayIvs, name, lanesText, DayTotal);
    assert |rows| == |dates| * |dayIvs| by {
      RowsForLength(datos, dates, dayIvs, name, lanesText, DayTotal);
      CellsProduct(|dates|, |dayIvs|);
    }
    assert Cells(i, |dayIvs|) + j < |rows| && rows[Cells(i, |dayIvs|) + j] == RowOf(datos, dates[i], dayIvs[j], name, lanesText, DayTotal) by {
      RowsForAt(datos, dates, dayIvs, name, lanesText, DayTotal, i, j);
    }
  }

  /** A direction's table is empty exactly when no record belongs to its lanes. */
  lemma DirectionRowsEmpty(df: seq<Record>, lanes: seq<Option<int>>, ivs: seq<Interval>, name: string)
    ensures DirectionRows(df, lanes, ivs, name) == [] <==> SelectLanes(df, lanes) == []
  {
    var datos := SelectLanes(df, lanes);
    var dayIvs := EffectiveIntervals(ivs);
    RowsForLength(datos, Dates(datos), dayIvs, name, LanesLabel(lanes), DayTotal);
    if datos != [] {
      assert Map(datos, DateOf)[0] in Dates(datos);
      CellBelow(0, 0, |Dates(datos)|, |dayIvs|);
    }
  }

  /** The dates of a direction's table are distinct, each is the date of a
      selected record, every selected record's date is one of them, and they
      come in the order in which they first appear. */
  lemma DatesFirstAppearance(datos: seq<Record>, i: nat, j: nat)
    requires i < j < |Dates(datos)|
    ensures Dates(datos)[i] != Dates(datos)[j]
    ensures FirstIndex(Map(datos, DateOf), Dates(datos)[i]) < FirstIndex(Map(datos, DateOf), Dates(datos)[j])
  {
    DistinctFirstAppearance(Map(datos, DateOf), i, j);
  }

  /** The `join` of the lanes reads back, lane by lane, as the list it came from. */
  lemma LanesLabelSplits(lanes: seq<Option<int>>)
    requires |lanes| > 0
    ensures Split(LanesLabel(lanes), ',') == Map(lanes, LaneText)
  {
    var texts := Map(lanes, LaneText);
    forall i | 0 <= i < |texts|
      ensures ',' !in texts[i]
    {
      match lanes[i]
      case Some(n) =>
        IntToStringShape(n);
        IntToStringNoComma(n);
      case None =>
    }
    SplitJoin(texts, ',');
  }

  /** The outcome of reading a file: the CSV reader's rows (header names as
      written), the two directions' lanes and the ranges. */
  function Pipeline(data: seq<RawRow>, lanesNS: seq<Option<int>>, lanesSN: seq<Option<int>>, ivs: seq<Interval>)
    : Result<seq<Row>, string>
  {
    if |data| == 0 then Failure(EmptyFileMessage)
    else
      var df := Normalize(Map(data, TrimKeys));
      if |df| == 0 then Failure(NoRecordsMessage)
      else Success(DirectionRows(df, lanesNS, ivs, NorthToSouth) + DirectionRows(df, lanesSN, ivs, SouthToNorth))
  }

  /** `procesarArchivoCSV`'s completion callback: reject when there are no
      rows, clean every row's header names, normalise and filter, reject when
      nothing is left, and resolve with the north-to-south table followed by
      the south-to-north one. */
  method ProcessFile(data: seq<RawRow>, lanesNS: seq<Option<int>>, lanesSN: seq<Option<int>>, ivs: seq<Interval>)
    returns (outcome: Result<seq<Row>, string>)
    ensures outcome == Pipeline(data, lanesNS, lanesSN, ivs)
  {
    if |data| == 0 {
      return Failure(EmptyFileMessage);
    }
    var cleaned: seq<CleanRow> := [];
    for i := 0 to |data|
      invariant cleaned == Map(data[..i], TrimKeys)
    {
      var fixed := CleanRowKeys(data[i]);
      cleaned := cleaned + [fixed];
    }
    assert data[..|data|] == data;
    var df := Normalize(cleaned);
    if |df| == 0 {
      return Failure(NoRecordsMessage);
    }
    var ns := ProcessDirection(df, lanesNS, ivs, NorthToSouth);
    var sn := ProcessDirection(df, lanesSN, ivs, SouthToNorth);
    return Success(ns + sn);
  }

  /** The three outcomes: no rows rejects with the empty-file message; rows of
      which none has a date, a time and a numeric count reject with the
      no-records message; otherwise the result is the north-to-south table
      followed by the south-to-north one. */
  lemma PipelineOutcomes(data: seq<RawRow>, lanesNS: seq<Option<int>>, lanesSN: seq<Option<int>>, ivs: seq<Interval>)
    ensures var out := Pipeline(data, lanesNS, lanesSN, ivs);
            (data == [] <==> out == Failure(EmptyFileMessage)) &&
            (out == Failure(NoRecordsMessage) <==>
               data != [] && forall i :: 0 <= i < |data| ==> !Usable(NormalizeRow(TrimKeys(data[i])))) &&
            (out.Success? ==>
               var df := Normalize(Map(data, TrimKeys));
               df != [] &&
               out.value[..|DirectionRows(df, lanesNS, ivs, NorthToSouth)|] == DirectionRows(df, lanesNS, ivs, NorthToSouth) &&
               out.value[|DirectionRows(df, lanesNS, ivs, NorthToSouth)|..] == DirectionRows(df, lanesSN, ivs, SouthToNorth))
  {
    var cleaned := Map(data, TrimKeys);
    assert forall i :: 0 <= i < |data| ==> NormalizeRow(cleaned[i]) == NormalizeRow(TrimKeys(data[i]));
  }
}
