/** Reading the traffic export's rows into records (lib/procesarExcelJS.js,
    the body of the CSV reader's completion callback before the per-direction
    work): header names are trimmed, the `Time` cell is split into a date token
    and a time token, `Lane` and `#vehicles` become numbers, and rows without a
    date, a time or a numeric count are dropped. */
module Records {
  import opened Base
  import opened Text
  import opened Numbers

  /** One data row as the CSV reader hands it over: each header name with its
      cell text, in the order the row object enumerates its keys. */
  type RawRow = seq<(string, string)>

  /** A row after its header names were trimmed. */
  type CleanRow = map<string, string>

  /** A normalised reading. `lane` is `None` when `parseInt` gave `NaN`;
      `count` is `None` when `parseFloat` gave `NaN`. */
  datatype Record = Record(lane: Option<int>, count: Option<real>, date: string, time: string)

  /** The row with every header name trimmed; when two names trim to the same
      text, the later column's value is the one kept. */
  function TrimKeys(row: RawRow): CleanRow
  {
    if row == [] then map[]
    else TrimKeys(row[..|row| - 1])[Trim(row[|row| - 1].0) := row[|row| - 1].1]
  }

  /** Index of the last column whose name trims to `k`, or -1 when there is none. */
  function LastColumn(row: RawRow, k: string): (i: int)
    ensures -1 <= i < |row|
    ensures i >= 0 ==> Trim(row[i].0) == k
    ensures forall j :: i < j < |row| ==> Trim(row[j].0) != k
  {
    if row == [] then -1
    else if Trim(row[|row| - 1].0) == k then |row| - 1
    else LastColumn(row[..|row| - 1], k)
  }

  /** The cleaned row holds exactly the trimmed header names, and each maps to
      the value of the LAST column whose name trims to it. */
  lemma {:induction false} TrimKeysLastWins(row: RawRow, k: string)
    ensures k in TrimKeys(row) <==> LastColumn(row, k) >= 0
    ensures k in TrimKeys(row) ==> TrimKeys(row)[k] == row[LastColumn(row, k)].1
  {
    if row != [] {
      var n := |row| - 1;
      TrimKeysLastWins(row[..n], k);
      if Trim(row[n].0) != k && LastColumn(row, k) >= 0 {
        assert row[..n][LastColumn(row, k)] == row[LastColumn(row, k)];
      }
    }
  }

  /** The `forEach` over the row's keys that fills `fixed`. */
  method CleanRowKeys(row: RawRow) returns (fixed: CleanRow)
    ensures fixed == TrimKeys(row)
  {
    fixed := map[];
    for i := 0 to |row|
      invariant fixed == TrimKeys(row[..i])
    {
      assert row[..i + 1][..i] == row[..i];
      fixed := fixed[Trim(row[i].0) := row[i].1];
    }
    assert row[..|row|] == row;
  }

  /** `r[k] || ""`: a missing cell reads as the empty string. */
  function Cell(r: CleanRow, k: string): string
  {
    if k in r then r[k] else ""
  }

  /** The `map` step: `Time` is trimmed and split on single spaces (date is the
      first piece, time the second or ""); an empty `Lane` or `#vehicles` cell
      reads as 0, any other is given to `parseInt` / `parseFloat`. */
  function NormalizeRow(r: CleanRow): Record
  {
    var tokens := Split(Trim(Cell(r, "Time")), ' ');
    var laneCell := Cell(r, "Lane");
    var countCell := Cell(r, "#vehicles");
    Record(
      if laneCell == "" then Some(0) else ParseInt(laneCell),
      if countCell == "" then Some(0.0) else ParseFloat(countCell),
      tokens[0],
      if |tokens| > 1 then tokens[1] else "")
  }

  /** The `filter` step: a date, a time and a count that is not `NaN`. */
  predicate Usable(rec: Record) {
    rec.date != "" && rec.time != "" && rec.count.Some?
  }

  /** The records that reach the per-direction step, in row order. */
  function Normalize(rows: seq<CleanRow>): (recs: seq<Record>)
    ensures |recs| <= |rows|
    ensures forall i :: 0 <= i < |recs| ==> Usable(recs[i])
    ensures recs == [] <==> forall i :: 0 <= i < |rows| ==> !Usable(NormalizeRow(rows[i]))
  {
    var all := Map(rows, NormalizeRow);
    var recs := Filter(all, Usable);
    assert recs == [] ==> forall i :: 0 <= i < |rows| ==> !Usable(NormalizeRow(rows[i])) by {
      forall i | 0 <= i < |rows| && Usable(all[i]) {
        FilterMembers(all, Usable, all[i]);
      }
    }
    assert recs != [] ==> exists j :: 0 <= j < |all| && Usable(NormalizeRow(rows[j])) by {
      if recs != [] {
        FilterMembers(all, Usable, recs[0]);
      }
    }
    recs
  }

  /** A kept record's date and time are the first two space-separated tokens of
      the trimmed `Time` cell: the cell starts with `date + " " + time`, and
      neither token holds a space. */
  lemma NormalizedTokens(r: CleanRow)
    requires Usable(NormalizeRow(r))
    ensures var rec := NormalizeRow(r);
            ' ' !in rec.date && ' ' !in rec.time &&
            exists rest :: Trim(Cell(r, "Time")) == rec.date + " " + rec.time + rest
                           && (rest == [] || rest[0] == ' ')
  {
    var t := Trim(Cell(r, "Time"));
    var tokens := Split(t, ' ');
    JoinSplit(t, ' ');
    assert |tokens| > 1;
    var tail := tokens[1..];
    assert Join(tokens, ' ') == tokens[0] + " " + Join(tail, ' ');
    if |tail| == 1 {
      assert t == tokens[0] + " " + tokens[1] + [];
    } else {
      assert Join(tail, ' ') == tokens[1] + " " + Join(tail[1..], ' ');
      assert t == tokens[0] + " " + tokens[1] + (" " + Join(tail[1..], ' '));
    }
  }

  /** Nothing but `Time` and `#vehicles` decides whether a row is kept: changing
      any other cell, `Lane` included, never drops or admits it. */
  lemma UsableIgnoresOtherCells(r: CleanRow, k: string, v: string)
    requires k != "Time" && k != "#vehicles"
    ensures Usable(NormalizeRow(r[k := v])) == Usable(NormalizeRow(r))
  {
    assert Cell(r[k := v], "Time") == Cell(r, "Time");
    assert Cell(r[k := v], "#vehicles") == Cell(r, "#vehicles");
  }

  /** A row whose `Lane` cell is not a number is still kept, with a `NaN` lane. */
  lemma NaNLaneKept(r: CleanRow, v: string)
    requires Usable(NormalizeRow(r))
    requires v != "" && ParseInt(v) == None
    ensures Usable(NormalizeRow(r["Lane" := v])) && NormalizeRow(r["Lane" := v]).lane == None
  {
    UsableIgnoresOtherCells(r, "Lane", v);
    assert Cell(r["Lane" := v], "Lane") == v;
  }

  /** Two spaces between the date and the time leave an empty second token, so
      the row is dropped even though both parts are present. */
  lemma DoubleSpaceDropped(r: CleanRow, date: string, time: string)
    requires Cell(r, "Time") == date + "  " + time
    requires date != [] && ' ' !in date && !IsSpace(date[0])
    requires time != [] && !IsSpace(time[|time| - 1])
    ensures !Usable(NormalizeRow(r))
  {
    var t := date + "  " + time;
    TrimTrimmed(t);
    assert t == date + [' '] + ([' '] + time);
    SplitAfterFirst(date, ' ', [' '] + time);
    SplitAfterFirst([], ' ', time);
    assert [] + [' '] + time == [' '] + time;
  }
}
