/** The command-line entry of the batch script (scripts/procesar_excel.py,
    `parse_args`): the input path, a lane list written `1,2` and an interval
    list written `09:00-11:00,12:15-14:15`. Printing to standard error and
    leaving the process are represented by an `Exit` value. */
module Script {
  import opened Base
  import opened Text
  import opened Numbers
  import opened Direction

  /** What `parse_args` returns. */
  datatype Args = Args(inputPath: string, lanes: seq<int>, intervals: seq<(string, string)>)

  /** Leaving the process: exit status and what was written to standard error. */
  datatype Exit = Exit(status: int, stderr: string)

  /** `json.dumps({"error": "missing args"})` and the newline `print` adds. */
  const MissingArgs: string := "{\"error\": \"missing args\"}\n"

  /** `if x.strip()`: the piece holds something besides whitespace. */
  predicate NonBlank(x: string) {
    Trim(x) != ""
  }

  /** `int(x.strip())`; `None` when `int` raises. */
  function PieceValue(x: string): Option<int> {
    PyInt(Trim(x))
  }

  /** `[read(x) for x in pieces if keep(x)]`; `None` as soon as one `read`
      fails. */
  function Collect(pieces: seq<string>, keep: string -> bool, read: string -> Option<int>): Option<seq<int>>
    decreases |pieces|
  {
    if pieces == [] then Some([])
    else
      var front := Collect(pieces[..|pieces| - 1], keep, read);
      var x := pieces[|pieces| - 1];
      if !keep(x) then front
      else if front.Some? && read(x).Some? then Some(front.value + [read(x).value])
      else None
  }

  function ValueOr(read: string -> Option<int>): string -> int {
    (x: string) => if read(x).Some? then read(x).value else 0
  }

  /** The comprehension succeeds exactly when every kept piece reads. */
  lemma {:induction false} CollectAllOrNothing(pieces: seq<string>, keep: string -> bool, read: string -> Option<int>)
    ensures Collect(pieces, keep, read).Some?
            <==> forall i :: 0 <= i < |pieces| && keep(pieces[i]) ==> read(pieces[i]).Some?
    decreases |pieces|
  {
    if pieces != [] {
      var front := pieces[..|pieces| - 1];
      CollectAllOrNothing(front, keep, read);
      assert forall i :: 0 <= i < |front| ==> front[i] == pieces[i];
    }
  }

  /** When it succeeds it holds the value of every kept piece, in order. */
  lemma {:induction false} CollectContents(pieces: seq<string>, keep: string -> bool, read: string -> Option<int>)
    requires Collect(pieces, keep, read).Some?
    ensures Collect(pieces, keep, read).value == Map(Filter(pieces, keep), ValueOr(read))
    decreases |pieces|
  {
    if pieces != [] {
      var front := pieces[..|pieces| - 1];
      CollectContents(front, keep, read);
      if keep(pieces[|pieces| - 1]) {
        MapSnoc(Filter(front, keep), pieces[|pieces| - 1], ValueOr(read));
      }
    }
  }

  /** The lane argument: `[]` when it is empty or when any piece fails `int`. */
  function LaneArg(arg: string): seq<int> {
    if arg == "" then []
    else
      var v := Collect(Split(arg, ','), NonBlank, PieceValue);
      if v.Some? then v.value else []
  }

  /** The lane list: all or nothing. It is `[]` as soon as one non-blank piece
      is not an integer; otherwise it is the integers of the non-blank pieces,
      in order. */
  lemma LaneArgAllOrNothing(arg: string)
    ensures var pieces := Split(arg, ',');
            (exists i :: 0 <= i < |pieces| && NonBlank(pieces[i]) && PieceValue(pieces[i]).None?)
              ==> LaneArg(arg) == []
    ensures var pieces := Split(arg, ',');
            (forall i :: 0 <= i < |pieces| && NonBlank(pieces[i]) ==> PieceValue(pieces[i]).Some?)
              ==> LaneArg(arg) == Map(Filter(pieces, NonBlank), ValueOr(PieceValue))
  {
    var pieces := Split(arg, ',');
    CollectAllOrNothing(pieces, NonBlank, PieceValue);
    if Collect(pieces, NonBlank, PieceValue).Some? {
      CollectContents(pieces, NonBlank, PieceValue);
    }
    if arg == "" {
      assert pieces == [[]];
      assert Filter(pieces, NonBlank) == Filter([], NonBlank) + [];
    }
  }

  /** Every integer's text is a comma-free, non-blank piece that reads back as it. */
  lemma LaneTexts(lanes: seq<int>)
    ensures forall i :: 0 <= i < |lanes| ==>
              ',' !in IntToString(lanes[i]) && NonBlank(IntToString(lanes[i]))
              && PieceValue(IntToString(lanes[i])) == Some(lanes[i])
  {
    forall i | 0 <= i < |lanes|
      ensures ',' !in IntToString(lanes[i]) && NonBlank(IntToString(lanes[i]))
              && PieceValue(IntToString(lanes[i])) == Some(lanes[i])
    {
      IntToStringNoComma(lanes[i]);
      IntToStringShape(lanes[i]);
      IntToStringPyInt(lanes[i]);
    }
  }

  /** The pieces of `1,2,3` are the integers' texts. */
  lemma LaneJoinSplits(lanes: seq<int>)
    requires |lanes| > 0
    ensures Split(Join(Map(lanes, IntToString), ','), ',') == Map(lanes, IntToString)
  {
    LaneTexts(lanes);
    SplitJoin(Map(lanes, IntToString), ',');
  }

  /** Reading the integers' texts gives the integers back. */
  lemma LaneTextsCollect(lanes: seq<int>)
    ensures Collect(Map(lanes, IntToString), NonBlank, PieceValue) == Some(lanes)
  {
    var texts := Map(lanes, IntToString);
    LaneTexts(lanes);
    CollectAllOrNothing(texts, NonBlank, PieceValue);
    CollectContents(texts, NonBlank, PieceValue);
    FilterAll(texts, NonBlank);
    MapPointwise(texts, ValueOr(PieceValue), lanes);
  }

  /** Writing a non-empty lane list as `1,2,3` and reading it back gives the list. */
  lemma LaneArgRoundTrip(lanes: seq<int>)
    requires |lanes| > 0
    ensures LaneArg(Join(Map(lanes, IntToString), ',')) == lanes
  {
    var arg := Join(Map(lanes, IntToString), ',');
    LaneJoinSplits(lanes);
    assert arg != "" by {
      assert Split([], ',') == [[]];
    }
    LaneTextsCollect(lanes);
  }

  /** `[p.strip() for p in intervals_arg.split(",") if p.strip()]`. */
  function IntervalParts(arg: string): seq<string> {
    Map(Filter(Split(arg, ','), NonBlank), Trim)
  }

  predicate HasHyphen(p: string) {
    '-' in p
  }

  /** `a, b = p.split("-", 1)` and `(a.strip(), b.strip())` for a piece with a
      `-`; a piece without one is never given to it. */
  function Halves(p: string): (string, string) {
    if '-' in p then
      var h := SplitOnce(p, '-');
      (Trim(h.0), Trim(h.1))
    else (Trim(p), "")
  }

  /** The interval list `parse_args` builds: the pieces holding a `-`, each cut
      at its first `-`; pieces without one are skipped. */
  function IntervalArg(arg: string): seq<(string, string)> {
    if arg == "" then [] else Map(Filter(IntervalParts(arg), HasHyphen), Halves)
  }

  /** One more piece at the end adds its halves when it holds a `-`. */
  lemma IntervalStep(done: seq<string>, p: string)
    ensures Map(Filter(done + [p], HasHyphen), Halves)
            == Map(Filter(done, HasHyphen), Halves) + (if '-' in p then [Halves(p)] else [])
  {
    FilterSnoc(done, p, HasHyphen);
    if '-' in p {
      MapSnoc(Filter(done, HasHyphen), p, Halves);
    }
  }

  /** The `for p in parts` loop appending to `intervals`. */
  method CutIntervals(parts: seq<string>) returns (intervals: seq<(string, string)>)
    ensures intervals == Map(Filter(parts, HasHyphen), Halves)
  {
    intervals := [];
    for i := 0 to |parts|
      invariant intervals == Map(Filter(parts[..i], HasHyphen), Halves)
    {
      var p := parts[i];
      assert parts[..i + 1] == parts[..i] + [p];
      IntervalStep(parts[..i], p);
      if '-' in p {
        var (a, b) := SplitOnce(p, '-');
        intervals := intervals + [(Trim(a), Trim(b))];
      }
    }
    assert parts[..|parts|] == parts;
  }

  /** The interval argument: nothing when it is empty, otherwise its cleaned
      pieces cut by the loop. */
  method ParseIntervalArg(arg: string) returns (intervals: seq<(string, string)>)
    ensures intervals == IntervalArg(arg)
  {
    intervals := [];
    if arg != "" {
      intervals := CutIntervals(IntervalParts(arg));
    }
  }

  /** A piece is cut at its FIRST `-` only: everything after it, further
      hyphens included, is the second half. */
  lemma HalvesFirstHyphen(a: string, b: string)
    requires '-' !in a
    ensures Halves(a + "-" + b) == (Trim(a), Trim(b))
  {
    var p := a + "-" + b;
    assert p[|a|] == '-';
    var h := SplitOnce(p, '-');
    FirstIndexUnique(p, '-', |a|);
    assert p[..|a|] == a && p[|a| + 1..] == b;
  }

  /** A label `a-b` of plain ends is a comma-free piece that the cleaning
      leaves unchanged. */
  lemma IntervalLabelClean(iv: (string, string))
    requires Plain(iv.0) && Plain(iv.1)
    ensures ',' !in IntervalLabel(iv) && HasHyphen(IntervalLabel(iv))
    ensures Trim(IntervalLabel(iv)) == IntervalLabel(iv) && NonBlank(IntervalLabel(iv))
  {
    var piece := IntervalLabel(iv);
    assert piece[|iv.0|] == '-';
    assert piece[0] == if iv.0 == [] then '-' else iv.0[0];
    assert piece[|piece| - 1] == if iv.1 == [] then '-' else iv.1[|iv.1| - 1];
    TrimTrimmed(piece);
  }

  /** A label `a-b` of plain ends, `a` without a hyphen, is cut back into `(a, b)`. */
  lemma IntervalLabelHalves(iv: (string, string))
    requires Plain(iv.0) && Plain(iv.1) && '-' !in iv.0
    ensures Halves(IntervalLabel(iv)) == iv
  {
    var (a, b) := iv;
    assert Halves(IntervalLabel(iv)) == (Trim(a), Trim(b)) by {
      HalvesFirstHyphen(a, b);
    }
    assert Trim(a) == a by {
      TrimTrimmed(a);
    }
    assert Trim(b) == b by {
      TrimTrimmed(b);
    }
  }

  /** Writing a non-empty interval list as `a-b,c-d` and reading it back gives
      the list, as long as no end holds a comma or surrounding whitespace and
      no start holds a hyphen. */
  lemma IntervalArgRoundTrip(ivs: seq<(string, string)>)
    requires |ivs| > 0
    requires forall i :: 0 <= i < |ivs| ==> Plain(ivs[i].0) && Plain(ivs[i].1) && '-' !in ivs[i].0
    ensures IntervalArg(Join(Map(ivs, IntervalLabel), ',')) == ivs
  {
    var labels := Map(ivs, IntervalLabel);
    var arg := Join(labels, ',');
    forall i | 0 <= i < |labels|
      ensures ',' !in labels[i] && NonBlank(labels[i]) && Trim(labels[i]) == labels[i]
              && HasHyphen(labels[i]) && Halves(labels[i]) == ivs[i]
    {
      IntervalLabelClean(ivs[i]);
      IntervalLabelHalves(ivs[i]);
    }
    assert Split(arg, ',') == labels by {
      SplitJoin(labels, ',');
    }
    assert arg != "" by {
      assert Split([], ',') == [[]];
    }
    assert IntervalParts(arg) == labels by {
      FilterAll(labels, NonBlank);
      MapPointwise(labels, Trim, labels);
    }
    FilterAll(labels, HasHyphen);
    MapPointwise(labels, Halves, ivs);
  }

  /** `parse_args`: with fewer than two entries in `argv` it writes the error
      object to standard error and exits with status 1; otherwise the input
      path is `argv[1]` and a missing lane or interval argument counts as `""`. */
  method ParseArgs(argv: seq<string>) returns (outcome: Result<Args, Exit>)
    ensures |argv| < 2 ==> outcome == Failure(Exit(1, MissingArgs))
    ensures |argv| >= 2 ==> outcome.Success? && outcome.value.inputPath == argv[1]
    ensures |argv| >= 2 ==> outcome.Success? && outcome.value.lanes == LaneArg(if |argv| > 2 then argv[2] else "")
    ensures |argv| >= 2 ==> outcome.Success? && outcome.value.intervals == IntervalArg(if |argv| > 3 then argv[3] else "")
  {
    if |argv| < 2 {
      return Failure(Exit(1, MissingArgs));
    }
    var inputPath := argv[1];
    var lanesArg := if |argv| > 2 then argv[2] else "";
    var intervalsArg := if |argv| > 3 then argv[3] else "";
    var lanes := LaneArg(lanesArg);
    var intervals := ParseIntervalArg(intervalsArg);
    return Success(Args(inputPath, lanes, intervals));
  }
}
