/** Totals per time range (lib/procesarExcelJS.js, `parseHoraEnSegundos` and
    `sumarVehiculosPorIntervalo`): a range `[inicio, fin)` is walked in
    consecutive 900-second windows starting at `inicio`; the counts of the
    records whose time falls in a window are added up, and the sum is rounded. */
module Sweep {
  import opened Base
  import opened Text
  import opened Numbers
  import opened Records

  /** The time text `hh:mm` or `hh:mm:ss` the `H(H):MM(:SS)` pattern accepts,
      assembled from its digit groups (`ss` empty when absent). */
  function ClockText(hh: string, mm: string, ss: string): string {
    hh + ":" + mm + (if ss == "" then "" else ":" + ss)
  }

  ghost predicate ClockGroups(hh: string, mm: string, ss: string) {
    1 <= |hh| <= 2 && |mm| == 2 && (|ss| == 0 || |ss| == 2)
    && AllDigits(hh) && AllDigits(mm) && AllDigits(ss)
  }

  /** `parseHoraEnSegundos`: seconds since midnight of a time of day written
      `H:MM`, `HH:MM`, `H:MM:SS` or `HH:MM:SS` (seconds default to 0); `NaN`
      for the empty string and anything else. Hours and minutes are not range
      checked, so the result can reach 99:99:99. */
  function ClockSeconds(s: string): (r: Option<int>)
    ensures r.Some? ==> 0 <= r.value <= 99 * 3600 + 99 * 60 + 99
  {
    if s == [] || ':' !in s then None
    else
      var h := FirstIndex(s, ':');
      var rest := s[h + 1..];
      if !(1 <= h <= 2 && AllDigits(s[..h])) then None
      else
        DigitsValueBound(s[..h]);
        if |rest| == 2 && AllDigits(rest) then
          DigitsValueBound(rest);
          Some(DigitsValue(s[..h]) * 3600 + DigitsValue(rest) * 60)
        else if |rest| == 5 && rest[2] == ':' && AllDigits(rest[..2]) && AllDigits(rest[3..]) then
          DigitsValueBound(rest[..2]);
          DigitsValueBound(rest[3..]);
          Some(DigitsValue(s[..h]) * 3600 + DigitsValue(rest[..2]) * 60 + DigitsValue(rest[3..]))
        else None
  }

  /** Every text the pattern accepts is read as hours·3600 + minutes·60 + seconds. */
  lemma ClockOfGroups(hh: string, mm: string, ss: string)
    requires ClockGroups(hh, mm, ss)
    ensures ClockSeconds(ClockText(hh, mm, ss))
            == Some(DigitsValue(hh) * 3600 + DigitsValue(mm) * 60 + DigitsValue(ss))
  {
    var s := ClockText(hh, mm, ss);
    assert s[|hh|] == ':' && s[..|hh|] == hh;
    assert ':' !in hh;
    FirstIndexUnique(s, ':', |hh|);
    var rest := s[|hh| + 1..];
    if ss == "" {
      assert rest == mm;
    } else {
      assert rest == mm + ":" + ss;
      assert rest[..2] == mm && rest[3..] == ss;
    }
  }

  /** Conversely, every text that is read as a number has the pattern's shape. */
  lemma ClockHasGroups(s: string)
    requires ClockSeconds(s).Some?
    ensures exists hh, mm, ss :: (ClockGroups(hh, mm, ss) && s == ClockText(hh, mm, ss)
              && ClockSeconds(s).value == DigitsValue(hh) * 3600 + DigitsValue(mm) * 60 + DigitsValue(ss))
  {
    var h := FirstIndex(s, ':');
    var rest := s[h + 1..];
    if |rest| == 2 {
      assert s == ClockText(s[..h], rest, "");
      assert ClockGroups(s[..h], rest, "");
    } else {
      assert s == ClockText(s[..h], rest[..2], rest[3..]);
      assert ClockGroups(s[..h], rest[..2], rest[3..]);
    }
  }

  /** A range bound: `const [h, m] = t.split(":").map(Number)` and
      `h * 3600 + m * 60`; `NaN` when there is no second part or a part is
      not a number. */
  function BoundSeconds(t: string): Option<real>
  {
    var parts := Split(t, ':');
    if |parts| < 2 then None
    else
      var h, m := JsNumber(parts[0]), JsNumber(parts[1]);
      if h.Some? && m.Some? then Some(h.value * 3600.0 + m.value * 60.0) else None
  }

  /** `r["#vehicles"] || 0`: what a record adds to a total. */
  function Contribution(r: Record): real {
    match r.count
    case Some(v) => v
    case None => 0.0
  }

  /** Whether the record's time parses and lies in `[lo, hi)`; a `NaN` time
      fails both comparisons. */
  predicate InWindow(r: Record, lo: real, hi: real) {
    match ClockSeconds(r.time)
    case Some(s) => lo <= s as real < hi
    case None => false
  }

  /** Sum of the contributions of the records whose time lies in `[lo, hi)`. */
  function RangeSum(recs: seq<Record>, lo: real, hi: real): real
  {
    if recs == [] then 0.0
    else (if InWindow(recs[0], lo, hi) then Contribution(recs[0]) else 0.0) + RangeSum(recs[1..], lo, hi)
  }

  /** How many times the `for (marca = start; marca < end; marca += 900)` loop
      runs: the least number of 900-second windows from `start` that reach `end`. */
  function WindowCount(start: real, end: real): (n: nat)
    ensures end <= start ==> n == 0
    ensures n > 0 ==> start + 900.0 * (n - 1) as real < end <= start + 900.0 * n as real
  {
    if end <= start then 0
    else
      var q := (end - start) / 900.0;
      var f := q.Floor;
      if f as real == q then f else f + 1
  }

  /** The total for one range: the rounded sum over all records whose time lies
      in `[start, start + 900·k)`, where `k` windows are needed to reach `end`;
      0 when a bound is `NaN`. The covered span is not clipped at `end`. */
  function IntervalTotal(recs: seq<Record>, inicio: string, fin: string): int
  {
    BoundedTotal(recs, BoundSeconds(inicio), BoundSeconds(fin))
  }

  /** `IntervalTotal` once the two bounds are read. */
  function BoundedTotal(recs: seq<Record>, lo: Option<real>, hi: Option<real>): int
  {
    match (lo, hi)
    case (Some(start), Some(end)) => Round(RangeSum(recs, start, start + 900.0 * WindowCount(start, end) as real))
    case _ => 0
  }

  /** Adjacent ranges add up: no record is counted in two windows. */
  lemma {:induction false} RangeSplit(recs: seq<Record>, a: real, b: real, c: real)
    requires a <= b <= c
    ensures RangeSum(recs, a, b) + RangeSum(recs, b, c) == RangeSum(recs, a, c)
  {
    if recs != [] {
      RangeSplit(recs[1..], a, b, c);
    }
  }

  /** `sumarVehiculosPorIntervalo`: the window-by-window loop computes the total
      of the whole covered span. */
  method SumInterval(recs: seq<Record>, inicio: string, fin: string) returns (total: int)
    ensures total == IntervalTotal(recs, inicio, fin)
  {
    var acc := 0.0;
    var lo, hi := BoundSeconds(inicio), BoundSeconds(fin);
    if lo.Some? && hi.Some? {
      var start, end := lo.value, hi.value;
      ghost var k := WindowCount(start, end);
      ghost var j: nat := 0;
      var marca := start;
      RangeSumEmpty(recs, start);
      while marca < end
        invariant j <= k && marca == start + 900.0 * j as real
        invariant acc == RangeSum(recs, start, marca)
        decreases k - j
      {
        WindowsLeft(start, end, j);
        var siguiente := marca + 900.0;
        acc := acc + RangeSum(recs, marca, siguiente);
        RangeSplit(recs, start, marca, siguiente);
        marca, j := siguiente, j + 1;
      }
      WindowsLeft(start, end, j);
      assert acc == RangeSum(recs, start, start + 900.0 * WindowCount(start, end) as real);
    }
    total := Round(acc);
  }

  /** Window `j` is visited exactly when `j < WindowCount(start, end)`. */
  lemma WindowsLeft(start: real, end: real, j: nat)
    ensures start + 900.0 * j as real < end <==> j < WindowCount(start, end)
  {
    var k := WindowCount(start, end);
    if j < k {
      assert 900.0 * j as real <= 900.0 * (k - 1) as real;
    } else if k > 0 {
      assert 900.0 * j as real >= 900.0 * k as real;
    }
  }

  lemma {:induction false} RangeSumConcat(a: seq<Record>, b: seq<Record>, lo: real, hi: real)
    ensures RangeSum(a + b, lo, hi) == RangeSum(a, lo, hi) + RangeSum(b, lo, hi)
  {
    if a != [] {
      assert (a + b)[1..] == a[1..] + b;
      RangeSumConcat(a[1..], b, lo, hi);
    } else {
      assert a + b == b;
    }
  }

  lemma {:induction false} RangeSumNonNegative(recs: seq<Record>, lo: real, hi: real)
    requires forall i :: 0 <= i < |recs| ==> Contribution(recs[i]) >= 0.0
    ensures RangeSum(recs, lo, hi) >= 0.0
  {
    if recs != [] {
      RangeSumNonNegative(recs[1..], lo, hi);
    }
  }

  /** With non-negative counts every total is non-negative. */
  lemma IntervalTotalNonNegative(recs: seq<Record>, inicio: string, fin: string)
    requires forall i :: 0 <= i < |recs| ==> Contribution(recs[i]) >= 0.0
    ensures IntervalTotal(recs, inicio, fin) >= 0
  {
    BoundedTotalNonNegative(recs, BoundSeconds(inicio), BoundSeconds(fin));
  }

  lemma BoundedTotalNonNegative(recs: seq<Record>, lo: Option<real>, hi: Option<real>)
    requires forall i :: 0 <= i < |recs| ==> Contribution(recs[i]) >= 0.0
    ensures BoundedTotal(recs, lo, hi) >= 0
  {
    if lo.Some? && hi.Some? {
      RangeSumNonNegative(recs, lo.value, lo.value + 900.0 * WindowCount(lo.value, hi.value) as real);
    }
  }

  /** The total is 0 when a bound is `NaN` or the range is empty or reversed. */
  lemma IntervalTotalEmptyRange(recs: seq<Record>, inicio: string, fin: string)
    requires BoundSeconds(inicio).None? || BoundSeconds(fin).None?
             || BoundSeconds(fin).value <= BoundSeconds(inicio).value
    ensures IntervalTotal(recs, inicio, fin) == 0
  {
    if BoundSeconds(inicio).Some? && BoundSeconds(fin).Some? {
      var start := BoundSeconds(inicio).value;
      RangeSumEmpty(recs, start);
    }
  }

  lemma {:induction false} RangeSumEmpty(recs: seq<Record>, x: real)
    ensures RangeSum(recs, x, x) == 0.0
  {
    if recs != [] {
      RangeSumEmpty(recs[1..], x);
    }
  }

  /** A record whose time does not parse never changes any total. */
  lemma UnparsedTimeIgnored(recs: seq<Record>, r: Record, inicio: string, fin: string)
    requires ClockSeconds(r.time).None?
    ensures IntervalTotal(recs + [r], inicio, fin) == IntervalTotal(recs, inicio, fin)
  {
    match (BoundSeconds(inicio), BoundSeconds(fin))
    case (Some(start), Some(end)) =>
      var hi := start + 900.0 * WindowCount(start, end) as real;
      RangeSumConcat(recs, [r], start, hi);
    case _ =>
  }

  /** A record counts toward a range exactly when its time lies in the covered
      span, which begins at the range's start and ends less than 900 s after
      the range's end. */
  lemma CoveredSpan(r: Record, inicio: string, fin: string)
    requires BoundSeconds(inicio).Some? && BoundSeconds(fin).Some?
    requires ClockSeconds(r.time).Some? && r.count.Some?
    ensures var start, end, s := BoundSeconds(inicio).value, BoundSeconds(fin).value, ClockSeconds(r.time).value as real;
            IntervalTotal([r], inicio, fin) == (if InWindow(r, start, start + 900.0 * WindowCount(start, end) as real)
                                                then Round(r.count.value) else 0)
            && (start <= s < end ==> IntervalTotal([r], inicio, fin) == Round(r.count.value))
            && (s < start || s >= end + 900.0 ==> IntervalTotal([r], inicio, fin) == 0)
  {
    var start, end := BoundSeconds(inicio).value, BoundSeconds(fin).value;
    var hi := start + 900.0 * WindowCount(start, end) as real;
    assert [r][1..] == [];
    assert RangeSum([r], start, hi) == (if InWindow(r, start, hi) then r.count.value else 0.0);
    assert IntervalTotal([r], inicio, fin) == Round(RangeSum([r], start, hi));
    WindowsLeft(start, end, WindowCount(start, end));
  }

  /** The last window is not clipped at the range's end: for a range shorter
      than one window (such as 00:00-00:01) a reading taken after the end but
      inside the first window (such as 00:10) is counted in full. */
  lemma LastWindowOverrun(r: Record, inicio: string, fin: string)
    requires BoundSeconds(inicio).Some? && BoundSeconds(fin).Some?
    requires ClockSeconds(r.time).Some? && r.count.Some?
    requires var start, end, s := BoundSeconds(inicio).value, BoundSeconds(fin).value, ClockSeconds(r.time).value as real;
             start < end <= s < start + 900.0
    ensures IntervalTotal([r], inicio, fin) == Round(r.count.value)
  {
    var start, end := BoundSeconds(inicio).value, BoundSeconds(fin).value;
    assert WindowCount(start, end) == 1;
    CoveredSpan(r, inicio, fin);
  }
}
