/** What the page does with the result rows besides showing them
    (app/page.jsx): the order `ordenar` gives the rows of an exported sheet,
    the `grouped` reduction behind the result panels, and the split of a group
    key back into direction and date. */
module Export {
  import opened Base
  import opened Text
  import opened Numbers
  import opened Direction

  /** The sort key of a row: the calendar date of `Fecha` and the start minute
      of `Intervalo`. */
  datatype SortKey = SortKey(year: int, month: int, day: int, minute: real)

  /** The order `ordenar`'s comparator induces: by date, then by start minute.
      Within the dates `new Date` accepts unchanged (see `DateKey`), earlier
      dates have smaller millisecond values. */
  predicate KeyLe(a: SortKey, b: SortKey) {
    a.year < b.year
    || (a.year == b.year && (a.month < b.month
    || (a.month == b.month && (a.day < b.day
    || (a.day == b.day && a.minute <= b.minute)))))
  }

  lemma KeyLeTotal(a: SortKey, b: SortKey)
    ensures KeyLe(a, b) || KeyLe(b, a)
    ensures KeyLe(a, b) && KeyLe(b, a) ==> a == b
  {
  }

  lemma KeyLeTransitive(a: SortKey, b: SortKey, c: SortKey)
    requires KeyLe(a, b) && KeyLe(b, c)
    ensures KeyLe(a, c)
  {
  }

  predicate LeapYear(y: int) {
    y % 4 == 0 && (y % 100 != 0 || y % 400 == 0)
  }

  function DaysInMonth(y: int, m: int): int
    requires 1 <= m <= 12
  {
    if m == 2 then (if LeapYear(y) then 29 else 28)
    else if m == 4 || m == 6 || m == 9 || m == 11 then 30
    else 31
  }

  /** An integer read by `Number`, or `None`. */
  function WholeNumber(x: Option<real>): Option<int> {
    match x
    case Some(v) => if v.Floor as real == v then Some(v.Floor) else None
    case None => None
  }

  /** `fechaKeyToMillis`: `Fecha` split on `/` and read with `Number` as day,
      month and year. Only dates `new Date(y, m - 1, d)` takes as they are get
      a key: whole numbers forming a real calendar date, with a year from 100
      (smaller years are moved to the 1900s) up to 275759 (the last whole year
      a `Date` holds). */
  function DateKey(fecha: string): (key: Option<(int, int, int)>)
    ensures key.Some? ==> 1 <= key.value.1 <= 12 && 1 <= key.value.2 <= DaysInMonth(key.value.0, key.value.1)
  {
    DateOfPieces(Split(fecha, '/'))
  }

  /** `fechaKeyToMillis` once `Fecha` is split on `/`; pieces after the third
      are ignored. */
  function DateOfPieces(parts: seq<string>): (key: Option<(int, int, int)>)
    ensures key.Some? ==> 1 <= key.value.1 <= 12 && 1 <= key.value.2 <= DaysInMonth(key.value.0, key.value.1)
  {
    if |parts| < 3 then None
    else
      var d, m, y := WholeNumber(JsNumber(parts[0])), WholeNumber(JsNumber(parts[1])), WholeNumber(JsNumber(parts[2]));
      if d.Some? && m.Some? && y.Some? && 100 <= y.value <= 275759 && 1 <= m.value <= 12
         && 1 <= d.value <= DaysInMonth(y.value, m.value)
      then Some((y.value, m.value, d.value))
      else None
  }

  /** `intervaloInicioMin`: the text before the first `-`, split on `:`, read
      with `Number` as hours and minutes; `h * 60 + m`, or `NaN` (`None`) when
      either is missing or not a number. */
  function StartMinute(intervalo: string): Option<real> {
    ClockMinutes(Split(Split(intervalo, '-')[0], ':'))
  }

  /** The key `ordenar` compares a row by, when both of its parts exist. */
  function RowKey(r: Row): Option<SortKey> {
    match (DateKey(r.date), StartMinute(r.interval))
    case (Some((y, m, d)), Some(minute)) => Some(SortKey(y, m, d, minute))
    case _ => None
  }

  predicate Keyed<T>(s: seq<T>, key: T -> Option<SortKey>) {
    forall i :: 0 <= i < |s| ==> key(s[i]).Some?
  }

  /** Every element's key is at most every later element's key. */
  predicate Sorted<T>(s: seq<T>, key: T -> Option<SortKey>)
    requires Keyed(s, key)
  {
    forall i, j :: 0 <= i < j < |s| ==> KeyLe(key(s[i]).value, key(s[j]).value)
  }

  function HasKey<T>(key: T -> Option<SortKey>, k: SortKey): T -> bool {
    (x: T) => key(x) == Some(k)
  }

  /** `x` placed before the first element whose key is not below its own. */
  function Insert<T>(x: T, s: seq<T>, key: T -> Option<SortKey>): (r: seq<T>)
    requires key(x).Some? && Keyed(s, key)
    ensures multiset(r) == multiset{x} + multiset(s)
    ensures Keyed(r, key)
  {
    if s == [] then [x]
    else if KeyLe(key(x).value, key(s[0]).value) then [x] + s
    else
      var rest := Insert(x, s[1..], key);
      assert s == [s[0]] + s[1..];
      [s[0]] + rest
  }

  /** A stable sort by `key`: insertion of each element, first to last, in
      front of the sorted remainder. */
  function Sort<T>(s: seq<T>, key: T -> Option<SortKey>): (r: seq<T>)
    requires Keyed(s, key)
    ensures multiset(r) == multiset(s)
    ensures Keyed(r, key)
  {
    if s == [] then []
    else
      assert s == [s[0]] + s[1..];
      Insert(s[0], Sort(s[1..], key), key)
  }

  lemma {:induction false} InsertSorted<T>(x: T, s: seq<T>, key: T -> Option<SortKey>)
    requires key(x).Some? && Keyed(s, key) && Sorted(s, key)
    ensures Sorted(Insert(x, s, key), key)
  {
    var r := Insert(x, s, key);
    if s != [] && KeyLe(key(x).value, key(s[0]).value) {
      forall i, j | 0 <= i < j < |r|
        ensures KeyLe(key(r[i]).value, key(r[j]).value)
      {
        if i == 0 && j > 1 {
          KeyLeTransitive(key(x).value, key(s[0]).value, key(s[j - 1]).value);
        }
      }
    } else if s != [] {
      var rest := Insert(x, s[1..], key);
      InsertSorted(x, s[1..], key);
      KeyLeTotal(key(x).value, key(s[0]).value);
      forall j | 0 < j < |r|
        ensures KeyLe(key(s[0]).value, key(r[j]).value)
      {
        assert r[j] in multiset{x} + multiset(s[1..]) by {
          assert r[j] == rest[j - 1];
        }
        if r[j] != x {
          var k :| 0 <= k < |s[1..]| && s[1..][k] == r[j];
        }
      }
    }
  }

  /** The elements with key `k` are in the same order before and after an
      insertion, the inserted one first among them. */
  lemma {:induction false} InsertStable<T>(x: T, s: seq<T>, key: T -> Option<SortKey>, k: SortKey)
    requires key(x).Some? && Keyed(s, key)
    ensures Filter(Insert(x, s, key), HasKey(key, k))
            == Filter([x], HasKey(key, k)) + Filter(s, HasKey(key, k))
  {
    var p := HasKey(key, k);
    if s == [] {
    } else if KeyLe(key(x).value, key(s[0]).value) {
      FilterConcat([x], s, p);
    } else {
      var rest := s[1..];
      var ins := Insert(x, rest, key);
      assert Filter(Insert(x, s, key), p) == Filter([s[0]], p) + Filter(ins, p) by {
        assert Insert(x, s, key) == [s[0]] + ins;
        FilterConcat([s[0]], ins, p);
      }
      assert Filter(ins, p) == Filter([x], p) + Filter(rest, p) by {
        InsertStable(x, rest, key, k);
      }
      assert Filter(s, p) == Filter([s[0]], p) + Filter(rest, p) by {
        assert s == [s[0]] + rest;
        FilterConcat([s[0]], rest, p);
      }
      assert p(x) ==> !p(s[0]) by {
        KeyLeTotal(key(x).value, key(x).value);
      }
    }
  }

  lemma {:induction false} SortSorted<T>(s: seq<T>, key: T -> Option<SortKey>)
    requires Keyed(s, key)
    ensures Sorted(Sort(s, key), key)
  {
    if s != [] {
      SortSorted(s[1..], key);
      InsertSorted(s[0], Sort(s[1..], key), key);
    }
  }

  /** The sort is stable: the elements sharing any one key keep their order. */
  lemma {:induction false} SortStable<T>(s: seq<T>, key: T -> Option<SortKey>, k: SortKey)
    requires Keyed(s, key)
    ensures Filter(Sort(s, key), HasKey(key, k)) == Filter(s, HasKey(key, k))
  {
    if s != [] {
      SortStable(s[1..], key, k);
      InsertStable(s[0], Sort(s[1..], key), key, k);
      FilterConcat([s[0]], s[1..], HasKey(key, k));
      assert s == [s[0]] + s[1..];
    }
  }

  /** `ordenar`: a sorted copy of the rows; the rows themselves are values and
      stay as they were. Every row must have a key, since the comparator is
      not consistent for rows without one. */
  function Ordenar(rows: seq<Row>): (sorted: seq<Row>)
    requires Keyed(rows, RowKey)
    ensures multiset(sorted) == multiset(rows)
    ensures Keyed(sorted, RowKey) && Sorted(sorted, RowKey)
  {
    SortSorted(rows, RowKey);
    Sort(rows, RowKey)
  }

  /** Rows with equal keys keep their relative order under `ordenar`. */
  lemma OrdenarStable(rows: seq<Row>, k: SortKey)
    requires Keyed(rows, RowKey)
    ensures Filter(Ordenar(rows), HasKey(RowKey, k)) == Filter(rows, HasKey(RowKey, k))
  {
    SortStable(rows, RowKey, k);
  }
  /** `intervaloInicioMin` once the start text is split on `:`. */
  function ClockMinutes(hm: seq<string>): Option<real> {
    if |hm| < 2 then None
    else
      var h, m := JsNumber(hm[0]), JsNumber(hm[1]);
      if h.Some? && m.Some? then Some(h.value * 60.0 + m.value) else None
  }

  /** A start written `hh:mm` before the first `-` gives `hh * 60 + mm`. */
  lemma StartMinuteOfClock(h: string, m: string, rest: string)
    requires h != [] && AllDigits(h) && m != [] && AllDigits(m)
    ensures StartMinute(h + ":" + m + "-" + rest) == Some(DigitsValue(h) as real * 60.0 + DigitsValue(m) as real)
  {
    var ini := h + ":" + m;
    var text := ini + "-" + rest;
    assert Split(text, '-')[0] == ini by {
      assert forall i :: 0 <= i < |ini| ==> ini[i] == ':' || IsDigit(ini[i]);
      SplitAfterFirst(ini, '-', rest);
    }
    assert Split(ini, ':') == [h, m] by {
      assert ':' !in h && ':' !in m;
      SplitAfterFirst(h, ':', m);
      SplitNoSeparator(m, ':');
    }
    assert StartMinute(text) == ClockMinutes([h, m]);
    ClockMinutesOfDigits(h, m);
  }

  lemma ClockMinutesOfDigits(h: string, m: string)
    requires h != [] && AllDigits(h) && m != [] && AllDigits(m)
    ensures ClockMinutes([h, m]) == Some(DigitsValue(h) as real * 60.0 + DigitsValue(m) as real)
  {
    DigitsAsNumber(h);
    DigitsAsNumber(m);
    ClockMinutesOf(h, m, DigitsValue(h) as real, DigitsValue(m) as real);
  }

  lemma ClockMinutesOf(h: string, m: string, hours: real, minutes: real)
    requires JsNumber(h) == Some(hours) && JsNumber(m) == Some(minutes)
    ensures ClockMinutes([h, m]) == Some(hours * 60.0 + minutes)
  {
  }

  /** A `dd/mm/yyyy` date of digits that is a real calendar date from the year
      100 on gets the key (year, month, day). */
  lemma DateKeyOfDigits(d: string, m: string, y: string)
    requires d != [] && AllDigits(d) && m != [] && AllDigits(m) && y != [] && AllDigits(y)
    requires 100 <= DigitsValue(y) <= 275759 && 1 <= DigitsValue(m) <= 12
    requires 1 <= DigitsValue(d) <= DaysInMonth(DigitsValue(y), DigitsValue(m))
    ensures DateKey(d + "/" + m + "/" + y) == Some((DigitsValue(y) as int, DigitsValue(m) as int, DigitsValue(d) as int))
  {
    var text := d + "/" + m + "/" + y;
    assert Split(text, '/') == [d, m, y] by {
      assert '/' !in d && '/' !in m && '/' !in y;
      SplitAfterFirst(m, '/', y);
      SplitNoSeparator(y, '/');
      SplitAfterFirst(d, '/', m + "/" + y);
      assert text == d + ['/'] + (m + ['/'] + y);
    }
    DateOfDigits(d, m, y);
  }

  lemma DateOfDigits(d: string, m: string, y: string)
    requires d != [] && AllDigits(d) && m != [] && AllDigits(m) && y != [] && AllDigits(y)
    requires 100 <= DigitsValue(y) <= 275759 && 1 <= DigitsValue(m) <= 12
    requires 1 <= DigitsValue(d) <= DaysInMonth(DigitsValue(y), DigitsValue(m))
    ensures DateOfPieces([d, m, y]) == Some((DigitsValue(y) as int, DigitsValue(m) as int, DigitsValue(d) as int))
  {
    DigitsAsNumber(d);
    DigitsAsNumber(m);
    DigitsAsNumber(y);
    DateOfNumbers(d, m, y, DigitsValue(d), DigitsValue(m), DigitsValue(y));
  }

  lemma DateOfNumbers(d: string, m: string, y: string, day: int, month: int, year: int)
    requires JsNumber(d) == Some(day as real) && JsNumber(m) == Some(month as real) && JsNumber(y) == Some(year as real)
    requires 100 <= year <= 275759 && 1 <= month <= 12 && 1 <= day <= DaysInMonth(year, month)
    ensures DateOfPieces([d, m, y]) == Some((year, month, day))
  {
  }
  /** `${item.Dirección}-${item.Fecha}`: the key of a result panel. */
  function GroupKey(r: Row): string {
    r.direction + "-" + r.date
  }

  function KeyIs<T, K(==)>(f: T -> K, k: K): T -> bool {
    (x: T) => f(x) == k
  }

  function KeyAmong<T, K(==)>(f: T -> K, ks: seq<K>): T -> bool {
    (x: T) => f(x) in ks
  }

  /** `keys` and `groups` are the grouping of `s`: the distinct keys in order
      of first appearance, and for each key the rows that have it, in order. */
  ghost predicate Grouped<T>(s: seq<T>, f: T -> string, keys: seq<string>, groups: map<string, seq<T>>) {
    && keys == Distinct(Map(s, f))
    && (forall k :: k in groups <==> k in keys)
    && (forall k :: k in groups ==> groups[k] == Filter(s, KeyIs(f, k)))
  }

  /** The `grouped` reduction: one group per key, created when the key first
      turns up (so the keys are in order of first appearance, which is also
      the order `Object.keys` lists them in, none of them being an array
      index since each holds a `-`), each holding its rows in input order. */
  method GroupResults(results: seq<Row>) returns (keys: seq<string>, groups: map<string, seq<Row>>)
    ensures keys == Distinct(Map(results, GroupKey))
    ensures forall k :: k in groups <==> k in keys
    ensures forall k :: k in groups ==> groups[k] == Filter(results, KeyIs(GroupKey, k))
  {
    keys, groups := [], map[];
    for i := 0 to |results|
      invariant Grouped(results[..i], GroupKey, keys, groups)
    {
      var item := results[i];
      var key := GroupKey(item);
      assert results[..i + 1] == results[..i] + [item];
      if key in groups {
        JoinGroup(results[..i], GroupKey, item, keys, groups);
        groups := groups[key := groups[key] + [item]];
      } else {
        OpenGroup(results[..i], GroupKey, item, keys, groups);
        groups := groups[key := [item]];
        keys := keys + [key];
      }
    }
    assert results[..|results|] == results;
  }

  /** A row whose key already has a group joins the end of that group. */
  lemma JoinGroup<T>(prefix: seq<T>, f: T -> string, item: T, keys: seq<string>, groups: map<string, seq<T>>)
    requires Grouped(prefix, f, keys, groups) && f(item) in groups
    ensures Grouped(prefix + [item], f, keys, groups[f(item) := groups[f(item)] + [item]])
  {
    KeysStep(prefix, f, item, keys);
    GroupsStep(prefix, f, item, groups, groups[f(item) := groups[f(item)] + [item]]);
  }

  /** A row with a new key opens a group of its own, after all the others. */
  lemma OpenGroup<T>(prefix: seq<T>, f: T -> string, item: T, keys: seq<string>, groups: map<string, seq<T>>)
    requires Grouped(prefix, f, keys, groups) && f(item) !in groups
    ensures Grouped(prefix + [item], f, keys + [f(item)], groups[f(item) := [item]])
  {
    var key := f(item);
    KeysStep(prefix, f, item, keys);
    assert Filter(prefix, KeyIs(f, key)) == [] by {
      forall j | 0 <= j < |prefix|
        ensures f(prefix[j]) != key
      {
        assert Map(prefix, f)[j] == f(prefix[j]);
      }
      FilterNone(prefix, KeyIs(f, key));
    }
    GroupsStep(prefix, f, item, groups, groups[key := [item]]);
  }

  lemma KeysStep<T>(prefix: seq<T>, f: T -> string, item: T, keys: seq<string>)
    requires keys == Distinct(Map(prefix, f))
    ensures Distinct(Map(prefix + [item], f))
            == if f(item) in keys then keys else keys + [f(item)]
  {
    MapSnoc(prefix, item, f);
    DistinctSnoc(Map(prefix, f), f(item));
  }

  lemma GroupsStep<T>(prefix: seq<T>, f: T -> string, item: T, groups: map<string, seq<T>>, groups': map<string, seq<T>>)
    requires forall k :: k in groups ==> groups[k] == Filter(prefix, KeyIs(f, k))
    requires f(item) in groups'
    requires groups'[f(item)] == Filter(prefix, KeyIs(f, f(item))) + [item]
    requires forall k :: k in groups' && k != f(item) ==> k in groups && groups'[k] == groups[k]
    ensures forall k :: k in groups' ==> groups'[k] == Filter(prefix + [item], KeyIs(f, k))
  {
    forall k | k in groups'
      ensures groups'[k] == Filter(prefix + [item], KeyIs(f, k))
    {
      FilterSnoc(prefix, item, KeyIs(f, k));
    }
  }

  /** Each row is in the group of its own key and in no other. */
  lemma GroupsPartition(results: seq<Row>, keys: seq<string>, groups: map<string, seq<Row>>, item: Row, k: string)
    requires forall k :: k in groups ==> groups[k] == Filter(results, KeyIs(GroupKey, k))
    requires item in results && k in groups
    ensures item in groups[k] <==> k == GroupKey(item)
  {
    FilterMembers(results, KeyIs(GroupKey, k), item);
  }

  /** The groups, in key order, one after the other. */
  function Flatten<K, T>(ks: seq<K>, groups: map<K, seq<T>>): seq<T>
    requires forall i :: 0 <= i < |ks| ==> ks[i] in groups
  {
    if ks == [] then [] else Flatten(ks[..|ks| - 1], groups) + groups[ks[|ks| - 1]]
  }

  /** Selecting the keys `ks + [k]` selects those of `ks` and, apart from
      them, those of `k`. */
  lemma {:induction false} FilterAmongSplit<T, K>(s: seq<T>, f: T -> K, ks: seq<K>, k: K)
    requires k !in ks
    ensures multiset(Filter(s, KeyAmong(f, ks + [k])))
            == multiset(Filter(s, KeyAmong(f, ks))) + multiset(Filter(s, KeyIs(f, k)))
    decreases |s|
  {
    if s != [] {
      FilterAmongSplit(s[..|s| - 1], f, ks, k);
    }
  }

  /** Laying the groups of distinct keys end to end gives, up to order, the
      elements whose key is among them. */
  lemma {:induction false} FlattenGroups<T, K>(s: seq<T>, f: T -> K, ks: seq<K>, groups: map<K, seq<T>>)
    requires NoDuplicates(ks)
    requires forall i :: 0 <= i < |ks| ==> ks[i] in groups && groups[ks[i]] == Filter(s, KeyIs(f, ks[i]))
    ensures multiset(Flatten(ks, groups)) == multiset(Filter(s, KeyAmong(f, ks)))
    decreases |ks|
  {
    if ks == [] {
      FilterNone(s, KeyAmong(f, ks));
    } else {
      var front, k := ks[..|ks| - 1], ks[|ks| - 1];
      FlattenGroups(s, f, front, groups);
      assert k !in front;
      assert front + [k] == ks;
      FilterAmongSplit(s, f, front, k);
    }
  }

  /** The groups laid end to end hold exactly the results, each once. */
  lemma GroupsPermutation(results: seq<Row>, keys: seq<string>, groups: map<string, seq<Row>>)
    requires keys == Distinct(Map(results, GroupKey))
    requires forall k :: k in groups <==> k in keys
    requires forall k :: k in groups ==> groups[k] == Filter(results, KeyIs(GroupKey, k))
    ensures multiset(Flatten(keys, groups)) == multiset(results)
  {
    FlattenGroups(results, GroupKey, keys, groups);
    forall i | 0 <= i < |results|
      ensures KeyAmong(GroupKey, keys)(results[i])
    {
      assert Map(results, GroupKey)[i] == GroupKey(results[i]);
    }
    FilterAll(results, KeyAmong(GroupKey, keys));
  }

  /** `const [direccion, ...fechaParts] = key.split("-")` and
      `fechaParts.join("-")`. */
  function SplitGroupKey(key: string): (string, string) {
    var parts := Split(key, '-');
    (parts[0], Join(parts[1..], '-'))
  }

  /** The panel shows the row's own direction and date, hyphens in the date
      included, as long as the direction has no hyphen (neither direction
      name has one). */
  lemma GroupKeySplit(r: Row)
    requires '-' !in r.direction
    ensures SplitGroupKey(GroupKey(r)) == (r.direction, r.date)
  {
    SplitAfterFirst(r.direction, '-', r.date);
    JoinSplit(r.date, '-');
  }
}
