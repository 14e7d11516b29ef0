/** Wrappers and sequence helpers shared by the whole model.

    `Option` stands for a JavaScript value that may be `NaN` or `undefined`;
    `Result` stands for a promise that resolves or rejects, or for a process
    that prints its output or exits with an error. */
module Base {

  datatype Option<+T> = None | Some(value: T)

  datatype Result<+T, +E> = Success(value: T) | Failure(error: E)

  /** `Array.prototype.filter`: the elements of `s` that satisfy `p`, in order. */
  function Filter<T>(s: seq<T>, p: T -> bool): (r: seq<T>)
    ensures |r| <= |s|
    ensures forall i :: 0 <= i < |r| ==> p(r[i])
    decreases |s|
  {
    if s == [] then []
    else Filter(s[..|s| - 1], p) + (if p(s[|s| - 1]) then [s[|s| - 1]] else [])
  }

  /** A value is kept by a filter exactly when it occurs and passes the test. */
  lemma {:induction false} FilterMembers<T>(s: seq<T>, p: T -> bool, x: T)
    ensures x in Filter(s, p) <==> x in s && p(x)
    decreases |s|
  {
    if s != [] {
      var front := s[..|s| - 1];
      FilterMembers(front, p, x);
      assert s == front + [s[|s| - 1]];
    }
  }

  /** A filter keeps each value at most as often as it occurs. */
  lemma {:induction false} FilterMultiset<T>(s: seq<T>, p: T -> bool)
    ensures multiset(Filter(s, p)) <= multiset(s)
    decreases |s|
  {
    if s != [] {
      var front := s[..|s| - 1];
      FilterMultiset(front, p);
      assert s == front + [s[|s| - 1]];
    }
  }

  lemma {:induction false} FilterConcat<T>(a: seq<T>, b: seq<T>, p: T -> bool)
    ensures Filter(a + b, p) == Filter(a, p) + Filter(b, p)
    decreases |b|
  {
    if b != [] {
      var b' := b[..|b| - 1];
      assert (a + b)[..|a + b| - 1] == a + b';
      FilterConcat(a, b', p);
    } else {
      assert a + b == a;
    }
  }

  /** `Array.prototype.map`. */
  function Map<A, B>(s: seq<A>, f: A -> B): (r: seq<B>)
    ensures |r| == |s|
    ensures forall i :: 0 <= i < |s| ==> r[i] == f(s[i])
  {
    seq(|s|, i requires 0 <= i < |s| => f(s[i]))
  }

  ghost predicate NoDuplicates<T>(s: seq<T>) {
    forall i, j :: 0 <= i < j < |s| ==> s[i] != s[j]
  }

  /** Position of the first occurrence of `x` in `s`. */
  function FirstIndex<T(==)>(s: seq<T>, x: T): (i: nat)
    requires x in s
    ensures i < |s| && s[i] == x && x !in s[..i]
  {
    if s[0] == x then 0 else
      assert x in s[1..];
      1 + FirstIndex(s[1..], x)
  }

  /** `[...new Set(s)]`: the distinct elements of `s`, in order of first appearance. */
  function Distinct<T(==,!new)>(s: seq<T>): (r: seq<T>)
    ensures forall x :: x in r <==> x in s
    ensures NoDuplicates(r)
    decreases |s|
  {
    if s == [] then []
    else
      var d := Distinct(s[..|s| - 1]);
      if s[|s| - 1] in d then d else d + [s[|s| - 1]]
  }

  /** The elements of `Distinct(s)` are ordered by where they first occur in `s`. */
  lemma {:induction false} DistinctFirstAppearance<T(!new)>(s: seq<T>, i: nat, j: nat)
    requires i < j < |Distinct(s)|
    ensures FirstIndex(s, Distinct(s)[i]) < FirstIndex(s, Distinct(s)[j])
    decreases |s|
  {
    var z := s[|s| - 1];
    var s' := s[..|s| - 1];
    assert s == s' + [z];
    var d := Distinct(s');
    var r := Distinct(s);
    assert r[i] in s && r[j] in s;
    assert r[..|d|] == d;
    if j < |d| {
      DistinctFirstAppearance(s', i, j);
      FirstIndexPrefix(s', z, d[i]);
      FirstIndexPrefix(s', z, d[j]);
    } else {
      FirstIndexPrefix(s', z, d[i]);
      FirstIndexUnique(s, z, |s'|);
    }
  }

  lemma FirstIndexUnique<T>(s: seq<T>, x: T, i: nat)
    requires i < |s| && s[i] == x && x !in s[..i]
    ensures FirstIndex(s, x) == i
  {
    if i > 0 {
      assert s[0] == s[..i][0];
      FirstIndexUnique(s[1..], x, i - 1);
      assert s[1..][..i - 1] == s[..i][1..];
    }
  }

  lemma FirstIndexPrefix<T>(s: seq<T>, z: T, x: T)
    requires x in s
    ensures FirstIndex(s + [z], x) == FirstIndex(s, x)
  {
    var f := FirstIndex(s, x);
    assert (s + [z])[..f] == s[..f];
    FirstIndexUnique(s + [z], x, f);
  }

  /** Filtering one more element at the end. */
  lemma FilterSnoc<T>(s: seq<T>, x: T, p: T -> bool)
    ensures Filter(s + [x], p) == Filter(s, p) + (if p(x) then [x] else [])
  {
    assert (s + [x])[..|s|] == s;
  }

  /** A map is determined by its values at each position. */
  lemma MapPointwise<A, B>(s: seq<A>, f: A -> B, t: seq<B>)
    requires |s| == |t|
    requires forall i :: 0 <= i < |s| ==> f(s[i]) == t[i]
    ensures Map(s, f) == t
  {
  }

  /** Mapping one more element at the end. */
  lemma MapSnoc<A, B>(s: seq<A>, x: A, f: A -> B)
    ensures Map(s + [x], f) == Map(s, f) + [f(x)]
  {
  }

  /** `Distinct` of one more element at the end. */
  lemma DistinctSnoc<T(!new)>(s: seq<T>, x: T)
    ensures Distinct(s + [x]) == if x in Distinct(s) then Distinct(s) else Distinct(s) + [x]
  {
    assert (s + [x])[..|s|] == s;
  }

  /** A filter that no element passes keeps nothing. */
  lemma {:induction false} FilterNone<T>(s: seq<T>, p: T -> bool)
    requires forall i :: 0 <= i < |s| ==> !p(s[i])
    ensures Filter(s, p) == []
    decreases |s|
  {
    if s != [] {
      FilterNone(s[..|s| - 1], p);
    }
  }

  /** A filter that every element passes keeps the whole sequence. */
  lemma {:induction false} FilterAll<T>(s: seq<T>, p: T -> bool)
    requires forall i :: 0 <= i < |s| ==> p(s[i])
    ensures Filter(s, p) == s
    decreases |s|
  {
    if s != [] {
      var front := s[..|s| - 1];
      FilterAll(front, p);
      assert Filter(s, p) == Filter(front, p) + [s[|s| - 1]];
      assert front + [s[|s| - 1]] == s;
    }
  }
}
