/** String operations the pipeline relies on: `trim` (JavaScript) and `strip`
    (Python), `split` on a one-character separator, `join`, and Python's
    `split(sep, 1)`. Strings are sequences of characters. */
module Text {
  import opened Base

  /** The ASCII whitespace characters removed by `trim` and `strip`. */
  predicate IsSpace(c: char) {
    c == ' ' || c == '\t' || c == '\n' || c == '\r' || c == '\U{B}' || c == '\U{C}'
  }

  /** `trimStart`: drop the leading whitespace. */
  function TrimStart(s: string): (r: string)
    ensures |r| <= |s| && r == s[|s| - |r|..]
    ensures forall i :: 0 <= i < |s| - |r| ==> IsSpace(s[i])
    ensures r == [] || !IsSpace(r[0])
  {
    if s != [] && IsSpace(s[0]) then TrimStart(s[1..]) else s
  }

  /** `trimEnd`: drop the trailing whitespace. */
  function TrimEnd(s: string): (r: string)
    ensures |r| <= |s| && r == s[..|r|]
    ensures forall i :: |r| <= i < |s| ==> IsSpace(s[i])
    ensures r == [] || !IsSpace(r[|r| - 1])
  {
    if s != [] && IsSpace(s[|s| - 1]) then TrimEnd(s[..|s| - 1]) else s
  }

  /** How many whitespace characters `s` starts with. */
  function LeadingSpaces(s: string): (n: nat)
    ensures n <= |s| && (forall i :: 0 <= i < n ==> IsSpace(s[i]))
    ensures n == |s| || !IsSpace(s[n])
  {
    if s != [] && IsSpace(s[0]) then 1 + LeadingSpaces(s[1..]) else 0
  }

  /** `trim()` in JavaScript, `strip()` in Python: `s` with its leading
      whitespace and its trailing whitespace removed, and nothing else. */
  function Trim(s: string): (r: string)
    ensures LeadingSpaces(s) + |r| <= |s|
    ensures r == s[LeadingSpaces(s)..LeadingSpaces(s) + |r|]
    ensures forall i :: LeadingSpaces(s) + |r| <= i < |s| ==> IsSpace(s[i])
    ensures r == [] || (!IsSpace(r[0]) && !IsSpace(r[|r| - 1]))
  {
    var a := LeadingSpaces(s);
    var r := TrimEnd(s[a..]);
    assert forall i :: a + |r| <= i < |s| ==> s[i] == s[a..][i - a];
    assert r != [] ==> r[0] == s[a];
    r
  }

  /** A string that neither starts nor ends with whitespace is its own trim. */
  lemma TrimTrimmed(s: string)
    requires s == [] || (!IsSpace(s[0]) && !IsSpace(s[|s| - 1]))
    ensures Trim(s) == s
  {
  }

  /** `s.split(c)` for a one-character separator: the maximal pieces of `s`
      between occurrences of `c`; there is always at least one piece. */
  function Split(s: string, c: char): (parts: seq<string>)
    ensures |parts| >= 1
    ensures forall i :: 0 <= i < |parts| ==> c !in parts[i]
  {
    if s == [] then [[]]
    else if s[0] == c then [[]] + Split(s[1..], c)
    else
      var t := Split(s[1..], c);
      [[s[0]] + t[0]] + t[1..]
  }

  /** `xs.join(c)`: the pieces with `c` between consecutive ones. */
  function Join(xs: seq<string>, c: char): (s: string)
  {
    if |xs| == 0 then []
    else if |xs| == 1 then xs[0]
    else xs[0] + [c] + Join(xs[1..], c)
  }

  /** Joining the pieces of a split gives back the string. */
  lemma {:induction false} JoinSplit(s: string, c: char)
    ensures Join(Split(s, c), c) == s
  {
    if s != [] {
      var t := Split(s[1..], c);
      JoinSplit(s[1..], c);
      if s[0] == c {
        assert Split(s, c) == [[]] + t;
        assert Join([[]] + t, c) == [] + [c] + Join(t, c);
      } else if |t| == 1 {
        assert Split(s, c) == [[s[0]] + t[0]];
      } else {
        assert Split(s, c) == [[s[0]] + t[0]] + t[1..];
        assert Join(t, c) == t[0] + [c] + Join(t[1..], c);
        assert ([[s[0]] + t[0]] + t[1..])[1..] == t[1..];
      }
    }
  }

  /** A string without the separator is one piece. */
  lemma {:induction false} SplitNoSeparator(s: string, c: char)
    requires c !in s
    ensures Split(s, c) == [s]
  {
    if s != [] {
      assert c !in s[1..];
      SplitNoSeparator(s[1..], c);
      assert [s[0]] + s[1..] == s;
    }
  }

  /** Splitting `x + c + y`, where `x` has no `c`, gives `x` and then the pieces of `y`. */
  lemma {:induction false} SplitAfterFirst(x: string, c: char, y: string)
    requires c !in x
    ensures Split(x + [c] + y, c) == [x] + Split(y, c)
  {
    if x == [] {
      assert x + [c] + y == [c] + y;
      assert ([c] + y)[1..] == y;
    } else {
      assert (x + [c] + y)[1..] == x[1..] + [c] + y;
      assert c !in x[1..];
      SplitAfterFirst(x[1..], c, y);
      assert [x[0]] + x[1..] == x;
    }
  }

  /** Splitting a join gives back the pieces, provided no piece holds the separator. */
  lemma {:induction false} SplitJoin(xs: seq<string>, c: char)
    requires |xs| >= 1
    requires forall i :: 0 <= i < |xs| ==> c !in xs[i]
    ensures Split(Join(xs, c), c) == xs
  {
    if |xs| == 1 {
      SplitNoSeparator(xs[0], c);
    } else {
      SplitJoin(xs[1..], c);
      SplitAfterFirst(xs[0], c, Join(xs[1..], c));
      assert [xs[0]] + xs[1..] == xs;
    }
  }

  /** Python's `s.split(c, 1)` on a string that holds `c`: the text before the
      first `c` and everything after it. */
  function SplitOnce(s: string, c: char): (halves: (string, string))
    requires c in s
    ensures s == halves.0 + [c] + halves.1
    ensures c !in halves.0
  {
    var i := FirstIndex(s, c);
    assert s == s[..i] + [c] + s[i + 1..];
    (s[..i], s[i + 1..])
  }

  /** A text with no comma and no surrounding whitespace: a comma-separated
      list carries it unchanged through a split and a trim. */
  predicate Plain(t: string) {
    ',' !in t && (t == [] || (!IsSpace(t[0]) && !IsSpace(t[|t| - 1])))
  }
}
