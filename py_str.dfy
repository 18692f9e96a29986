/**
  The few Python string and list operations the agent script relies on,
  with Python's semantics: `str.startswith`, `str.split(sep)` for a
  one-character separator, `sep.join(parts)` and the slice `xs[start:stop]`
  with negative indices counted from the end.
*/
module PyStr {

  /** Number of occurrences of `c` in `s`. */
  function CountChar(s: string, c: char): nat
  {
    if s == [] then 0 else (if s[0] == c then 1 else 0) + CountChar(s[1..], c)
  }

  /** `s.startswith(prefix)`: `s` agrees with `prefix` at every position of `prefix`. */
  predicate StartsWith(s: string, prefix: string)
    ensures StartsWith(s, prefix) <==> |prefix| <= |s| && forall i :: 0 <= i < |prefix| ==> s[i] == prefix[i]
  {
    |prefix| <= |s| && s[..|prefix|] == prefix
  }

  lemma StartsWithConcat(prefix: string, s: string)
    ensures StartsWith(s, prefix) <==> |prefix| <= |s| && s == prefix + s[|prefix|..]
  {
  }

  /**
    `s.split(sep)`: the maximal pieces of `s` between occurrences of `sep`.
    There is always at least one piece (`"".split("-") == [""]`), one more
    than there are separators, and no piece contains the separator.
  */
  function Split(s: string, sep: char): (parts: seq<string>)
    ensures |parts| == CountChar(s, sep) + 1
    ensures forall i :: 0 <= i < |parts| ==> sep !in parts[i]
  {
    if s == [] then [""]
    else
      var rest := Split(s[1..], sep);
      if s[0] == sep then [""] + rest
      else
        var first := [s[0]] + rest[0];
        assert sep !in first;
        [first] + rest[1..]
  }

  /** `sep.join(parts)`: the pieces with one separator between neighbours. */
  function Join(sep: char, parts: seq<string>): (s: string)
    ensures s == "" <==> parts == [] || parts == [""]
    ensures |parts| >= 2 ==> sep in s
  {
    if |parts| == 0 then ""
    else if |parts| == 1 then parts[0]
    else parts[0] + [sep] + Join(sep, parts[1..])
  }

  /** Python's reading of a slice bound `i` against a sequence of length `n`. */
  function SliceBound(i: int, n: nat): (b: nat)
    ensures b <= n
    ensures 0 <= i <= n ==> b == i
    ensures -(n as int) <= i < 0 ==> b == n + i
    ensures i + n < 0 ==> b == 0
    ensures n < i ==> b == n
  {
    if i < 0 then (if i + n < 0 then 0 else i + n)
    else if i > n then n
    else i
  }

  /** `xs[start:stop]`: never fails, empty when the bounds cross. */
  function Slice<T>(xs: seq<T>, start: int, stop: int): (r: seq<T>)
    ensures |r| <= |xs|
  {
    var lo, hi := SliceBound(start, |xs|), SliceBound(stop, |xs|);
    if lo < hi then xs[lo..hi] else []
  }

  /** `xs[1:-2]` drops the first element and the last two; below four elements it is empty. */
  lemma SliceDropsFirstAndLastTwo<T>(xs: seq<T>)
    ensures |xs| >= 3 ==> Slice(xs, 1, -2) == xs[1..|xs| - 2]
    ensures |xs| < 4 ==> Slice(xs, 1, -2) == []
  {
  }

  /** A string without the separator is a single piece. */
  lemma {:induction false} SplitNoSeparator(s: string, sep: char)
    requires sep !in s
    ensures Split(s, sep) == [s]
  {
    if s != [] {
      SplitNoSeparator(s[1..], sep);
      assert [s[0]] + s[1..] == s;
    }
  }

  /** The first separator ends the first piece; the rest splits on its own. */
  lemma {:induction false} SplitAtFirstSeparator(p: string, sep: char, t: string)
    requires sep !in p
    ensures Split(p + [sep] + t, sep) == [p] + Split(t, sep)
  {
    if p == [] {
      assert p + [sep] + t == [sep] + t;
      assert ([sep] + t)[1..] == t;
    } else {
      SplitAtFirstSeparator(p[1..], sep, t);
      assert (p + [sep] + t)[1..] == p[1..] + [sep] + t;
      assert [p[0]] + p[1..] == p;
    }
  }

  /** Joining what was split gives back the original string. */
  lemma {:induction false} JoinSplit(s: string, sep: char)
    ensures Join(sep, Split(s, sep)) == s
  {
    if s != [] {
      var rest := Split(s[1..], sep);
      JoinSplit(s[1..], sep);
      if s[0] == sep {
        assert Split(s, sep) == [""] + rest;
        assert ([""] + rest)[1..] == rest;
        assert s == [s[0]] + s[1..];
      } else {
        var parts := Split(s, sep);
        assert parts[0] == [s[0]] + rest[0];
        assert parts[1..] == rest[1..];
        if |rest| == 1 {
          assert rest == [rest[0]];
        } else {
          assert Join(sep, rest) == rest[0] + [sep] + Join(sep, rest[1..]);
        }
        assert s == [s[0]] + s[1..];
      }
    }
  }

  /**
    Splitting a join of separator-free pieces gives back the pieces: the
    round trip in the other direction. At least one piece is needed, since
    `"-".join([]) == ""` splits into `[""]`.
  */
  lemma {:induction false} SplitJoin(sep: char, parts: seq<string>)
    requires |parts| >= 1
    requires forall i :: 0 <= i < |parts| ==> sep !in parts[i]
    ensures Split(Join(sep, parts), sep) == parts
  {
    if |parts| == 1 {
      SplitNoSeparator(parts[0], sep);
    } else {
      SplitJoin(sep, parts[1..]);
      SplitAtFirstSeparator(parts[0], sep, Join(sep, parts[1..]));
      assert [parts[0]] + parts[1..] == parts;
    }
  }

  /** A join splits into the join of a prefix of the pieces and the join of the rest. */
  lemma {:induction false} JoinAt(sep: char, parts: seq<string>, k: nat)
    requires 0 < k < |parts|
    ensures Join(sep, parts) == Join(sep, parts[..k]) + [sep] + Join(sep, parts[k..])
  {
    if k > 1 {
      JoinAt(sep, parts[1..], k - 1);
      assert parts[1..][..k - 1] == parts[..k][1..];
      assert parts[1..][k - 1..] == parts[k..];
    } else {
      assert parts[..1] == [parts[0]];
      assert parts[1..] == parts[k..];
    }
  }

  /** A string that starts with `head` followed by the separator splits into `head` and the pieces of the rest. */
  lemma SplitAfterHead(s: string, head: string, sep: char)
    requires sep !in head
    requires StartsWith(s, head + [sep])
    ensures Split(s, sep) == [head] + Split(s[|head| + 1..], sep)
  {
    StartsWithConcat(head + [sep], s);
    assert s == head + [sep] + s[|head| + 1..];
    SplitAtFirstSeparator(head, sep, s[|head| + 1..]);
  }

  /**
    A join of two pieces is the first, the separator and the second. Stated
    on its own so that the four-piece decomposition below stays cheap.
  */
  lemma JoinTwo(sep: char, a: string, b: string)
    ensures Join(sep, [a, b]) == a + [sep] + b
  {
  }

  /** A join of four or more pieces: the first, the join of the middle, and the last two. */
  lemma JoinFirstMiddleLastTwo(sep: char, parts: seq<string>)
    requires |parts| >= 4
    ensures Join(sep, parts) ==
      parts[0] + [sep] + Join(sep, parts[1..|parts| - 2]) + [sep] + parts[|parts| - 2] + [sep] + parts[|parts| - 1]
  {
    var n := |parts|;
    var tail, middle, a, b := parts[1..], parts[1..n - 2], parts[n - 2], parts[n - 1];
    JoinAt(sep, parts, 1);
    assert parts[..1] == [parts[0]];
    assert Join(sep, parts) == parts[0] + [sep] + Join(sep, tail);
    JoinAt(sep, tail, n - 3);
    assert tail[..n - 3] == middle;
    assert tail[n - 3..] == [a, b];
    JoinTwo(sep, a, b);
    assert Join(sep, tail) == Join(sep, middle) + [sep] + (a + [sep] + b);
    Regroup(parts[0], Join(sep, middle), a, b, sep);
  }

  /** Regrouping the concatenation of four strings with separators between them. */
  lemma Regroup(p: string, m: string, a: string, b: string, sep: char)
    ensures p + [sep] + (m + [sep] + (a + [sep] + b)) == p + [sep] + m + [sep] + a + [sep] + b
  {
  }


  /**
    Three separator-free pieces joined by separators split back into those
    three. A special case of `SplitJoin`, stated on variables so that a
    caller with string literals does not make the verifier unfold `Split`
    character by character.
  */
  lemma SplitThree(a: string, b: string, c: string, sep: char)
    requires sep !in a && sep !in b && sep !in c
    ensures Split(a + [sep] + (b + [sep] + c), sep) == [a, b, c]
  {
    SplitAtFirstSeparator(a, sep, b + [sep] + c);
    SplitAtFirstSeparator(b, sep, c);
    SplitNoSeparator(c, sep);
  }

}
