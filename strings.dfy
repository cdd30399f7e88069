/** The part of Go's `strings` package that the image-name rewrite relies on:
    `strings.Index` and `strings.Split` for a one-character separator, with
    `strings.Join` as the inverse of `Split`. Strings are sequences of
    characters; the separator used here is the ASCII colon, which never occurs
    inside a multi-byte UTF-8 sequence, so splitting characters and splitting
    bytes agree. */
module Strings {

  /** `strings.Index(s, string(c))`: the position of the first `c` in `s`, or
      -1 when there is none. */
  function Index(s: string, c: char): (i: int)
    ensures -1 <= i < |s|
    ensures i == -1 <==> c !in s
    ensures 0 <= i ==> s[i] == c && forall j :: 0 <= j < i ==> s[j] != c
    decreases |s|
  {
    if |s| == 0 then -1
    else if s[0] == c then 0
    else
      var j := Index(s[1..], c);
      if j == -1 then -1 else 1 + j
  }

  /** `strings.Split(s, string(c))`: the pieces of `s` between occurrences of
      `c`. There is always at least one piece (the empty string splits into
      one empty piece) and no piece contains the separator. */
  function Split(s: string, c: char): (parts: seq<string>)
    ensures |parts| >= 1
    ensures forall k :: 0 <= k < |parts| ==> c !in parts[k]
    decreases |s|
  {
    var m := Index(s, c);
    if m == -1 then [s]
    else [s[..m]] + Split(s[m + 1..], c)
  }

  /** `strings.Join(parts, string(c))`; an empty slice joins to "". */
  function Join(parts: seq<string>, c: char): string
    decreases |parts|
  {
    if |parts| == 0 then ""
    else if |parts| == 1 then parts[0]
    else parts[0] + [c] + Join(parts[1..], c)
  }

  /** Number of occurrences of `c` in `s`. */
  function Count(s: string, c: char): nat
    decreases |s|
  {
    if |s| == 0 then 0
    else (if s[0] == c then 1 else 0) + Count(s[1..], c)
  }

  /** A string holds no `c` exactly when it counts none. */
  lemma {:induction false} CountZero(s: string, c: char)
    ensures Count(s, c) == 0 <==> c !in s
    decreases |s|
  {
    if |s| > 0 {
      CountZero(s[1..], c);
      assert s == [s[0]] + s[1..];
    }
  }

  /** Counting distributes over concatenation. */
  lemma {:induction false} CountAppend(a: string, b: string, c: char)
    ensures Count(a + b, c) == Count(a, c) + Count(b, c)
    decreases |a|
  {
    if |a| > 0 {
      assert (a + b)[1..] == a[1..] + b;
      CountAppend(a[1..], b, c);
    } else {
      assert a + b == b;
    }
  }

  /** Counting a string that starts with `c`. */
  lemma CountCons(c: char, t: string)
    ensures Count([c] + t, c) == 1 + Count(t, c)
  {
    assert ([c] + t)[1..] == t;
  }

  /** The first `c` in a string is the one right after a `c`-free prefix. */
  lemma IndexAfterFreePrefix(p: string, c: char, t: string)
    requires c !in p
    ensures Index(p + [c] + t, c) == |p|
  {
    var s := p + [c] + t;
    assert s[|p|] == c;
    assert s[..|p|] == p;
  }

  /** A string with a separator splits at its first one: the text before it
      is the first piece and the text after it is split on its own. */
  lemma SplitAtFirst(s: string, c: char) returns (p: string, t: string)
    requires c in s
    ensures s == p + [c] + t && c !in p
    ensures Split(s, c) == [p] + Split(t, c)
  {
    var m := Index(s, c);
    p, t := s[..m], s[m + 1..];
    assert s == p + [c] + t;
  }

  /** Joining a first piece onto the join of the others. */
  lemma JoinCons(p: string, ps: seq<string>, c: char)
    requires |ps| >= 1
    ensures Join([p] + ps, c) == p + [c] + Join(ps, c)
  {
    assert ([p] + ps)[1..] == ps;
  }

  /** Joining the pieces of a split gives back the original string. */
  lemma {:induction false} JoinSplit(s: string, c: char)
    ensures Join(Split(s, c), c) == s
    decreases |s|
  {
    if c in s {
      var p, t := SplitAtFirst(s, c);
      JoinSplit(t, c);
      JoinCons(p, Split(t, c), c);
    }
  }

  /** Splitting at the first separator: a separator-free prefix becomes the
      first piece and the rest is split on its own. */
  lemma SplitAfterFreePrefix(p: string, c: char, t: string)
    requires c !in p
    ensures Split(p + [c] + t, c) == [p] + Split(t, c)
  {
    var s := p + [c] + t;
    IndexAfterFreePrefix(p, c, t);
    assert s[..|p|] == p;
    assert s[|p| + 1..] == t;
  }

  /** Splitting a join of separator-free pieces gives back the pieces. */
  lemma {:induction false} SplitJoin(parts: seq<string>, c: char)
    requires |parts| >= 1
    requires forall k :: 0 <= k < |parts| ==> c !in parts[k]
    ensures Split(Join(parts, c), c) == parts
    decreases |parts|
  {
    if |parts| == 1 {
      assert Index(parts[0], c) == -1;
    } else {
      var ps := parts[1..];
      assert c !in parts[0];
      JoinCons(parts[0], ps, c);
      assert parts == [parts[0]] + ps;
      SplitAfterFreePrefix(parts[0], c, Join(ps, c));
      SplitJoin(ps, c);
    }
  }

  /** A split has one more piece than there are separators. */
  lemma {:induction false} SplitLength(s: string, c: char)
    ensures |Split(s, c)| == Count(s, c) + 1
    decreases |s|
  {
    if c !in s {
      CountZero(s, c);
    } else {
      var p, t := SplitAtFirst(s, c);
      SplitLength(t, c);
      assert s == p + ([c] + t);
      CountAppend(p, [c] + t, c);
      CountCons(c, t);
      CountZero(p, c);
    }
  }

  /** The first piece of a split is the text before the first separator: a
      separator-free prefix of `s` that is either all of `s` or is followed in
      `s` by the separator. */
  lemma SplitHead(s: string, c: char)
    ensures Split(s, c)[0] <= s
    ensures c !in Split(s, c)[0]
    ensures c in s <==> |Split(s, c)[0]| < |s|
    ensures c in s ==> s[|Split(s, c)[0]|] == c
  {
  }

  /** The first piece depends only on the text before the first separator:
      whatever follows that separator is not looked at. */
  lemma SplitHeadOfFreePrefix(p: string, c: char, t: string)
    requires c !in p
    ensures Split(p + [c] + t, c)[0] == p
  {
    SplitAfterFreePrefix(p, c, t);
  }
}
