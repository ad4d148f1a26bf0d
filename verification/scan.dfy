/** Leftmost-first scanning, shared by `re.finditer`, `re.findall`,
    `re.search` and `re.split`: try the pattern at each position from left to
    right; after a match, go on from its end (every pattern here matches at
    least one character, so no empty-match rule is needed). */
module Scan {
  import opened Text
  import opened Options
  import opened Patterns

  /** No match of `pat` starts anywhere in `[a, b)`. */
  predicate NoMatchIn(pat: Pattern, s: seq<char>, a: nat, b: nat) {
    forall q :: a <= q < b && q <= |s| ==> MatchAt(pat, s, q).None?
  }

  /** Matches in increasing position order, each ending before the next begins. */
  predicate Ordered(ms: seq<Match>) {
    && (forall i :: 0 <= i < |ms| ==> ms[i].start < ms[i].end)
    && (forall i :: 0 <= i < |ms| - 1 ==> ms[i].end <= ms[i + 1].start)
  }

  /** What a left-to-right scan from `from` finds: real matches, in order, and
      no match starting in any gap the scan stepped over. */
  predicate IsScan(pat: Pattern, s: seq<char>, from: nat, ms: seq<Match>) {
    && Ordered(ms)
    && (forall i :: 0 <= i < |ms| ==> from <= ms[i].start <= |s| && MatchAt(pat, s, ms[i].start) == Some(ms[i]))
    && (|ms| == 0 ==> NoMatchIn(pat, s, from, |s| + 1))
    && (|ms| > 0 ==> NoMatchIn(pat, s, from, ms[0].start))
    && (forall i :: 0 <= i < |ms| - 1 ==> NoMatchIn(pat, s, ms[i].end, ms[i + 1].start))
    && (|ms| > 0 ==> NoMatchIn(pat, s, ms[|ms| - 1].end, |s| + 1))
  }

  /** `list(re.finditer(pat, s[from:]))` with positions kept relative to `s`. */
  function FindAll(pat: Pattern, s: seq<char>, from: nat): (r: seq<Match>)
    requires from <= |s|
    ensures IsScan(pat, s, from, r)
    ensures forall i :: 0 <= i < |r| ==> from <= r[i].start < r[i].end <= |s|
    decreases |s| - from
  {
    match MatchAt(pat, s, from)
    case Some(m) =>
      var rest := FindAll(pat, s, m.end);
      ScanCons(pat, s, from, m, rest);
      [m] + rest
    case None =>
      if from == |s| then [] else
      var rest := FindAll(pat, s, from + 1);
      ScanSkip(pat, s, from, rest);
      rest
  }

  /** A match at `from` followed by a scan from its end is a scan from `from`. */
  lemma {:induction false} ScanCons(pat: Pattern, s: seq<char>, from: nat, m: Match, rest: seq<Match>)
    requires from <= |s| && MatchAt(pat, s, from) == Some(m)
    requires IsScan(pat, s, m.end, rest)
    ensures IsScan(pat, s, from, [m] + rest)
  {
    var ms := [m] + rest;
    ConsOrdered(m, rest);
    ConsFound(pat, s, from, m, rest);
    ConsGaps(pat, s, m, rest);
    assert NoMatchIn(pat, s, ms[|ms| - 1].end, |s| + 1) by {
      if |rest| > 0 { assert ms[|ms| - 1] == rest[|rest| - 1]; }
    }
  }

  lemma {:induction false} ConsOrdered(m: Match, rest: seq<Match>)
    requires m.start < m.end && Ordered(rest)
    requires forall i :: 0 <= i < |rest| ==> m.end <= rest[i].start
    ensures Ordered([m] + rest)
  {
    var ms := [m] + rest;
    forall i | 0 <= i < |ms| - 1 ensures ms[i].end <= ms[i + 1].start {
      if i > 0 { assert ms[i] == rest[i - 1] && ms[i + 1] == rest[i]; }
    }
  }

  lemma {:induction false} ConsFound(pat: Pattern, s: seq<char>, from: nat, m: Match, rest: seq<Match>)
    requires from <= |s| && MatchAt(pat, s, from) == Some(m) && m.start == from
    requires forall i :: 0 <= i < |rest| ==> from <= rest[i].start <= |s| && MatchAt(pat, s, rest[i].start) == Some(rest[i])
    ensures forall i :: 0 <= i < |[m] + rest| ==> from <= ([m] + rest)[i].start <= |s| && MatchAt(pat, s, ([m] + rest)[i].start) == Some(([m] + rest)[i])
  {
    var ms := [m] + rest;
    forall i | 0 <= i < |ms| ensures from <= ms[i].start <= |s| && MatchAt(pat, s, ms[i].start) == Some(ms[i]) {
      if i > 0 { assert ms[i] == rest[i - 1]; }
    }
  }

  lemma {:induction false} ConsGaps(pat: Pattern, s: seq<char>, m: Match, rest: seq<Match>)
    requires |rest| > 0 ==> NoMatchIn(pat, s, m.end, rest[0].start)
    requires forall i :: 0 <= i < |rest| - 1 ==> NoMatchIn(pat, s, rest[i].end, rest[i + 1].start)
    ensures forall i :: 0 <= i < |[m] + rest| - 1 ==> NoMatchIn(pat, s, ([m] + rest)[i].end, ([m] + rest)[i + 1].start)
  {
    var ms := [m] + rest;
    forall i | 0 <= i < |ms| - 1 ensures NoMatchIn(pat, s, ms[i].end, ms[i + 1].start) {
      if i > 0 { assert ms[i] == rest[i - 1] && ms[i + 1] == rest[i]; }
    }
  }

  /** A position without a match can be stepped over. */
  lemma {:induction false} ScanSkip(pat: Pattern, s: seq<char>, from: nat, rest: seq<Match>)
    requires from < |s| && MatchAt(pat, s, from).None?
    requires IsScan(pat, s, from + 1, rest)
    ensures IsScan(pat, s, from, rest)
  {
  }

  /** Every match of a scan lies inside the scanned part of the text. */
  lemma {:induction false} ScanBounds(pat: Pattern, s: seq<char>, from: nat, ms: seq<Match>)
    requires IsScan(pat, s, from, ms)
    ensures forall i :: 0 <= i < |ms| ==> from <= ms[i].start < ms[i].end <= |s|
  {
    forall i | 0 <= i < |ms| ensures from <= ms[i].start < ms[i].end <= |s| {
      assert Fits(s, ms[i].start, ms[i]);
    }
  }

  /** `re.search(pat, s)`: the leftmost match. */
  function Search(pat: Pattern, s: seq<char>): (r: Option<Match>)
    ensures r.Some? ==> r.value.start <= |s| && MatchAt(pat, s, r.value.start) == r
    ensures r.Some? ==> NoMatchIn(pat, s, 0, r.value.start)
    ensures r.None? <==> NoMatchIn(pat, s, 0, |s| + 1)
  {
    var ms := FindAll(pat, s, 0);
    if |ms| == 0 then None
    else
      assert MatchAt(pat, s, ms[0].start).Some?;
      Some(ms[0])
  }

  /** A scan finds nothing exactly when no position matches. */
  lemma {:induction false} ScanEmptyIff(pat: Pattern, s: seq<char>)
    ensures FindAll(pat, s, 0) == [] <==> NoMatchIn(pat, s, 0, |s| + 1)
  {
    var ms := FindAll(pat, s, 0);
    if |ms| > 0 {
      assert MatchAt(pat, s, ms[0].start).Some?;
    }
  }

  /** The pieces `re.split` returns besides the groups: the text before the
      first match, between consecutive matches, and after the last one. */
  function Pieces(s: seq<char>, ms: seq<Match>, from: nat): (r: seq<seq<char>>)
    requires from <= |s|
    requires Ordered(ms)
    requires forall i :: 0 <= i < |ms| ==> from <= ms[i].start && ms[i].end <= |s|
    ensures |r| == |ms| + 1
    decreases |ms|
  {
    if |ms| == 0 then [s[from..]]
    else
      assert Ordered(ms[1..]);
      OrderedFromFirst(ms);
      [s[from..ms[0].start]] + Pieces(s, ms[1..], ms[0].end)
  }

  /** In an ordered list every later match starts after the first one ends. */
  lemma {:induction false} OrderedFromFirst(ms: seq<Match>)
    requires Ordered(ms) && |ms| > 0
    ensures forall i :: 0 < i < |ms| ==> ms[0].end <= ms[i].start
  {
    var k := 1;
    while k < |ms|
      invariant 1 <= k <= |ms|
      invariant forall i :: 0 < i < k ==> ms[0].end <= ms[i].start
    {
      if k > 1 { assert ms[0].end <= ms[k - 1].start < ms[k - 1].end <= ms[k].start; }
      k := k + 1;
    }
  }

  /** The texts of the matches, in order. */
  function Matched(s: seq<char>, ms: seq<Match>): (r: seq<seq<char>>)
    requires forall i :: 0 <= i < |ms| ==> ms[i].start <= ms[i].end <= |s|
    ensures |r| == |ms|
    ensures forall i :: 0 <= i < |ms| ==> r[i] == s[ms[i].start..ms[i].end]
  {
    seq(|ms|, i requires 0 <= i < |ms| => s[ms[i].start..ms[i].end])
  }

  /** `ps[0] + seps[0] + ps[1] + ... + seps[n-1] + ps[n]`. */
  function Interleave(ps: seq<seq<char>>, seps: seq<seq<char>>): seq<char>
    requires |ps| == |seps| + 1
    decreases |seps|
  {
    if |seps| == 0 then ps[0] else ps[0] + seps[0] + Interleave(ps[1..], seps[1..])
  }

  /** `re.split` loses nothing: its pieces, with the matched text put back
      between them, rebuild the text. */
  lemma {:induction false} PiecesRejoin(s: seq<char>, ms: seq<Match>, from: nat)
    requires from <= |s|
    requires Ordered(ms)
    requires forall i :: 0 <= i < |ms| ==> from <= ms[i].start && ms[i].end <= |s|
    ensures Interleave(Pieces(s, ms, from), Matched(s, ms)) == s[from..]
    decreases |ms|
  {
    if |ms| > 0 {
      var m := ms[0];
      assert Ordered(ms[1..]);
      OrderedFromFirst(ms);
      PiecesRejoin(s, ms[1..], m.end);
      var ps := Pieces(s, ms, from);
      assert ps[1..] == Pieces(s, ms[1..], m.end);
      MatchedTail(s, ms);
      Rejoin3(s, from, m.start, m.end);
    }
  }

  lemma {:induction false} MatchedTail(s: seq<char>, ms: seq<Match>)
    requires |ms| > 0
    requires forall i :: 0 <= i < |ms| ==> ms[i].start <= ms[i].end <= |s|
    ensures Matched(s, ms)[1..] == Matched(s, ms[1..])
  {
    var a, b := Matched(s, ms)[1..], Matched(s, ms[1..]);
    forall i | 0 <= i < |b| ensures a[i] == b[i] {
      assert ms[1..][i] == ms[i + 1];
    }
  }

  lemma {:induction false} Rejoin3(s: seq<char>, a: nat, b: nat, c: nat)
    requires a <= b <= c <= |s|
    ensures s[a..b] + s[b..c] + s[c..] == s[a..]
  {
  }

  /** A stretch without matches in front of a scan extends it. */
  lemma {:induction false} ScanGap(pat: Pattern, s: seq<char>, a: nat, b: nat, ms: seq<Match>)
    requires a <= b && NoMatchIn(pat, s, a, b) && IsScan(pat, s, b, ms)
    ensures IsScan(pat, s, a, ms)
  {
  }

  /** The tail of a scan is a scan from the end of its first match. */
  lemma {:induction false} ScanTail(pat: Pattern, s: seq<char>, from: nat, ms: seq<Match>)
    requires IsScan(pat, s, from, ms) && |ms| > 0
    ensures IsScan(pat, s, ms[0].end, ms[1..])
  {
    OrderedFromFirst(ms);
    TailOrdered(ms);
    TailFound(pat, s, ms);
    TailGaps(pat, s, ms);
    if |ms| > 1 {
      assert ms[1..][0] == ms[1] && ms[1..][|ms| - 2] == ms[|ms| - 1];
    }
  }

  lemma {:induction false} TailOrdered(ms: seq<Match>)
    requires Ordered(ms) && |ms| > 0
    ensures Ordered(ms[1..])
  {
    assert forall i :: 0 <= i < |ms| - 1 ==> ms[1..][i] == ms[i + 1];
  }

  lemma {:induction false} TailFound(pat: Pattern, s: seq<char>, ms: seq<Match>)
    requires |ms| > 0
    requires forall i :: 0 < i < |ms| ==> ms[0].end <= ms[i].start
    requires forall i :: 0 <= i < |ms| ==> ms[i].start <= |s| && MatchAt(pat, s, ms[i].start) == Some(ms[i])
    ensures forall i :: 0 <= i < |ms| - 1 ==>
      ms[0].end <= ms[1..][i].start <= |s| && MatchAt(pat, s, ms[1..][i].start) == Some(ms[1..][i])
  {
    assert forall i :: 0 <= i < |ms| - 1 ==> ms[1..][i] == ms[i + 1];
  }

  lemma {:induction false} TailGaps(pat: Pattern, s: seq<char>, ms: seq<Match>)
    requires |ms| > 0
    requires forall i :: 0 <= i < |ms| - 1 ==> NoMatchIn(pat, s, ms[i].end, ms[i + 1].start)
    ensures forall i :: 0 <= i < |ms| - 2 ==> NoMatchIn(pat, s, ms[1..][i].end, ms[1..][i + 1].start)
  {
    assert forall i :: 0 <= i < |ms| - 1 ==> ms[1..][i] == ms[i + 1];
  }

  /** A scan from a given position is unique. */
  lemma {:induction false} ScanUnique(pat: Pattern, s: seq<char>, from: nat, xs: seq<Match>, ys: seq<Match>)
    requires IsScan(pat, s, from, xs) && IsScan(pat, s, from, ys)
    ensures xs == ys
    decreases |xs|
  {
    if |xs| > 0 { ScanSomeMatch(pat, s, from, xs, ys); }
    if |ys| > 0 { ScanSomeMatch(pat, s, from, ys, xs); }
    if |xs| > 0 {
      FirstAgree(pat, s, from, xs, ys);
      assert IsScan(pat, s, xs[0].end, xs[1..]) by { ScanTail(pat, s, from, xs); }
      assert IsScan(pat, s, xs[0].end, ys[1..]) by { ScanTail(pat, s, from, ys); }
      ScanUnique(pat, s, xs[0].end, xs[1..], ys[1..]);
      SameHeadTail(xs, ys);
    }
  }

  lemma {:induction false} SameHeadTail(xs: seq<Match>, ys: seq<Match>)
    requires |xs| > 0 && |ys| > 0 && xs[0] == ys[0] && xs[1..] == ys[1..]
    ensures xs == ys
  {
    assert xs == [xs[0]] + xs[1..] && ys == [ys[0]] + ys[1..];
  }

  /** A scan that finds something rules out a scan from the same place that finds nothing. */
  lemma {:induction false} ScanSomeMatch(pat: Pattern, s: seq<char>, from: nat, xs: seq<Match>, ys: seq<Match>)
    requires IsScan(pat, s, from, xs) && IsScan(pat, s, from, ys)
    requires |xs| > 0
    ensures |ys| > 0
  {
    assert MatchAt(pat, s, xs[0].start).Some?;
  }

  lemma {:induction false} FirstAgree(pat: Pattern, s: seq<char>, from: nat, xs: seq<Match>, ys: seq<Match>)
    requires IsScan(pat, s, from, xs) && IsScan(pat, s, from, ys)
    requires |xs| > 0 && |ys| > 0
    ensures xs[0] == ys[0]
  {
    var x, y := xs[0], ys[0];
    assert MatchAt(pat, s, x.start) == Some(x);
    assert MatchAt(pat, s, y.start) == Some(y);
    assert !(x.start < y.start);
    assert !(y.start < x.start);
  }

  /** A stretch without matches is skipped by the scan. */
  lemma {:induction false} FindAllSkip(pat: Pattern, s: seq<char>, a: nat, b: nat)
    requires a <= b <= |s| && NoMatchIn(pat, s, a, b)
    ensures FindAll(pat, s, a) == FindAll(pat, s, b)
  {
    ScanGap(pat, s, a, b, FindAll(pat, s, b));
    ScanUnique(pat, s, a, FindAll(pat, s, a), FindAll(pat, s, b));
  }

  /** A match, then a stretch without matches, then the rest of the scan. */
  lemma {:induction false} FindAllThen(pat: Pattern, s: seq<char>, a: nat, m: Match, b: nat)
    requires a <= |s| && MatchAt(pat, s, a) == Some(m)
    requires m.end <= b <= |s| && NoMatchIn(pat, s, m.end, b)
    ensures FindAll(pat, s, a) == [m] + FindAll(pat, s, b)
  {
    FindAllMatch(pat, s, a, m);
    FindAllSkip(pat, s, m.end, b);
  }

  lemma {:induction false} FindAllMatch(pat: Pattern, s: seq<char>, a: nat, m: Match)
    requires a <= |s| && MatchAt(pat, s, a) == Some(m)
    ensures m.end <= |s| && FindAll(pat, s, a) == [m] + FindAll(pat, s, m.end)
  {
  }

  /** Nothing is found at the very end of the text. */
  lemma {:induction false} FindAllAtEnd(pat: Pattern, s: seq<char>)
    ensures FindAll(pat, s, |s|) == []
  {
    assert MatchAt(pat, s, |s|).None?;
  }

  /** The piece after the `k`-th match runs from its end to the start of the next match, or to the end of the text. */
  lemma {:induction false} PiecesAt(s: seq<char>, ms: seq<Match>, from: nat, k: nat)
    requires from <= |s|
    requires Ordered(ms)
    requires forall i :: 0 <= i < |ms| ==> from <= ms[i].start && ms[i].end <= |s|
    requires k < |ms|
    ensures ms[k].end <= (if k + 1 < |ms| then ms[k + 1].start else |s|) <= |s|
    ensures Pieces(s, ms, from)[k + 1] == s[ms[k].end..if k + 1 < |ms| then ms[k + 1].start else |s|]
    decreases k
  {
    assert Ordered(ms[1..]);
    OrderedFromFirst(ms);
    var ps := Pieces(s, ms, from);
    assert ps[1..] == Pieces(s, ms[1..], ms[0].end);
    if k == 0 {
      if |ms| > 1 { assert ms[1..][0] == ms[1]; }
    } else {
      PiecesAt(s, ms[1..], ms[0].end, k - 1);
      assert ms[1..][k - 1] == ms[k];
      if k + 1 < |ms| { assert ms[1..][k] == ms[k + 1]; }
    }
  }
}
