/** Character classes and the few string primitives the scripts borrow from
    Python: `str.strip()`, `str.upper()`/`lower()`, `"sep".join(...)`,
    `str.split("\n")` and slicing. Text is `seq<char>`. */
module Text {

  /** Python's `str.isspace()`; the regex class `\s` on `str` patterns is the same set. */
  predicate IsSpace(c: char) {
    var n := c as int;
    (9 <= n <= 13) || (28 <= n <= 32) || n == 0x85 || n == 0xA0 || n == 0x1680
    || (0x2000 <= n <= 0x200A) || n == 0x2028 || n == 0x2029 || n == 0x202F
    || n == 0x205F || n == 0x3000
  }

  /** The class `[ \t]` of the horizontal-space collapse. */
  predicate IsBlankChar(c: char) { c == ' ' || c == '\t' }

  predicate IsDigit(c: char) { '0' <= c <= '9' }
  predicate IsUpper(c: char) { 'A' <= c <= 'Z' }
  predicate IsLower(c: char) { 'a' <= c <= 'z' }
  predicate IsLetter(c: char) { IsUpper(c) || IsLower(c) }

  /** The regex class `\w`, restricted to ASCII. */
  predicate IsWordChar(c: char) { IsLetter(c) || IsDigit(c) || c == '_' }

  /** Whitespace is never a word character. */
  lemma {:induction false} SpaceNotWord(c: char)
    requires IsSpace(c)
    ensures !IsWordChar(c)
  {
  }

  function ToUpper(c: char): (r: char)
    ensures IsLower(c) ==> IsUpper(r)
    ensures !IsLower(c) ==> r == c
  {
    if IsLower(c) then (c as int - 32) as char else c
  }

  function ToLower(c: char): (r: char)
    ensures IsUpper(c) ==> IsLower(r)
    ensures !IsUpper(c) ==> r == c
  {
    if IsUpper(c) then (c as int + 32) as char else c
  }

  function Upper(s: seq<char>): (r: seq<char>)
    ensures |r| == |s|
    ensures forall i :: 0 <= i < |s| ==> r[i] == ToUpper(s[i])
  {
    seq(|s|, i requires 0 <= i < |s| => ToUpper(s[i]))
  }

  function Lower(s: seq<char>): (r: seq<char>)
    ensures |r| == |s|
    ensures forall i :: 0 <= i < |s| ==> r[i] == ToLower(s[i])
  {
    seq(|s|, i requires 0 <= i < |s| => ToLower(s[i]))
  }

  /** Two characters match under `re.IGNORECASE` (ASCII folding). */
  predicate SameIgnoringCase(a: char, b: char) { ToLower(a) == ToLower(b) }

  /** `lit` occurs in `s` at position `p`, exactly or ignoring case. */
  predicate LiteralAt(s: seq<char>, p: nat, lit: seq<char>, ignoreCase: bool) {
    p + |lit| <= |s| &&
    forall i :: 0 <= i < |lit| ==>
      (if ignoreCase then SameIgnoringCase(s[p + i], lit[i]) else s[p + i] == lit[i])
  }

  /** A literal copied into `s` at `p` is found there, with or without case. */
  lemma {:induction false} LiteralHere(s: seq<char>, p: nat, lit: seq<char>)
    requires p + |lit| <= |s| && s[p..p + |lit|] == lit
    ensures LiteralAt(s, p, lit, true) && LiteralAt(s, p, lit, false)
  {
    forall i | 0 <= i < |lit| ensures s[p + i] == lit[i] {
      assert s[p..p + |lit|][i] == s[p + i];
    }
  }

  /** A literal whose first character differs, ignoring case, is not found. */
  lemma {:induction false} LiteralNotHere(s: seq<char>, p: nat, lit: seq<char>)
    requires p < |s| && |lit| > 0 && !SameIgnoringCase(s[p], lit[0])
    ensures !LiteralAt(s, p, lit, true)
  {
  }

  predicate AllSpace(s: seq<char>) { forall i :: 0 <= i < |s| ==> IsSpace(s[i]) }

  /** No leading and no trailing whitespace. */
  predicate Trimmed(s: seq<char>) { |s| == 0 || (!IsSpace(s[0]) && !IsSpace(s[|s| - 1])) }

  /** Length of the whitespace run that starts at `p`. */
  function SpaceRun(s: seq<char>, p: nat): (n: nat)
    requires p <= |s|
    ensures p + n <= |s|
    ensures AllSpace(s[p..p + n])
    ensures p + n == |s| || !IsSpace(s[p + n])
    decreases |s| - p
  {
    if p == |s| || !IsSpace(s[p]) then 0
    else
      var n := SpaceRun(s, p + 1);
      assert s[p..p + 1 + n] == [s[p]] + s[p + 1..p + 1 + n];
      1 + n
  }

  /** Python's `str.strip()` with no argument: drop whitespace at both ends. */
  function Strip(s: seq<char>): (r: seq<char>)
    ensures Trimmed(r)
    ensures |r| <= |s|
    decreases |s|
  {
    if |s| > 0 && IsSpace(s[0]) then Strip(s[1..])
    else if |s| > 0 && IsSpace(s[|s| - 1]) then Strip(s[..|s| - 1])
    else s
  }

  /** Stripping leaves nothing exactly when the text is all whitespace. */
  lemma {:induction false} StripEmptyIff(s: seq<char>)
    ensures Strip(s) == [] <==> AllSpace(s)
    decreases |s|
  {
    if |s| > 0 && IsSpace(s[0]) {
      StripEmptyIff(s[1..]);
      assert AllSpace(s) <==> AllSpace(s[1..]) by {
        if AllSpace(s[1..]) {
          forall i | 0 < i < |s| ensures IsSpace(s[i]) { assert s[i] == s[1..][i - 1]; }
        }
      }
    } else if |s| > 0 && IsSpace(s[|s| - 1]) {
      StripEmptyIff(s[..|s| - 1]);
      assert s[..|s| - 1][0] == s[0];
    }
  }

  /** What stripping keeps is a slice framed by whitespace. */
  lemma {:induction false} StripSlice(s: seq<char>) returns (lo: nat, hi: nat)
    ensures lo <= hi <= |s| && Strip(s) == s[lo..hi]
    ensures AllSpace(s[..lo]) && AllSpace(s[hi..])
    decreases |s|
  {
    if |s| > 0 && IsSpace(s[0]) {
      var l, h := StripSlice(s[1..]);
      lo, hi := l + 1, h + 1;
      FrameFront(s, l, h);
    } else if |s| > 0 && IsSpace(s[|s| - 1]) {
      lo, hi := StripSlice(s[..|s| - 1]);
      FrameBack(s, lo, hi);
    } else {
      lo, hi := 0, |s|;
      assert s[..0] == [] && s[|s|..] == [];
    }
  }

  lemma {:induction false} FrameFront(s: seq<char>, l: nat, h: nat)
    requires |s| > 0 && IsSpace(s[0])
    requires l <= h <= |s| - 1
    requires AllSpace(s[1..][..l]) && AllSpace(s[1..][h..])
    ensures s[1..][l..h] == s[l + 1..h + 1]
    ensures AllSpace(s[..l + 1]) && AllSpace(s[h + 1..])
  {
    var t := s[1..];
    assert s[..l + 1] == [s[0]] + t[..l];
    AllSpaceAppend([s[0]], t[..l]);
    assert s[h + 1..] == t[h..];
  }

  lemma {:induction false} FrameBack(s: seq<char>, lo: nat, hi: nat)
    requires |s| > 0 && IsSpace(s[|s| - 1])
    requires lo <= hi <= |s| - 1
    requires AllSpace(s[..|s| - 1][..lo]) && AllSpace(s[..|s| - 1][hi..])
    ensures s[..|s| - 1][lo..hi] == s[lo..hi]
    ensures AllSpace(s[..lo]) && AllSpace(s[hi..])
  {
    var t := s[..|s| - 1];
    assert s[..lo] == t[..lo];
    assert s[hi..] == t[hi..] + [s[|s| - 1]];
    AllSpaceAppend(t[hi..], [s[|s| - 1]]);
  }

  lemma {:induction false} AllSpaceAppend(a: seq<char>, b: seq<char>)
    requires AllSpace(a) && AllSpace(b)
    ensures AllSpace(a + b)
  {
    forall i | 0 <= i < |a + b| ensures IsSpace((a + b)[i]) {
      if i < |a| { assert (a + b)[i] == a[i]; } else { assert (a + b)[i] == b[i - |a|]; }
    }
  }

  lemma {:induction false} StripTrimmed(s: seq<char>)
    requires Trimmed(s)
    ensures Strip(s) == s
  {
  }

  /** Stripping removes exactly a whitespace frame around trimmed content. */
  lemma {:induction false} StripFrame(a: seq<char>, core: seq<char>, b: seq<char>)
    requires AllSpace(a) && AllSpace(b) && Trimmed(core)
    ensures Strip(a + core + b) == core
    decreases |a| + |b|
  {
    var s := a + core + b;
    if |a| > 0 {
      assert s[0] == a[0];
      assert s[1..] == a[1..] + core + b;
      StripFrame(a[1..], core, b);
    } else if |core| > 0 && |b| > 0 {
      assert s[0] == core[0];
      assert s[|s| - 1] == b[|b| - 1];
      assert s[..|s| - 1] == a + core + b[..|b| - 1];
      StripFrame(a, core, b[..|b| - 1]);
    } else if |b| > 0 {
      assert s == b && s[1..] == a + core + b[1..];
      StripFrame(a, core, b[1..]);
    } else {
      assert s == core;
      StripTrimmed(core);
    }
  }

  /** `sep.join(items)`. */
  function Join(sep: seq<char>, items: seq<seq<char>>): seq<char>
    decreases |items|
  {
    if |items| == 0 then []
    else if |items| == 1 then items[0]
    else items[0] + sep + Join(sep, items[1..])
  }

  /** Concatenation of a sequence of strings. */
  function Concat(items: seq<seq<char>>): seq<char>
    decreases |items|
  {
    if |items| == 0 then [] else items[0] + Concat(items[1..])
  }

  lemma {:induction false} ConcatAppend(xs: seq<seq<char>>, ys: seq<seq<char>>)
    ensures Concat(xs + ys) == Concat(xs) + Concat(ys)
    decreases |xs|
  {
    if |xs| == 0 {
      assert xs + ys == ys;
    } else {
      assert (xs + ys)[1..] == xs[1..] + ys;
      ConcatAppend(xs[1..], ys);
    }
  }

  /** Index of the first `c` at or after `p`, or `|s|`. */
  function FindChar(s: seq<char>, p: nat, c: char): (n: nat)
    requires p <= |s|
    ensures p <= n <= |s|
    ensures forall i :: p <= i < n ==> s[i] != c
    ensures n == |s| || s[n] == c
    decreases |s| - p
  {
    if p == |s| || s[p] == c then p else FindChar(s, p + 1, c)
  }

  /** `s.split("\n")`: always at least one piece; no piece contains a newline. */
  function SplitLines(s: seq<char>): (r: seq<seq<char>>)
    ensures |r| >= 1
    ensures forall i :: 0 <= i < |r| ==> '\n' !in r[i]
    ensures Join("\n", r) == s
    decreases |s|
  {
    var k := FindChar(s, 0, '\n');
    if k == |s| then
      assert s[..k] == s;
      [s]
    else
      var rest := SplitLines(s[k + 1..]);
      assert s == s[..k] + "\n" + s[k + 1..];
      [s[..k]] + rest
  }

  /** Splitting after a newline-free first line peels that line off. */
  lemma {:induction false} SplitLinesCons(a: seq<char>, b: seq<char>)
    requires '\n' !in a
    ensures SplitLines(a + "\n" + b) == [a] + SplitLines(b)
  {
    var s := a + "\n" + b;
    assert s[|a|] == '\n';
    assert forall i :: 0 <= i < |a| ==> s[i] != '\n' by {
      forall i | 0 <= i < |a| ensures s[i] != '\n' { assert s[i] == a[i]; }
    }
    assert s[..|a|] == a;
    assert s[|a| + 1..] == b;
  }

  lemma {:induction false} SplitLinesNoNewline(a: seq<char>)
    requires '\n' !in a
    ensures SplitLines(a) == [a]
  {
    assert forall i :: 0 <= i < |a| ==> a[i] != '\n';
  }

  /** `b.startswith(a)`. */
  predicate IsPrefix(a: seq<char>, b: seq<char>) { |a| <= |b| && b[..|a|] == a }

  lemma {:induction false} SplitAt(s: seq<char>, c: nat)
    requires c <= |s|
    ensures s == s[..c] + s[c..]
  {
  }

  lemma {:induction false} PrefixOfAppend(a: seq<char>, b: seq<char>)
    ensures IsPrefix(a, a + b)
  {
    assert (a + b)[..|a|] == a;
  }

  /** Characters of `s` that satisfy the non-space test, in order. */
  function NonSpace(s: seq<char>): (r: seq<char>)
    ensures forall i :: 0 <= i < |r| ==> !IsSpace(r[i])
    decreases |s|
  {
    if |s| == 0 then []
    else (if IsSpace(s[0]) then [] else [s[0]]) + NonSpace(s[1..])
  }

  lemma {:induction false} NonSpaceAppend(a: seq<char>, b: seq<char>)
    ensures NonSpace(a + b) == NonSpace(a) + NonSpace(b)
    decreases |a|
  {
    if |a| == 0 {
      assert a + b == b;
    } else {
      assert (a + b)[1..] == a[1..] + b;
      NonSpaceAppend(a[1..], b);
    }
  }

  lemma {:induction false} NonSpaceOfSpace(a: seq<char>)
    requires AllSpace(a)
    ensures NonSpace(a) == []
    decreases |a|
  {
    if |a| > 0 { NonSpaceOfSpace(a[1..]); }
  }

  /** Cutting a slice in two. */
  lemma {:induction false} SliceSplit(s: seq<char>, a: nat, e: nat, b: nat)
    requires a <= e <= b <= |s|
    ensures s[a..b] == s[a..e] + s[e..b]
  {
  }

  /** A whitespace separator adds nothing visible. */
  lemma {:induction false} NonSpaceSeparated(x: seq<char>, sep: seq<char>, y: seq<char>)
    requires AllSpace(sep)
    ensures NonSpace(x + sep + y) == NonSpace(x) + NonSpace(y)
  {
    NonSpaceAppend(x + sep, y);
    NonSpaceAppend(x, sep);
    NonSpaceOfSpace(sep);
  }

  /** Stripping only ever drops whitespace. */
  lemma {:induction false} StripKeepsContent(s: seq<char>)
    ensures NonSpace(Strip(s)) == NonSpace(s)
    decreases |s|
  {
    if |s| > 0 && IsSpace(s[0]) {
      StripKeepsContent(s[1..]);
    } else if |s| > 0 && IsSpace(s[|s| - 1]) {
      var t := s[..|s| - 1];
      StripKeepsContent(t);
      assert s == t + [s[|s| - 1]];
      NonSpaceAppend(t, [s[|s| - 1]]);
      assert NonSpace([s[|s| - 1]]) == [] by { NonSpaceOfSpace([s[|s| - 1]]); }
    }
  }

}
