/** The three `re.sub` calls of the cleaner that replace runs of one character
    class: `\n{3,}` by "\n\n", `[ \t]{2,}` by " " (both in the paragraph
    reflow) and `\s+` by " " (in the heading label). `re.sub` scans left to
    right and a greedy run pattern always takes a whole maximal run, so a run
    shorter than the minimum is left alone and a longer one is replaced. */
module Runs {
  import opened Text

  datatype RunClass =
    | Newlines   // \n{3,}  -> "\n\n"
    | Blanks     // [ \t]{2,} -> " "
    | Spaces     // \s+     -> " "

  predicate InClass(cls: RunClass, c: char) {
    match cls
    case Newlines => c == '\n'
    case Blanks => IsBlankChar(c)
    case Spaces => IsSpace(c)
  }

  function MinRun(cls: RunClass): nat {
    match cls
    case Newlines => 3
    case Blanks => 2
    case Spaces => 1
  }

  function Replacement(cls: RunClass): (r: seq<char>)
    ensures 0 < |r| < MinRun(cls) + 1
    ensures forall i :: 0 <= i < |r| ==> InClass(cls, r[i])
  {
    match cls
    case Newlines => "\n\n"
    case Blanks => " "
    case Spaces => " "
  }

  /** Length of the run of class characters starting at the front of `s`. */
  function ClassRun(cls: RunClass, s: seq<char>): (n: nat)
    ensures n <= |s|
    ensures forall i :: 0 <= i < n ==> InClass(cls, s[i])
    ensures n == |s| || !InClass(cls, s[n])
    decreases |s|
  {
    if |s| == 0 || !InClass(cls, s[0]) then 0 else 1 + ClassRun(cls, s[1..])
  }

  /** Number of input characters consumed by one step of the left-to-right scan. */
  function StepLen(cls: RunClass, s: seq<char>): (n: nat)
    requires |s| > 0
    ensures 0 < n <= |s|
  {
    if InClass(cls, s[0]) then ClassRun(cls, s) else 1
  }

  /** What one step of the scan emits for those characters. */
  function StepOut(cls: RunClass, s: seq<char>): seq<char>
    requires |s| > 0
  {
    if !InClass(cls, s[0]) then [s[0]]
    else if ClassRun(cls, s) >= MinRun(cls) then Replacement(cls)
    else s[..ClassRun(cls, s)]
  }

  /** `re.sub(<cls>{MinRun,}, Replacement, s)`. */
  function Collapse(cls: RunClass, s: seq<char>): seq<char>
    decreases |s|
  {
    if |s| == 0 then [] else StepOut(cls, s) + Collapse(cls, s[StepLen(cls, s)..])
  }

  /** A run cannot straddle the seam between `a` and `b`. */
  predicate Seam(cls: RunClass, a: seq<char>, b: seq<char>) {
    |a| == 0 || |b| == 0 || !InClass(cls, a[|a| - 1]) || !InClass(cls, b[0])
  }

  lemma {:induction false} ClassRunAppend(cls: RunClass, a: seq<char>, b: seq<char>)
    requires Seam(cls, a, b)
    requires |a| > 0 && InClass(cls, a[0])
    ensures ClassRun(cls, a + b) == ClassRun(cls, a)
    decreases |a|
  {
    if |a| == 1 {
      assert (a + b)[1..] == b;
      if |b| > 0 { assert !InClass(cls, b[0]); }
    } else if !InClass(cls, a[1]) {
      assert (a + b)[1] == a[1];
    } else {
      assert (a + b)[1..] == a[1..] + b;
      ClassRunAppend(cls, a[1..], b);
    }
  }

  lemma {:induction false} SeamSuffix(cls: RunClass, a: seq<char>, b: seq<char>, k: nat)
    requires k <= |a| && Seam(cls, a, b)
    ensures Seam(cls, a[k..], b)
  {
    if k < |a| { assert a[k..][|a| - k - 1] == a[|a| - 1]; }
  }

  /** The replacement distributes over a concatenation whose seam no run crosses. */
  lemma {:induction false} CollapseAppend(cls: RunClass, a: seq<char>, b: seq<char>)
    requires Seam(cls, a, b)
    ensures Collapse(cls, a + b) == Collapse(cls, a) + Collapse(cls, b)
    decreases |a|
  {
    if |a| == 0 {
      assert a + b == b;
    } else {
      var k := StepAppend(cls, a, b);
      SeamSuffix(cls, a, b, k);
      CollapseAppend(cls, a[k..], b);
    }
  }

  /** The first scan step over `a + b` is the first scan step over `a`. */
  lemma {:induction false} StepAppend(cls: RunClass, a: seq<char>, b: seq<char>) returns (k: nat)
    requires Seam(cls, a, b) && |a| > 0
    ensures k == StepLen(cls, a) && k <= |a|
    ensures Collapse(cls, a + b) == StepOut(cls, a) + Collapse(cls, a[k..] + b)
  {
    k := StepLen(cls, a);
    var ab := a + b;
    assert ab[0] == a[0];
    if InClass(cls, a[0]) {
      ClassRunAppend(cls, a, b);
      assert ab[..k] == a[..k];
    }
    assert ab[k..] == a[k..] + b;
  }

  /** Text without class characters is left as it is. */
  lemma {:induction false} CollapseNone(cls: RunClass, s: seq<char>)
    requires forall i :: 0 <= i < |s| ==> !InClass(cls, s[i])
    ensures Collapse(cls, s) == s
    decreases |s|
  {
    if |s| > 0 { CollapseNone(cls, s[1..]); }
  }

  /** A whole run is replaced exactly when it reaches the minimum length. */
  lemma {:induction false} CollapseWholeRun(cls: RunClass, s: seq<char>)
    requires |s| > 0 && forall i :: 0 <= i < |s| ==> InClass(cls, s[i])
    ensures Collapse(cls, s) == if |s| >= MinRun(cls) then Replacement(cls) else s
  {
    assert ClassRun(cls, s) == |s|;
    assert s[|s|..] == [];
    assert s[..|s|] == s;
  }

  /** Text whose runs are all shorter than the minimum is left as it is. */
  lemma {:induction false} CollapseShortRuns(cls: RunClass, s: seq<char>)
    requires MinRun(cls) == 2
    requires forall i :: 0 <= i < |s| - 1 ==> !(InClass(cls, s[i]) && InClass(cls, s[i + 1]))
    ensures Collapse(cls, s) == s
    decreases |s|
  {
    if |s| > 0 {
      if InClass(cls, s[0]) {
        assert ClassRun(cls, s) == 1 by {
          if |s| > 1 { assert !InClass(cls, s[1]); }
        }
        assert s == s[..1] + s[1..];
      }
      CollapseShortRuns(cls, s[1..]);
    }
  }

  /** Every character of the result is a character of the input or of the replacement. */
  lemma {:induction false} CollapseChars(cls: RunClass, s: seq<char>, c: char)
    requires c in Collapse(cls, s)
    ensures c in s || c in Replacement(cls)
    decreases |s|
  {
    if |s| > 0 {
      if !InClass(cls, s[0]) {
        if c != s[0] { CollapseChars(cls, s[1..], c); }
      } else {
        var n := ClassRun(cls, s);
        var head := if n >= MinRun(cls) then Replacement(cls) else s[..n];
        if c !in head {
          assert c in Collapse(cls, s[n..]);
          CollapseChars(cls, s[n..], c);
        } else if n < MinRun(cls) {
          assert c in s[..n];
        }
      }
    }
  }

  /** Only the empty text collapses to the empty text. */
  lemma {:induction false} CollapseEmptyIff(cls: RunClass, s: seq<char>)
    ensures Collapse(cls, s) == [] <==> s == []
  {
    if |s| > 0 && InClass(cls, s[0]) {
      assert ClassRun(cls, s) > 0;
    }
  }

  /** A first character outside the class survives unchanged. */
  lemma {:induction false} CollapseFirst(cls: RunClass, s: seq<char>)
    requires |s| > 0 && !InClass(cls, s[0])
    ensures |Collapse(cls, s)| > 0 && Collapse(cls, s)[0] == s[0]
  {
  }

  /** A last character outside the class survives unchanged. */
  lemma {:induction false} CollapseLast(cls: RunClass, s: seq<char>)
    requires |s| > 0 && !InClass(cls, s[|s| - 1])
    ensures |Collapse(cls, s)| > 0 && Collapse(cls, s)[|Collapse(cls, s)| - 1] == s[|s| - 1]
  {
    var init := s[..|s| - 1];
    var last := [s[|s| - 1]];
    assert s == init + last;
    CollapseAppend(cls, init, last);
    CollapseNone(cls, last);
  }

  /** Class characters are whitespace, so the replacement only ever trades whitespace for whitespace. */
  lemma {:induction false} ClassIsSpace(cls: RunClass, c: char)
    requires InClass(cls, c)
    ensures IsSpace(c)
  {
  }

  /** The visible (non-whitespace) characters pass through unchanged and in order. */
  lemma {:induction false} CollapseKeepsContent(cls: RunClass, s: seq<char>)
    ensures NonSpace(Collapse(cls, s)) == NonSpace(s)
    decreases |s|
  {
    if |s| > 0 {
      var k := StepLen(cls, s);
      CollapseKeepsContent(cls, s[k..]);
      assert s == s[..k] + s[k..];
      NonSpaceAppend(s[..k], s[k..]);
      NonSpaceAppend(StepOut(cls, s), Collapse(cls, s[k..]));
      StepContent(cls, s);
    }
  }

  /** One step emits the visible characters it consumes. */
  lemma {:induction false} StepContent(cls: RunClass, s: seq<char>)
    requires |s| > 0
    ensures NonSpace(StepOut(cls, s)) == NonSpace(s[..StepLen(cls, s)])
  {
    var k := StepLen(cls, s);
    var head := StepOut(cls, s);
    if InClass(cls, s[0]) {
      assert AllSpace(s[..k]) by {
        forall i | 0 <= i < k ensures IsSpace(s[..k][i]) { ClassIsSpace(cls, s[i]); }
      }
      assert AllSpace(head) by {
        forall i | 0 <= i < |head| ensures IsSpace(head[i]) { ClassIsSpace(cls, head[i]); }
      }
      NonSpaceOfSpace(s[..k]);
      NonSpaceOfSpace(head);
    } else {
      assert head == s[..k];
    }
  }

  /** No two class characters are adjacent. */
  predicate NoPair(cls: RunClass, r: seq<char>) {
    forall i :: 0 <= i < |r| - 1 ==> !(InClass(cls, r[i]) && InClass(cls, r[i + 1]))
  }

  /** After `[ \t]{2,}` -> " " or `\s+` -> " " no two class characters are adjacent. */
  lemma {:induction false} CollapseNoPair(cls: RunClass, s: seq<char>)
    requires cls != Newlines
    ensures NoPair(cls, Collapse(cls, s))
    decreases |s|
  {
    if |s| > 0 {
      var k := StepLen(cls, s);
      var rest := s[k..];
      var head := StepOut(cls, s);
      CollapseNoPair(cls, rest);
      var tail := Collapse(cls, rest);
      assert Collapse(cls, s) == head + tail;
      assert |head| == 1;
      if InClass(cls, head[0]) && |rest| > 0 {
        assert !InClass(cls, rest[0]);
        CollapseFirst(cls, rest);
      }
      NoPairAppend(cls, head, tail);
    }
  }

  lemma {:induction false} NoPairAppend(cls: RunClass, a: seq<char>, b: seq<char>)
    requires NoPair(cls, a) && NoPair(cls, b)
    requires |a| == 0 || |b| == 0 || !InClass(cls, a[|a| - 1]) || !InClass(cls, b[0])
    ensures NoPair(cls, a + b)
  {
    var ab := a + b;
    forall i | 0 <= i < |ab| - 1
      ensures !(InClass(cls, ab[i]) && InClass(cls, ab[i + 1]))
    {
      if i + 1 < |a| {
        assert ab[i] == a[i] && ab[i + 1] == a[i + 1];
      } else if i >= |a| {
        assert ab[i] == b[i - |a|] && ab[i + 1] == b[i - |a| + 1];
      } else {
        assert ab[i] == a[|a| - 1] && ab[i + 1] == b[0];
      }
    }
  }

  /** After `\s+` -> " " the only whitespace left is the plain space. */
  lemma {:induction false} CollapseSpacesPlain(s: seq<char>)
    ensures PlainSpaces(Collapse(Spaces, s))
    decreases |s|
  {
    if |s| > 0 {
      var k := StepLen(Spaces, s);
      var head := StepOut(Spaces, s);
      CollapseSpacesPlain(s[k..]);
      var tail := Collapse(Spaces, s[k..]);
      var r := head + tail;
      assert Collapse(Spaces, s) == r;
      forall i | 0 <= i < |r| && IsSpace(r[i]) ensures r[i] == ' ' {
        if i >= |head| { assert r[i] == tail[i - |head|]; }
      }
    }
  }

  /** One step of `\s+` -> " ": a whitespace run becomes one space, a
      visible character is copied. */
  lemma {:induction false} SpacesStep(s: seq<char>)
    requires |s| > 0
    ensures IsSpace(s[0]) ==>
      && AllSpace(s[..StepLen(Spaces, s)])
      && Collapse(Spaces, s) == " " + Collapse(Spaces, s[StepLen(Spaces, s)..])
    ensures !IsSpace(s[0]) ==>
      StepLen(Spaces, s) == 1 && Collapse(Spaces, s) == [s[0]] + Collapse(Spaces, s[1..])
  {
  }

  /** The only whitespace is the plain space. */
  predicate PlainSpaces(r: seq<char>) {
    forall i :: 0 <= i < |r| ==> IsSpace(r[i]) ==> r[i] == ' '
  }

  /** Both shape properties survive taking a slice. */
  lemma {:induction false} SliceKeepsShape(cls: RunClass, r: seq<char>, lo: nat, hi: nat)
    requires lo <= hi <= |r|
    ensures NoPair(cls, r) ==> NoPair(cls, r[lo..hi])
    ensures PlainSpaces(r) ==> PlainSpaces(r[lo..hi])
  {
    var t := r[lo..hi];
    assert forall i :: 0 <= i < |t| ==> t[i] == r[lo + i];
  }
}
