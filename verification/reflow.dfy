/** `collapse_whitespace_paragraphs` of the cleaner (scripts/clean_gutenberg.py):
    line endings are unified, every maximal block of non-blank lines becomes
    one line (its stripped lines joined by single spaces), blocks are joined
    by blank lines, then runs of three or more newlines and runs of two or
    more spaces or tabs are squeezed and the result is stripped. */
module Reflow {
  import opened Text
  import opened Runs

  // ---------------------------------------------------------------------
  // The operation as the source computes it.

  /** `s.replace("\r\n", "\n")`. */
  function ReplaceCrLf(s: seq<char>): (r: seq<char>)
    ensures |r| <= |s|
    ensures '\r' !in s ==> r == s
    decreases |s|
  {
    if |s| == 0 then []
    else if |s| >= 2 && s[0] == '\r' && s[1] == '\n' then "\n" + ReplaceCrLf(s[2..])
    else [s[0]] + ReplaceCrLf(s[1..])
  }

  /** `.replace("\r", "\n")`. */
  function ReplaceCr(s: seq<char>): (r: seq<char>)
    ensures |r| == |s| && '\r' !in r
    ensures '\r' !in s ==> r == s
    decreases |s|
  {
    if |s| == 0 then [] else [if s[0] == '\r' then '\n' else s[0]] + ReplaceCr(s[1..])
  }

  /** Both line-ending replacements, in the source's order. */
  function Normalize(s: seq<char>): seq<char> {
    ReplaceCr(ReplaceCrLf(s))
  }

  /** The reference reading of line endings, in one left-to-right pass: each
      line break, whether `\r\n`, a lone `\r` or `\n`, becomes one `\n`. */
  function UnifyBreaks(s: seq<char>): (r: seq<char>)
    ensures '\r' !in r
    decreases |s|
  {
    if |s| == 0 then []
    else if s[0] == '\r' then "\n" + UnifyBreaks(if |s| >= 2 && s[1] == '\n' then s[2..] else s[1..])
    else [s[0]] + UnifyBreaks(s[1..])
  }

  /** The two replacements, applied one after the other, turn every line break
      into exactly one `\n`: a `\r\n` pair gives one newline, not two. */
  lemma {:induction false} NormalizeUnifiesBreaks(s: seq<char>)
    ensures Normalize(s) == UnifyBreaks(s)
    decreases |s|
  {
    if |s| >= 2 && s[0] == '\r' && s[1] == '\n' {
      NormalizeUnifiesBreaks(s[2..]);
      ReplaceCrCons('\n', ReplaceCrLf(s[2..]));
    } else if |s| > 0 {
      NormalizeUnifiesBreaks(s[1..]);
      ReplaceCrCons(s[0], ReplaceCrLf(s[1..]));
    }
  }

  lemma {:induction false} ReplaceCrCons(c: char, t: seq<char>)
    ensures ReplaceCr([c] + t) == [if c == '\r' then '\n' else c] + ReplaceCr(t)
  {
    assert ([c] + t)[1..] == t;
  }

  /** `not ln.strip()`. */
  predicate Blank(ln: seq<char>) { Strip(ln) == [] }

  function StripEach(xs: seq<seq<char>>): (r: seq<seq<char>>)
    ensures |r| == |xs| && forall i :: 0 <= i < |xs| ==> r[i] == Strip(xs[i])
    decreases |xs|
  {
    if |xs| == 0 then [] else [Strip(xs[0])] + StripEach(xs[1..])
  }

  /** `" ".join(p.strip() for p in buffer)`. */
  function Flush(buffer: seq<seq<char>>): seq<char> {
    Join(" ", StripEach(buffer))
  }

  /** The `for ln in lines` loop with its `buffer`, followed by the final
      flush: the list `new_lines`, appended to `acc`. A blank line flushes
      the buffer (when non-empty) and adds an empty entry; any other line is
      buffered. */
  function Regroup(lines: seq<seq<char>>, buffer: seq<seq<char>>, acc: seq<seq<char>>): seq<seq<char>>
    decreases |lines|
  {
    if |lines| == 0 then acc + (if |buffer| > 0 then [Flush(buffer)] else [])
    else if Blank(lines[0]) then
      Regroup(lines[1..], [], acc + (if |buffer| > 0 then [Flush(buffer)] else []) + [[]])
    else Regroup(lines[1..], buffer + [lines[0]], acc)
  }

  /** `collapse_whitespace_paragraphs(s)`. The list filter `if ln is not None`
      keeps every entry, so it does not appear. */
  function Reflow(s: seq<char>): (r: seq<char>)
    ensures Trimmed(r)
  {
    var lines := SplitLines(Normalize(s));
    var out := Join("\n\n", Regroup(lines, [], []));
    Strip(Collapse(Blanks, Collapse(Newlines, out)))
  }

  // ---------------------------------------------------------------------
  // The reference reading: paragraphs are the maximal blocks of non-blank lines.

  /** Number of non-blank lines at the front. */
  function NonBlankRun(lines: seq<seq<char>>): (n: nat)
    ensures n <= |lines|
    ensures forall i :: 0 <= i < n ==> !Blank(lines[i])
    ensures n == |lines| || Blank(lines[n])
    decreases |lines|
  {
    if |lines| == 0 || Blank(lines[0]) then 0 else 1 + NonBlankRun(lines[1..])
  }

  /** The maximal blocks of consecutive non-blank lines, in order. */
  function Blocks(lines: seq<seq<char>>): (r: seq<seq<seq<char>>>)
    ensures forall j :: 0 <= j < |r| ==> |r[j]| > 0
    decreases |lines|
  {
    if |lines| == 0 then []
    else if Blank(lines[0]) then Blocks(lines[1..])
    else
      var n := NonBlankRun(lines);
      [lines[..n]] + Blocks(lines[n..])
  }

  function FlushEach(blocks: seq<seq<seq<char>>>): (r: seq<seq<char>>)
    ensures |r| == |blocks| && forall i :: 0 <= i < |blocks| ==> r[i] == Flush(blocks[i])
    decreases |blocks|
  {
    if |blocks| == 0 then [] else [Flush(blocks[0])] + FlushEach(blocks[1..])
  }

  /** `[ \t]{2,}` -> " " applied to each entry. */
  function SqueezeEach(xs: seq<seq<char>>): (r: seq<seq<char>>)
    ensures |r| == |xs| && forall i :: 0 <= i < |xs| ==> r[i] == Collapse(Blanks, xs[i])
    decreases |xs|
  {
    if |xs| == 0 then [] else [Collapse(Blanks, xs[0])] + SqueezeEach(xs[1..])
  }

  /** The paragraphs of a text: one per block, its stripped lines joined by
      single spaces, with runs of spaces and tabs squeezed. */
  function Paragraphs(s: seq<char>): seq<seq<char>> {
    SqueezeEach(FlushEach(Blocks(SplitLines(Normalize(s)))))
  }

  /** The reflowed text described directly: the paragraphs separated by one blank line. */
  function ReflowSpec(s: seq<char>): seq<char> {
    Join("\n\n", Paragraphs(s))
  }

  /** A finished paragraph line: non-empty, one line, no whitespace at either end. */
  predicate IsPara(x: seq<char>) { |x| > 0 && '\n' !in x && Trimmed(x) }

  /** What every paragraph of the output looks like. */
  predicate Layout(ps: seq<seq<char>>) {
    forall i :: 0 <= i < |ps| ==> IsPara(ps[i]) && NoPair(Blanks, ps[i]) && '\r' !in ps[i]
  }

  /** No run of three newlines. */
  predicate NoNewlineTriple(r: seq<char>) {
    forall i :: 0 <= i < |r| - 2 ==> !(r[i] == '\n' && r[i + 1] == '\n' && r[i + 2] == '\n')
  }

  // ---------------------------------------------------------------------
  // Main results.

  /** The source's loop-and-substitute pipeline computes the reference reading. */
  lemma {:induction false} ReflowIsSpec(s: seq<char>)
    ensures Reflow(s) == ReflowSpec(s)
  {
    var lines := SplitLines(Normalize(s));
    var toks := Regroup(lines, [], []);
    LoopIsTokens(s);
    SqueezedLayout(toks);
    var sq := SqueezeEach(toks);
    SqueezeWellFormed(toks);
    StripLaid(sq);
    ParasSqueeze(toks);
    ParasOfTokens(lines);
  }

  /** The loop over the lines of a text yields well-formed entries. */
  lemma {:induction false} LoopIsTokens(s: seq<char>)
    ensures var lines := SplitLines(Normalize(s));
      Regroup(lines, [], []) == Tokens(lines) && WellFormed(Tokens(lines))
  {
    var lines := SplitLines(Normalize(s));
    LinesClean(s);
    RegroupIsTokens(lines, [], []);
    assert [] + lines == lines;
    TokensWellFormed(lines);
  }

  /** Both substitutions applied to the joined entries give the squeezed layout. */
  lemma {:induction false} SqueezedLayout(toks: seq<seq<char>>)
    requires WellFormed(toks)
    ensures Collapse(Blanks, Collapse(Newlines, Join("\n\n", toks))) == Laid(0, SqueezeEach(toks))
  {
    var out := Join("\n\n", toks);
    assert NewlineRun(0) + out == out;
    CollapseJoin(0, toks);
    BlanksOverLaid(0, toks);
  }

  /** Stripping the layout leaves the paragraphs joined by blank lines. */
  lemma {:induction false} StripLaid(sq: seq<seq<char>>)
    requires WellFormed(sq)
    ensures Strip(Laid(0, sq)) == Join("\n\n", Paras(sq))
  {
    var a, b := LaidShape(0, sq);
    ParasArePara(sq);
    JoinTrimmed("\n\n", Paras(sq));
    StripFrame(a, Join("\n\n", Paras(sq)), b);
  }

  /** The output has no carriage return, no run of three newlines, no run of
      two spaces or tabs, and no whitespace at either end. */
  lemma {:induction false} ReflowShape(s: seq<char>)
    ensures var r := Reflow(s);
      && '\r' !in r && NoNewlineTriple(r) && NoPair(Blanks, r) && Trimmed(r)
  {
    ReflowIsSpec(s);
    LinesClean(s);
    SpecLayout(SplitLines(Normalize(s)));
    JoinLayoutShape(Paragraphs(s));
  }

  /** Reflowing reflowed text changes nothing. */
  lemma {:induction false} ReflowIdempotent(s: seq<char>)
    ensures Reflow(Reflow(s)) == Reflow(s)
  {
    var ps := Paragraphs(s);
    var r := Reflow(s);
    ReflowIsSpec(s);
    LinesClean(s);
    SpecLayout(SplitLines(Normalize(s)));
    assert r == Join("\n\n", ps);
    JoinLayoutShape(ps);
    assert Normalize(r) == r;
    SplitSpaced(ps);
    FlushSpaced(ps);
    SqueezeLaidOut(ps);
    ReflowIsSpec(r);
  }

  /** Reflowing only moves whitespace: the visible characters of the input survive in order. */
  lemma {:induction false} ReflowKeepsContent(s: seq<char>)
    ensures NonSpace(Reflow(s)) == NonSpace(s)
  {
    var lines := SplitLines(Normalize(s));
    var toks := Regroup(lines, [], []);
    var out := Join("\n\n", toks);
    var c := Collapse(Blanks, Collapse(Newlines, out));
    assert Reflow(s) == Strip(c);
    StripKeepsContent(c);
    CollapseKeepsContent(Blanks, Collapse(Newlines, out));
    CollapseKeepsContent(Newlines, out);
    OutContent(lines);
    LinesContent(s);
  }

  /** The joined entries of the loop hold the visible characters of its lines. */
  lemma {:induction false} OutContent(lines: seq<seq<char>>)
    ensures NonSpace(Join("\n\n", Regroup(lines, [], []))) == NonSpace(Concat(lines))
  {
    var toks := Regroup(lines, [], []);
    RegroupIsTokens(lines, [], []);
    assert [] + lines == lines;
    assert toks == Tokens(lines);
    assert AllSpace("\n\n");
    JoinContent("\n\n", toks);
    TokensContent(lines);
  }

  /** Splitting into lines drops only the separators. */
  lemma {:induction false} LinesContent(s: seq<char>)
    ensures NonSpace(Concat(SplitLines(Normalize(s)))) == NonSpace(s)
  {
    var n := Normalize(s);
    assert AllSpace("\n");
    JoinContent("\n", SplitLines(n));
    NormalizeContent(s);
  }

  // ---------------------------------------------------------------------
  // Line endings and lines.

  lemma {:induction false} ReplaceCrLfContent(s: seq<char>)
    ensures NonSpace(ReplaceCrLf(s)) == NonSpace(s)
    decreases |s|
  {
    if |s| >= 2 && s[0] == '\r' && s[1] == '\n' {
      ReplaceCrLfContent(s[2..]);
      NonSpaceAppend("\n", ReplaceCrLf(s[2..]));
      assert s == "\r\n" + s[2..];
      NonSpaceAppend("\r\n", s[2..]);
      NonSpaceOfSpace("\n");
      NonSpaceOfSpace("\r\n");
    } else if |s| > 0 {
      ReplaceCrLfContent(s[1..]);
      NonSpaceAppend([s[0]], ReplaceCrLf(s[1..]));
    }
  }

  lemma {:induction false} ReplaceCrContent(s: seq<char>)
    ensures NonSpace(ReplaceCr(s)) == NonSpace(s)
    decreases |s|
  {
    if |s| > 0 {
      ReplaceCrContent(s[1..]);
      NonSpaceAppend([if s[0] == '\r' then '\n' else s[0]], ReplaceCr(s[1..]));
    }
  }

  /** Both line separators are whitespace, so unifying them keeps the visible text. */
  lemma {:induction false} NormalizeContent(s: seq<char>)
    ensures NonSpace(Normalize(s)) == NonSpace(s)
  {
    ReplaceCrLfContent(s);
    ReplaceCrContent(ReplaceCrLf(s));
  }

  /** The lines the loop sees contain no line separator of either kind. */
  lemma {:induction false} LinesClean(s: seq<char>)
    ensures forall i :: 0 <= i < |SplitLines(Normalize(s))| ==>
      '\n' !in SplitLines(Normalize(s))[i] && '\r' !in SplitLines(Normalize(s))[i]
  {
    SplitLinesFree(Normalize(s), '\r');
  }

  lemma {:induction false} SplitLinesFree(s: seq<char>, c: char)
    requires c !in s
    ensures forall i :: 0 <= i < |SplitLines(s)| ==> c !in SplitLines(s)[i]
    decreases |s|
  {
    var k := FindChar(s, 0, '\n');
    if k < |s| {
      assert c !in s[k + 1..];
      SplitLinesFree(s[k + 1..], c);
      assert c !in s[..k];
    }
  }

  /** Every character of the stripped text is a character of the text. */
  lemma {:induction false} StripFree(s: seq<char>, c: char)
    requires c !in s
    ensures c !in Strip(s)
  {
    var lo, hi := StripSlice(s);
    assert forall i :: 0 <= i < hi - lo ==> s[lo..hi][i] == s[lo + i];
  }

  // ---------------------------------------------------------------------
  // The loop builds one entry per blank line and one per block.

  /** `new_lines` described without the buffer: an empty entry for each blank
      line, a flushed paragraph for each maximal block of non-blank lines. */
  function Tokens(lines: seq<seq<char>>): seq<seq<char>>
    decreases |lines|
  {
    if |lines| == 0 then []
    else if Blank(lines[0]) then [[]] + Tokens(lines[1..])
    else
      var n := NonBlankRun(lines);
      [Flush(lines[..n])] + Tokens(lines[n..])
  }

  lemma {:induction false} NonBlankRunAppend(buf: seq<seq<char>>, lines: seq<seq<char>>)
    requires forall i :: 0 <= i < |buf| ==> !Blank(buf[i])
    ensures NonBlankRun(buf + lines) == |buf| + NonBlankRun(lines)
    decreases |buf|
  {
    if |buf| == 0 {
      assert buf + lines == lines;
    } else {
      assert (buf + lines)[0] == buf[0];
      assert (buf + lines)[1..] == buf[1..] + lines;
      NonBlankRunAppend(buf[1..], lines);
    }
  }

  /** The buffered loop produces `Tokens` of the buffered lines followed by the rest. */
  lemma {:induction false} RegroupIsTokens(lines: seq<seq<char>>, buffer: seq<seq<char>>, acc: seq<seq<char>>)
    requires forall i :: 0 <= i < |buffer| ==> !Blank(buffer[i])
    ensures Regroup(lines, buffer, acc) == acc + Tokens(buffer + lines)
    decreases |lines|
  {
    if |lines| == 0 {
      RegroupEnd(buffer, acc);
    } else if Blank(lines[0]) {
      var flushed := if |buffer| > 0 then [Flush(buffer)] else [];
      RegroupIsTokens(lines[1..], [], acc + flushed + [[]]);
      RegroupBlank(lines, buffer, acc);
    } else {
      RegroupIsTokens(lines[1..], buffer + [lines[0]], acc);
      RegroupLine(lines, buffer, acc);
    }
  }

  lemma {:induction false} RegroupEnd(buffer: seq<seq<char>>, acc: seq<seq<char>>)
    requires forall i :: 0 <= i < |buffer| ==> !Blank(buffer[i])
    ensures Regroup([], buffer, acc) == acc + Tokens(buffer + [])
  {
    assert buffer + [] == buffer;
    if |buffer| > 0 { TokensOfBuffer(buffer); }
  }

  lemma {:induction false} RegroupBlank(lines: seq<seq<char>>, buffer: seq<seq<char>>, acc: seq<seq<char>>)
    requires forall i :: 0 <= i < |buffer| ==> !Blank(buffer[i])
    requires |lines| > 0 && Blank(lines[0])
    requires var flushed := if |buffer| > 0 then [Flush(buffer)] else [];
      Regroup(lines[1..], [], acc + flushed + [[]]) == acc + flushed + [[]] + Tokens([] + lines[1..])
    ensures Regroup(lines, buffer, acc) == acc + Tokens(buffer + lines)
  {
    if |buffer| > 0 {
      RegroupFlush(lines, buffer, acc);
    } else {
      assert [] + lines[1..] == lines[1..];
      assert acc + [] + [[]] == acc + [[]];
      RegroupEmptyBuffer(lines, acc);
      assert [] + lines == lines;
    }
  }

  lemma {:induction false} RegroupFlush(lines: seq<seq<char>>, buffer: seq<seq<char>>, acc: seq<seq<char>>)
    requires |buffer| > 0 && forall i :: 0 <= i < |buffer| ==> !Blank(buffer[i])
    requires |lines| > 0 && Blank(lines[0])
    requires Regroup(lines[1..], [], acc + [Flush(buffer)] + [[]]) == acc + [Flush(buffer)] + [[]] + Tokens([] + lines[1..])
    ensures Regroup(lines, buffer, acc) == acc + Tokens(buffer + lines)
  {
    var f := [Flush(buffer)];
    var rest := Tokens(lines[1..]);
    assert Regroup(lines, buffer, acc) == Regroup(lines[1..], [], acc + f + [[]]);
    assert [] + lines[1..] == lines[1..];
    TokensBufferBlank(buffer, lines);
    Assoc(acc, f, [[]]);
    Assoc(acc, f + [[]], rest);
    Assoc(f, [[]], rest);
  }

  lemma {:induction false} RegroupEmptyBuffer(lines: seq<seq<char>>, acc: seq<seq<char>>)
    requires |lines| > 0 && Blank(lines[0])
    requires Regroup(lines[1..], [], acc + [[]]) == acc + [[]] + Tokens(lines[1..])
    ensures Regroup(lines, [], acc) == acc + Tokens(lines)
  {
    var rest := Tokens(lines[1..]);
    assert Regroup(lines, [], acc) == Regroup(lines[1..], [], acc + [[]]) by {
      assert acc + [] + [[]] == acc + [[]];
    }
    assert Tokens(lines) == [[]] + rest;
    Assoc(acc, [[]], rest);
  }

  lemma {:induction false} Assoc(a: seq<seq<char>>, b: seq<seq<char>>, c: seq<seq<char>>)
    ensures a + b + c == a + (b + c)
  {
  }

  lemma {:induction false} RegroupLine(lines: seq<seq<char>>, buffer: seq<seq<char>>, acc: seq<seq<char>>)
    requires |lines| > 0 && !Blank(lines[0])
    requires Regroup(lines[1..], buffer + [lines[0]], acc) == acc + Tokens(buffer + [lines[0]] + lines[1..])
    ensures Regroup(lines, buffer, acc) == acc + Tokens(buffer + lines)
  {
    assert lines == [lines[0]] + lines[1..];
    Assoc(buffer, [lines[0]], lines[1..]);
  }

  /** The final flush: a buffer of non-blank lines is one block. */
  lemma {:induction false} TokensOfBuffer(buffer: seq<seq<char>>)
    requires |buffer| > 0 && forall i :: 0 <= i < |buffer| ==> !Blank(buffer[i])
    ensures Tokens(buffer) == [Flush(buffer)]
  {
    NonBlankRunAppend(buffer, []);
    assert buffer + [] == buffer;
    assert buffer[..|buffer|] == buffer && buffer[|buffer|..] == [];
  }

  /** A blank line ends the buffered block. */
  lemma {:induction false} TokensBufferBlank(buffer: seq<seq<char>>, lines: seq<seq<char>>)
    requires |buffer| > 0 && forall i :: 0 <= i < |buffer| ==> !Blank(buffer[i])
    requires |lines| > 0 && Blank(lines[0])
    ensures Tokens(buffer + lines) == [Flush(buffer)] + ([[]] + Tokens(lines[1..]))
  {
    NonBlankRunAppend(buffer, lines);
    var bl := buffer + lines;
    assert bl[0] == buffer[0];
    assert bl[..|buffer|] == buffer && bl[|buffer|..] == lines;
  }

  /** Entries are empty or paragraph lines, and no two paragraphs are adjacent. */
  predicate WellFormed(toks: seq<seq<char>>) {
    && (forall i :: 0 <= i < |toks| ==> toks[i] == [] || IsPara(toks[i]))
    && (forall i :: 0 <= i < |toks| - 1 ==> toks[i] == [] || toks[i + 1] == [])
  }

  /** The non-empty entries, in order. */
  function Paras(toks: seq<seq<char>>): seq<seq<char>>
    decreases |toks|
  {
    if |toks| == 0 then [] else (if toks[0] == [] then [] else [toks[0]]) + Paras(toks[1..])
  }

  lemma {:induction false} JoinFree(sep: seq<char>, xs: seq<seq<char>>, c: char)
    requires c !in sep && forall i :: 0 <= i < |xs| ==> c !in xs[i]
    ensures c !in Join(sep, xs)
    decreases |xs|
  {
    if |xs| > 1 { JoinFree(sep, xs[1..], c); }
  }

  /** Joining non-empty trimmed pieces gives non-empty trimmed text. */
  lemma {:induction false} JoinTrimmed(sep: seq<char>, xs: seq<seq<char>>)
    requires forall i :: 0 <= i < |xs| ==> |xs[i]| > 0 && Trimmed(xs[i])
    ensures Trimmed(Join(sep, xs))
    ensures |xs| > 0 ==> |Join(sep, xs)| > 0
    decreases |xs|
  {
    if |xs| > 1 {
      JoinTrimmed(sep, xs[1..]);
      var j := Join(sep, xs);
      var rest := Join(sep, xs[1..]);
      assert j == xs[0] + sep + rest;
      assert j[0] == xs[0][0];
      assert j[|j| - 1] == rest[|rest| - 1];
    }
  }

  /** A flushed block of clean non-blank lines is a paragraph line. */
  lemma {:induction false} FlushPara(block: seq<seq<char>>)
    requires |block| > 0
    requires forall i :: 0 <= i < |block| ==> !Blank(block[i]) && '\n' !in block[i] && '\r' !in block[i]
    ensures IsPara(Flush(block)) && '\r' !in Flush(block)
  {
    var xs := StripEach(block);
    forall i | 0 <= i < |xs| ensures '\n' !in xs[i] && '\r' !in xs[i] {
      StripFree(block[i], '\n');
      StripFree(block[i], '\r');
    }
    JoinTrimmed(" ", xs);
    JoinFree(" ", xs, '\n');
    JoinFree(" ", xs, '\r');
  }

  /** Squeezing spaces and tabs keeps a paragraph line a paragraph line, and leaves no pair of them. */
  lemma {:induction false} SqueezePara(x: seq<char>)
    requires IsPara(x)
    ensures IsPara(Collapse(Blanks, x)) && NoPair(Blanks, Collapse(Blanks, x))
    ensures '\r' !in x ==> '\r' !in Collapse(Blanks, x)
  {
    var y := Collapse(Blanks, x);
    CollapseFirst(Blanks, x);
    CollapseLast(Blanks, x);
    if '\n' in y { CollapseChars(Blanks, x, '\n'); }
    if '\r' in y { CollapseChars(Blanks, x, '\r'); }
    CollapseNoPair(Blanks, x);
  }

  lemma {:induction false} TokensWellFormed(lines: seq<seq<char>>)
    requires forall i :: 0 <= i < |lines| ==> '\n' !in lines[i] && '\r' !in lines[i]
    ensures WellFormed(Tokens(lines))
    decreases |lines|
  {
    if |lines| > 0 {
      if Blank(lines[0]) {
        TokensWellFormed(lines[1..]);
      } else {
        var n := NonBlankRun(lines);
        FlushPara(lines[..n]);
        TokensWellFormed(lines[n..]);
        var rest := Tokens(lines[n..]);
        if n < |lines| { assert rest[0] == []; }
        var t := [Flush(lines[..n])] + rest;
        assert forall i :: 0 < i < |t| ==> t[i] == rest[i - 1];
      }
    }
  }

  /** The paragraphs among the loop's entries are the flushed blocks. */
  lemma {:induction false} ParasOfTokens(lines: seq<seq<char>>)
    ensures Paras(Tokens(lines)) == FlushEach(Blocks(lines))
    decreases |lines|
  {
    if |lines| > 0 {
      var t := Tokens(lines);
      if Blank(lines[0]) {
        ParasOfTokens(lines[1..]);
        assert t[1..] == Tokens(lines[1..]);
      } else {
        var n := NonBlankRun(lines);
        ParasOfTokens(lines[n..]);
        assert t[1..] == Tokens(lines[n..]);
        assert Strip(lines[..n][0]) != [];
        assert |Flush(lines[..n])| > 0 by {
          JoinFirst(" ", StripEach(lines[..n]));
        }
        assert FlushEach(Blocks(lines))[1..] == FlushEach(Blocks(lines[n..]));
      }
    }
  }

  lemma {:induction false} JoinFirst(sep: seq<char>, xs: seq<seq<char>>)
    requires |xs| > 0
    ensures |Join(sep, xs)| >= |xs[0]|
  {
  }

  /** Squeezing commutes with picking the paragraphs. */
  lemma {:induction false} ParasSqueeze(toks: seq<seq<char>>)
    ensures Paras(SqueezeEach(toks)) == SqueezeEach(Paras(toks))
    decreases |toks|
  {
    if |toks| > 0 {
      ParasSqueeze(toks[1..]);
      var sq := SqueezeEach(toks);
      assert sq[1..] == SqueezeEach(toks[1..]);
      CollapseEmptyIff(Blanks, toks[0]);
      if toks[0] != [] {
        var ps := Paras(toks[1..]);
        assert Paras(toks) == [toks[0]] + ps;
        assert SqueezeEach([toks[0]] + ps)[1..] == SqueezeEach(ps);
      }
    }
  }

  lemma {:induction false} SqueezeWellFormed(toks: seq<seq<char>>)
    requires WellFormed(toks)
    ensures WellFormed(SqueezeEach(toks))
  {
    var sq := SqueezeEach(toks);
    forall i | 0 <= i < |toks| ensures sq[i] == [] <==> toks[i] == [] {
      CollapseEmptyIff(Blanks, toks[i]);
    }
    forall i | 0 <= i < |toks| && toks[i] != [] ensures IsPara(sq[i]) {
      SqueezePara(toks[i]);
    }
  }

  lemma {:induction false} ParasArePara(toks: seq<seq<char>>)
    requires WellFormed(toks)
    ensures forall i :: 0 <= i < |Paras(toks)| ==> |Paras(toks)[i]| > 0 && Trimmed(Paras(toks)[i])
    decreases |toks|
  {
    if |toks| > 0 {
      assert WellFormed(toks[1..]);
      ParasArePara(toks[1..]);
    }
  }

  // ---------------------------------------------------------------------
  // Joining the entries and squeezing the newline runs.

  function NewlineRun(k: nat): (r: seq<char>)
    ensures |r| == k && forall i :: 0 <= i < k ==> r[i] == '\n'
  {
    if k == 0 then [] else "\n" + NewlineRun(k - 1)
  }

  /** What `\n{3,}` -> "\n\n" leaves of a run of `k` newlines. */
  function Squeeze(k: nat): (r: seq<char>)
    ensures AllSpace(r) && forall i :: 0 <= i < |r| ==> r[i] == '\n'
  {
    if k >= 3 then "\n\n" else NewlineRun(k)
  }

  lemma {:induction false} SqueezeRun(k: nat)
    ensures Collapse(Newlines, NewlineRun(k)) == Squeeze(k)
  {
    if k > 0 { CollapseWholeRun(Newlines, NewlineRun(k)); }
  }

  /** The squeezed text of `k` pending newlines followed by the joined entries. */
  function Laid(k: nat, toks: seq<seq<char>>): seq<char>
    decreases |toks|
  {
    if |toks| == 0 then Squeeze(k)
    else if toks[0] == [] then (if |toks| == 1 then Squeeze(k) else Laid(k + 2, toks[1..]))
    else if |toks| == 1 then Squeeze(k) + toks[0]
    else Squeeze(k) + toks[0] + Laid(2, toks[1..])
  }

  lemma {:induction false} AssocC(a: seq<char>, b: seq<char>, c: seq<char>)
    ensures a + b + c == a + (b + c)
  {
  }

  lemma {:induction false} NewlineRunGrow(k: nat)
    ensures NewlineRun(k) + "\n\n" == NewlineRun(k + 2)
  {
  }

  /** The ends of a paragraph line are neither newlines nor blanks, and it has no newline inside. */
  lemma {:induction false} ParaEdges(p: seq<char>)
    requires IsPara(p)
    ensures p[0] != '\n' && p[|p| - 1] != '\n'
    ensures !IsBlankChar(p[0]) && !IsBlankChar(p[|p| - 1])
    ensures forall i :: 0 <= i < |p| ==> !InClass(Newlines, p[i])
  {
  }

  /** `\n{3,}` -> "\n\n" on joined entries squeezes only the newline runs between them. */
  lemma {:induction false} CollapseJoin(k: nat, toks: seq<seq<char>>)
    requires forall i :: 0 <= i < |toks| ==> toks[i] == [] || IsPara(toks[i])
    ensures Collapse(Newlines, NewlineRun(k) + Join("\n\n", toks)) == Laid(k, toks)
    decreases |toks|
  {
    if |toks| == 0 || (toks[0] == [] && |toks| == 1) {
      CollapseJoinEnd(k, toks);
    } else if toks[0] == [] {
      CollapseJoin(k + 2, toks[1..]);
      CollapseJoinSkip(k, toks);
    } else if |toks| == 1 {
      CollapseJoinLast(k, toks);
    } else {
      CollapseJoin(2, toks[1..]);
      CollapseJoinPara(k, toks);
    }
  }

  lemma {:induction false} CollapseJoinEnd(k: nat, toks: seq<seq<char>>)
    requires |toks| == 0 || (|toks| == 1 && toks[0] == [])
    ensures Collapse(Newlines, NewlineRun(k) + Join("\n\n", toks)) == Laid(k, toks)
  {
    assert Join("\n\n", toks) == [];
    assert NewlineRun(k) + [] == NewlineRun(k);
    SqueezeRun(k);
  }

  lemma {:induction false} CollapseJoinSkip(k: nat, toks: seq<seq<char>>)
    requires |toks| > 1 && toks[0] == []
    requires Collapse(Newlines, NewlineRun(k + 2) + Join("\n\n", toks[1..])) == Laid(k + 2, toks[1..])
    ensures Collapse(Newlines, NewlineRun(k) + Join("\n\n", toks)) == Laid(k, toks)
  {
    var j := Join("\n\n", toks[1..]);
    assert Join("\n\n", toks) == [] + "\n\n" + j;
    assert [] + "\n\n" + j == "\n\n" + j;
    AssocC(NewlineRun(k), "\n\n", j);
    NewlineRunGrow(k);
  }

  lemma {:induction false} CollapseJoinLast(k: nat, toks: seq<seq<char>>)
    requires |toks| == 1 && IsPara(toks[0])
    ensures Collapse(Newlines, NewlineRun(k) + Join("\n\n", toks)) == Laid(k, toks)
  {
    var p := toks[0];
    assert Join("\n\n", toks) == p;
    SqueezeRun(k);
    ParaEdges(p);
    CollapseNone(Newlines, p);
    CollapseAppend(Newlines, NewlineRun(k), p);
  }

  lemma {:induction false} CollapseJoinPara(k: nat, toks: seq<seq<char>>)
    requires |toks| > 1 && IsPara(toks[0])
    requires Collapse(Newlines, NewlineRun(2) + Join("\n\n", toks[1..])) == Laid(2, toks[1..])
    ensures Collapse(Newlines, NewlineRun(k) + Join("\n\n", toks)) == Laid(k, toks)
  {
    var p := toks[0];
    var j := Join("\n\n", toks[1..]);
    var tail := NewlineRun(2) + j;
    assert Join("\n\n", toks) == p + "\n\n" + j;
    assert NewlineRun(2) == "\n\n";
    AssocC(p, "\n\n", j);
    SqueezeRun(k);
    ParaEdges(p);
    CollapseNone(Newlines, p);
    assert (p + tail)[0] == p[0];
    CollapseAppend(Newlines, NewlineRun(k), p + tail);
    CollapseAppend(Newlines, p, tail);
    AssocC(Squeeze(k), p, Laid(2, toks[1..]));
  }

  /** `[ \t]{2,}` -> " " on the squeezed layout squeezes each paragraph on its own. */
  lemma {:induction false} BlanksOverLaid(k: nat, toks: seq<seq<char>>)
    requires forall i :: 0 <= i < |toks| ==> toks[i] == [] || IsPara(toks[i])
    ensures Collapse(Blanks, Laid(k, toks)) == Laid(k, SqueezeEach(toks))
    decreases |toks|
  {
    if |toks| == 0 || (toks[0] == [] && |toks| == 1) {
      BlanksEnd(k, toks);
    } else if toks[0] == [] {
      BlanksOverLaid(k + 2, toks[1..]);
      BlanksSkip(k, toks);
    } else if |toks| == 1 {
      BlanksLast(k, toks);
    } else {
      BlanksOverLaid(2, toks[1..]);
      BlanksPara(k, toks);
    }
  }

  lemma {:induction false} BlanksEnd(k: nat, toks: seq<seq<char>>)
    requires |toks| == 0 || (|toks| == 1 && toks[0] == [])
    ensures Collapse(Blanks, Laid(k, toks)) == Laid(k, SqueezeEach(toks))
  {
    var sq := SqueezeEach(toks);
    assert |sq| == 1 ==> sq[0] == [];
    CollapseNone(Blanks, Squeeze(k));
  }

  lemma {:induction false} BlanksSkip(k: nat, toks: seq<seq<char>>)
    requires |toks| > 1 && toks[0] == []
    requires Collapse(Blanks, Laid(k + 2, toks[1..])) == Laid(k + 2, SqueezeEach(toks[1..]))
    ensures Collapse(Blanks, Laid(k, toks)) == Laid(k, SqueezeEach(toks))
  {
    var sq := SqueezeEach(toks);
    assert sq[0] == [];
    assert sq[1..] == SqueezeEach(toks[1..]);
  }

  lemma {:induction false} BlanksLast(k: nat, toks: seq<seq<char>>)
    requires |toks| == 1 && IsPara(toks[0])
    ensures Collapse(Blanks, Laid(k, toks)) == Laid(k, SqueezeEach(toks))
  {
    var p := toks[0];
    var sq := SqueezeEach(toks);
    CollapseEmptyIff(Blanks, p);
    assert sq == [Collapse(Blanks, p)];
    CollapseNone(Blanks, Squeeze(k));
    CollapseAppend(Blanks, Squeeze(k), p);
  }

  lemma {:induction false} BlanksPara(k: nat, toks: seq<seq<char>>)
    requires |toks| > 1 && IsPara(toks[0])
    requires Collapse(Blanks, Laid(2, toks[1..])) == Laid(2, SqueezeEach(toks[1..]))
    ensures Collapse(Blanks, Laid(k, toks)) == Laid(k, SqueezeEach(toks))
  {
    var p := toks[0];
    var z := Squeeze(k);
    var l := Laid(2, toks[1..]);
    var sq := SqueezeEach(toks);
    CollapseEmptyIff(Blanks, p);
    assert sq[0] == Collapse(Blanks, p) && sq[1..] == SqueezeEach(toks[1..]);
    ParaEdges(p);
    AssocC(z, p, l);
    CollapseNone(Blanks, z);
    CollapseAppend(Blanks, z, p + l);
    CollapseAppend(Blanks, p, l);
    AssocC(z, Collapse(Blanks, p), Collapse(Blanks, l));
  }

  lemma {:induction false} WellFormedTail(toks: seq<seq<char>>)
    requires WellFormed(toks) && |toks| > 0
    ensures WellFormed(toks[1..])
  {
    var t := toks[1..];
    assert forall i :: 0 <= i < |t| ==> t[i] == toks[i + 1];
  }

  /** The layout is the paragraphs joined by one blank line, between two runs of
      newlines; past a paragraph the next one is always preceded by at least
      four newlines, which squeeze to exactly two. */
  lemma {:induction false} LaidShape(k: nat, toks: seq<seq<char>>) returns (a: seq<char>, b: seq<char>)
    requires WellFormed(toks)
    ensures AllSpace(a) && AllSpace(b)
    ensures Laid(k, toks) == a + Join("\n\n", Paras(toks)) + b
    ensures k >= 3 && |Paras(toks)| > 0 ==> a == "\n\n"
    decreases |toks|
  {
    if |toks| == 0 || (toks[0] == [] && |toks| == 1) {
      a, b := Squeeze(k), [];
      LaidEnd(k, toks);
    } else if toks[0] == [] {
      WellFormedTail(toks);
      a, b := LaidShape(k + 2, toks[1..]);
      LaidSkip(k, toks);
    } else if |toks| == 1 {
      a, b := Squeeze(k), [];
      LaidLast(k, toks);
    } else if |toks| == 2 {
      a, b := Squeeze(k), Squeeze(2);
      LaidPair(k, toks);
    } else {
      WellFormedTail(toks);
      WellFormedTail(toks[1..]);
      assert toks[1..][1..] == toks[2..];
      var a2, b2 := LaidShape(4, toks[2..]);
      a := Squeeze(k);
      if |Paras(toks[2..])| == 0 {
        b := a2 + b2;
        AllSpaceAppend(a2, b2);
      } else {
        b := b2;
      }
      LaidParaGap(k, toks, a2, b2);
    }
  }

  lemma {:induction false} LaidEnd(k: nat, toks: seq<seq<char>>)
    requires |toks| == 0 || (|toks| == 1 && toks[0] == [])
    ensures Paras(toks) == [] && Laid(k, toks) == Squeeze(k) + Join("\n\n", Paras(toks)) + []
  {
    assert Squeeze(k) + [] + [] == Squeeze(k);
  }

  lemma {:induction false} LaidSkip(k: nat, toks: seq<seq<char>>)
    requires |toks| > 1 && toks[0] == []
    ensures Laid(k, toks) == Laid(k + 2, toks[1..]) && Paras(toks) == Paras(toks[1..])
  {
    assert Paras(toks) == [] + Paras(toks[1..]);
  }

  lemma {:induction false} LaidLast(k: nat, toks: seq<seq<char>>)
    requires |toks| == 1 && toks[0] != []
    ensures Laid(k, toks) == Squeeze(k) + Join("\n\n", Paras(toks)) + []
  {
    assert Paras(toks) == [toks[0]] + Paras([]);
  }

  lemma {:induction false} LaidPair(k: nat, toks: seq<seq<char>>)
    requires |toks| == 2 && toks[0] != [] && toks[1] == []
    ensures Laid(k, toks) == Squeeze(k) + Join("\n\n", Paras(toks)) + Squeeze(2)
  {
    assert toks[1..] == [[]];
    assert Paras(toks[1..]) == [] + Paras([]);
    assert Paras(toks) == [toks[0]] + Paras(toks[1..]);
  }

  lemma {:induction false} LaidParaGap(k: nat, toks: seq<seq<char>>, a2: seq<char>, b2: seq<char>)
    requires |toks| > 2 && toks[0] != [] && toks[1] == []
    requires Laid(4, toks[2..]) == a2 + Join("\n\n", Paras(toks[2..])) + b2
    requires |Paras(toks[2..])| > 0 ==> a2 == "\n\n"
    ensures |Paras(toks[2..])| == 0 ==> Laid(k, toks) == Squeeze(k) + Join("\n\n", Paras(toks)) + (a2 + b2)
    ensures |Paras(toks[2..])| > 0 ==> Laid(k, toks) == Squeeze(k) + Join("\n\n", Paras(toks)) + b2
  {
    var p := toks[0];
    var more := toks[2..];
    assert toks[1..][1..] == more;
    assert Laid(k, toks) == Squeeze(k) + p + Laid(4, more);
    assert Paras(toks[1..]) == [] + Paras(more);
    assert Paras(toks) == [p] + Paras(more);
    if |Paras(more)| == 0 {
      LaidLone(k, p, a2, b2, Laid(4, more));
    } else {
      LaidJoined(Squeeze(k), p, Paras(more), b2, Laid(4, more));
    }
  }

  lemma {:induction false} LaidLone(k: nat, p: seq<char>, a2: seq<char>, b2: seq<char>, rest: seq<char>)
    requires rest == a2 + Join("\n\n", []) + b2
    ensures Squeeze(k) + p + rest == Squeeze(k) + Join("\n\n", [p]) + (a2 + b2)
  {
    assert Join("\n\n", [p]) == p;
    assert a2 + [] + b2 == a2 + b2;
  }

  lemma {:induction false} LaidJoined(z: seq<char>, p: seq<char>, ps: seq<seq<char>>, b2: seq<char>, rest: seq<char>)
    requires |ps| > 0
    requires rest == "\n\n" + Join("\n\n", ps) + b2
    ensures z + p + rest == z + Join("\n\n", [p] + ps) + b2
  {
    var j := Join("\n\n", ps);
    assert ([p] + ps)[1..] == ps;
    assert Join("\n\n", [p] + ps) == p + "\n\n" + j;
    var u := p + "\n\n" + j;
    AssocC(p, "\n\n", j);
    AssocC(p, "\n\n" + j, b2);
    AssocC(z, p, rest);
    AssocC(z, u, b2);
  }

  // ---------------------------------------------------------------------
  // The shape of the reference output.

  /** Every paragraph of the reference reading is a clean paragraph line. */
  lemma {:induction false} SpecLayout(lines: seq<seq<char>>)
    requires forall i :: 0 <= i < |lines| ==> '\n' !in lines[i] && '\r' !in lines[i]
    ensures Layout(SqueezeEach(FlushEach(Blocks(lines))))
    decreases |lines|
  {
    if |lines| > 0 {
      if Blank(lines[0]) {
        SpecLayout(lines[1..]);
      } else {
        var n := NonBlankRun(lines);
        var ps := SqueezeEach(FlushEach(Blocks(lines)));
        assert Layout(ps[1..]) by {
          SpecLayout(lines[n..]);
          assert ps[1..] == SqueezeEach(FlushEach(Blocks(lines[n..])));
        }
        FlushPara(lines[..n]);
        SqueezePara(Flush(lines[..n]));
        assert forall i :: 0 < i < |ps| ==> ps[i] == ps[1..][i - 1];
      }
    }
  }

  /** Clean paragraph lines joined by blank lines have the output's shape. */
  lemma {:induction false} JoinLayoutShape(ps: seq<seq<char>>)
    requires Layout(ps)
    ensures var r := Join("\n\n", ps);
      && '\r' !in r && NoNewlineTriple(r) && NoPair(Blanks, r) && Trimmed(r)
    ensures |ps| > 0 ==> |Join("\n\n", ps)| > 0 && Join("\n\n", ps)[0] != '\n'
    decreases |ps|
  {
    if |ps| == 1 {
      assert Join("\n\n", ps) == ps[0];
    } else if |ps| > 1 {
      var p := ps[0];
      var j := Join("\n\n", ps[1..]);
      assert Layout(ps[1..]);
      JoinLayoutShape(ps[1..]);
      assert Join("\n\n", ps) == p + "\n\n" + j;
      NoPairAppend(Blanks, p, "\n\n");
      NoPairAppend(Blanks, p + "\n\n", j);
      TripleAppend(p, j);
      assert (p + "\n\n" + j)[0] == p[0];
      assert (p + "\n\n" + j)[|p| + 2 + |j| - 1] == j[|j| - 1];
      forall i | 0 <= i < |ps| ensures |ps[i]| > 0 && Trimmed(ps[i]) { }
      JoinTrimmed("\n\n", ps);
    }
  }

  lemma {:induction false} TripleAppend(p: seq<char>, j: seq<char>)
    requires '\n' !in p && |p| > 0 && NoNewlineTriple(j) && |j| > 0 && j[0] != '\n'
    ensures NoNewlineTriple(p + "\n\n" + j)
  {
    var r := p + "\n\n" + j;
    forall i | 0 <= i < |r| - 2 ensures !(r[i] == '\n' && r[i + 1] == '\n' && r[i + 2] == '\n') {
      if i < |p| {
        assert r[i] == p[i];
      } else if i == |p| {
        assert r[i + 2] == j[0];
      } else if i == |p| + 1 {
        assert r[i + 1] == j[0];
      } else {
        var q := i - |p| - 2;
        assert r[i] == j[q] && r[i + 1] == j[q + 1] && r[i + 2] == j[q + 2];
      }
    }
  }

  // ---------------------------------------------------------------------
  // Reading back the output.

  /** The lines of paragraphs joined by blank lines: each paragraph, with an empty line between. */
  function Spaced(ps: seq<seq<char>>): seq<seq<char>>
    decreases |ps|
  {
    if |ps| == 0 then [[]]
    else if |ps| == 1 then [ps[0]]
    else [ps[0], []] + Spaced(ps[1..])
  }

  lemma {:induction false} SplitSpaced(ps: seq<seq<char>>)
    requires forall i :: 0 <= i < |ps| ==> '\n' !in ps[i]
    ensures SplitLines(Join("\n\n", ps)) == Spaced(ps)
    decreases |ps|
  {
    if |ps| == 0 {
      assert FindChar([], 0, '\n') == 0;
    } else if |ps| == 1 {
      SplitLinesNoNewline(ps[0]);
    } else {
      var p := ps[0];
      var j := Join("\n\n", ps[1..]);
      assert Join("\n\n", ps) == p + "\n" + ("\n" + j);
      SplitLinesCons(p, "\n" + j);
      assert "\n" + j == [] + "\n" + j;
      SplitLinesCons([], j);
      SplitSpaced(ps[1..]);
    }
  }

  /** Re-reading clean paragraph lines gives each back as its own block. */
  lemma {:induction false} FlushSpaced(ps: seq<seq<char>>)
    requires Layout(ps)
    ensures FlushEach(Blocks(Spaced(ps))) == ps
    decreases |ps|
  {
    if |ps| > 0 {
      var p := ps[0];
      StripTrimmed(p);
      assert !Blank(p);
      assert Flush([p]) == p by {
        assert StripEach([p]) == [p];
      }
      var sp := Spaced(ps);
      if |ps| == 1 {
        assert sp == [p];
        assert NonBlankRun(sp) == 1;
        assert sp[..1] == [p] && sp[1..] == [];
      } else {
        assert Layout(ps[1..]);
        FlushSpaced(ps[1..]);
        assert Blank([]) by { assert Strip([]) == []; }
        assert sp[1] == [];
        assert NonBlankRun(sp) == 1;
        assert sp[..1] == [p];
        assert sp[1..][1..] == Spaced(ps[1..]);
        assert Blocks(sp[1..]) == Blocks(Spaced(ps[1..]));
        assert FlushEach(Blocks(sp))[1..] == FlushEach(Blocks(Spaced(ps[1..])));
      }
    }
  }

  lemma {:induction false} SqueezeLaidOut(ps: seq<seq<char>>)
    requires Layout(ps)
    ensures SqueezeEach(ps) == ps
  {
    forall i | 0 <= i < |ps| ensures Collapse(Blanks, ps[i]) == ps[i] {
      CollapseShortRuns(Blanks, ps[i]);
    }
  }

  // ---------------------------------------------------------------------
  // Visible characters.

  lemma {:induction false} JoinContent(sep: seq<char>, xs: seq<seq<char>>)
    requires AllSpace(sep)
    ensures NonSpace(Join(sep, xs)) == NonSpace(Concat(xs))
    decreases |xs|
  {
    if |xs| == 1 {
      assert xs[1..] == [];
      assert Concat(xs) == xs[0] + Concat(xs[1..]);
      assert xs[0] + [] == xs[0];
    } else if |xs| > 1 {
      JoinContent(sep, xs[1..]);
      NonSpaceSeparated(xs[0], sep, Join(sep, xs[1..]));
      NonSpaceAppend(xs[0], Concat(xs[1..]));
    }
  }

  /** `Tokens` keeps the visible characters of the lines. */
  lemma {:induction false} TokensContent(lines: seq<seq<char>>)
    ensures NonSpace(Concat(Tokens(lines))) == NonSpace(Concat(lines))
    decreases |lines|
  {
    if |lines| > 0 {
      NonSpaceAppend(lines[0], Concat(lines[1..]));
      if Blank(lines[0]) {
        TokensContent(lines[1..]);
        StripEmptyIff(lines[0]);
        NonSpaceOfSpace(lines[0]);
        var t := Tokens(lines[1..]);
        assert Tokens(lines) == [[]] + t;
        ConcatAppend([[]], t);
        assert Concat([[]]) == [];
        assert [] + Concat(t) == Concat(t);
      } else {
        var n := NonBlankRun(lines);
        TokensContent(lines[n..]);
        var block := lines[..n];
        assert lines == block + lines[n..];
        ConcatAppend(block, lines[n..]);
        NonSpaceAppend(Concat(block), Concat(lines[n..]));
        FlushContent(block);
        NonSpaceAppend(Flush(block), Concat(Tokens(lines[n..])));
      }
    }
  }

  lemma {:induction false} FlushContent(block: seq<seq<char>>)
    ensures NonSpace(Flush(block)) == NonSpace(Concat(block))
  {
    JoinContent(" ", StripEach(block));
    StripEachContent(block);
  }

  lemma {:induction false} StripEachContent(xs: seq<seq<char>>)
    ensures NonSpace(Concat(StripEach(xs))) == NonSpace(Concat(xs))
    decreases |xs|
  {
    if |xs| > 0 {
      StripEachContent(xs[1..]);
      StripKeepsContent(xs[0]);
      NonSpaceAppend(Strip(xs[0]), Concat(StripEach(xs[1..])));
      NonSpaceAppend(xs[0], Concat(xs[1..]));
    }
  }
}
