/** Chapter detection and slicing of the cleaner (scripts/clean_gutenberg.py):
    `find_chapter_matches_in_raw` picks one of three heading regexes, and
    `build_chunks_from_matches` cuts the raw text at the headings it found
    into labelled chunks. */
module Chapters {
  import opened Text
  import opened Options
  import opened Patterns
  import opened Scan
  import opened Runs
  import opened Numerals
  import opened Roman
  import opened Tokens

  /** The heading regex the cleaner settles on: the strict upper-case one when
      it finds at least ten headings, else the liberal one when it finds any,
      else the any-line one. */
  function HeadingTier(s: seq<char>): Pattern {
    if |FindAll(HeadingStrict, s, 0)| >= 10 then HeadingStrict
    else if |FindAll(HeadingLiberal, s, 0)| > 0 then HeadingLiberal
    else HeadingAny
  }

  /** `find_chapter_matches_in_raw(s)`. */
  function FindChapterMatches(s: seq<char>): (r: seq<Match>)
    ensures IsScan(HeadingTier(s), s, 0, r)
    ensures r == [] <==> NoMatchIn(HeadingAny, s, 0, |s| + 1)
    ensures forall i :: 0 <= i < |r| ==> HeadingLine(s, r[i])
    ensures forall i :: 0 <= i < |r| ==> (r[i].group.None? <==> HeadingTier(s) == HeadingAny)
  {
    var pat := HeadingTier(s);
    var r := FindAll(pat, s, 0);
    FoundIffAnyLine(s);
    forall i | 0 <= i < |r| ensures HeadingLine(s, r[i]) && (r[i].group.None? <==> pat == HeadingAny) {
      HeadingFacts(pat, s, r[i].start);
    }
    r
  }

  /** A heading match covers whole lines: it starts at the beginning of a line and runs to the end of one. */
  predicate HeadingLine(s: seq<char>, m: Match) {
    && m.start < m.end <= |s|
    && LineStart(s, m.start)
    && (m.end == |s| || s[m.end] == '\n')
  }

  lemma {:induction false} HeadingFacts(pat: Pattern, s: seq<char>, p: nat)
    requires pat == HeadingStrict || pat == HeadingLiberal || pat == HeadingAny
    requires p <= |s| && MatchAt(pat, s, p).Some?
    ensures HeadingLine(s, MatchAt(pat, s, p).value)
    ensures MatchAt(pat, s, p).value.group.None? <==> pat == HeadingAny
  {
    assert MatchAt(pat, s, p) == HeadingAt(pat, s, p);
  }

  /** The Roman run ignoring case is the upper-case run when the latter ends at a word boundary. */
  lemma {:induction false} RomanRunsAgree(s: seq<char>, g: nat)
    requires g <= |s|
    requires WordEnd(s, g + KindRun(s, g, RomanUpper))
    ensures KindRun(s, g, RomanAnyCase) == KindRun(s, g, RomanUpper)
    decreases |s| - g
  {
    if g < |s| && IsRomanSymbol(s[g]) {
      RomanRunsAgree(s, g + 1);
    } else if g < |s| {
      assert !IsLower(s[g]);
      assert ToUpper(s[g]) == s[g];
    }
  }

  /** A line the strict regex accepts, the liberal one accepts identically. */
  lemma {:induction false} StrictIsLiberal(s: seq<char>, p: nat)
    requires p <= |s|
    ensures MatchAt(HeadingStrict, s, p).Some? ==> MatchAt(HeadingLiberal, s, p) == MatchAt(HeadingStrict, s, p)
  {
    assert MatchAt(HeadingStrict, s, p) == HeadingAt(HeadingStrict, s, p);
    assert MatchAt(HeadingLiberal, s, p) == HeadingAt(HeadingLiberal, s, p);
    KeywordCaseAgree(s, p);
    match KeywordEnd(s, p, false)
    case None =>
    case Some(kEnd) => NumberCaseAgree(s, kEnd);
  }

  lemma {:induction false} KeywordCaseAgree(s: seq<char>, p: nat)
    requires p <= |s|
    ensures KeywordEnd(s, p, false).Some? ==> KeywordEnd(s, p, true) == KeywordEnd(s, p, false)
  {
    var q := p + SpaceRun(s, p);
    if LiteralAt(s, q, "CHAPTER", false) {
      assert s[q] == "CHAPTER"[0];
      assert LiteralAt(s, q, "CHAPTER", true);
    }
  }

  lemma {:induction false} NumberCaseAgree(s: seq<char>, kEnd: nat)
    requires kEnd <= |s|
    ensures NumberToken(s, kEnd, false).Some? ==> NumberToken(s, kEnd, true) == NumberToken(s, kEnd, false)
  {
    var g := kEnd + SpaceRun(s, kEnd);
    if NumberToken(s, kEnd, false).Some? {
      assert NumberToken(s, kEnd, false) == Some(Span(g, g + TokenRun(s, g, false)));
      TokenCaseAgree(s, g);
      assert NumberToken(s, kEnd, true) == Some(Span(g, g + TokenRun(s, g, true)));
    }
  }

  lemma {:induction false} TokenCaseAgree(s: seq<char>, g: nat)
    requires g <= |s|
    ensures TokenRun(s, g, false) > 0 && WordEnd(s, g + TokenRun(s, g, false)) ==> TokenRun(s, g, true) == TokenRun(s, g, false)
  {
    var up := KindRun(s, g, RomanUpper);
    if TokenRun(s, g, false) > 0 && WordEnd(s, g + TokenRun(s, g, false)) {
      if up > 0 {
        RomanRunsAgree(s, g);
      } else {
        assert IsDigit(s[g]);
        assert KindRun(s, g, RomanAnyCase) == 0;
      }
    }
  }

  /** A line the liberal regex accepts, the any-line regex accepts too. */
  lemma {:induction false} LiberalIsAny(s: seq<char>, p: nat)
    requires p <= |s|
    ensures MatchAt(HeadingLiberal, s, p).Some? ==> MatchAt(HeadingAny, s, p).Some?
  {
    assert MatchAt(HeadingLiberal, s, p) == HeadingAt(HeadingLiberal, s, p);
    assert MatchAt(HeadingAny, s, p) == HeadingAt(HeadingAny, s, p);
    if HeadingAt(HeadingLiberal, s, p).Some? {
      var kEnd := KeywordEnd(s, p, true).value;
      assert NumberToken(s, kEnd, true).Some?;
      SpaceNotWord(s[kEnd]);
      assert HeadingAt(HeadingAny, s, p) == Some(Match(p, FindChar(s, kEnd, '\n'), None));
    }
  }

  /** Without any-line headings there are no liberal or strict ones either. */
  lemma {:induction false} NoAnyNoOther(s: seq<char>)
    ensures NoMatchIn(HeadingAny, s, 0, |s| + 1) ==> NoMatchIn(HeadingLiberal, s, 0, |s| + 1)
    ensures NoMatchIn(HeadingLiberal, s, 0, |s| + 1) ==> NoMatchIn(HeadingStrict, s, 0, |s| + 1)
  {
    forall q | 0 <= q <= |s| ensures MatchAt(HeadingAny, s, q).None? ==> MatchAt(HeadingLiberal, s, q).None? {
      LiberalIsAny(s, q);
    }
    forall q | 0 <= q <= |s| ensures MatchAt(HeadingLiberal, s, q).None? ==> MatchAt(HeadingStrict, s, q).None? {
      StrictIsLiberal(s, q);
    }
  }

  /** The cleaner finds headings exactly when some line matches the any-line regex. */
  lemma {:induction false} FoundIffAnyLine(s: seq<char>)
    ensures FindAll(HeadingTier(s), s, 0) == [] <==> NoMatchIn(HeadingAny, s, 0, |s| + 1)
  {
    var strict := FindAll(HeadingStrict, s, 0);
    var liberal := FindAll(HeadingLiberal, s, 0);
    ScanEmptyIff(HeadingStrict, s);
    ScanEmptyIff(HeadingLiberal, s);
    ScanEmptyIff(HeadingAny, s);
    NoAnyNoOther(s);
  }

  /** A chunk label: the two fixed names, a numbered chapter, or (for the
      any-line regex, which has no group) text taken from the heading itself. */
  datatype Label = Preface | FullText | Numbered(n: nat) | Heading(text: seq<char>)

  /** A `(label, body)` pair of `build_chunks_from_matches`. */
  datatype Chunk = Chunk(name: Label, body: seq<char>)

  /** The label as the cleaner spells it: `f"CHAPTER {num:02d}"` for numbered chapters. */
  function LabelText(l: Label): seq<char> {
    match l
    case Preface => "PREFACE"
    case FullText => "FULL_TEXT"
    case Numbered(n) => "CHAPTER " + Pad2(n)
    case Heading(t) => t
  }

  /** The chapter number of a heading token: `int(tok)` for digits, `roman_to_int(tok)` otherwise. */
  function TokenValue(tok: seq<char>): nat {
    if AllDigits(tok) then ParseDecimal(tok) else RomanToInt(tok) as nat
  }

  /** `s[:n]`. */
  function Take(s: seq<char>, n: nat): (r: seq<char>)
    ensures |r| <= n && |r| <= |s| && r == s[..|r|]
    ensures |s| <= n ==> r == s
  {
    if |s| <= n then s else s[..n]
  }

  /** `re.sub(r'\s+', ' ', line)[:60].strip()`. */
  function HeadingLabel(line: seq<char>): (r: seq<char>)
    ensures |r| <= 60 && Trimmed(r)
  {
    Strip(Take(Collapse(Spaces, line), 60))
  }

  /** A label built from a heading is at most 60 characters, has no leading,
      trailing or repeated whitespace and no whitespace but the plain space,
      and shows the heading's visible characters in order, all of them when the
      collapsed heading fits in 60 characters; then it also has exactly the
      heading's words, so every whitespace run between two words became one
      space. */
  lemma {:induction false} HeadingLabelShape(line: seq<char>)
    ensures var r := HeadingLabel(line);
      && |r| <= 60 && Trimmed(r)
      && NoPair(Spaces, r) && PlainSpaces(r)
      && IsPrefix(NonSpace(r), NonSpace(line))
      && (|Collapse(Spaces, line)| <= 60 ==> NonSpace(r) == NonSpace(line))
      && (|Collapse(Spaces, line)| <= 60 ==> Words(r) == Words(line))
  {
    var c := Collapse(Spaces, line);
    var t := Take(c, 60);
    LabelWords(line, c, t);
    var lo, hi := StripSlice(t);
    assert Strip(t) == c[lo..hi];
    CollapseNoPair(Spaces, line);
    CollapseSpacesPlain(line);
    SliceKeepsShape(Spaces, c, lo, hi);
    LabelContent(line, c, t);
  }

  /** `re.sub(r'\s+', ' ', s)` keeps the words of `s`, and starts with a
      visible character exactly when `s` does. */
  lemma {:induction false} CollapseKeepsWords(s: seq<char>)
    ensures Words(Collapse(Spaces, s)) == Words(s)
    ensures (|Collapse(Spaces, s)| > 0 && !IsSpace(Collapse(Spaces, s)[0])) <==> (|s| > 0 && !IsSpace(s[0]))
    decreases |s|
  {
    if |s| > 0 {
      var k := StepLen(Spaces, s);
      var rest := Collapse(Spaces, s[k..]);
      CollapseKeepsWords(s[k..]);
      SpacesStep(s);
      if IsSpace(s[0]) {
        SpaceStepWords(s, k, rest);
      } else {
        assert s == [s[0]] + s[1..];
        VisibleStepWords(s[0], rest, s[1..]);
      }
    }
  }

  lemma {:induction false} LabelWords(line: seq<char>, c: seq<char>, t: seq<char>)
    requires c == Collapse(Spaces, line) && t == Take(c, 60)
    ensures |c| <= 60 ==> Words(Strip(t)) == Words(line)
  {
    CollapseKeepsWords(line);
    WordsStrip(t);
  }

  lemma {:induction false} LabelContent(line: seq<char>, c: seq<char>, t: seq<char>)
    requires c == Collapse(Spaces, line) && t == Take(c, 60)
    ensures IsPrefix(NonSpace(Strip(t)), NonSpace(line))
    ensures |c| <= 60 ==> NonSpace(Strip(t)) == NonSpace(line)
  {
    CollapseKeepsContent(Spaces, line);
    StripKeepsContent(t);
    assert c == t + c[|t|..];
    NonSpaceAppend(t, c[|t|..]);
  }


  /** Where the match list places things: in order and inside the text. */
  predicate WellPlaced(s: seq<char>, ms: seq<Match>) {
    && Ordered(ms)
    && (forall i :: 0 <= i < |ms| ==> ms[i].end <= |s|)
    && (forall i :: 0 <= i < |ms| ==> ms[i].group.Some? ==>
          ms[i].start <= ms[i].group.value.lo <= ms[i].group.value.hi <= ms[i].end)
  }

  lemma {:induction false} ScanWellPlaced(pat: Pattern, s: seq<char>, from: nat, ms: seq<Match>)
    requires IsScan(pat, s, from, ms)
    ensures WellPlaced(s, ms)
  {
    forall i | 0 <= i < |ms| ensures ms[i].end <= |s| && (ms[i].group.Some? ==>
          ms[i].start <= ms[i].group.value.lo <= ms[i].group.value.hi <= ms[i].end) {
      assert Fits(s, ms[i].start, ms[i]);
    }
  }

  /** Where the body of the `i`-th chapter ends: at the next heading, or at the end of the text. */
  function BodyEnd(s: seq<char>, ms: seq<Match>, i: nat): (e: nat)
    requires WellPlaced(s, ms) && i < |ms|
    ensures ms[i].end <= e <= |s|
  {
    if i + 1 < |ms| then ms[i + 1].start else |s|
  }

  /** The label of a heading: its number when the regex has a group, else text from the heading line. */
  function ChunkLabel(s: seq<char>, m: Match): Label
    requires m.start <= m.end <= |s|
    requires m.group.Some? ==> m.start <= m.group.value.lo <= m.group.value.hi <= m.end
  {
    match m.group
    case Some(g) => Numbered(TokenValue(s[g.lo..g.hi]))
    case None => Heading(HeadingLabel(Strip(s[m.start..m.end])))
  }

  /** The body of the `i`-th heading's chunk: the stripped heading line, a
      blank line, and the stripped text up to the next heading. */
  function ChunkBody(s: seq<char>, ms: seq<Match>, i: nat): seq<char>
    requires WellPlaced(s, ms) && i < |ms|
  {
    Strip(s[ms[i].start..ms[i].end]) + BlankLine + Strip(s[ms[i].end..BodyEnd(s, ms, i)])
  }

  const BlankLine: seq<char> := "\n\n"

  function ChunkAt(s: seq<char>, ms: seq<Match>, i: nat): Chunk
    requires WellPlaced(s, ms) && i < |ms|
  {
    Chunk(ChunkLabel(s, ms[i]), ChunkBody(s, ms, i))
  }

  /** One chunk per heading, in order. */
  function HeadingChunks(s: seq<char>, ms: seq<Match>): (r: seq<Chunk>)
    requires WellPlaced(s, ms)
    ensures |r| == |ms|
  {
    seq(|ms|, k requires 0 <= k < |ms| => ChunkAt(s, ms, k))
  }

  /** The chunks of headings `i..` in order. */
  function ChunksFrom(s: seq<char>, ms: seq<Match>, i: nat): (r: seq<Chunk>)
    requires WellPlaced(s, ms) && i <= |ms|
    ensures |r| == |ms| - i
  {
    HeadingChunks(s, ms)[i..]
  }

  /** `build_chunks_from_matches(s, matches)`. */
  function BuildChunks(s: seq<char>, ms: seq<Match>): (r: seq<Chunk>)
    requires WellPlaced(s, ms)
    ensures |ms| == 0 ==> r == [Chunk(FullText, Strip(s))]
    ensures |ms| > 0 ==> var pre := Strip(s[..ms[0].start]);
      && |r| == |ms| + (if pre == [] then 0 else 1)
      && (pre != [] <==> r[0] == Chunk(Preface, pre))
  {
    if |ms| == 0 then [Chunk(FullText, Strip(s))]
    else
      var pre := Strip(s[..ms[0].start]);
      (if ms[0].start > 0 && pre != [] then [Chunk(Preface, pre)] else []) + ChunksFrom(s, ms, 0)
  }

  /** The text of all chunk bodies, one after the other. */
  function BodiesText(cs: seq<Chunk>): seq<char>
    decreases |cs|
  {
    if |cs| == 0 then [] else cs[0].body + BodiesText(cs[1..])
  }

  /** After the optional preface, chunk `i` belongs to heading `i`: its label
      comes from the heading and its body is the stripped heading line, a
      blank line, and the stripped text up to the next heading or the end. */
  lemma {:induction false} BuildChunksAt(s: seq<char>, ms: seq<Match>, i: nat)
    requires WellPlaced(s, ms) && i < |ms|
    ensures var r := BuildChunks(s, ms);
      && |r| - |ms| <= 1
      && r[|r| - |ms| + i] == Chunk(ChunkLabel(s, ms[i]),
           Strip(s[ms[i].start..ms[i].end]) + "\n\n"
           + Strip(s[ms[i].end..if i + 1 < |ms| then ms[i + 1].start else |s|]))
  {
    ChunksFromAt(s, ms, 0, i);
  }

  lemma {:induction false} ChunksFromAt(s: seq<char>, ms: seq<Match>, j: nat, i: nat)
    requires WellPlaced(s, ms) && j <= i < |ms|
    ensures ChunksFrom(s, ms, j)[i - j] == ChunkAt(s, ms, i)
  {
    var a := HeadingChunks(s, ms);
    assert a[j..][i - j] == a[i];
  }

  /** The chunks from heading `j` on: heading `j`'s chunk, then those from `j + 1`. */
  lemma {:induction false} ChunksFromCons(s: seq<char>, ms: seq<Match>, j: nat)
    requires WellPlaced(s, ms) && j < |ms|
    ensures ChunksFrom(s, ms, j) == [ChunkAt(s, ms, j)] + ChunksFrom(s, ms, j + 1)
  {
    var a := HeadingChunks(s, ms);
    assert a[j] == ChunkAt(s, ms, j);
    DropCons(a, j);
  }

  lemma {:induction false} DropCons(a: seq<Chunk>, j: nat)
    requires j < |a|
    ensures a[j..] == [a[j]] + a[j + 1..]
  {
  }

  /** Splitting into chunks loses and gains nothing but whitespace: the
      visible characters of all bodies, in order, are those of the text. */
  lemma {:induction false} BuildChunksKeepsContent(s: seq<char>, ms: seq<Match>)
    requires WellPlaced(s, ms)
    ensures NonSpace(BodiesText(BuildChunks(s, ms))) == NonSpace(s)
  {
    if |ms| == 0 {
      StripKeepsContent(s);
      assert BodiesText([Chunk(FullText, Strip(s))]) == Strip(s);
    } else {
      var a := ms[0].start;
      var pre := Strip(s[..a]);
      var lead := if a > 0 && pre != [] then [Chunk(Preface, pre)] else [];
      var rest := ChunksFrom(s, ms, 0);
      assert BuildChunks(s, ms) == lead + rest;
      assert NonSpace(BodiesText(rest)) == NonSpace(s[a..]) by { ChunksKeepContent(s, ms, 0); }
      assert NonSpace(BodiesText(lead)) == NonSpace(s[..a]) by { PrefaceKeepsContent(s[..a], lead); }
      BodiesTextAppend(lead, rest);
      NonSpaceAppend(BodiesText(lead), BodiesText(rest));
      SliceSplit(s, 0, a, |s|);
      assert s == s[0..|s|] && s[..a] == s[0..a] && s[a..] == s[a..|s|];
      NonSpaceAppend(s[..a], s[a..]);
    }
  }

  lemma {:induction false} PrefaceKeepsContent(prefix: seq<char>, lead: seq<Chunk>)
    requires lead == if |prefix| > 0 && Strip(prefix) != [] then [Chunk(Preface, Strip(prefix))] else []
    ensures NonSpace(BodiesText(lead)) == NonSpace(prefix)
  {
    StripKeepsContent(prefix);
    if lead == [] {
      assert NonSpace(Strip(prefix)) == [];
    } else {
      assert BodiesText(lead) == Strip(prefix);
    }
  }

  lemma {:induction false} BodiesTextAppend(xs: seq<Chunk>, ys: seq<Chunk>)
    ensures BodiesText(xs + ys) == BodiesText(xs) + BodiesText(ys)
    decreases |xs|
  {
    if |xs| == 0 {
      assert xs + ys == ys;
    } else {
      assert (xs + ys)[1..] == xs[1..] + ys;
      BodiesTextAppend(xs[1..], ys);
    }
  }

  lemma {:induction false} ChunksKeepContent(s: seq<char>, ms: seq<Match>, i: nat)
    requires WellPlaced(s, ms) && i < |ms|
    ensures NonSpace(BodiesText(ChunksFrom(s, ms, i))) == NonSpace(s[ms[i].start..])
    decreases |ms| - i
  {
    var e := BodyEnd(s, ms, i);
    var rest := NonSpace(BodiesText(ChunksFrom(s, ms, i + 1)));
    assert rest == NonSpace(s[e..]) by {
      if i + 1 < |ms| {
        ChunksKeepContent(s, ms, i + 1);
      } else {
        assert s[e..] == [];
      }
    }
    assert NonSpace(BodiesText(ChunksFrom(s, ms, i))) == NonSpace(s[ms[i].start..e]) + rest by {
      ChunksFromStep(s, ms, i);
    }
    assert NonSpace(s[ms[i].start..]) == NonSpace(s[ms[i].start..e]) + NonSpace(s[e..]) by {
      SuffixContent(s, ms[i].start, e);
    }
  }

  /** The visible characters of a suffix are those of its two parts. */
  lemma {:induction false} SuffixContent(s: seq<char>, a: nat, e: nat)
    requires a <= e <= |s|
    ensures NonSpace(s[a..]) == NonSpace(s[a..e]) + NonSpace(s[e..])
  {
    assert s[a..] == s[a..e] + s[e..];
    NonSpaceAppend(s[a..e], s[e..]);
  }

  lemma {:induction false} ChunksFromStep(s: seq<char>, ms: seq<Match>, i: nat)
    requires WellPlaced(s, ms) && i < |ms|
    ensures NonSpace(BodiesText(ChunksFrom(s, ms, i)))
         == NonSpace(s[ms[i].start..BodyEnd(s, ms, i)]) + NonSpace(BodiesText(ChunksFrom(s, ms, i + 1)))
  {
    var body := ChunkBody(s, ms, i);
    var tail := ChunksFrom(s, ms, i + 1);
    assert BodiesText(ChunksFrom(s, ms, i)) == body + BodiesText(tail) by {
      ChunksFromCons(s, ms, i);
    }
    ChunkKeepsContent(s, ms, i);
    NonSpaceAppend(body, BodiesText(tail));
  }

  lemma {:induction false} ChunkKeepsContent(s: seq<char>, ms: seq<Match>, i: nat)
    requires WellPlaced(s, ms) && i < |ms|
    ensures NonSpace(ChunkBody(s, ms, i)) == NonSpace(s[ms[i].start..BodyEnd(s, ms, i)])
  {
    var m := ms[i];
    var e := BodyEnd(s, ms, i);
    var head := s[m.start..m.end];
    var tail := s[m.end..e];
    assert s[m.start..e] == head + tail;
    StrippedPairKeepsContent(head, tail);
  }

  /** Stripping two pieces and joining them with a blank line keeps their visible characters. */
  lemma {:induction false} StrippedPairKeepsContent(x: seq<char>, y: seq<char>)
    ensures NonSpace(Strip(x) + BlankLine + Strip(y)) == NonSpace(x + y)
  {
    var sep := BlankLine;
    assert AllSpace(sep);
    NonSpaceSeparated(Strip(x), sep, Strip(y));
    StripKeepsContent(x);
    StripKeepsContent(y);
    NonSpaceAppend(x, y);
  }
}
