/** The witness file the cleaner writes (scripts/clean_gutenberg.py), read back
    by `load_chapters` of the lemma builder (scripts/make_lemmas.py). Each chunk
    is written as `[label]\n\n` + tidied body + `\n\n`; for labels the reader
    knows (`PREFACE`, `FULL_TEXT`, `CHAPTER nn`) and bodies in which no line
    starts with `[`, the reader finds exactly one marker line per chunk, gets
    the body back, and numbers the row from the label. */
module RoundTrip {
  import opened Text
  import opened Options
  import opened Patterns
  import opened Scan
  import opened Numerals
  import opened Chapters
  import opened Records
  import opened Markers
  import opened Writer

  // ---------------------------------------------------------------------
  // What goes in and what should come out.

  /** No line of `t` starts with `[`. */
  predicate NoBracketLine(t: seq<char>) {
    forall i :: 0 <= i < |t| && LineStart(t, i) ==> t[i] != '['
  }

  /** A chunk whose label is one of the reader's marker names and whose tidied
      body cannot be taken for a marker line. */
  predicate Readable(c: Chunk) {
    !c.name.Heading? && NoBracketLine(Tidy(c.body))
  }

  /** The same, for a chunk as written: its text is also trimmed. */
  predicate Legible(x: Written) {
    !x.name.Heading? && Trimmed(x.text) && NoBracketLine(x.text)
  }

  /** The number the reader gives a label found at position `pos` (from 1). */
  function LabelIndex(l: Label, pos: nat): nat {
    match l
    case Preface => 0
    case Numbered(n) => n
    case _ => pos
  }

  /** One row per written chunk, in chunk order, before sorting. */
  function Expected(xs: seq<Written>): (r: seq<Record>)
    ensures |r| == |xs|
  {
    seq(|xs|, k requires 0 <= k < |xs| =>
      Record(LabelIndex(xs[k].name, k + 1), LabelText(xs[k].name), xs[k].text))
  }

  // ---------------------------------------------------------------------
  // Character runs of known length.

  lemma {:induction false} SpaceRunExact(s: seq<char>, p: nat, n: nat)
    requires p + n <= |s|
    requires forall i :: p <= i < p + n ==> IsSpace(s[i])
    requires p + n == |s| || !IsSpace(s[p + n])
    ensures SpaceRun(s, p) == n
    decreases n
  {
    if n > 0 { SpaceRunExact(s, p + 1, n - 1); }
  }

  lemma {:induction false} KindRunExact(s: seq<char>, p: nat, n: nat, k: CharKind)
    requires p + n <= |s|
    requires forall i :: p <= i < p + n ==> InKind(k, s[i])
    requires p + n == |s| || !InKind(k, s[p + n])
    ensures KindRun(s, p, k) == n
    decreases n
  {
    if n > 0 { KindRunExact(s, p + 1, n - 1, k); }
  }

  // ---------------------------------------------------------------------
  // One entry of the witness file.

  /** `s` holds the entry `[lt]\n\n` + `t` + `\n\n` at `o`. */
  predicate EntryIn(s: seq<char>, o: nat, lt: seq<char>, t: seq<char>) {
    && o + |lt| + |t| + 6 <= |s|
    && s[o] == '['
    && s[o + 1..o + 1 + |lt|] == lt
    && s[o + 1 + |lt|] == ']'
    && s[o + 2 + |lt|] == '\n' && s[o + 3 + |lt|] == '\n'
    && s[o + 4 + |lt|..o + 4 + |lt| + |t|] == t
    && s[o + 4 + |lt| + |t|] == '\n' && s[o + 5 + |lt| + |t|] == '\n'
  }

  /** A block, on its own, has the layout. */
  lemma {:induction false} BlockShape(x: Written)
    ensures |Block(x)| == |LabelText(x.name)| + |x.text| + 6
    ensures EntryIn(Block(x), 0, LabelText(x.name), x.text)
  {
    var lt, t := LabelText(x.name), x.text;
    var e := Block(x);
    assert e == "[" + lt + "]" + "\n\n" + t + "\n\n";
    assert e[1..1 + |lt|] == lt;
    assert e[4 + |lt|..4 + |lt| + |t|] == t;
  }

  /** A block copied into a text at `o` has the layout there. */
  lemma {:induction false} BlockLayout(s: seq<char>, o: nat, x: Written)
    requires o + |Block(x)| <= |s| && s[o..o + |Block(x)|] == Block(x)
    ensures |Block(x)| == |LabelText(x.name)| + |x.text| + 6
    ensures EntryIn(s, o, LabelText(x.name), x.text)
  {
    BlockShape(x);
    EntryMoved(s, o, Block(x), LabelText(x.name), x.text);
  }

  lemma {:induction false} EntryMoved(s: seq<char>, o: nat, e: seq<char>, lt: seq<char>, t: seq<char>)
    requires EntryIn(e, 0, lt, t) && |e| == |lt| + |t| + 6
    requires o + |e| <= |s| && s[o..o + |e|] == e
    ensures EntryIn(s, o, lt, t)
  {
    assert forall i :: 0 <= i < |e| ==> s[o + i] == e[i];
    assert s[o + 1..o + 1 + |lt|] == e[1..1 + |lt|];
    assert s[o + 4 + |lt|..o + 4 + |lt| + |t|] == e[4 + |lt|..4 + |lt| + |t|];
  }

  /** Where the marker-line match of an entry ends: after the first newline
      when the body is non-empty; for an empty body the newlines run on, up to
      the last one before the next entry, or to the end of the text. */
  function MarkEnd(lt: seq<char>, t: seq<char>, last: bool): nat {
    if |t| > 0 then |lt| + 3 else if last then |lt| + 6 else |lt| + 5
  }

  /** The marker-line match of an entry at `o`. */
  function EntryMatch(o: nat, lt: seq<char>, t: seq<char>, last: bool): Match {
    Match(o, o + MarkEnd(lt, t, last), Some(Span(o + 1, o + 1 + |lt|)))
  }

  /** The label's name is read to its end. */
  lemma {:induction false} NameEnd(s: seq<char>, o: nat, l: Label)
    requires !l.Heading?
    requires o + |LabelText(l)| + 2 <= |s|
    requires s[o + 1..o + 1 + |LabelText(l)|] == LabelText(l) && s[o + 1 + |LabelText(l)|] == ']'
    ensures MarkerNameEnd(s, o) == Some(o + 1 + |LabelText(l)|)
  {
    match l
    case Preface => PrefaceName(s, o);
    case FullText => FullTextName(s, o);
    case Numbered(n) => NumberedName(s, o, n);
  }

  lemma {:induction false} PrefaceName(s: seq<char>, o: nat)
    requires o + 8 < |s| && s[o + 1..o + 8] == "PREFACE"
    ensures MarkerNameEnd(s, o) == Some(o + 8)
  {
    LiteralHere(s, o + 1, "PREFACE");
  }

  lemma {:induction false} FullTextName(s: seq<char>, o: nat)
    requires o + 10 < |s| && s[o + 1..o + 10] == "FULL_TEXT"
    ensures MarkerNameEnd(s, o) == Some(o + 10)
  {
    assert s[o + 1] == 'F' by { assert s[o + 1..o + 10][0] == s[o + 1]; }
    LiteralNotHere(s, o + 1, "PREFACE");
    LiteralHere(s, o + 1, "FULL_TEXT");
  }

  lemma {:induction false} NumberedName(s: seq<char>, o: nat, n: nat)
    requires o + |LabelText(Numbered(n))| + 2 <= |s|
    requires s[o + 1..o + 1 + |LabelText(Numbered(n))|] == LabelText(Numbered(n))
    requires s[o + 1 + |LabelText(Numbered(n))|] == ']'
    ensures MarkerNameEnd(s, o) == Some(o + 1 + |LabelText(Numbered(n))|)
  {
    var d := Pad2(n);
    var lt := "CHAPTER " + d;
    assert LabelText(Numbered(n)) == lt;
    NumberedLiterals(s, o, d);
    NumberedRuns(s, o, d);
  }

  lemma {:induction false} NumberedLiterals(s: seq<char>, o: nat, d: seq<char>)
    requires o + 9 + |d| <= |s| && s[o + 1..o + 9 + |d|] == "CHAPTER " + d
    ensures !LiteralAt(s, o + 1, "PREFACE", true) && !LiteralAt(s, o + 1, "FULL_TEXT", true)
    ensures LiteralAt(s, o + 1, "CHAPTER", true)
  {
    var w := s[o + 1..o + 9 + |d|];
    assert s[o + 1..o + 8] == "CHAPTER" by {
      assert s[o + 1..o + 8] == w[..7];
    }
    assert s[o + 1] == 'C' by { assert s[o + 1] == w[0]; }
    LiteralHere(s, o + 1, "CHAPTER");
    LiteralNotHere(s, o + 1, "PREFACE");
    LiteralNotHere(s, o + 1, "FULL_TEXT");
  }

  lemma {:induction false} NumberedRuns(s: seq<char>, o: nat, d: seq<char>)
    requires |d| > 0 && AllDigits(d)
    requires o + 9 + |d| < |s| && s[o + 1..o + 9 + |d|] == "CHAPTER " + d && s[o + 9 + |d|] == ']'
    ensures SpaceRun(s, o + 8) == 1 && KindRun(s, o + 9, Digit) == |d|
  {
    var w := s[o + 1..o + 9 + |d|];
    assert s[o + 8] == w[7] == ' ';
    forall i | o + 9 <= i < o + 9 + |d| ensures InKind(Digit, s[i]) {
      assert s[i] == w[i - o - 1] == d[i - o - 9];
    }
    SpaceRunExact(s, o + 8, 1);
    KindRunExact(s, o + 9, |d|, Digit);
  }

  /** `\s*$` after the `]` of an entry stops at the match end. */
  lemma {:induction false} TailEnd(s: seq<char>, o: nat, lt: seq<char>, t: seq<char>, q: nat, e: nat)
    requires EntryIn(s, o, lt, t) && Trimmed(t)
    requires o + |lt| + |t| + 6 == |s| || s[o + |lt| + |t| + 6] == '['
    requires q == o + 2 + |lt| && e == o + MarkEnd(lt, t, o + |lt| + |t| + 6 == |s|)
    ensures LineTailEnd(s, q) == Some(e)
  {
    var g := o + 2 + |lt|;
    if |t| > 0 {
      assert s[g + 2] == t[0];
      SpaceRunExact(s, g, 2);
    } else {
      SpaceRunExact(s, g, 4);
    }
  }

  /** The reader's marker regex matches at the start of an entry. */
  lemma {:induction false} MatchAtEntry(s: seq<char>, o: nat, l: Label, lt: seq<char>, t: seq<char>)
    requires !l.Heading? && lt == LabelText(l)
    requires EntryIn(s, o, lt, t) && Trimmed(t) && LineStart(s, o)
    requires o + |lt| + |t| + 6 == |s| || s[o + |lt| + |t| + 6] == '['
    ensures MatchAt(MarkerLine, s, o) == Some(EntryMatch(o, lt, t, o + |lt| + |t| + 6 == |s|))
  {
    assert MarkerNameEnd(s, o) == Some(o + 1 + |lt|) by {
      EntryName(s, o, lt, t);
      NameEnd(s, o, l);
    }
    MatchAtParts(s, o, lt, t);
  }

  /** The bracketed name of an entry. */
  lemma {:induction false} EntryName(s: seq<char>, o: nat, lt: seq<char>, t: seq<char>)
    requires EntryIn(s, o, lt, t)
    ensures o + |lt| + 2 <= |s| && s[o + 1..o + 1 + |lt|] == lt && s[o + 1 + |lt|] == ']'
  {
  }

  /** `MatchAtEntry` once the name part is known to end at the `]`. */
  lemma {:induction false} MatchAtParts(s: seq<char>, o: nat, lt: seq<char>, t: seq<char>)
    requires EntryIn(s, o, lt, t) && Trimmed(t) && LineStart(s, o)
    requires o + |lt| + |t| + 6 == |s| || s[o + |lt| + |t| + 6] == '['
    requires MarkerNameEnd(s, o) == Some(o + 1 + |lt|)
    ensures MatchAt(MarkerLine, s, o) == Some(EntryMatch(o, lt, t, o + |lt| + |t| + 6 == |s|))
  {
    var ne, last := o + 1 + |lt|, o + |lt| + |t| + 6 == |s|;
    var e := o + MarkEnd(lt, t, last);
    assert LineTailEnd(s, ne + 1) == Some(e) by { TailEnd(s, o, lt, t, ne + 1, e); }
    assert o < |s| && s[o] == '[' && ne < |s| && s[ne] == ']';
    MarkerLineFrom(s, o, ne, e, EntryMatch(o, lt, t, last));
  }

  /** The marker regex, once its name and its line tail are known. */
  lemma {:induction false} MarkerLineFrom(s: seq<char>, o: nat, ne: nat, e: nat, m: Match)
    requires o < |s| && LineStart(s, o) && s[o] == '['
    requires MarkerNameEnd(s, o) == Some(ne) && ne < |s| && s[ne] == ']'
    requires LineTailEnd(s, ne + 1) == Some(e)
    requires m == Match(o, e, Some(Span(o + 1, ne)))
    ensures MatchAt(MarkerLine, s, o) == Some(m)
  {
    assert MarkerLineAt(s, o) == Some(m) by { MarkerLineAtFrom(s, o, ne, e, m); }
    MatchAtMarkerLine(s, o);
  }

  lemma {:induction false} MarkerLineAtFrom(s: seq<char>, o: nat, ne: nat, e: nat, m: Match)
    requires o < |s| && LineStart(s, o) && s[o] == '['
    requires MarkerNameEnd(s, o) == Some(ne) && ne < |s| && s[ne] == ']'
    requires LineTailEnd(s, ne + 1) == Some(e)
    requires m == Match(o, e, Some(Span(o + 1, ne)))
    ensures MarkerLineAt(s, o) == Some(m)
  {
    assert MarkerLineAfter(s, o, ne) == Some(m);
  }

  lemma {:induction false} MatchAtMarkerLine(s: seq<char>, o: nat)
    requires o <= |s|
    ensures MatchAt(MarkerLine, s, o) == MarkerLineAt(s, o)
  {
  }

  /** Nothing between the match and the next entry looks like a marker line. */
  lemma {:induction false} GapEntry(s: seq<char>, o: nat, lt: seq<char>, t: seq<char>, last: bool)
    requires EntryIn(s, o, lt, t) && NoBracketLine(t)
    ensures NoMatchIn(MarkerLine, s, o + MarkEnd(lt, t, last), o + |lt| + |t| + 6)
  {
    forall q | o + MarkEnd(lt, t, last) <= q < o + |lt| + |t| + 6 && q <= |s|
      ensures MatchAt(MarkerLine, s, q).None?
    {
      GapChar(s, o, lt, t, last, q);
      NoMarkerLineAt(s, q);
    }
  }

  /** No character after an entry's marker line starts a line with `[`. */
  lemma {:induction false} GapChar(s: seq<char>, o: nat, lt: seq<char>, t: seq<char>, last: bool, q: nat)
    requires EntryIn(s, o, lt, t) && NoBracketLine(t)
    requires o + MarkEnd(lt, t, last) <= q < o + |lt| + |t| + 6
    ensures !(LineStart(s, q) && s[q] == '[')
  {
    var b := o + 4 + |lt|;
    if b <= q < b + |t| {
      BodyLine(s, b, t, q - b);
    }
  }

  /** The marker regex needs a `[` at the start of a line. */
  lemma {:induction false} NoMarkerLineAt(s: seq<char>, q: nat)
    requires q < |s| && !(LineStart(s, q) && s[q] == '[')
    ensures MatchAt(MarkerLine, s, q).None?
  {
    MatchAtMarkerLine(s, q);
  }

  lemma {:induction false} BodyLine(s: seq<char>, b: nat, t: seq<char>, i: nat)
    requires 0 < b && b + |t| <= |s| && s[b - 1] == '\n' && s[b..b + |t|] == t
    requires NoBracketLine(t) && i < |t|
    ensures !(LineStart(s, b + i) && s[b + i] == '[')
  {
    assert s[b + i] == t[i];
    if i > 0 { assert s[b + i - 1] == t[i - 1]; }
  }

  /** The piece after the match, stripped, is the body. */
  lemma {:induction false} PieceEntry(s: seq<char>, o: nat, lt: seq<char>, t: seq<char>, last: bool)
    requires EntryIn(s, o, lt, t) && Trimmed(t)
    ensures Strip(s[o + MarkEnd(lt, t, last)..o + |lt| + |t| + 6]) == t
  {
    var p := s[o + MarkEnd(lt, t, last)..o + |lt| + |t| + 6];
    if |t| > 0 {
      assert p == "\n" + t + "\n\n";
      StripFrame("\n", t, "\n\n");
    } else if !last {
      assert p == "\n";
      StripFrame("\n", [], []);
    } else {
      assert p == [];
    }
  }

  // ---------------------------------------------------------------------
  // The labels.

  lemma {:induction false} LabelTrimmed(l: Label)
    requires !l.Heading?
    ensures Trimmed(LabelText(l))
  {
    if l.Numbered? {
      var d := Pad2(l.n);
      assert LabelText(l)[|LabelText(l)| - 1] == d[|d| - 1];
    }
  }

  /** The reader numbers a label as the writer meant. */
  lemma {:induction false} LabelIndexRead(l: Label, pos: nat)
    requires !l.Heading?
    ensures ChapterIndex(LabelText(l), pos) == LabelIndex(l, pos)
  {
    match l
    case Preface =>
      assert Upper("PREFACE") == "PREFACE";
      PrefaceIndex("PREFACE", pos);
    case FullText =>
      assert Upper("FULL_TEXT") == "FULL_TEXT";
      FullTextIndex("FULL_TEXT", pos);
    case Numbered(n) =>
      NumberedIndex(n, pos);
  }

  /** The marker the writer puts in front of a body is read back by the
      reader's marker regex: it matches at the start of the block, names
      exactly the label, and the label's chapter number comes back. */
  lemma {:induction false} MarkerReadBack(l: Label, t: seq<char>, pos: nat)
    requires !l.Heading? && Trimmed(t)
    ensures var s := Block(Written(l, t));
      && s[..|Marker(l)|] == Marker(l)
      && MatchAt(MarkerLine, s, 0).Some?
      && var m := MatchAt(MarkerLine, s, 0).value;
      && MarkerName(s, m) == LabelText(l)
      && ChapterIndex(MarkerName(s, m), pos) == LabelIndex(l, pos)
  {
    var x := Written(l, t);
    var s, lt := Block(x), LabelText(l);
    BlockStartsWithMarker(x);
    BlockShape(x);
    MatchAtEntry(s, 0, l, lt, t);
    LabelTrimmed(l);
    NameOfEntry(s, EntryMatch(0, lt, t, true), lt);
    LabelIndexRead(l, pos);
  }

  lemma {:induction false} BlockStartsWithMarker(x: Written)
    ensures |Marker(x.name)| <= |Block(x)| && Block(x)[..|Marker(x.name)|] == Marker(x.name)
  {
    var mk := Marker(x.name);
    assert Block(x) == mk + ("\n\n" + x.text + "\n\n");
  }

  /** The stripped name of a marker-line match whose group holds a stripped name. */
  lemma {:induction false} NameOfEntry(s: seq<char>, m: Match, lt: seq<char>)
    requires m.start <= |s| && MatchAt(MarkerLine, s, m.start) == Some(m)
    requires m.group == Some(Span(1, 1 + |lt|)) && 1 + |lt| <= |s| && s[1..1 + |lt|] == lt
    requires Trimmed(lt)
    ensures MarkerName(s, m) == lt
  {
    StripTrimmed(lt);
  }

  // ---------------------------------------------------------------------
  // Where the blocks sit in the page.

  /** Where block `k` starts; `|xs|` is the end of the page. */
  function Offset(xs: seq<Written>, k: nat): (o: nat)
    requires k <= |xs|
    ensures o <= |Page(xs)|
    ensures k == |xs| ==> o == |Page(xs)|
  {
    assert xs == xs[..k] + xs[k..];
    PageAppend(xs[..k], xs[k..]);
    |Page(xs[..k])|
  }

  lemma {:induction false} PageSingle(x: Written)
    ensures Page([x]) == Block(x)
  {
    assert [x][1..] == [];
  }

  lemma {:induction false} PageEndsLine(xs: seq<Written>)
    requires |xs| > 0
    ensures Page(xs)[|Page(xs)| - 1] == '\n'
    decreases |xs|
  {
    BlockShape(xs[0]);
    if |xs| > 1 { PageEndsLine(xs[1..]); }
  }

  lemma {:induction false} PageStartsMarker(xs: seq<Written>)
    requires |xs| > 0
    ensures Page(xs)[0] == '['
  {
    BlockShape(xs[0]);
  }

  /** Block `k` sits between the offsets `k` and `k + 1`, at the start of a
      line, and is followed by the next block or the end. */
  lemma {:induction false} BlockAt(xs: seq<Written>, k: nat)
    requires k < |xs|
    ensures var w, o, e := Page(xs), Offset(xs, k), Block(xs[k]);
      && Offset(xs, k + 1) == o + |e| <= |w|
      && w[o..o + |e|] == e
      && LineStart(w, o)
      && (k + 1 < |xs| ==> o + |e| < |w| && w[o + |e|] == '[')
      && (k + 1 == |xs| <==> o + |e| == |w|)
  {
    var a, x, b := xs[..k], xs[k], xs[k + 1..];
    PageSplit(xs, k);
    if k > 0 { PageEndsLine(a); }
    if k + 1 < |xs| { PageStartsMarker(b); }
    BlockBetween(Page(xs), Page(a), Block(x), Page(b));
  }

  /** The page is the blocks before `k`, block `k`, and the blocks after it. */
  lemma {:induction false} PageSplit(xs: seq<Written>, k: nat)
    requires k < |xs|
    ensures Page(xs) == Page(xs[..k]) + Block(xs[k]) + Page(xs[k + 1..])
    ensures Offset(xs, k) == |Page(xs[..k])|
    ensures Offset(xs, k + 1) == |Page(xs[..k])| + |Block(xs[k])|
  {
    var a, x, b := xs[..k], xs[k], xs[k + 1..];
    assert xs == (a + [x]) + b;
    assert xs[..k + 1] == a + [x];
    PageAppend(a + [x], b);
    PageAppend(a, [x]);
    PageSingle(x);
  }

  /** A piece between a text ending in a newline and one starting with `[`. */
  lemma {:induction false} BlockBetween(w: seq<char>, a: seq<char>, e: seq<char>, b: seq<char>)
    requires w == a + e + b
    requires |a| > 0 ==> a[|a| - 1] == '\n'
    requires |b| > 0 ==> b[0] == '['
    ensures |a| + |e| <= |w| && w[|a|..|a| + |e|] == e
    ensures LineStart(w, |a|)
    ensures |b| > 0 ==> |a| + |e| < |w| && w[|a| + |e|] == '['
    ensures |b| == 0 <==> |a| + |e| == |w|
  {
    Middle(a, e, b);
  }

  lemma {:induction false} Middle(a: seq<char>, e: seq<char>, b: seq<char>)
    ensures (a + e + b)[|a|..|a| + |e|] == e
    ensures |a| > 0 ==> (a + e + b)[|a| - 1] == a[|a| - 1]
    ensures |b| > 0 ==> (a + e + b)[|a| + |e|] == b[0]
  {
  }

  /** The marker-line matches the reader should find: one per block. */
  function Found(xs: seq<Written>): (ms: seq<Match>)
    ensures |ms| == |xs|
  {
    seq(|xs|, k requires 0 <= k < |xs| =>
      EntryMatch(Offset(xs, k), LabelText(xs[k].name), xs[k].text, k + 1 == |xs|))
  }

  /** An entry at `o` followed by the next entry or the end of the text. */
  predicate EntryBefore(s: seq<char>, o: nat, l: Label, t: seq<char>, last: bool) {
    && !l.Heading? && Trimmed(t) && NoBracketLine(t)
    && EntryIn(s, o, LabelText(l), t) && LineStart(s, o)
    && (last <==> o + |LabelText(l)| + |t| + 6 == |s|)
    && (!last ==> s[o + |LabelText(l)| + |t| + 6] == '[')
  }

  /** The reader's scan finds the marker line of such an entry, and nothing
      else before the next one. */
  lemma {:induction false} EntryScanned(s: seq<char>, o: nat, l: Label, t: seq<char>, last: bool)
    requires EntryBefore(s, o, l, t, last)
    ensures var m, b := EntryMatch(o, LabelText(l), t, last), o + |LabelText(l)| + |t| + 6;
      && MatchAt(MarkerLine, s, o) == Some(m)
      && m.end <= b
      && NoMatchIn(MarkerLine, s, m.end, b)
  {
    var lt := LabelText(l);
    MatchAtEntry(s, o, l, lt, t);
    GapEntry(s, o, lt, t, last);
  }

  /** The text between the marker line and the next entry, stripped, is the entry's text. */
  lemma {:induction false} EntryPiece(s: seq<char>, o: nat, l: Label, t: seq<char>, last: bool)
    requires EntryBefore(s, o, l, t, last)
    ensures var m, b := EntryMatch(o, LabelText(l), t, last), o + |LabelText(l)| + |t| + 6;
      m.end <= b <= |s| && Strip(s[m.end..b]) == t
  {
    PieceEntry(s, o, LabelText(l), t, last);
  }

  /** Block `k` of a page is such an entry. */
  lemma {:induction false} BlockFacts(xs: seq<Written>, k: nat)
    requires k < |xs| && Legible(xs[k])
    ensures var w, o, x := Page(xs), Offset(xs, k), xs[k];
      && Offset(xs, k + 1) == o + |LabelText(x.name)| + |x.text| + 6
      && Found(xs)[k] == EntryMatch(o, LabelText(x.name), x.text, k + 1 == |xs|)
      && EntryBefore(w, o, x.name, x.text, k + 1 == |xs|)
  {
    BlockNext(xs, k);
    BlockIsEntry(xs, k);
    FoundAt(xs, k);
  }

  lemma {:induction false} BlockNext(xs: seq<Written>, k: nat)
    requires k < |xs|
    ensures Offset(xs, k + 1) == Offset(xs, k) + |LabelText(xs[k].name)| + |xs[k].text| + 6
  {
    BlockAt(xs, k);
    BlockShape(xs[k]);
  }

  lemma {:induction false} BlockIsEntry(xs: seq<Written>, k: nat)
    requires k < |xs| && Legible(xs[k])
    ensures EntryBefore(Page(xs), Offset(xs, k), xs[k].name, xs[k].text, k + 1 == |xs|)
  {
    var w, o, x, last := Page(xs), Offset(xs, k), xs[k], k + 1 == |xs|;
    assert BlockPlaced(w, o, x, last) by { BlockAt(xs, k); }
    BlockEntry(w, o, x, last);
  }

  lemma {:induction false} FoundAt(xs: seq<Written>, k: nat)
    requires k < |xs|
    ensures Found(xs)[k] == EntryMatch(Offset(xs, k), LabelText(xs[k].name), xs[k].text, k + 1 == |xs|)
  {
  }

  /** Block `x` is copied into `s` at the start of a line, followed by the
      next block (`[`) or, when `last`, by the end of `s`. */
  predicate BlockPlaced(s: seq<char>, o: nat, x: Written, last: bool) {
    && LineStart(s, o)
    && o + |Block(x)| <= |s| && s[o..o + |Block(x)|] == Block(x)
    && (last <==> o + |Block(x)| == |s|)
    && (!last ==> o + |Block(x)| < |s| && s[o + |Block(x)|] == '[')
  }

  /** A legible block written at the start of a line, before the next block
      or the end, is an entry. */
  lemma {:induction false} BlockEntry(s: seq<char>, o: nat, x: Written, last: bool)
    requires Legible(x) && BlockPlaced(s, o, x, last)
    ensures |Block(x)| == |LabelText(x.name)| + |x.text| + 6
    ensures EntryBefore(s, o, x.name, x.text, last)
  {
    BlockLayout(s, o, x);
  }

  // ---------------------------------------------------------------------
  // Reading the page back.

  /** From block `j` on, the reader's scan finds exactly the blocks' marker lines. */
  lemma {:induction false} ScanFrom(xs: seq<Written>, j: nat)
    requires forall i :: 0 <= i < |xs| ==> Legible(xs[i])
    requires j <= |xs|
    ensures FindAll(MarkerLine, Page(xs), Offset(xs, j)) == Found(xs)[j..]
    decreases |xs| - j
  {
    var w := Page(xs);
    if j == |xs| {
      FindAllAtEnd(MarkerLine, w);
    } else {
      ScanFrom(xs, j + 1);
      BlockFacts(xs, j);
      EntryScanned(w, Offset(xs, j), xs[j].name, xs[j].text, j + 1 == |xs|);
      FindAllThen(MarkerLine, w, Offset(xs, j), Found(xs)[j], Offset(xs, j + 1));
      SliceCons(Found(xs), j);
    }
  }

  lemma {:induction false} SliceCons(ms: seq<Match>, j: nat)
    requires j < |ms|
    ensures ms[j..] == [ms[j]] + ms[j + 1..]
  {
  }

  /** The reader's marker-line scan of the page. */
  lemma {:induction false} ScanPage(xs: seq<Written>)
    requires forall i :: 0 <= i < |xs| ==> Legible(xs[i])
    ensures FindAll(MarkerLine, Page(xs), 0) == Found(xs)
  {
    ScanFrom(xs, 0);
    assert xs[..0] == [];
    assert Found(xs)[0..] == Found(xs);
  }

  /** Row `k` of the marker branch is the expected row of block `k`. */
  lemma {:induction false} RowBack(xs: seq<Written>, k: nat)
    requires forall i :: 0 <= i < |xs| ==> Legible(xs[i])
    requires k < |xs|
    ensures IsScan(MarkerLine, Page(xs), 0, Found(xs))
    ensures MarkerRows(Page(xs), Found(xs))[k] == Expected(xs)[k]
  {
    var w, ms, x := Page(xs), Found(xs), xs[k];
    assert IsScan(MarkerLine, w, 0, ms) by { ScanPage(xs); }
    assert MarkerName(w, ms[k]) == LabelText(x.name) by { NameBack(xs, k); }
    assert Strip(Pieces(w, ms, 0)[k + 1]) == x.text by { PieceBack(xs, k); }
    assert ChapterIndex(LabelText(x.name), k + 1) == LabelIndex(x.name, k + 1) by {
      LabelIndexRead(x.name, k + 1);
    }
    RowOf(w, ms, k, LabelText(x.name), x.text, LabelIndex(x.name, k + 1));
    ExpectedAt(xs, k);
  }

  /** Row `k` of the marker branch, given its three parts. */
  lemma {:induction false} RowOf(s: seq<char>, ms: seq<Match>, k: nat, lt: seq<char>, t: seq<char>, idx: nat)
    requires IsScan(MarkerLine, s, 0, ms) && k < |ms|
    requires MarkerName(s, ms[k]) == lt && Strip(Pieces(s, ms, 0)[k + 1]) == t
    requires ChapterIndex(lt, k + 1) == idx
    ensures MarkerRows(s, ms)[k] == Record(idx, lt, t)
  {
  }

  lemma {:induction false} ExpectedAt(xs: seq<Written>, k: nat)
    requires k < |xs|
    ensures Expected(xs)[k] == Record(LabelIndex(xs[k].name, k + 1), LabelText(xs[k].name), xs[k].text)
  {
  }

  /** The name in the `k`-th marker line is the label of block `k`. */
  lemma {:induction false} NameBack(xs: seq<Written>, k: nat)
    requires k < |xs| && Legible(xs[k])
    ensures Found(xs)[k].start <= |Page(xs)|
    ensures MatchAt(MarkerLine, Page(xs), Found(xs)[k].start) == Some(Found(xs)[k])
    ensures MarkerName(Page(xs), Found(xs)[k]) == LabelText(xs[k].name)
  {
    BlockFacts(xs, k);
    NameBetween(Page(xs), Offset(xs, k), xs[k], k + 1 == |xs|, Found(xs)[k]);
  }

  /** The name in an entry's marker line is the entry's label. */
  lemma {:induction false} NameBetween(s: seq<char>, o: nat, x: Written, last: bool, m: Match)
    requires EntryBefore(s, o, x.name, x.text, last)
    requires m == EntryMatch(o, LabelText(x.name), x.text, last)
    ensures m.start <= |s| && MatchAt(MarkerLine, s, m.start) == Some(m)
    ensures MarkerName(s, m) == LabelText(x.name)
  {
    var lt := LabelText(x.name);
    assert MatchAt(MarkerLine, s, o) == Some(m) by {
      EntryScanned(s, o, x.name, x.text, last);
    }
    assert Trimmed(lt) by { LabelTrimmed(x.name); }
    NameInEntry(s, o, m, lt, x.text, last);
  }

  lemma {:induction false} NameInEntry(s: seq<char>, o: nat, m: Match, lt: seq<char>, t: seq<char>, last: bool)
    requires EntryIn(s, o, lt, t) && Trimmed(lt)
    requires m == EntryMatch(o, lt, t, last) && MatchAt(MarkerLine, s, o) == Some(m)
    ensures MarkerName(s, m) == lt
  {
    NameInside(s, o, m, lt);
  }

  /** A trimmed name that fills the group of a marker-line match is read back as it is. */
  lemma {:induction false} NameInside(s: seq<char>, o: nat, m: Match, lt: seq<char>)
    requires o == m.start && o <= |s| && MatchAt(MarkerLine, s, o) == Some(m)
    requires m.group == Some(Span(o + 1, o + 1 + |lt|))
    requires o + 1 + |lt| <= |s| && s[o + 1..o + 1 + |lt|] == lt
    requires Trimmed(lt)
    ensures MarkerName(s, m) == lt
  {
    StripTrimmed(lt);
  }

  /** The blocks' matches are in order, inside the page. */
  lemma {:induction false} FoundOrdered(xs: seq<Written>)
    requires forall i :: 0 <= i < |xs| ==> Legible(xs[i])
    ensures Ordered(Found(xs))
    ensures forall i :: 0 <= i < |xs| ==> Found(xs)[i].end <= |Page(xs)|
  {
    forall i | 0 <= i < |xs|
      ensures Found(xs)[i].start < Found(xs)[i].end <= |Page(xs)|
      ensures i + 1 < |xs| ==> Found(xs)[i].end <= Found(xs)[i + 1].start
    {
      BlockFacts(xs, i);
      if i + 1 < |xs| { BlockFacts(xs, i + 1); }
    }
  }

  /** The piece after the `k`-th marker line, stripped, is the text of block `k`. */
  lemma {:induction false} PieceBack(xs: seq<Written>, k: nat)
    requires forall i :: 0 <= i < |xs| ==> Legible(xs[i])
    requires k < |xs|
    ensures Ordered(Found(xs))
    ensures forall i :: 0 <= i < |xs| ==> Found(xs)[i].end <= |Page(xs)|
    ensures Strip(Pieces(Page(xs), Found(xs), 0)[k + 1]) == xs[k].text
  {
    var w, ms := Page(xs), Found(xs);
    FoundOrdered(xs);
    var a, b := ms[k].end, Offset(xs, k + 1);
    assert (if k + 1 < |ms| then ms[k + 1].start else |w|) == b by {
      if k + 1 < |xs| { BlockFacts(xs, k + 1); }
    }
    assert Pieces(w, ms, 0)[k + 1] == w[a..b] by { PiecesAt(w, ms, 0, k); }
    PieceText(xs, k);
  }

  /** The text between the `k`-th marker line and the next block, stripped, is the text of block `k`. */
  lemma {:induction false} PieceText(xs: seq<Written>, k: nat)
    requires k < |xs| && Legible(xs[k])
    ensures Found(xs)[k].end <= Offset(xs, k + 1) <= |Page(xs)|
    ensures Strip(Page(xs)[Found(xs)[k].end..Offset(xs, k + 1)]) == xs[k].text
  {
    var w, o, x := Page(xs), Offset(xs, k), xs[k];
    BlockFacts(xs, k);
    PieceBetween(w, o, x, k + 1 == |xs|, Found(xs)[k], Offset(xs, k + 1));
  }

  /** `EntryPiece` for a match and an end given by name. */
  lemma {:induction false} PieceBetween(s: seq<char>, o: nat, x: Written, last: bool, m: Match, b: nat)
    requires EntryBefore(s, o, x.name, x.text, last)
    requires m == EntryMatch(o, LabelText(x.name), x.text, last)
    requires b == o + |LabelText(x.name)| + |x.text| + 6
    ensures m.end <= b <= |s| && Strip(s[m.end..b]) == x.text
  {
    EntryPiece(s, o, x.name, x.text, last);
  }

  /** Reading a page of legible blocks gives back one row per block, numbered
      from its label, with its text, sorted by number. */
  lemma {:induction false} PageRoundTrip(xs: seq<Written>)
    requires |xs| > 0
    requires forall i :: 0 <= i < |xs| ==> Legible(xs[i])
    ensures LoadChapters(Page(xs)) == SortRecords(Expected(xs))
  {
    var w, ms := Page(xs), Found(xs);
    RowsBack(xs);
    ScanPage(xs);
    FoundMarkerRows(w, ms);
    LoadFound(w, Expected(xs));
  }

  /** The marker branch reads every block back as its expected row. */
  lemma {:induction false} RowsBack(xs: seq<Written>)
    requires |xs| > 0
    requires forall i :: 0 <= i < |xs| ==> Legible(xs[i])
    ensures IsScan(MarkerLine, Page(xs), 0, Found(xs))
    ensures MarkerRows(Page(xs), Found(xs)) == Expected(xs)
  {
    var w, ms := Page(xs), Found(xs);
    RowBack(xs, 0);
    forall k | 0 <= k < |xs| ensures MarkerRows(w, ms)[k] == Expected(xs)[k] {
      RowBack(xs, k);
    }
  }

  lemma {:induction false} LoadFound(s: seq<char>, rs: seq<Record>)
    requires FoundRows(s) == rs
    ensures LoadChapters(s) == SortRecords(rs)
  {
  }

  /** With marker lines found, the rows are those of the marker branch. */
  lemma {:induction false} FoundMarkerRows(s: seq<char>, ms: seq<Match>)
    requires FindAll(MarkerLine, s, 0) == ms && |ms| > 0
    ensures IsScan(MarkerLine, s, 0, ms)
    ensures FoundRows(s) == MarkerRows(s, ms)
  {
  }

  /** The round trip: written out by the cleaner and read back by the lemma
      builder, the chunks come back one row each, numbered from their labels,
      with their tidied bodies, sorted by number. */
  lemma {:induction false} RoundTrip(cs: seq<Chunk>)
    requires |cs| > 0
    requires forall i :: 0 <= i < |cs| ==> Readable(cs[i])
    ensures LoadChapters(Witness(cs)) == SortRecords(Expected(Tidied(cs)))
  {
    var xs := Tidied(cs);
    forall i | 0 <= i < |xs| ensures Legible(xs[i]) {
      assert xs[i] == Written(cs[i].name, Tidy(cs[i].body));
    }
    PageRoundTrip(xs);
  }

  // ---------------------------------------------------------------------
  // Consequences of the round trip.

  /** Every chapter number gets back its own rows, in the order they were written. */
  lemma {:induction false} RoundTripKeepsOrder(cs: seq<Chunk>, k: nat)
    requires |cs| > 0
    requires forall i :: 0 <= i < |cs| ==> Readable(cs[i])
    ensures Keep(k, LoadChapters(Witness(cs))) == Keep(k, Expected(Tidied(cs)))
    ensures multiset(LoadChapters(Witness(cs))) == multiset(Expected(Tidied(cs)))
  {
    RoundTrip(cs);
    SortStable(k, Expected(Tidied(cs)));
  }

  /** Chapters written with non-decreasing numbers come back in the order written. */
  predicate ChaptersInOrder(cs: seq<Chunk>) {
    && (forall i :: 0 <= i < |cs| ==> cs[i].name.Numbered?)
    && (forall i, j :: 0 <= i < j < |cs| ==> cs[i].name.n <= cs[j].name.n)
  }

  /** Numbered chapters written in order are read back row for row: row `i`
      has the number, the marker `CHAPTER nn` and the tidied body of chunk `i`. */
  lemma {:induction false} RoundTripChapters(cs: seq<Chunk>)
    requires |cs| > 0
    requires forall i :: 0 <= i < |cs| ==> NoBracketLine(Tidy(cs[i].body))
    requires ChaptersInOrder(cs)
    ensures |LoadChapters(Witness(cs))| == |cs|
    ensures forall i :: 0 <= i < |cs| ==>
      LoadChapters(Witness(cs))[i] == Record(cs[i].name.n, LabelText(cs[i].name), Tidy(cs[i].body))
  {
    var rs := Expected(Tidied(cs));
    ExpectedChapters(cs);
    assert Sorted(rs) by { ExpectedSorted(cs); }
    assert LoadChapters(Witness(cs)) == rs by {
      assert forall i :: 0 <= i < |cs| ==> Readable(cs[i]);
      RoundTrip(cs);
      SortSorted(rs);
    }
  }

  /** The expected row of a numbered chapter carries its number. */
  lemma {:induction false} ExpectedChapters(cs: seq<Chunk>)
    requires forall i :: 0 <= i < |cs| ==> cs[i].name.Numbered?
    ensures |Expected(Tidied(cs))| == |cs|
    ensures forall i :: 0 <= i < |cs| ==>
      Expected(Tidied(cs))[i] == Record(cs[i].name.n, LabelText(cs[i].name), Tidy(cs[i].body))
  {
    forall i | 0 <= i < |cs|
      ensures Expected(Tidied(cs))[i] == Record(cs[i].name.n, LabelText(cs[i].name), Tidy(cs[i].body))
    {
      ExpectedChapterAt(cs, i);
    }
  }

  lemma {:induction false} ExpectedChapterAt(cs: seq<Chunk>, i: nat)
    requires i < |cs| && cs[i].name.Numbered?
    ensures Expected(Tidied(cs))[i] == Record(cs[i].name.n, LabelText(cs[i].name), Tidy(cs[i].body))
  {
    var xs := Tidied(cs);
    assert xs[i] == Written(cs[i].name, Tidy(cs[i].body)) by { TidiedAt(cs, i); }
    ExpectedAt(xs, i);
  }

  lemma {:induction false} TidiedAt(cs: seq<Chunk>, i: nat)
    requires i < |cs|
    ensures Tidied(cs)[i] == Written(cs[i].name, Tidy(cs[i].body))
  {
  }

  lemma {:induction false} ExpectedSorted(cs: seq<Chunk>)
    requires ChaptersInOrder(cs)
    ensures Sorted(Expected(Tidied(cs)))
  {
    var rs := Expected(Tidied(cs));
    ExpectedChapters(cs);
    forall i, j | 0 <= i < j < |rs| ensures rs[i].chapter <= rs[j].chapter {
      assert rs[i].chapter == cs[i].name.n && rs[j].chapter == cs[j].name.n;
    }
  }
}
