/** The two write loops of the cleaner (scripts/clean_gutenberg.py): every
    chunk is tidied (footer cut, paragraphs reflowed), written after a
    `[label]` marker line into the full witness file, and written on its own
    into a per-chapter file whose name comes from the label. */
module Writer {
  import opened Text
  import opened Options
  import opened Patterns
  import opened Scan
  import opened Numerals
  import opened Footer
  import opened Reflow
  import opened Chapters
  import opened Markers

  // ---------------------------------------------------------------------
  // Tidied bodies and the witness file.

  /** `normalize_unicode(collapse_whitespace_paragraphs(strip_gutenberg_footer(body)))`,
      with the Unicode normalisation left out. */
  function Tidy(body: seq<char>): (r: seq<char>)
    ensures Trimmed(r)
  {
    Reflow.Reflow(StripFooter(body))
  }

  /** `f"[{label}]"`. */
  function Marker(l: Label): seq<char> {
    "[" + LabelText(l) + "]"
  }

  /** A chunk as the first loop writes it: its label and its tidied body. */
  datatype Written = Written(name: Label, text: seq<char>)

  /** `f"[{label}]\n\n{body}\n\n"` for one chunk. */
  function Block(x: Written): seq<char> {
    Marker(x.name) + "\n\n" + x.text + "\n\n"
  }

  /** The chunks with their bodies tidied. */
  function Tidied(cs: seq<Chunk>): (r: seq<Written>)
    ensures |r| == |cs|
  {
    seq(|cs|, k requires 0 <= k < |cs| => Written(cs[k].name, Tidy(cs[k].body)))
  }

  /** The written blocks one after the other. */
  function Page(xs: seq<Written>): (r: seq<char>)
    ensures |xs| == 0 <==> r == []
    decreases |xs|
  {
    if |xs| == 0 then [] else Block(xs[0]) + Page(xs[1..])
  }

  /** The contents of the full witness file. */
  function Witness(cs: seq<Chunk>): seq<char> {
    Page(Tidied(cs))
  }

  /** Tidying keeps the visible text up to the footer and nothing after it;
      with no footer it keeps every visible character. */
  lemma {:induction false} TidyKeepsContent(body: seq<char>)
    ensures NonSpace(Tidy(body)) == NonSpace(body[..FooterCut(body)])
    ensures IsPrefix(NonSpace(Tidy(body)), NonSpace(body))
  {
    ReflowKeepsContent(StripFooter(body));
    StripFooterKeepsHead(body);
  }

  /** Tidied text comes out of a second reflow unchanged. */
  lemma {:induction false} TidyStable(body: seq<char>)
    ensures Reflow.Reflow(Tidy(body)) == Tidy(body)
  {
    ReflowIdempotent(StripFooter(body));
  }

  /** The witness lists one block per chunk, in chunk order. */
  lemma {:induction false} PageAppend(xs: seq<Written>, ys: seq<Written>)
    ensures Page(xs + ys) == Page(xs) + Page(ys)
    decreases |xs|
  {
    if |xs| == 0 {
      assert xs + ys == ys;
    } else {
      assert (xs + ys)[1..] == xs[1..] + ys;
      PageAppend(xs[1..], ys);
      AssocC(Block(xs[0]), Page(xs[1..]), Page(ys));
    }
  }

  // ---------------------------------------------------------------------
  // Per-chapter file names.

  /** Characters `re.sub(r'[^0-9A-Za-z_-]', '_', ...)` leaves alone. */
  predicate Allowed(c: char) { IsWordChar(c) || c == '-' }

  /** `re.sub(r'[^0-9A-Za-z_-]', '_', t)`. */
  function SafeName(t: seq<char>): (r: seq<char>)
    ensures |r| == |t|
    ensures forall i :: 0 <= i < |r| ==> Allowed(r[i])
    ensures forall i :: 0 <= i < |t| ==> (r[i] == t[i] <==> Allowed(t[i]))
    ensures forall i :: 0 <= i < |t| && !Allowed(t[i]) ==> r[i] == '_'
  {
    seq(|t|, i requires 0 <= i < |t| => if Allowed(t[i]) then t[i] else '_')
  }

  /** The name of the per-chapter file: `f"{idx:02d}.txt"` when the label
      contains `CHAPTER <digits>` in any case, else the first 40 characters of
      the label made safe, plus `.txt`. */
  function FileName(l: Label): (r: seq<char>)
    ensures |r| > 4 || LabelText(l) == [] || Search(ChapterNumber, LabelText(l)).Some?
    ensures |r| >= 4 && r[|r| - 4..] == ".txt"
    ensures forall i :: 0 <= i < |r| - 4 ==> Allowed(r[i])
    ensures Search(ChapterNumber, LabelText(l)).None? ==> |r| <= 44
  {
    var t := LabelText(l);
    var stem := match Search(ChapterNumber, t)
      case Some(m) => NumberStem(t, m)
      case None => Take(SafeName(t), 40);
    StemName(stem);
    stem + ".txt"
  }

  /** `f"{int(m.group(1)):02d}"`. */
  function NumberStem(t: seq<char>, m: Match): (r: seq<char>)
    requires m.start <= |t| && MatchAt(ChapterNumber, t, m.start) == Some(m)
    ensures |r| >= 2 && AllDigits(r)
  {
    Pad2(GroupNumber(t, m))
  }

  lemma {:induction false} StemName(stem: seq<char>)
    requires forall i :: 0 <= i < |stem| ==> Allowed(stem[i])
    ensures |stem + ".txt"| >= 4 && (stem + ".txt")[|stem|..] == ".txt"
    ensures forall i :: 0 <= i < |stem| ==> Allowed((stem + ".txt")[i])
  {
    assert (stem + ".txt")[|stem|..] == ".txt";
  }

  /** The file-name rule for every label. When the label contains
      `CHAPTER <digits>` in any case (a heading label such as `Chapter 12x`
      included), the stem is that number padded to two digits, and it reads
      back as the number. Otherwise the stem is the label's first 40
      characters, each one outside `[0-9A-Za-z_-]` replaced by `_`. */
  lemma {:induction false} FileNameRule(l: Label)
    ensures var t, r := LabelText(l), FileName(l);
      Search(ChapterNumber, t).Some? ==>
        var k := GroupNumber(t, Search(ChapterNumber, t).value);
        && r == Pad2(k) + ".txt"
        && ParseDecimal(r[..|r| - 4]) == k
    ensures var t, r := LabelText(l), FileName(l);
      Search(ChapterNumber, t).None? ==>
        && |r| == (if |t| <= 40 then |t| else 40) + 4
        && forall i :: 0 <= i < |r| - 4 ==> r[i] == (if Allowed(t[i]) then t[i] else '_')
  {
    var t, r := LabelText(l), FileName(l);
    match Search(ChapterNumber, t)
    case Some(m) =>
      var k := GroupNumber(t, m);
      assert r == Pad2(k) + ".txt";
      assert r[..|r| - 4] == Pad2(k);
      ParsePad2(k);
    case None =>
      var stem := Take(SafeName(t), 40);
      assert r == stem + ".txt";
      assert forall i :: 0 <= i < |stem| ==> r[i] == stem[i];
  }

  /** Chapter `n` goes to `nn.txt`: the number is read back from the label it was written into. */
  lemma {:induction false} FileNameNumbered(n: nat)
    ensures FileName(Numbered(n)) == Pad2(n) + ".txt"
  {
    var t := LabelText(Numbered(n));
    assert t == "CHAPTER " + Pad2(n);
    NumberedMatch(n);
    assert t[8..|t|] == Pad2(n);
    ParsePad2(n);
  }

  /** Distinct chapter numbers get distinct files. */
  lemma {:induction false} NumberedNamesDistinct(a: nat, b: nat)
    requires a != b
    ensures FileName(Numbered(a)) != FileName(Numbered(b))
  {
    FileNameNumbered(a);
    FileNameNumbered(b);
    if Pad2(a) + ".txt" == Pad2(b) + ".txt" {
      SuffixCancel(Pad2(a), Pad2(b), ".txt");
      Pad2Injective(a, b);
    }
  }

  lemma {:induction false} SuffixCancel(x: seq<char>, y: seq<char>, z: seq<char>)
    requires x + z == y + z
    ensures x == y
  {
    assert |x| == |y|;
    assert x == (x + z)[..|x|];
    assert y == (y + z)[..|y|];
  }

  /** A label whose characters are all allowed, at most 40 of them and
      without `CHAPTER` in it, is its own file name. */
  lemma {:induction false} PlainLabelName(l: Label)
    requires 0 < |LabelText(l)| <= 40 && AllAllowed(LabelText(l))
    requires Search(ChapterNumber, LabelText(l)).None?
    ensures FileName(l) == LabelText(l) + ".txt"
  {
    var t := LabelText(l);
    assert SafeName(t) == t;
  }

  predicate AllAllowed(t: seq<char>) { forall i :: 0 <= i < |t| ==> Allowed(t[i]) }

  /** The preface and the whole-text chunk keep their label as the file name. */
  lemma {:induction false} FileNamePreface()
    ensures FileName(Preface) == "PREFACE.txt"
  {
    PrefaceLabel();
    PlainLabelName(Preface);
  }

  lemma {:induction false} PrefaceLabel()
    ensures AllAllowed(LabelText(Preface)) && Search(ChapterNumber, LabelText(Preface)).None?
  {
    var t := LabelText(Preface);
    assert t == "PREFACE";
    NoChapterWord(t);
  }

  lemma {:induction false} FileNameFullText()
    ensures FileName(FullText) == "FULL_TEXT.txt"
  {
    FullTextLabel();
    PlainLabelName(FullText);
  }

  lemma {:induction false} FullTextLabel()
    ensures AllAllowed(LabelText(FullText)) && Search(ChapterNumber, LabelText(FullText)).None?
  {
    var t := LabelText(FullText);
    assert t == "FULL_TEXT";
    assert ToLower(t[0]) != 'c' && ToLower(t[1]) != 'c' && ToLower(t[2]) != 'c';
    NoChapterWord(t);
    FullTextAllowed();
  }

  lemma {:induction false} FullTextAllowed()
    ensures AllAllowed("FULL_TEXT")
  {
  }

  // ---------------------------------------------------------------------
  // The per-chapter directory.

  datatype File = File(name: seq<char>, text: seq<char>)

  /** What the second loop writes, in order. */
  function ChapterFiles(cs: seq<Chunk>): (r: seq<File>)
    ensures |r| == |cs|
  {
    seq(|cs|, i requires 0 <= i < |cs| => File(FileName(cs[i].name), Tidy(cs[i].body)))
  }

  /** The directory after the writes: a later write to a name replaces an earlier one. */
  function Directory(fs: seq<File>): (d: map<seq<char>, seq<char>>)
    ensures forall x :: x in d <==> exists i :: 0 <= i < |fs| && fs[i].name == x
    decreases |fs|
  {
    if |fs| == 0 then map[]
    else
      var d := Directory(fs[..|fs| - 1]);
      assert forall i :: 0 <= i < |fs| - 1 ==> fs[..|fs| - 1][i] == fs[i];
      d[fs[|fs| - 1].name := fs[|fs| - 1].text]
  }

  /** Each file holds what the last write to its name wrote. */
  lemma {:induction false} DirectoryLast(fs: seq<File>, i: nat)
    requires i < |fs|
    requires forall j :: i < j < |fs| ==> fs[j].name != fs[i].name
    ensures fs[i].name in Directory(fs) && Directory(fs)[fs[i].name] == fs[i].text
    decreases |fs|
  {
    if i < |fs| - 1 {
      var init := fs[..|fs| - 1];
      assert init[i] == fs[i];
      assert forall j :: i < j < |init| ==> init[j] == fs[j];
      DirectoryLast(init, i);
    }
  }

  /** No chunk carries a free-text heading label, and no two numbered
      chapters share a number; a preface and a whole-text chunk may be present. */
  predicate DistinctChapters(cs: seq<Chunk>) {
    && (forall j :: 0 <= j < |cs| ==> !cs[j].name.Heading?)
    && (forall j, k :: 0 <= j < k < |cs| && cs[j].name.Numbered? && cs[k].name.Numbered? ==>
          cs[j].name.n != cs[k].name.n)
  }

  /** Every numbered chapter's tidied text lands in its own `nn.txt`, when no
      two chapters share a number: `PREFACE.txt` and `FULL_TEXT.txt` never
      collide with a chapter file. */
  lemma {:induction false} NumberedChaptersAllWritten(cs: seq<Chunk>, i: nat)
    requires i < |cs| && DistinctChapters(cs) && cs[i].name.Numbered?
    ensures var name := Pad2(cs[i].name.n) + ".txt";
      name in Directory(ChapterFiles(cs)) && Directory(ChapterFiles(cs))[name] == Tidy(cs[i].body)
  {
    var fs := ChapterFiles(cs);
    LaterNamesDiffer(cs, i);
    var n := cs[i].name.n;
    FileNameNumbered(n);
    DirectoryLast(fs, i);
  }

  lemma {:induction false} LaterNamesDiffer(cs: seq<Chunk>, i: nat)
    requires i < |cs| && DistinctChapters(cs) && cs[i].name.Numbered?
    ensures forall j :: i < j < |cs| ==> FileName(cs[j].name) != FileName(cs[i].name)
  {
    forall j | i < j < |cs| ensures FileName(cs[j].name) != FileName(cs[i].name) {
      var n := cs[i].name.n;
      match cs[j].name
      case Numbered(m) => NumberedNamesDistinct(m, n);
      case Preface => FileNamePreface(); PlainNotNumbered("PREFACE.txt", n);
      case FullText => FileNameFullText(); PlainNotNumbered("FULL_TEXT.txt", n);
    }
  }

  /** A chapter file name starts with a digit, so a name starting with a letter is another file. */
  lemma {:induction false} PlainNotNumbered(name: seq<char>, n: nat)
    requires |name| > 0 && IsLetter(name[0])
    ensures name != FileName(Numbered(n))
  {
    FileNameNumbered(n);
    assert (Pad2(n) + ".txt")[0] == Pad2(n)[0];
  }
}
