/** `load_chapters` of the lemma builder (scripts/make_lemmas.py): split the
    cleaned text at whole-line `[PREFACE]`, `[CHAPTER n]` and `[FULL_TEXT]`
    markers, number the rows, and sort them by chapter number. When no such
    marker line exists, split at `[CHAPTER n]` prefixes instead and number the
    pieces 1, 2, 3, ... */
module Markers {
  import opened Text
  import opened Options
  import opened Patterns
  import opened Scan
  import opened Numerals
  import opened Records

  // ---------------------------------------------------------------------
  // Chapter numbers of markers.

  /** `int(m.group(1))` for a match of `CHAPTER\s+(\d+)`. */
  function GroupNumber(t: seq<char>, m: Match): nat
    requires m.start <= |t| && MatchAt(ChapterNumber, t, m.start) == Some(m)
  {
    var g := m.group.value;
    assert AllDigits(t[g.lo..g.hi]);
    ParseDecimal(t[g.lo..g.hi])
  }

  /** The number given to the `pos`-th marker (counting from 1): the number
      after `CHAPTER`, else 0 for a preface, else the position. */
  function ChapterIndex(marker: seq<char>, pos: nat): nat {
    match Search(ChapterNumber, marker)
    case Some(m) => GroupNumber(marker, m)
    case None => if IsPrefix("PREFACE", Upper(marker)) then 0 else pos
  }

  /** `CHAPTER <digits>` at the very front of a text is the leftmost match. */
  lemma {:induction false} SearchAtFront(s: seq<char>)
    requires MatchAt(ChapterNumber, s, 0).Some?
    ensures Search(ChapterNumber, s) == MatchAt(ChapterNumber, s, 0)
  {
    var r := Search(ChapterNumber, s);
    assert r.Some?;
    assert r.value.start == 0;
  }

  /** The run of a kind reaches the end of the text when every character from `p` on is of the kind. */
  lemma {:induction false} KindRunWhole(s: seq<char>, p: nat, k: CharKind)
    requires p <= |s|
    requires forall i :: p <= i < |s| ==> InKind(k, s[i])
    ensures KindRun(s, p, k) == |s| - p
    decreases |s| - p
  {
    if p < |s| { KindRunWhole(s, p + 1, k); }
  }

  /** `CHAPTER nn` is matched whole, the group being the digits. */
  lemma {:induction false} NumberedMatch(n: nat)
    ensures var t := "CHAPTER " + Pad2(n);
      Search(ChapterNumber, t) == Some(Match(0, |t|, Some(Span(8, |t|))))
  {
    var t := "CHAPTER " + Pad2(n);
    assert MatchAt(ChapterNumber, t, 0) == Some(Match(0, |t|, Some(Span(8, |t|)))) by {
      NumberedAtFront(t);
    }
    SearchAtFront(t);
  }

  lemma {:induction false} NumberedAtFront(t: seq<char>)
    requires |t| > 8 && t[..8] == "CHAPTER " && AllDigits(t[8..])
    ensures ChapterNumberAt(t, 0) == Some(Match(0, |t|, Some(Span(8, |t|))))
    ensures MatchAt(ChapterNumber, t, 0) == ChapterNumberAt(t, 0)
  {
    assert LiteralAt(t, 0, "CHAPTER", true);
    assert IsDigit(t[8]);
    assert SpaceRun(t, 8) == 0;
    assert SpaceRun(t, 7) == 1;
    forall i | 8 <= i < |t| ensures InKind(Digit, t[i]) {
      assert t[i] == t[8..][i - 8];
    }
    KindRunWhole(t, 8, Digit);
  }

  /** The number written into `CHAPTER nn` is the number read back. */
  lemma {:induction false} NumberedIndex(n: nat, pos: nat)
    ensures ChapterIndex("CHAPTER " + Pad2(n), pos) == n
  {
    var t := "CHAPTER " + Pad2(n);
    NumberedMatch(n);
    assert t[8..|t|] == Pad2(n);
    ParsePad2(n);
  }

  /** A text in which no `c` starts a seven-character window holds no `CHAPTER`. */
  lemma {:induction false} NoChapterWord(t: seq<char>)
    requires forall q :: 0 <= q && q + 7 <= |t| ==> ToLower(t[q]) != 'c'
    ensures Search(ChapterNumber, t).None?
  {
    forall q | 0 <= q <= |t| ensures MatchAt(ChapterNumber, t, q).None? {
      if q + 7 <= |t| {
        assert !SameIgnoringCase(t[q + 0], "CHAPTER"[0]);
      }
    }
  }

  /** A preface marker, in any case, is chapter 0. */
  lemma {:induction false} PrefaceIndex(marker: seq<char>, pos: nat)
    requires Upper(marker) == "PREFACE"
    ensures ChapterIndex(marker, pos) == 0
  {
    assert ToUpper(marker[0]) == 'P';
    NoChapterWord(marker);
  }

  /** A full-text marker, in any case, is numbered by its position. */
  lemma {:induction false} FullTextIndex(marker: seq<char>, pos: nat)
    requires Upper(marker) == "FULL_TEXT"
    ensures ChapterIndex(marker, pos) == pos
  {
    assert ToUpper(marker[0]) == 'F' && ToUpper(marker[1]) == 'U' && ToUpper(marker[2]) == 'L';
    NoChapterWord(marker);
    assert Upper(marker)[..7] != "PREFACE";
  }

  // ---------------------------------------------------------------------
  // The two ways of splitting.

  /** The name inside a marker line, stripped: `parts[j].strip()`. */
  function MarkerName(s: seq<char>, m: Match): seq<char>
    requires m.start <= |s| && MatchAt(MarkerLine, s, m.start) == Some(m)
  {
    var g := m.group.value;
    Strip(s[g.lo..g.hi])
  }

  /** The rows of the marker branch: the `k`-th marker line names the row and
      the text up to the next marker line (or the end), stripped, is its body.
      The text before the first marker line is dropped. */
  function MarkerRows(s: seq<char>, ms: seq<Match>): (r: seq<Record>)
    requires IsScan(MarkerLine, s, 0, ms)
    ensures |r| == |ms|
  {
    var ps := Pieces(s, ms, 0);
    seq(|ms|, k requires 0 <= k < |ms| =>
      var name := MarkerName(s, ms[k]);
      Record(ChapterIndex(name, k + 1), name, Strip(ps[k + 1])))
  }

  /** The rows of the fallback branch: every piece of the split at `[CHAPTER n]`
      prefixes, the text before the first one included, numbered from 1. */
  function FallbackRows(s: seq<char>): (r: seq<Record>)
    ensures |r| == |FindAll(ChapterMarker, s, 0)| + 1
  {
    var ms := FindAll(ChapterMarker, s, 0);
    var ps := Pieces(s, ms, 0);
    seq(|ps|, i requires 0 <= i < |ps| => Record(i + 1, "CHAPTER " + Pad2(i + 1), Strip(ps[i])))
  }

  /** The rows before sorting. */
  function FoundRows(s: seq<char>): seq<Record> {
    var ms := FindAll(MarkerLine, s, 0);
    if |ms| == 0 then FallbackRows(s) else MarkerRows(s, ms)
  }

  /** `load_chapters(txt)`, as the list of its rows. */
  function LoadChapters(s: seq<char>): (r: seq<Record>)
    ensures Sorted(r)
  {
    SortRecords(FoundRows(s))
  }

  // ---------------------------------------------------------------------
  // Properties.

  /** The rows are the rows found, sorted by chapter number; rows with the same
      number stay in the order of their markers in the text. */
  lemma {:induction false} LoadChaptersStable(s: seq<char>, k: nat)
    ensures multiset(LoadChapters(s)) == multiset(FoundRows(s))
    ensures Keep(k, LoadChapters(s)) == Keep(k, FoundRows(s))
  {
    SortStable(k, FoundRows(s));
  }

  /** One row per marker line; without marker lines, one more row than there are `[CHAPTER n]` prefixes. */
  lemma {:induction false} LoadChaptersCount(s: seq<char>)
    ensures var ms := FindAll(MarkerLine, s, 0);
      |LoadChapters(s)| == if |ms| > 0 then |ms| else |FindAll(ChapterMarker, s, 0)| + 1
  {
    var r := LoadChapters(s);
    assert |multiset(r)| == |multiset(FoundRows(s))|;
  }

  /** Every marker and every body comes out stripped. */
  lemma {:induction false} RowsTrimmed(s: seq<char>)
    ensures forall i :: 0 <= i < |LoadChapters(s)| ==> TrimmedRow(LoadChapters(s)[i])
  {
    FoundTrimmed(s);
    SortKeepsTrimmed(FoundRows(s));
  }

  predicate TrimmedRow(r: Record) { Trimmed(r.marker) && Trimmed(r.text) }

  lemma {:induction false} FoundTrimmed(s: seq<char>)
    ensures forall j :: 0 <= j < |FoundRows(s)| ==> TrimmedRow(FoundRows(s)[j])
  {
    var ms := FindAll(MarkerLine, s, 0);
    if |ms| == 0 {
      FallbackTrimmed(s);
    } else {
      MarkerTrimmed(s, ms);
    }
  }

  lemma {:induction false} FallbackTrimmed(s: seq<char>)
    ensures forall j :: 0 <= j < |FallbackRows(s)| ==> TrimmedRow(FallbackRows(s)[j])
  {
    var found := FallbackRows(s);
    forall j | 0 <= j < |found| ensures Trimmed(found[j].marker) {
      ChapterLabelTrimmed(j + 1);
    }
  }

  lemma {:induction false} ChapterLabelTrimmed(n: nat)
    ensures Trimmed("CHAPTER " + Pad2(n))
  {
    var t := "CHAPTER " + Pad2(n);
    assert t[0] == 'C' && IsDigit(t[|t| - 1]);
  }

  lemma {:induction false} MarkerTrimmed(s: seq<char>, ms: seq<Match>)
    requires IsScan(MarkerLine, s, 0, ms)
    ensures forall j :: 0 <= j < |ms| ==> TrimmedRow(MarkerRows(s, ms)[j])
  {
  }

  lemma {:induction false} SortKeepsTrimmed(rs: seq<Record>)
    requires forall j :: 0 <= j < |rs| ==> TrimmedRow(rs[j])
    ensures forall i :: 0 <= i < |SortRecords(rs)| ==> TrimmedRow(SortRecords(rs)[i])
  {
    var r := SortRecords(rs);
    forall i | 0 <= i < |r| ensures TrimmedRow(r[i]) {
      assert r[i] in multiset(rs);
    }
  }

  /** The fallback numbers its rows 1, 2, 3, ... in text order, so sorting
      leaves them in place. The text before the first `[CHAPTER n]` prefix is
      row 1 even when it is empty, and the chapter after the `j`-th prefix
      (from 0) is row `j + 2`, whatever number the prefix shows. */
  lemma {:induction false} FallbackNumbering(s: seq<char>)
    requires FindAll(MarkerLine, s, 0) == []
    ensures var ms := FindAll(ChapterMarker, s, 0);
      var ps := Pieces(s, ms, 0);
      var r := LoadChapters(s);
      && |r| == |ps|
      && forall i :: 0 <= i < |r| ==> r[i] == Record(i + 1, "CHAPTER " + Pad2(i + 1), Strip(ps[i]))
  {
    var found := FallbackRows(s);
    assert FoundRows(s) == found;
    assert Sorted(found) by { FallbackSorted(s); }
    assert LoadChapters(s) == found by { SortSorted(found); }
  }

  lemma {:induction false} FallbackSorted(s: seq<char>)
    ensures Sorted(FallbackRows(s))
  {
  }

  /** Marker path: the rows' bodies are the pieces `re.split` leaves between
      marker lines, and those pieces with the marker lines put back rebuild
      the text. */
  lemma {:induction false} MarkerRowsRejoin(s: seq<char>)
    requires FindAll(MarkerLine, s, 0) != []
    ensures var ms := FindAll(MarkerLine, s, 0);
      var ps := Pieces(s, ms, 0);
      && Interleave(ps, Matched(s, ms)) == s
      && forall k :: 0 <= k < |ms| ==> NonSpace(MarkerRows(s, ms)[k].text) == NonSpace(ps[k + 1])
  {
    var ms := FindAll(MarkerLine, s, 0);
    PiecesRejoin(s, ms, 0);
    var ps := Pieces(s, ms, 0);
    forall k | 0 <= k < |ms| ensures NonSpace(MarkerRows(s, ms)[k].text) == NonSpace(ps[k + 1]) {
      StripKeepsContent(ps[k + 1]);
    }
  }
}
