/** Hand-written recognisers for the regular expressions of the two scripts.
    Each recogniser answers the question `re` asks at one position: does the
    pattern match starting exactly at `p`, and if so where does the match end
    and where is its capture group. Greedy quantifiers followed by a test
    that fails are resolved the way the regex engine's backtracking resolves
    them (see the comment on each recogniser). */
module Patterns {
  import opened Text
  import opened Options

  /** A capture group, `s[lo..hi]`. */
  datatype Span = Span(lo: nat, hi: nat)

  /** A match object: `m.start()`, `m.end()` and `m.group(1)` when the pattern has a group. */
  datatype Match = Match(start: nat, end: nat, group: Option<Span>)

  datatype Pattern =
    | HeadingStrict   // (?m)^\s*CHAPTER\s+([IVXLCDM]+|\d+)\b[^\n]*                 clean_gutenberg.py:72
    | HeadingLiberal  // (?mi)^\s*(?:/Chapter\s+|Chapter\s+|CHAPTER\s+)\s*([IVXLCDM]+|\d+)\b[^\n]*   :78
    | HeadingAny      // (?mi)^\s*(?:/Chapter|Chapter|CHAPTER)\b[^\n]*                 :84
    | FooterBanner    // (?is)\*\*\*\s*END OF (THIS|THE) PROJECT GUTENBERG EBOOK.*\*\*\*   :127
    | FooterPhrase    // (?i)End of the Project Gutenberg EBook                        :131
    | ChapterNumber   // (?i)CHAPTER\s+(\d+)                     :142, make_lemmas.py:36
    | MarkerLine      // (?mi)^\[(PREFACE|CHAPTER\s+\d+|FULL_TEXT)\]\s*$     make_lemmas.py:26
    | ChapterMarker   // (?m)^\[CHAPTER\s+\d+\]                              make_lemmas.py:28
    | LetterRun       // [A-Za-z]+                                           make_lemmas.py:64

  /** Character classes that the recognisers take runs of. */
  datatype CharKind = Digit | RomanUpper | RomanAnyCase | Letter

  predicate IsRomanSymbol(c: char) {
    c == 'I' || c == 'V' || c == 'X' || c == 'L' || c == 'C' || c == 'D' || c == 'M'
  }

  predicate InKind(k: CharKind, c: char) {
    match k
    case Digit => IsDigit(c)
    case RomanUpper => IsRomanSymbol(c)
    case RomanAnyCase => IsRomanSymbol(ToUpper(c))
    case Letter => IsLetter(c)
  }

  /** Length of the maximal run of `k` characters starting at `p`. */
  function KindRun(s: seq<char>, p: nat, k: CharKind): (n: nat)
    requires p <= |s|
    ensures p + n <= |s|
    ensures p + n == |s| || !InKind(k, s[p + n])
    decreases |s| - p
  {
    if p == |s| || !InKind(k, s[p]) then 0 else 1 + KindRun(s, p + 1, k)
  }

  /** Every character of the run is of the kind. */
  lemma {:induction false} KindRunAll(s: seq<char>, p: nat, k: CharKind)
    requires p <= |s|
    ensures forall i :: p <= i < p + KindRun(s, p, k) ==> InKind(k, s[i])
    decreases |s| - p
  {
    if p < |s| && InKind(k, s[p]) { KindRunAll(s, p + 1, k); }
  }

  /** `^` under MULTILINE. */
  predicate LineStart(s: seq<char>, p: nat) {
    p == 0 || (0 < p <= |s| && s[p - 1] == '\n')
  }

  /** `\b` at `q` right after a word character. */
  predicate WordEnd(s: seq<char>, q: nat) {
    q >= |s| || !IsWordChar(s[q])
  }

  /** A match object that lies inside `s` and starts at `p`. */
  predicate Fits(s: seq<char>, p: nat, m: Match) {
    && m.start == p
    && p < m.end <= |s|
    && (m.group.Some? ==> p <= m.group.value.lo < m.group.value.hi <= m.end)
  }

  /** The chapter-heading patterns. `\s*` at the line start is greedy and the
      next token never starts with whitespace, so it takes the whole
      whitespace run, newlines included: a match may begin at the first of
      several blank lines. The same holds for `\s+` after the keyword. The
      Roman alternative is tried first; if its maximal run is not followed by
      a word boundary no shorter run is either, and the digit alternative
      cannot start on a letter, so there is no match. `[^\n]*` runs to the
      end of the line. */
  function HeadingAt(pat: Pattern, s: seq<char>, p: nat): (r: Option<Match>)
    requires pat == HeadingStrict || pat == HeadingLiberal || pat == HeadingAny
    requires p <= |s|
    ensures r.Some? ==> Fits(s, p, r.value) && LineStart(s, p)
    ensures r.Some? ==> (r.value.end == |s| || s[r.value.end] == '\n')
    ensures r.Some? ==> (pat == HeadingAny <==> r.value.group.None?)
    ensures r.Some? && r.value.group.Some? ==>
      var g := r.value.group.value;
      (forall i :: g.lo <= i < g.hi ==> IsWordChar(s[i])) && WordEnd(s, g.hi)
  {
    if !LineStart(s, p) then None
    else
      var ignoreCase := pat != HeadingStrict;
      match KeywordEnd(s, p, ignoreCase)
      case None => None
      case Some(kEnd) =>
        if pat == HeadingAny then
          if kEnd < |s| && IsWordChar(s[kEnd]) then None
          else Some(Match(p, FindChar(s, kEnd, '\n'), None))
        else
          match NumberToken(s, kEnd, ignoreCase)
          case None => None
          case Some(g) => Some(Match(p, FindChar(s, g.hi, '\n'), Some(g)))
  }

  /** `\s*CHAPTER` from `p` (also `/Chapter` when case is ignored): where the keyword ends. */
  function KeywordEnd(s: seq<char>, p: nat, ignoreCase: bool): (r: Option<nat>)
    requires p <= |s|
    ensures r.Some? ==> p + 7 <= r.value <= |s| && LiteralAt(s, r.value - 7, "CHAPTER", ignoreCase)
  {
    var q := p + SpaceRun(s, p);
    var k := if ignoreCase && q < |s| && s[q] == '/' then q + 1 else q;
    if LiteralAt(s, k, "CHAPTER", ignoreCase) then Some(k + 7) else None
  }

  /** `\s+([IVXLCDM]+|\d+)\b` from `kEnd`: the number token after the keyword. */
  function NumberToken(s: seq<char>, kEnd: nat, ignoreCase: bool): (r: Option<Span>)
    requires kEnd <= |s|
    ensures r.Some? ==> kEnd < r.value.lo < r.value.hi <= |s| && IsSpace(s[kEnd])
    ensures r.Some? ==> (forall i :: r.value.lo <= i < r.value.hi ==> IsWordChar(s[i])) && WordEnd(s, r.value.hi)
  {
    var w := SpaceRun(s, kEnd);
    var g := kEnd + w;
    var n := TokenRun(s, g, ignoreCase);
    if w == 0 || n == 0 || !WordEnd(s, g + n) then None
    else
      assert s[kEnd..g][0] == s[kEnd];
      Some(Span(g, g + n))
  }

  /** `[IVXLCDM]+|\d+` at `g`: the Roman alternative is tried first. */
  function TokenRun(s: seq<char>, g: nat, ignoreCase: bool): (n: nat)
    requires g <= |s|
    ensures g + n <= |s|
    ensures forall i :: g <= i < g + n ==> IsWordChar(s[i])
  {
    var k := if ignoreCase then RomanAnyCase else RomanUpper;
    var roman := KindRun(s, g, k);
    KindRunAll(s, g, k);
    KindRunAll(s, g, Digit);
    if roman > 0 then roman else KindRun(s, g, Digit)
  }

  /** Largest `z` in `[lo, hi]` with "***" at `z`, searching down from `hi`. */
  function LastStars(s: seq<char>, lo: nat, hi: nat): (r: Option<nat>)
    ensures r.Some? ==> lo <= r.value <= hi && LiteralAt(s, r.value, "***", false)
    ensures r.Some? ==> forall z :: r.value < z <= hi ==> !LiteralAt(s, z, "***", false)
    ensures r.None? ==> forall z :: lo <= z <= hi ==> !LiteralAt(s, z, "***", false)
    decreases hi
  {
    if hi < lo then None
    else if LiteralAt(s, hi, "***", false) then Some(hi)
    else if hi == 0 then None
    else LastStars(s, lo, hi - 1)
  }

  /** `\*\*\*\s*END OF (THIS|THE) PROJECT GUTENBERG EBOOK.*\*\*\*` with IGNORECASE and
      DOTALL. `\s*` takes the whole whitespace run (the next token starts
      with a letter); THIS and THE cannot both fit; the greedy `.*` backs off
      from the end of the text to the last "***". */
  function FooterBannerAt(s: seq<char>, p: nat): (r: Option<Match>)
    requires p <= |s|
    ensures r.Some? ==> Fits(s, p, r.value) && r.value.group.None?
    ensures r.Some? ==> LiteralAt(s, p, "***", false)
    ensures r.Some? ==> r.value.end >= p + 6 && LiteralAt(s, r.value.end - 3, "***", false)
  {
    if !LiteralAt(s, p, "***", false) then None
    else
      var q := p + 3 + SpaceRun(s, p + 3);
      if !LiteralAt(s, q, "END OF ", true) then None
      else
        var t := q + 7;
        var x := if LiteralAt(s, t, "THIS", true) then t + 4
                 else if LiteralAt(s, t, "THE", true) then t + 3
                 else 0;
        if x == 0 || !LiteralAt(s, x, " PROJECT GUTENBERG EBOOK", true) then None
        else
          var y := x + 24;
          if |s| < 3 then None
          else
            match LastStars(s, y, |s| - 3)
            case None => None
            case Some(z) => Some(Match(p, z + 3, None))
  }

  /** A literal, optionally ignoring case. */
  function LiteralMatch(s: seq<char>, p: nat, lit: seq<char>, ignoreCase: bool): (r: Option<Match>)
    requires |lit| > 0
    ensures r.Some? <==> LiteralAt(s, p, lit, ignoreCase)
    ensures r.Some? ==> r.value == Match(p, p + |lit|, None)
  {
    if LiteralAt(s, p, lit, ignoreCase) then Some(Match(p, p + |lit|, None)) else None
  }

  /** `CHAPTER\s+(\d+)` with IGNORECASE, unanchored: both runs are greedy and
      nothing follows the digits. */
  function ChapterNumberAt(s: seq<char>, p: nat): (r: Option<Match>)
    requires p <= |s|
    ensures r.Some? ==> Fits(s, p, r.value) && r.value.group.Some?
    ensures r.Some? ==> LiteralAt(s, p, "CHAPTER", true)
    ensures r.Some? ==> var g := r.value.group.value;
      g.hi == r.value.end && (forall i :: g.lo <= i < g.hi ==> IsDigit(s[i]))
      && (g.hi == |s| || !IsDigit(s[g.hi]))
      && p + 7 < g.lo && AllSpace(s[p + 7..g.lo])
  {
    if !LiteralAt(s, p, "CHAPTER", true) then None
    else
      var w := SpaceRun(s, p + 7);
      var g := p + 7 + w;
      var n := KindRun(s, g, Digit);
      if w == 0 || n == 0 then None
      else
        KindRunAll(s, g, Digit);
        Some(Match(p, g + n, Some(Span(g, g + n))))
  }

  /** End of the name inside a marker line `[name]` whose `[` is at `p`, if the name is one of the three. */
  function MarkerNameEnd(s: seq<char>, p: nat): (r: Option<nat>)
    requires p < |s|
    ensures r.Some? ==> p + 1 < r.value <= |s|
  {
    if LiteralAt(s, p + 1, "PREFACE", true) then Some(p + 8)
    else if LiteralAt(s, p + 1, "FULL_TEXT", true) then Some(p + 10)
    else if LiteralAt(s, p + 1, "CHAPTER", true) then
      var w := SpaceRun(s, p + 8);
      var n := KindRun(s, p + 8 + w, Digit);
      if w == 0 || n == 0 then None else Some(p + 8 + w + n)
    else None
  }

  /** Index of the last newline in `s[lo..hi]`, if any. */
  function LastNewline(s: seq<char>, lo: nat, hi: nat): (r: Option<nat>)
    requires lo <= hi <= |s|
    ensures r.Some? ==> lo <= r.value < hi && s[r.value] == '\n'
    ensures r.Some? ==> forall i :: r.value < i < hi ==> s[i] != '\n'
    ensures r.None? ==> forall i :: lo <= i < hi ==> s[i] != '\n'
    decreases hi - lo
  {
    if hi == lo then None
    else if s[hi - 1] == '\n' then Some(hi - 1)
    else LastNewline(s, lo, hi - 1)
  }

  /** Where `\s*$` (MULTILINE) leaves off when it starts at `q`. The greedy
      `\s*` takes the whole whitespace run and then gives characters back
      until `$` holds: at the end of the text if the run reaches it,
      otherwise just before the last newline of the run; a run without a
      newline that stops at another character fails. */
  function LineTailEnd(s: seq<char>, q: nat): (r: Option<nat>)
    requires q <= |s|
    ensures r.Some? ==> q <= r.value <= |s| && AllSpace(s[q..r.value])
    ensures r.Some? ==> r.value == |s| || s[r.value] == '\n'
  {
    var e := q + SpaceRun(s, q);
    if e == |s| then Some(e)
    else
      match LastNewline(s, q, e)
      case None => None
      case Some(z) =>
        assert s[q..z] == s[q..e][..z - q];
        Some(z)
  }

  /** `^\[(PREFACE|CHAPTER\s+\d+|FULL_TEXT)\]\s*$` with MULTILINE and IGNORECASE. */
  function MarkerLineAt(s: seq<char>, p: nat): (r: Option<Match>)
    requires p <= |s|
    ensures r.Some? ==> Fits(s, p, r.value) && LineStart(s, p) && s[p] == '['
    ensures r.Some? ==> r.value.group.Some? && r.value.group.value.lo == p + 1
    ensures r.Some? ==> var ne := r.value.group.value.hi;
      && ne < |s| && s[ne] == ']' && ne < r.value.end && AllSpace(s[ne + 1..r.value.end])
      && (r.value.end == |s| || s[r.value.end] == '\n')
  {
    if !LineStart(s, p) || p == |s| || s[p] != '[' then None
    else
      match MarkerNameEnd(s, p)
      case None => None
      case Some(ne) => MarkerLineAfter(s, p, ne)
  }

  /** The rest of a marker line once its name ends at `ne`: `\]\s*$`. */
  function MarkerLineAfter(s: seq<char>, p: nat, ne: nat): (r: Option<Match>)
    requires p < ne <= |s|
    ensures r.Some? ==> r.value.start == p && r.value.group == Some(Span(p + 1, ne))
    ensures r.Some? ==> ne < |s| && s[ne] == ']' && ne < r.value.end <= |s|
    ensures r.Some? ==> AllSpace(s[ne + 1..r.value.end]) && (r.value.end == |s| || s[r.value.end] == '\n')
  {
    if ne == |s| || s[ne] != ']' then None
    else
      match LineTailEnd(s, ne + 1)
      case None => None
      case Some(e) => Some(Match(p, e, Some(Span(p + 1, ne))))
  }

  /** `^\[CHAPTER\s+\d+\]` with MULTILINE, case-sensitive. */
  function ChapterMarkerAt(s: seq<char>, p: nat): (r: Option<Match>)
    requires p <= |s|
    ensures r.Some? ==> Fits(s, p, r.value) && r.value.group.None? && LineStart(s, p)
    ensures r.Some? ==> LiteralAt(s, p, "[CHAPTER", false) && s[r.value.end - 1] == ']'
  {
    if !LineStart(s, p) || !LiteralAt(s, p, "[CHAPTER", false) then None
    else
      var w := SpaceRun(s, p + 8);
      var n := KindRun(s, p + 8 + w, Digit);
      var c := p + 8 + w + n;
      if w == 0 || n == 0 || c == |s| || s[c] != ']' then None
      else Some(Match(p, c + 1, None))
  }

  /** `[A-Za-z]+`: the greedy run of ASCII letters from `p`. */
  function LetterRunAt(s: seq<char>, p: nat): (r: Option<Match>)
    requires p <= |s|
    ensures r.Some? <==> (p < |s| && IsLetter(s[p]))
    ensures r.Some? ==> Fits(s, p, r.value) && r.value.group.None?
    ensures r.Some? ==>
      && (forall i :: p <= i < r.value.end ==> IsLetter(s[i]))
      && (r.value.end == |s| || !IsLetter(s[r.value.end]))
  {
    var n := KindRun(s, p, Letter);
    KindRunAll(s, p, Letter);
    if n == 0 then None else Some(Match(p, p + n, None))
  }

  /** The match of `pat` that starts exactly at `p`, if there is one. */
  function MatchAt(pat: Pattern, s: seq<char>, p: nat): (r: Option<Match>)
    requires p <= |s|
    ensures r.Some? ==> Fits(s, p, r.value)
  {
    match pat
    case HeadingStrict => HeadingAt(pat, s, p)
    case HeadingLiberal => HeadingAt(pat, s, p)
    case HeadingAny => HeadingAt(pat, s, p)
    case FooterBanner => FooterBannerAt(s, p)
    case FooterPhrase => LiteralMatch(s, p, "End of the Project Gutenberg EBook", true)
    case ChapterNumber => ChapterNumberAt(s, p)
    case MarkerLine => MarkerLineAt(s, p)
    case ChapterMarker => ChapterMarkerAt(s, p)
    case LetterRun => LetterRunAt(s, p)
  }
}
