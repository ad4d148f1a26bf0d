/** `strip_gutenberg_footer` of the cleaner (scripts/clean_gutenberg.py):
    cut the text at the leftmost end-of-book banner, or failing that at the
    leftmost plain end-of-book phrase (`re.split(...)[0]` is the text before
    the first match), and strip what is left. */
module Footer {
  import opened Text
  import opened Options
  import opened Patterns
  import opened Scan

  /** Where the text is cut: the leftmost banner if there is one, else the
      leftmost phrase if there is one, else the end of the text. */
  function FooterCut(s: seq<char>): (c: nat)
    ensures c <= |s|
    ensures !NoMatchIn(FooterBanner, s, 0, |s| + 1) ==>
      MatchAt(FooterBanner, s, c).Some? && NoMatchIn(FooterBanner, s, 0, c)
    ensures NoMatchIn(FooterBanner, s, 0, |s| + 1) && !NoMatchIn(FooterPhrase, s, 0, |s| + 1) ==>
      MatchAt(FooterPhrase, s, c).Some? && NoMatchIn(FooterPhrase, s, 0, c)
    ensures NoMatchIn(FooterBanner, s, 0, |s| + 1) && NoMatchIn(FooterPhrase, s, 0, |s| + 1) ==> c == |s|
  {
    match Search(FooterBanner, s)
    case Some(m) => m.start
    case None =>
      match Search(FooterPhrase, s)
      case Some(m) => m.start
      case None => |s|
  }

  /** `strip_gutenberg_footer(s)`. */
  function StripFooter(s: seq<char>): (r: seq<char>)
    ensures |r| <= |s| && Trimmed(r)
  {
    Strip(s[..FooterCut(s)])
  }

  /** What is kept is the visible text up to the cut: the footer removal only
      ever drops a tail, never anything from the middle. */
  lemma {:induction false} StripFooterKeepsHead(s: seq<char>)
    ensures NonSpace(StripFooter(s)) == NonSpace(s[..FooterCut(s)])
    ensures IsPrefix(NonSpace(StripFooter(s)), NonSpace(s))
  {
    var c := FooterCut(s);
    var head := s[..c];
    StripKeepsContent(head);
    SplitAt(s, c);
    NonSpaceAppend(head, s[c..]);
    PrefixOfAppend(NonSpace(head), NonSpace(s[c..]));
  }

  /** Without banner or phrase the result is the stripped input, not the raw input. */
  lemma {:induction false} NoFooterStrips(s: seq<char>)
    requires NoMatchIn(FooterBanner, s, 0, |s| + 1) && NoMatchIn(FooterPhrase, s, 0, |s| + 1)
    ensures StripFooter(s) == Strip(s)
  {
    assert s[..|s|] == s;
  }

  /** A banner match starts with three asterisks, so text without '*' has no banner. */
  lemma {:induction false} NoStarsNoBanner(s: seq<char>)
    requires forall i :: 0 <= i < |s| ==> s[i] != '*'
    ensures NoMatchIn(FooterBanner, s, 0, |s| + 1)
  {
    forall q | 0 <= q <= |s| ensures MatchAt(FooterBanner, s, q).None? {
      if q < |s| {
        assert s[q + 0] != "***"[0];
      }
    }
  }

  /** A banner takes precedence over an earlier plain phrase: text with a banner is cut at the banner. */
  lemma {:induction false} BannerWins(s: seq<char>, q: nat)
    requires q <= |s| && MatchAt(FooterBanner, s, q).Some?
    ensures FooterCut(s) <= q && MatchAt(FooterBanner, s, FooterCut(s)).Some?
  {
  }
}
