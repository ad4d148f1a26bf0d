/** The per-chapter columns of the lemma builder (scripts/make_lemmas.py)
    that do not need a language model: the regex fallback for the lemma
    string, `" ".join(re.findall(r"[A-Za-z]+", text.lower()))`, and the word
    count, `len(text.split())`. */
module Tokens {
  import opened Text
  import opened Options
  import opened Patterns
  import opened Scan

  // ---------------------------------------------------------------------
  // Word count.

  /** Length of the run of non-whitespace characters at the front. */
  function WordLen(t: seq<char>): (n: nat)
    ensures n <= |t|
    ensures forall i :: 0 <= i < n ==> !IsSpace(t[i])
    ensures n == |t| || IsSpace(t[n])
    decreases |t|
  {
    if |t| == 0 || IsSpace(t[0]) then 0 else 1 + WordLen(t[1..])
  }

  /** `t.split()`: the maximal runs of non-whitespace characters, in order. */
  function Words(t: seq<char>): (r: seq<seq<char>>)
    ensures forall i :: 0 <= i < |r| ==> |r[i]| > 0 && NoSpaceIn(r[i])
    decreases |t|
  {
    if |t| == 0 then []
    else if IsSpace(t[0]) then Words(t[1..])
    else
      var n := WordLen(t);
      [t[..n]] + Words(t[n..])
  }

  predicate NoSpaceIn(w: seq<char>) { forall i :: 0 <= i < |w| ==> !IsSpace(w[i]) }

  /** `len(t.split())`. */
  function WordCount(t: seq<char>): nat {
    |Words(t)|
  }

  lemma {:induction false} NonSpaceOfWord(w: seq<char>)
    requires NoSpaceIn(w)
    ensures NonSpace(w) == w
    decreases |w|
  {
    if |w| > 0 {
      NonSpaceOfWord(w[1..]);
      assert w == [w[0]] + w[1..];
    }
  }

  /** The words hold exactly the visible characters of the text, in order. */
  lemma {:induction false} WordsContent(t: seq<char>)
    ensures Concat(Words(t)) == NonSpace(t)
    decreases |t|
  {
    if |t| > 0 {
      if IsSpace(t[0]) {
        WordsContent(t[1..]);
      } else {
        var n := WordLen(t);
        WordsContent(t[n..]);
        SplitAt(t, n);
        NonSpaceAppend(t[..n], t[n..]);
        NonSpaceOfWord(t[..n]);
        assert Words(t)[1..] == Words(t[n..]);
      }
    }
  }

  lemma {:induction false} NonSpaceEmpty(t: seq<char>)
    requires NonSpace(t) == []
    ensures AllSpace(t)
    decreases |t|
  {
    if |t| > 0 {
      assert IsSpace(t[0]);
      NonSpaceEmpty(t[1..]);
    }
  }

  /** A text has no words exactly when it is empty or all whitespace. */
  lemma {:induction false} WordCountZero(t: seq<char>)
    ensures WordCount(t) == 0 <==> AllSpace(t)
  {
    WordsContent(t);
    if AllSpace(t) {
      NonSpaceOfSpace(t);
      if |Words(t)| > 0 {
        assert false;
      }
    } else if WordCount(t) == 0 {
      NonSpaceEmpty(t);
    }
  }

  /** The word ends where a separator starts. */
  lemma {:induction false} WordLenAt(w: seq<char>, rest: seq<char>)
    requires |w| > 0 && NoSpaceIn(w)
    requires |rest| == 0 || IsSpace(rest[0])
    ensures WordLen(w + rest) == |w|
    decreases |w|
  {
    if |w| > 1 {
      assert (w + rest)[1..] == w[1..] + rest;
      WordLenAt(w[1..], rest);
    }
  }

  /** Splitting undoes joining with single spaces, for words without whitespace. */
  lemma {:induction false} WordsOfJoin(ws: seq<seq<char>>)
    requires forall i :: 0 <= i < |ws| ==> |ws[i]| > 0 && NoSpaceIn(ws[i])
    ensures Words(Join(" ", ws)) == ws
    decreases |ws|
  {
    if |ws| == 1 {
      WordLenAt(ws[0], []);
      assert ws[0] + [] == ws[0];
      assert ws[0][|ws[0]|..] == [];
    } else if |ws| > 1 {
      var w := ws[0];
      var j := Join(" ", ws[1..]);
      WordsOfJoin(ws[1..]);
      var t := w + " " + j;
      assert t == w + (" " + j);
      WordLenAt(w, " " + j);
      assert t[..|w|] == w;
      assert t[|w|..] == " " + j;
      assert (" " + j)[1..] == j;
    }
  }

  /** Whitespace in front of a text adds no word. */
  lemma {:induction false} WordsAfterSpace(sp: seq<char>, b: seq<char>)
    requires AllSpace(sp)
    ensures Words(sp + b) == Words(b)
    decreases |sp|
  {
    if |sp| == 0 {
      assert sp + b == b;
    } else {
      assert (sp + b)[0] == sp[0];
      assert (sp + b)[1..] == sp[1..] + b;
      WordsAfterSpace(sp[1..], b);
    }
  }

  lemma {:induction false} WordLenBeforeSpace(a: seq<char>, sp: seq<char>)
    requires AllSpace(sp)
    ensures WordLen(a + sp) == WordLen(a)
    decreases |a|
  {
    if |a| > 0 && !IsSpace(a[0]) {
      assert (a + sp)[1..] == a[1..] + sp;
      WordLenBeforeSpace(a[1..], sp);
    }
  }

  /** Whitespace after a text adds no word. */
  lemma {:induction false} WordsBeforeSpace(a: seq<char>, sp: seq<char>)
    requires AllSpace(sp)
    ensures Words(a + sp) == Words(a)
    decreases |a|
  {
    if |a| == 0 {
      assert a + sp == sp + [];
      WordsAfterSpace(sp, []);
    } else if IsSpace(a[0]) {
      assert (a + sp)[1..] == a[1..] + sp;
      WordsBeforeSpace(a[1..], sp);
    } else {
      var n := WordLen(a);
      WordLenBeforeSpace(a, sp);
      assert (a + sp)[..n] == a[..n];
      assert (a + sp)[n..] == a[n..] + sp;
      WordsBeforeSpace(a[n..], sp);
    }
  }

  /** Stripping keeps every word. */
  lemma {:induction false} WordsStrip(s: seq<char>)
    ensures Words(Strip(s)) == Words(s)
  {
    var lo, hi := StripSlice(s);
    assert s == s[..lo] + (s[lo..hi] + s[hi..]);
    WordsBeforeSpace(s[lo..hi], s[hi..]);
    WordsAfterSpace(s[..lo], s[lo..hi] + s[hi..]);
  }

  /** A visible character put in front of a text is a word of its own when
      the text starts with whitespace or is empty, and joins the first word
      otherwise. */
  lemma {:induction false} WordsCons(c: char, x: seq<char>)
    requires !IsSpace(c)
    ensures |x| == 0 || IsSpace(x[0]) ==> Words([c] + x) == [[c]] + Words(x)
    ensures |x| > 0 && !IsSpace(x[0]) ==>
      |Words(x)| > 0 && Words([c] + x) == [[c] + Words(x)[0]] + Words(x)[1..]
  {
    var t := [c] + x;
    assert t[1..] == x;
    var n := WordLen(x);
    assert WordLen(t) == 1 + n;
    assert t[..1 + n] == [c] + x[..n];
    assert t[1 + n..] == x[n..];
  }

  /** Replacing a leading whitespace run by one space keeps the words. */
  lemma {:induction false} SpaceStepWords(s: seq<char>, k: nat, rest: seq<char>)
    requires k <= |s| && AllSpace(s[..k]) && Words(rest) == Words(s[k..])
    ensures Words(" " + rest) == Words(s)
  {
    WordsAfterSpace(" ", rest);
    assert s == s[..k] + s[k..];
    WordsAfterSpace(s[..k], s[k..]);
  }

  /** Texts with the same words that agree on starting with a visible
      character keep the same words behind a visible character. */
  lemma {:induction false} VisibleStepWords(c: char, x: seq<char>, y: seq<char>)
    requires !IsSpace(c) && Words(x) == Words(y)
    requires (|x| > 0 && !IsSpace(x[0])) <==> (|y| > 0 && !IsSpace(y[0]))
    ensures Words([c] + x) == Words([c] + y)
  {
    WordsCons(c, x);
    WordsCons(c, y);
  }

  // ---------------------------------------------------------------------
  // Lemma strings without a language model.

  /** `re.findall(r"[A-Za-z]+", t.lower())`. */
  function LetterTokens(t: seq<char>): (r: seq<seq<char>>)
  {
    var u := Lower(t);
    Matched(u, FindAll(LetterRun, u, 0))
  }

  /** `" ".join(LetterTokens(t))`. */
  function LemmaString(t: seq<char>): seq<char> {
    Join(" ", LetterTokens(t))
  }

  /** The ASCII letters of a text, in order. */
  function Letters(s: seq<char>): (r: seq<char>)
    ensures forall i :: 0 <= i < |r| ==> IsLetter(r[i])
    decreases |s|
  {
    if |s| == 0 then [] else (if IsLetter(s[0]) then [s[0]] else []) + Letters(s[1..])
  }

  lemma {:induction false} LettersAppend(a: seq<char>, b: seq<char>)
    ensures Letters(a + b) == Letters(a) + Letters(b)
    decreases |a|
  {
    if |a| == 0 {
      assert a + b == b;
    } else {
      assert (a + b)[1..] == a[1..] + b;
      LettersAppend(a[1..], b);
    }
  }

  lemma {:induction false} LettersOfLetters(w: seq<char>)
    requires forall i :: 0 <= i < |w| ==> IsLetter(w[i])
    ensures Letters(w) == w
    decreases |w|
  {
    if |w| > 0 {
      LettersOfLetters(w[1..]);
      assert w == [w[0]] + w[1..];
    }
  }

  /** Every token is a non-empty run of lower-case letters. */
  lemma {:induction false} TokensLower(t: seq<char>)
    ensures forall i :: 0 <= i < |LetterTokens(t)| ==>
      |LetterTokens(t)[i]| > 0 && forall j :: 0 <= j < |LetterTokens(t)[i]| ==> IsLower(LetterTokens(t)[i][j])
  {
    var u := Lower(t);
    var ms := FindAll(LetterRun, u, 0);
    forall i | 0 <= i < |ms|
      ensures |u[ms[i].start..ms[i].end]| > 0
      ensures forall j :: 0 <= j < |u[ms[i].start..ms[i].end]| ==> IsLower(u[ms[i].start..ms[i].end][j])
    {
      RunLower(t, u, ms[i]);
    }
  }

  /** A run of letters in lower-cased text is a non-empty run of lower-case letters. */
  lemma {:induction false} RunLower(t: seq<char>, u: seq<char>, m: Match)
    requires u == Lower(t) && m.start <= |u| && MatchAt(LetterRun, u, m.start) == Some(m)
    ensures m.start < m.end <= |u|
    ensures forall j :: 0 <= j < |u[m.start..m.end]| ==> IsLower(u[m.start..m.end][j])
  {
    RunLetters(u, m.start, m);
    assert m.start < m.end by { assert LetterRunAt(u, m.start) == Some(m); }
    forall j | m.start <= j < m.end ensures IsLower(u[j]) {
      assert IsLetter(u[j]);
    }
  }

  /** The scan collects every letter from `from` on, and nothing else. */
  lemma {:induction false} ScanLetters(u: seq<char>, from: nat)
    requires from <= |u|
    ensures Concat(Matched(u, FindAll(LetterRun, u, from))) == Letters(u[from..])
    decreases |u| - from, 1
  {
    var r := MatchAt(LetterRun, u, from);
    if r.Some? {
      ScanLettersFrom(u, from, r.value);
    } else if from < |u| {
      ScanLetters(u, from + 1);
      ScanLettersSkip(u, from);
    } else {
      ScanLettersEnd(u);
    }
  }

  lemma {:induction false} ScanLettersFrom(u: seq<char>, from: nat, m: Match)
    requires from <= |u| && MatchAt(LetterRun, u, from) == Some(m)
    ensures Concat(Matched(u, FindAll(LetterRun, u, from))) == Letters(u[from..])
    decreases |u| - from, 0
  {
    RunLetters(u, from, m);
    ScanLetters(u, m.end);
    ScanLettersRun(u, from, m);
  }

  lemma {:induction false} ScanLettersEnd(u: seq<char>)
    ensures Concat(Matched(u, FindAll(LetterRun, u, |u|))) == Letters(u[|u|..])
  {
    FindAllAtEnd(LetterRun, u);
    assert u[|u|..] == [];
  }

  lemma {:induction false} ScanLettersRun(u: seq<char>, from: nat, m: Match)
    requires from <= |u| && MatchAt(LetterRun, u, from) == Some(m)
    requires Concat(Matched(u, FindAll(LetterRun, u, m.end))) == Letters(u[m.end..])
    ensures Concat(Matched(u, FindAll(LetterRun, u, from))) == Letters(u[from..])
  {
    var rest := FindAll(LetterRun, u, m.end);
    assert FindAll(LetterRun, u, from) == [m] + rest by { FindAllMatch(LetterRun, u, from, m); }
    RunLetters(u, from, m);
    RunStep(u, m, rest);
  }

  lemma {:induction false} RunLetters(u: seq<char>, from: nat, m: Match)
    requires from <= |u| && MatchAt(LetterRun, u, from) == Some(m)
    ensures m.start == from && from <= m.end <= |u|
    ensures forall i :: m.start <= i < m.end ==> IsLetter(u[i])
  {
    assert LetterRunAt(u, from) == Some(m);
  }

  /** One token followed by the tokens after it. */
  lemma {:induction false} RunStep(u: seq<char>, m: Match, rest: seq<Match>)
    requires m.start <= m.end <= |u|
    requires forall i :: m.start <= i < m.end ==> IsLetter(u[i])
    requires forall i :: 0 <= i < |rest| ==> rest[i].start <= rest[i].end <= |u|
    requires Concat(Matched(u, rest)) == Letters(u[m.end..])
    ensures Concat(Matched(u, [m] + rest)) == Letters(u[m.start..])
  {
    MatchedCons(u, m, rest);
    var tail := Matched(u, rest);
    ConcatCons(u[m.start..m.end], tail);
    LettersRun(u, m.start, m.end);
  }

  lemma {:induction false} MatchedCons(u: seq<char>, m: Match, rest: seq<Match>)
    requires m.start <= m.end <= |u|
    requires forall i :: 0 <= i < |rest| ==> rest[i].start <= rest[i].end <= |u|
    ensures Matched(u, [m] + rest) == [u[m.start..m.end]] + Matched(u, rest)
  {
  }

  lemma {:induction false} ConcatCons(w: seq<char>, xs: seq<seq<char>>)
    ensures Concat([w] + xs) == w + Concat(xs)
  {
    assert ([w] + xs)[1..] == xs;
  }

  /** Letters of a run of letters followed by anything. */
  lemma {:induction false} LettersRun(u: seq<char>, a: nat, b: nat)
    requires a <= b <= |u|
    requires forall i :: a <= i < b ==> IsLetter(u[i])
    ensures Letters(u[a..]) == u[a..b] + Letters(u[b..])
  {
    Rejoin2(u, a, b);
    LettersAppend(u[a..b], u[b..]);
    LettersOfLetters(u[a..b]);
  }

  lemma {:induction false} Rejoin2(u: seq<char>, a: nat, b: nat)
    requires a <= b <= |u|
    ensures u[a..] == u[a..b] + u[b..]
  {
  }

  lemma {:induction false} ScanLettersSkip(u: seq<char>, from: nat)
    requires from < |u| && MatchAt(LetterRun, u, from).None?
    requires Concat(Matched(u, FindAll(LetterRun, u, from + 1))) == Letters(u[from + 1..])
    ensures Concat(Matched(u, FindAll(LetterRun, u, from))) == Letters(u[from..])
  {
    assert FindAll(LetterRun, u, from) == FindAll(LetterRun, u, from + 1) by {
      FindAllSkip(LetterRun, u, from, from + 1);
    }
    assert Letters(u[from..]) == Letters(u[from + 1..]) by {
      NoRunAt(u, from);
      LettersSkip(u, from);
    }
  }

  /** No run starts at a character that is not a letter. */
  lemma {:induction false} NoRunAt(u: seq<char>, from: nat)
    requires from < |u| && MatchAt(LetterRun, u, from).None?
    ensures !IsLetter(u[from])
  {
  }

  /** A character that is not a letter contributes nothing. */
  lemma {:induction false} LettersSkip(u: seq<char>, from: nat)
    requires from < |u| && !IsLetter(u[from])
    ensures Letters(u[from..]) == Letters(u[from + 1..])
  {
    assert u[from..][1..] == u[from + 1..];
  }

  lemma {:induction false} LettersOfJoin(ws: seq<seq<char>>)
    ensures Letters(Join(" ", ws)) == Letters(Concat(ws))
    decreases |ws|
  {
    if |ws| == 1 {
      assert ws[1..] == [];
      assert Concat(ws) == ws[0] + Concat(ws[1..]);
      assert ws[0] + [] == ws[0];
    } else if |ws| > 1 {
      LettersOfJoin(ws[1..]);
      var j := Join(" ", ws[1..]);
      LettersAppend(ws[0] + " ", j);
      LettersAppend(ws[0], " ");
      LettersAppend(ws[0], Concat(ws[1..]));
    }
  }

  /** The fallback lemma string keeps every ASCII letter of the text, lower-cased and in order, and nothing else but spaces. */
  lemma {:induction false} LemmaStringLetters(t: seq<char>)
    ensures Letters(LemmaString(t)) == Letters(Lower(t))
  {
    var u := Lower(t);
    var ws := LetterTokens(t);
    assert ws == Matched(u, FindAll(LetterRun, u, 0));
    ScanAllLetters(u);
    LettersOfJoin(ws);
    LettersOfLetters(Letters(u));
  }

  lemma {:induction false} ScanAllLetters(u: seq<char>)
    ensures Concat(Matched(u, FindAll(LetterRun, u, 0))) == Letters(u)
  {
    ScanLetters(u, 0);
    assert u[0..] == u;
  }

  /** Splitting the lemma string on whitespace gives back the tokens, so its word count is the token count. */
  lemma {:induction false} LemmaStringWords(t: seq<char>)
    ensures Words(LemmaString(t)) == LetterTokens(t)
    ensures WordCount(LemmaString(t)) == |LetterTokens(t)|
  {
    TokensLower(t);
    var ws := LetterTokens(t);
    forall i | 0 <= i < |ws| ensures NoSpaceIn(ws[i]) {
      assert forall j :: 0 <= j < |ws[i]| ==> IsLower(ws[i][j]);
    }
    WordsOfJoin(ws);
  }

  /** Lower-case letters, with single spaces only between two of them. */
  predicate LemmaShaped(r: seq<char>) {
    forall i :: 0 <= i < |r| ==> ShapedChar(r, i)
  }

  predicate ShapedChar(r: seq<char>, i: nat)
    requires i < |r|
  {
    IsLower(r[i]) || (0 < i < |r| - 1 && r[i] == ' ' && IsLower(r[i - 1]) && IsLower(r[i + 1]))
  }

  predicate AllLower(w: seq<char>) { forall i :: 0 <= i < |w| ==> IsLower(w[i]) }

  /** The lemma string holds only `a-z` and single separating spaces, with
      no space at either end. */
  lemma {:induction false} LemmaStringShape(t: seq<char>)
    ensures LemmaShaped(LemmaString(t))
  {
    TokensLower(t);
    var ws := LetterTokens(t);
    forall i | 0 <= i < |ws| ensures |ws[i]| > 0 && AllLower(ws[i]) {
    }
    JoinShaped(ws);
  }

  lemma {:induction false} JoinShaped(ws: seq<seq<char>>)
    requires forall i :: 0 <= i < |ws| ==> |ws[i]| > 0 && AllLower(ws[i])
    ensures LemmaShaped(Join(" ", ws))
    ensures |ws| > 0 ==> |Join(" ", ws)| > 0
    decreases |ws|
  {
    if |ws| == 1 {
      assert Join(" ", ws) == ws[0];
    } else if |ws| > 1 {
      var a, b := ws[0], Join(" ", ws[1..]);
      JoinShaped(ws[1..]);
      assert Join(" ", ws) == a + " " + b;
      JoinStep(a, b);
    }
  }

  lemma {:induction false} JoinStep(a: seq<char>, b: seq<char>)
    requires |a| > 0 && AllLower(a) && |b| > 0 && LemmaShaped(b)
    ensures LemmaShaped(a + " " + b)
  {
    var r := a + " " + b;
    assert IsLower(b[0]) by { ShapedAt(b, 0); }
    forall i | 0 <= i < |r| ensures ShapedChar(r, i) {
      if i < |a| {
        assert r[i] == a[i];
      } else if i == |a| {
        assert r[i - 1] == a[|a| - 1] && r[i + 1] == b[0];
      } else {
        var j := i - |a| - 1;
        assert r[i] == b[j];
        ShapedAt(b, j);
        if 0 < j < |b| - 1 { assert r[i - 1] == b[j - 1] && r[i + 1] == b[j + 1]; }
      }
    }
  }

  lemma {:induction false} ShapedAt(r: seq<char>, i: nat)
    requires LemmaShaped(r) && i < |r|
    ensures IsLower(r[i]) || (0 < i < |r| - 1 && r[i] == ' ' && IsLower(r[i - 1]) && IsLower(r[i + 1]))
  {
    assert ShapedChar(r, i);
  }
}
