/** `roman_to_int` of the cleaner (scripts/clean_gutenberg.py): the text is
    upper-cased and stripped, then read from the right; a symbol is
    subtracted when it is worth less than the symbol immediately to its
    right, otherwise added. Characters that are not Roman symbols are worth 0. */
module Roman {
  import opened Text

  /** `roman_map.get(ch, 0)`. */
  function SymbolValue(c: char): nat {
    match c
    case 'I' => 1
    case 'V' => 5
    case 'X' => 10
    case 'L' => 50
    case 'C' => 100
    case 'D' => 500
    case 'M' => 1000
    case _ => 0
  }

  /** The values `prev` can hold during the scan. */
  predicate IsSymbolValue(v: nat) {
    v == 0 || v == 1 || v == 5 || v == 10 || v == 50 || v == 100 || v == 500 || v == 1000
  }

  /** The loop over `reversed(s)`: `prev` is the value of the symbol just right of `s`. */
  function ScanFromRight(s: seq<char>, prev: nat): int
    decreases |s|
  {
    if |s| == 0 then 0
    else
      var curr := SymbolValue(s[|s| - 1]);
      (if curr < prev then -(curr as int) else curr) + ScanFromRight(s[..|s| - 1], curr)
  }

  /** Reference reading, left to right: the sign of the symbol at `i` is decided by its right neighbour. */
  function Contribution(s: seq<char>, i: nat): int
    requires i < |s|
  {
    var v := SymbolValue(s[i]);
    if i + 1 < |s| && v < SymbolValue(s[i + 1]) then -(v as int) else v
  }

  function NeighbourSum(s: seq<char>): int
    decreases |s|
  {
    if |s| == 0 then 0 else Contribution(s, 0) + NeighbourSum(s[1..])
  }

  /** Sum of the symbol values strictly below `p`: the most a chain of subtractions ending before `p` can remove. */
  function Below(p: nat): nat {
    if p <= 1 then 0
    else if p <= 5 then 1
    else if p <= 10 then 6
    else if p <= 50 then 16
    else if p <= 100 then 66
    else if p <= 500 then 166
    else if p <= 1000 then 666
    else 1666
  }

  /** `roman_to_int(s)`. */
  function RomanToInt(s: seq<char>): (r: int)
    ensures r >= 0
    ensures r == NeighbourSum(Strip(Upper(s)))
  {
    var u := Strip(Upper(s));
    ScanBound(u, 0);
    ScanIsNeighbourSum(u);
    ScanFromRight(u, 0)
  }

  /** The scan never goes below minus the sum of the symbols smaller than `prev`. */
  lemma {:induction false} ScanBound(s: seq<char>, prev: nat)
    requires IsSymbolValue(prev)
    ensures ScanFromRight(s, prev) >= -(Below(prev) as int)
    decreases |s|
  {
    if |s| > 0 {
      var curr := SymbolValue(s[|s| - 1]);
      ScanBound(s[..|s| - 1], curr);
    }
  }

  /** Peeling the leftmost symbol off the right-to-left scan. */
  lemma {:induction false} ScanPeelLeft(s: seq<char>, prev: nat)
    requires |s| > 0
    ensures ScanFromRight(s, prev) ==
      (var v := SymbolValue(s[0]);
       var right := if |s| > 1 then SymbolValue(s[1]) else prev;
       if v < right then -(v as int) else v) + ScanFromRight(s[1..], prev)
    decreases |s|
  {
    if |s| > 1 {
      var init := s[..|s| - 1];
      var curr := SymbolValue(s[|s| - 1]);
      ScanPeelLeft(init, curr);
      assert init[0] == s[0];
      assert |init| > 1 ==> init[1] == s[1];
      assert init[1..] == s[1..][..|s| - 2];
      assert s[1..][|s| - 2] == s[|s| - 1];
    } else {
      assert s[..0] == [] && s[1..] == [];
    }
  }

  /** The source's right-to-left loop agrees with the left-to-right neighbour reading. */
  lemma {:induction false} ScanIsNeighbourSum(s: seq<char>)
    ensures ScanFromRight(s, 0) == NeighbourSum(s)
    decreases |s|
  {
    if |s| > 0 {
      ScanPeelLeft(s, 0);
      ScanIsNeighbourSum(s[1..]);
    }
  }

  /** The decodings the cleaner relies on for chapter headings. */
  lemma {:induction false} RomanExamples()
    ensures RomanToInt("XIV") == 14
    ensures RomanToInt("IX") == 9
    ensures RomanToInt("III") == 3
    ensures RomanToInt("MCMXCIX") == 1999
    ensures RomanToInt("") == 0
  {
    RomanXIV();
    RomanIX();
    RomanIII();
    RomanMCMXCIX();
    assert Strip(Upper("")) == [];
  }

  lemma {:induction false} RomanXIV() ensures RomanToInt("XIV") == 14 {
    PlainNumeral("XIV");
    Sum2("IV"); Sum3("XIV");
  }

  lemma {:induction false} RomanIX() ensures RomanToInt("IX") == 9 {
    PlainNumeral("IX");
    Sum2("IX");
  }

  lemma {:induction false} RomanIII() ensures RomanToInt("III") == 3 {
    PlainNumeral("III");
    Sum2("II"); Sum3("III");
  }

  lemma {:induction false} RomanMCMXCIX() ensures RomanToInt("MCMXCIX") == 1999 {
    PlainNumeral("MCMXCIX");
    SumMCMXCIX();
  }

  lemma {:induction false} SumMCMXCIX() ensures NeighbourSum("MCMXCIX") == 1999 {
    SumXCIX();
    Sum3("MXCIX"); Sum3("CMXCIX"); Sum3("MCMXCIX");
  }

  lemma {:induction false} SumXCIX() ensures NeighbourSum("XCIX") == 99 {
    Sum2("IX"); Sum3("CIX"); Sum3("XCIX");
  }

  /** One unfolding of the reference sum on a short literal. */
  lemma {:induction false} Sum3(s: seq<char>)
    requires |s| >= 2
    ensures NeighbourSum(s) == Contribution(s, 0) + NeighbourSum(s[1..])
  {
  }

  lemma {:induction false} Sum2(s: seq<char>)
    requires |s| == 2
    ensures NeighbourSum(s) == Contribution(s, 0) + SymbolValue(s[1])
  {
    assert NeighbourSum(s[1..]) == Contribution(s[1..], 0) + NeighbourSum(s[2..]);
  }

  /** Case and surrounding whitespace do not matter: "xiv" and " XIV " read as 14. */
  lemma {:induction false} RomanCaseAndSpace()
    ensures RomanToInt("xiv") == 14
    ensures RomanToInt(" XIV ") == 14
  {
    RomanLowerCase();
    RomanPadded();
  }

  lemma {:induction false} RomanLowerCase() ensures RomanToInt("xiv") == 14 {
    RomanXIV();
    assert Upper("xiv") == "XIV";
  }

  lemma {:induction false} RomanPadded() ensures RomanToInt(" XIV ") == 14 {
    RomanXIV();
    assert Strip(Upper(" XIV ")) == Strip(Upper("XIV")) by {
      PaddedUpper();
      StripFrame(" ", "XIV", " ");
      PlainNumeral("XIV");
    }
  }

  lemma {:induction false} PaddedUpper() ensures Upper(" XIV ") == " " + "XIV" + " " {
  }

  /** Each symbol is compared with its right neighbour, not with the largest
      symbol seen so far: "IIX" reads as 10 (a running-maximum reading gives 8),
      and a non-symbol between two symbols breaks the pair: "I V" reads as 6. */
  lemma {:induction false} RomanNeighbourRule()
    ensures RomanToInt("IIX") == 10
    ensures RomanToInt("I V") == 6
  {
    PlainNumeral("IIX");
    assert Upper("I V") == "I V";
    StripTrimmed("I V");
  }

  lemma {:induction false} PlainNumeral(s: seq<char>)
    requires Trimmed(s) && forall i :: 0 <= i < |s| ==> IsUpper(s[i])
    ensures RomanToInt(s) == NeighbourSum(s)
  {
    assert Upper(s) == s;
    StripTrimmed(s);
  }
}
