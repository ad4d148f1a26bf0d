/** Decimal numerals as the scripts print and read them: `int(token)` on a
    run of digits, `str(n)`, and the zero-padded `f"{n:02d}"` used by chapter
    labels, per-chapter file names and the fallback chapter markers. */
module Numerals {
  import opened Text

  predicate AllDigits(s: seq<char>) { forall i :: 0 <= i < |s| ==> IsDigit(s[i]) }

  function DigitChar(d: nat): (c: char)
    requires d < 10
    ensures IsDigit(c)
  {
    ('0' as int + d) as char
  }

  function DigitValue(c: char): (d: nat)
    requires IsDigit(c)
    ensures d < 10 && DigitChar(d) == c
  {
    c as int - '0' as int
  }

  /** `str(n)` for a non-negative integer: digits, no leading zero. */
  function Decimal(n: nat): (r: seq<char>)
    ensures |r| > 0 && AllDigits(r)
    ensures n >= 10 ==> r[0] != '0'
    ensures n < 10 <==> |r| == 1
  {
    if n < 10 then [DigitChar(n)] else Decimal(n / 10) + [DigitChar(n % 10)]
  }

  /** `f"{n:02d}"` for a non-negative integer. */
  function Pad2(n: nat): (r: seq<char>)
    ensures |r| >= 2 && AllDigits(r)
  {
    if n < 10 then "0" + Decimal(n) else Decimal(n)
  }

  /** `int(ds)` for a non-empty run of ASCII digits (leading zeros allowed). */
  function ParseDecimal(ds: seq<char>): nat
    requires AllDigits(ds)
    decreases |ds|
  {
    if |ds| == 0 then 0 else ParseDecimal(ds[..|ds| - 1]) * 10 + DigitValue(ds[|ds| - 1])
  }

  /** Reading back what `str(n)` wrote gives `n`. */
  lemma {:induction false} ParseDecimalOfDecimal(n: nat)
    ensures ParseDecimal(Decimal(n)) == n
  {
    if n >= 10 {
      var r := Decimal(n);
      assert r[..|r| - 1] == Decimal(n / 10);
      ParseDecimalOfDecimal(n / 10);
    }
  }

  /** A leading zero does not change the value read. */
  lemma {:induction false} ParseLeadingZero(ds: seq<char>)
    requires AllDigits(ds)
    ensures ParseDecimal("0" + ds) == ParseDecimal(ds)
    decreases |ds|
  {
    if |ds| == 0 {
      assert ("0" + ds)[..0] == [];
    } else {
      assert ("0" + ds)[..|ds|] == "0" + ds[..|ds| - 1];
      ParseLeadingZero(ds[..|ds| - 1]);
    }
  }

  /** Reading back a zero-padded number gives the number. */
  lemma {:induction false} ParsePad2(n: nat)
    ensures ParseDecimal(Pad2(n)) == n
  {
    ParseDecimalOfDecimal(n);
    if n < 10 { ParseLeadingZero(Decimal(n)); }
  }

  /** Distinct numbers never share a zero-padded rendering. */
  lemma {:induction false} Pad2Injective(a: nat, b: nat)
    requires Pad2(a) == Pad2(b)
    ensures a == b
  {
    ParsePad2(a);
    ParsePad2(b);
  }
}
