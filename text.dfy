/** Characters and decimal numerals, as Python's str() and format() write them. */
module Text {

  predicate IsDigit(c: char) {
    '0' <= c <= '9'
  }

  predicate AllDigits(s: string) {
    forall i :: 0 <= i < |s| ==> IsDigit(s[i])
  }

  function DigitChar(d: nat): (c: char)
    requires d < 10
    ensures IsDigit(c)
  {
    ['0', '1', '2', '3', '4', '5', '6', '7', '8', '9'][d]
  }

  function DigitValue(c: char): (d: nat)
    requires IsDigit(c)
    ensures d < 10
  {
    (c as int - '0' as int) as nat
  }

  /** The value of a string of decimal digits, as Python's int() reads it. */
  function Value(s: string): nat
    requires AllDigits(s)
  {
    if s == [] then 0 else Value(s[..|s| - 1]) * 10 + DigitValue(s[|s| - 1])
  }

  /** str(n) for a non-negative integer: no leading zeros. */
  function Decimal(n: nat): (s: string)
    ensures 1 <= |s| && AllDigits(s)
    ensures n >= 10 ==> s[0] != '0'
    decreases n
  {
    if n < 10 then [DigitChar(n)] else Decimal(n / 10) + [DigitChar(n % 10)]
  }

  /** `w` zeros. */
  function Zeros(w: nat): (s: string)
    ensures |s| == w && AllDigits(s)
  {
    seq(w, _ => '0')
  }

  /** format(n, '010'): n written in decimal, zero-padded on the left to ten characters. */
  function Pad10(n: nat): (s: string)
    ensures AllDigits(s) && |s| >= 10
  {
    var d := Decimal(n);
    if |d| >= 10 then d else Zeros(10 - |d|) + d
  }

  /** The last `w` decimal digits of `n`, zero-padded: strftime's %02d-style fields. */
  function Fixed(n: nat, w: nat): (s: string)
    ensures |s| == w && AllDigits(s)
  {
    if w == 0 then [] else Fixed(n / 10, w - 1) + [DigitChar(n % 10)]
  }

  lemma {:induction false} ValueOfDecimal(n: nat)
    ensures Value(Decimal(n)) == n
    decreases n
  {
    var d := Decimal(n);
    if n >= 10 {
      ValueOfDecimal(n / 10);
      assert d[..|d| - 1] == Decimal(n / 10);
    }
  }

  lemma {:induction false} ValueOfZeros(w: nat)
    ensures Value(Zeros(w)) == 0
  {
    if w > 0 {
      assert Zeros(w)[..w - 1] == Zeros(w - 1);
      ValueOfZeros(w - 1);
    }
  }

  lemma {:induction false} LeadingZerosIgnored(w: nat, s: string)
    requires AllDigits(s)
    ensures AllDigits(Zeros(w) + s) && Value(Zeros(w) + s) == Value(s)
    decreases |s|
  {
    var t := Zeros(w) + s;
    if s == [] {
      assert t == Zeros(w);
      ValueOfZeros(w);
    } else {
      assert t[..|t| - 1] == Zeros(w) + s[..|s| - 1];
      LeadingZerosIgnored(w, s[..|s| - 1]);
    }
  }

  /** int() reads back what the '010' format wrote. */
  lemma {:induction false} Pad10RoundTrip(n: nat)
    ensures Value(Pad10(n)) == n
  {
    var d := Decimal(n);
    ValueOfDecimal(n);
    if |d| < 10 {
      LeadingZerosIgnored(10 - |d|, d);
    }
  }

  /** Python's `needle in haystack` for strings. */
  predicate Contains(haystack: string, needle: string)
    decreases |haystack|
  {
    needle <= haystack || (haystack != [] && Contains(haystack[1..], needle))
  }
}
