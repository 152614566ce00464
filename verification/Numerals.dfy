/** Positional numerals, most significant digit first. They are the reference
    for the digits the printer produces and for what the parser reads back. */
module Numerals {

  /** The bases the printer knows. Scaling and division are by literal
      constants, so that everything below is linear arithmetic. */
  datatype Radix = Bin | Oct | Dec | Hex {
    function Size(): (b: nat)
      ensures 2 <= b <= 16
    {
      match this
      case Bin => 2
      case Oct => 8
      case Dec => 10
      case Hex => 16
    }

    function Times(x: nat): nat {
      match this
      case Bin => 2 * x
      case Oct => 8 * x
      case Dec => 10 * x
      case Hex => 16 * x
    }

    function Over(x: nat): (q: nat)
      ensures q <= x && (x > 0 ==> q < x)
    {
      match this
      case Bin => x / 2
      case Oct => x / 8
      case Dec => x / 10
      case Hex => x / 16
    }

    function Low(x: nat): (d: nat)
      ensures d < Size()
      ensures x == Times(Over(x)) + d
    {
      match this
      case Bin => x % 2
      case Oct => x % 8
      case Dec => x % 10
      case Hex => x % 16
    }

    function Pow(k: nat): (p: nat)
      ensures p > 0
    {
      if k == 0 then 1 else Times(Pow(k - 1))
    }
  }

  function DigitChar(d: nat, upper: bool): char
    requires d < 16
  {
    if d < 10 then '0' + d as char
    else if upper then 'A' + (d - 10) as char
    else 'a' + (d - 10) as char
  }

  function DigitValue(c: char): nat {
    if '0' <= c <= '9' then (c - '0') as nat
    else if 'a' <= c <= 'f' then (c - 'a') as nat + 10
    else if 'A' <= c <= 'F' then (c - 'A') as nat + 10
    else 0
  }

  predicate IsDigit(c: char) { '0' <= c <= '9' }

  /** The numeral of v without leading zeros ("0" for zero). */
  function Numeral(v: nat, base: Radix, upper: bool): (s: string)
    ensures s != ""
    decreases v
  {
    if v < base.Size() then [DigitChar(v, upper)]
    else Numeral(base.Over(v), base, upper) + [DigitChar(base.Low(v), upper)]
  }

  function Value(s: string, base: Radix): nat {
    if s == "" then 0
    else base.Times(Value(s[..|s| - 1], base)) + DigitValue(s[|s| - 1])
  }

  function Fill(c: char, k: int): (s: string)
    ensures |s| == if k < 0 then 0 else k
    ensures forall i | 0 <= i < |s| :: s[i] == c
  {
    if k <= 0 then "" else seq(k, _ => c)
  }

  function Reverse(s: string): (r: string)
    ensures |r| == |s|
    ensures forall i | 0 <= i < |r| :: r[i] == s[|s| - 1 - i]
  {
    seq(|s|, i requires 0 <= i < |s| => s[|s| - 1 - i])
  }

  lemma DigitRoundTrip(d: nat, upper: bool)
    requires d < 16
    ensures DigitValue(DigitChar(d, upper)) == d
    ensures DigitChar(d, upper) != ' '
    ensures d < 10 ==> IsDigit(DigitChar(d, upper))
    ensures DigitChar(d, upper) == '0' <==> d == 0
  {
  }

  /** The digits by name, in lower and in upper case. */
  lemma DigitNames(d: nat, upper: bool)
    requires d < 16
    ensures DigitChar(d, upper) == (if upper then "0123456789ABCDEF" else "0123456789abcdef")[d]
  {
  }

  /** No character of a numeral is a space; in base ten all are decimal digits. */
  lemma {:induction false} NumeralChars(v: nat, base: Radix, upper: bool)
    ensures ' ' !in Numeral(v, base, upper)
    ensures base.Dec? ==> forall c | c in Numeral(v, base, upper) :: IsDigit(c)
    decreases v
  {
    if v < base.Size() {
      DigitRoundTrip(v, upper);
    } else {
      NumeralChars(base.Over(v), base, upper);
      DigitRoundTrip(base.Low(v), upper);
    }
  }

  /** A numeral denotes the number it was made from ... */
  lemma {:induction false} NumeralValue(v: nat, base: Radix, upper: bool)
    ensures Value(Numeral(v, base, upper), base) == v
    decreases v
  {
    var s := Numeral(v, base, upper);
    if v < base.Size() {
      DigitRoundTrip(v, upper);
      assert s[..0] == "";
    } else {
      NumeralValue(base.Over(v), base, upper);
      DigitRoundTrip(base.Low(v), upper);
      assert s[..|s| - 1] == Numeral(base.Over(v), base, upper);
    }
  }

  /** ... and has no leading zero unless the number is zero. */
  lemma {:induction false} NumeralCanonical(v: nat, base: Radix, upper: bool)
    requires v > 0
    ensures Numeral(v, base, upper)[0] != '0'
    decreases v
  {
    if v >= base.Size() {
      NumeralCanonical(base.Over(v), base, upper);
    } else {
      DigitRoundTrip(v, upper);
    }
  }

  /** A number below base^k has a numeral of at most k digits. */
  lemma {:induction false} NumeralLength(v: nat, base: Radix, upper: bool, k: nat)
    requires k >= 1 && v < base.Pow(k)
    ensures |Numeral(v, base, upper)| <= k
    decreases k
  {
    if v >= base.Size() {
      assert base.Pow(k) == base.Times(base.Pow(k - 1));
      assert k > 1 by { assert base.Pow(0) == 1; }
      NumeralLength(base.Over(v), base, upper, k - 1);
    }
  }

  /** A 32-bit value never needs more digits than the 32-character buffer of
      print_integer holds: 32 in binary, 11 in octal, 10 in decimal, 8 in hexadecimal. */
  lemma WordDigits(v: nat, base: Radix, upper: bool)
    requires v < 0x1_0000_0000
    ensures |Numeral(v, base, upper)| <= match base case Bin => 32 case Oct => 11 case Dec => 10 case Hex => 8
  {
    match base {
      case Bin => PowChain(Bin, 32); NumeralLength(v, Bin, upper, 32);
      case Oct => PowChain(Oct, 11); NumeralLength(v, Oct, upper, 11);
      case Dec => PowChain(Dec, 10); NumeralLength(v, Dec, upper, 10);
      case Hex => PowChain(Hex, 8); NumeralLength(v, Hex, upper, 8);
    }
  }

  /** Powers large enough to bound a 32-bit word. */
  lemma PowChain(base: Radix, k: nat)
    requires k == match base case Bin => 32 case Oct => 11 case Dec => 10 case Hex => 8
    ensures base.Pow(k) >= 0x1_0000_0000
  {
    assert base.Pow(4) == base.Times(base.Times(base.Times(base.Times(1)))) by {
      assert base.Pow(2) == base.Times(base.Times(1));
    }
    assert base.Pow(8) == base.Times(base.Times(base.Times(base.Times(base.Pow(4))))) by {
      assert base.Pow(6) == base.Times(base.Times(base.Pow(4)));
    }
    match base {
      case Hex =>
      case Dec => assert Dec.Pow(10) == Dec.Times(Dec.Times(Dec.Pow(8)));
      case Oct =>
        assert Oct.Pow(10) == Oct.Times(Oct.Times(Oct.Pow(8)));
        assert Oct.Pow(11) == Oct.Times(Oct.Pow(10));
      case Bin =>
        assert forall j: nat :: Bin.Pow(j + 2) == 4 * Bin.Pow(j);
        assert Bin.Pow(16) == 65536 by {
          assert Bin.Pow(10) == 4 * Bin.Pow(8) && Bin.Pow(12) == 4 * Bin.Pow(10);
          assert Bin.Pow(14) == 4 * Bin.Pow(12);
        }
        assert Bin.Pow(24) == 256 * 65536 by {
          assert Bin.Pow(18) == 4 * Bin.Pow(16) && Bin.Pow(20) == 4 * Bin.Pow(18);
          assert Bin.Pow(22) == 4 * Bin.Pow(20);
        }
        assert Bin.Pow(26) == 4 * Bin.Pow(24) && Bin.Pow(28) == 4 * Bin.Pow(26);
        assert Bin.Pow(30) == 4 * Bin.Pow(28);
    }
  }

  /** Leading zeros do not change the value. */
  lemma {:induction false} LeadingZeros(k: nat, s: string, base: Radix)
    ensures Value(Fill('0', k) + s, base) == Value(s, base)
    decreases k + |s|
  {
    var t := Fill('0', k) + s;
    if s != "" {
      assert t[..|t| - 1] == Fill('0', k) + s[..|s| - 1];
      LeadingZeros(k, s[..|s| - 1], base);
    } else if k > 0 {
      assert t[..|t| - 1] == Fill('0', k - 1) + "";
      LeadingZeros(k - 1, "", base);
    } else {
      assert t == s;
    }
  }
}
