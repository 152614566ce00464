/** The PLL settings of hdmi.c: the search for a multiplier and a divider, the fallback,
    and the packed divider words. Frequencies are real numbers, in MHz. */
module Pll {
  import opened Words

  // ------------------------------------------------------------- the search space

  function Vco(fout: real, c: nat): real { fout * c as real }

  /** The VCO in units of the 50 MHz reference: whole part and fraction. */
  function Multiplier(fout: real, c: nat): int { (Vco(fout, c) / 50.0).Floor }

  function Fraction(fout: real, c: nat): real { Vco(fout, c) / 50.0 - Multiplier(fout, c) as real }

  /** A fraction of zero, or strictly between the limits of the hardware. */
  predicate Allowed(ko: real) { ko == 0.0 || 0.05 < ko < 0.95 }

  predicate Accepted(fout: real, c: nat) { Allowed(Fraction(fout, c)) }

  /** The divider at which both searches begin: the least with a VCO of 400 MHz or more. */
  predicate First(fout: real, c: nat) { c >= 1 && Vco(fout, c) >= 400.0 && (c == 1 || Vco(fout, c - 1) < 400.0) }

  /** A divider the search gets to unless it stops before: the first one, or any later
      one whose predecessor's VCO was not above 1500 MHz. */
  predicate InReach(fout: real, c: nat) {
    c >= 1 && Vco(fout, c) >= 400.0 && (First(fout, c) || Vco(fout, c - 1) <= 1500.0)
  }

  lemma Split(fout: real, c: nat)
    ensures Vco(fout, c) == 50.0 * (Multiplier(fout, c) as real + Fraction(fout, c))
    ensures 0.0 <= Fraction(fout, c) < 1.0
  {
  }

  lemma VcoOrder(fout: real, c: nat, d: nat)
    requires fout > 0.0
    ensures c < d <==> Vco(fout, c) < Vco(fout, d)
    ensures Vco(fout, c + 1) == Vco(fout, c) + fout
  {
    RealOrder(c as real, d as real, fout);
    assert (c + 1) as real == c as real + 1.0;
    assert fout * (c as real + 1.0) == fout * c as real + fout;
  }

  /** How many dividers keep the VCO at or below a limit. */
  function Room(fout: real, limit: real): int
    requires fout > 0.0
  {
    (limit / fout).Floor
  }

  lemma RoomBound(fout: real, limit: real, c: nat)
    requires fout > 0.0 && Vco(fout, c) <= limit
    ensures c <= Room(fout, limit)
  {
    var q := limit / fout;
    assert fout * q == limit;
    RealOrder(c as real, q, fout);
  }

  lemma FirstUnique(fout: real, c: nat, d: nat)
    requires fout > 0.0 && First(fout, c) && d >= 1 && Vco(fout, d) >= 400.0
    ensures c <= d
  {
    if d < c {
      VcoOrder(fout, c - 1, d);
    }
  }

  /** The dividers in reach: all whose VCO lies between 400 and 1500 MHz, and none whose VCO
      is below 400 MHz or, but for divider one, more than a step above 1500 MHz. */
  lemma ReachIsRange(fout: real, c: nat)
    requires fout > 0.0 && c >= 1
    ensures 400.0 <= fout * c as real <= 1500.0 ==> InReach(fout, c)
    ensures InReach(fout, c) ==> fout * c as real >= 400.0 && (c == 1 || fout * c as real <= 1500.0 + fout)
  {
    VcoOrder(fout, c - 1, c);
  }

  // ------------------------------------------------------------- the search

  /** Counts dividers up from one until the VCO reaches 400 MHz. */
  method FirstDivider(fout: real) returns (c: nat)
    requires fout > 0.0
    ensures First(fout, c)
  {
    c := 1;
    while Vco(fout, c) < 400.0
      invariant c >= 1 && (c == 1 || Vco(fout, c - 1) < 400.0)
      decreases Room(fout, 400.0) + 1 - c
    {
      RoomBound(fout, 400.0, c);
      c := c + 1;
    }
  }

  /** findPLLpar. It always terminates. It succeeds if and only if some divider in reach is
      accepted, and then returns the least accepted divider with a VCO of at least 400 MHz. */
  method FindPllPar(fout: real) returns (ok: bool, c: nat, m: int, ko: real)
    requires fout > 0.0
    ensures ok <==> exists d: nat :: InReach(fout, d) && Accepted(fout, d)
    ensures ok ==>
      && InReach(fout, c) && Accepted(fout, c)
      && (forall d | 1 <= d < c && Vco(fout, d) >= 400.0 :: !Accepted(fout, d))
      && m == Multiplier(fout, c) && ko == Fraction(fout, c)
      && Vco(fout, c) == 50.0 * (m as real + ko)
  {
    hide Accepted;
    c := FirstDivider(fout);
    ghost var first := c;
    while true
      invariant c >= first >= 1 && First(fout, first) && InReach(fout, c)
      invariant forall d | first <= d < c :: !Accepted(fout, d)
      decreases Room(fout, 1500.0) + 1 - c
    {
      var fvco := fout * c as real;
      m := (fvco / 50.0).Floor;
      ko := fvco / 50.0 - m as real;
      fvco := (ko + m as real) * 50.0;
      Split(fout, c);
      assert fvco == Vco(fout, c) && ko == Fraction(fout, c);
      if ko != 0.0 && (ko <= 0.05 || ko >= 0.95) {
        assert !Accepted(fout, c) by { Rejected(fout, c); }
        if fvco > 1500.0 {
          ok := false;
          NothingInReach(fout, first, c);
          return;
        }
        RoomBound(fout, 1500.0, c);
        VcoOrder(fout, c, c + 1);
        c := c + 1;
      } else {
        assert Accepted(fout, c) by { Taken(fout, c); }
        ok := true;
        forall d | 1 <= d < c && Vco(fout, d) >= 400.0
          ensures !Accepted(fout, d)
        {
          FirstUnique(fout, first, d);
        }
        return;
      }
    }
  }

  lemma Rejected(fout: real, c: nat)
    requires Fraction(fout, c) != 0.0 && (Fraction(fout, c) <= 0.05 || Fraction(fout, c) >= 0.95)
    ensures !Accepted(fout, c)
  {
  }

  lemma Taken(fout: real, c: nat)
    requires !(Fraction(fout, c) != 0.0 && (Fraction(fout, c) <= 0.05 || Fraction(fout, c) >= 0.95))
    ensures Accepted(fout, c)
  {
  }

  /** Every divider in reach has been tried when the VCO passes 1500 MHz. */
  lemma NothingInReach(fout: real, first: nat, last: nat)
    requires fout > 0.0 && First(fout, first) && first <= last && Vco(fout, last) > 1500.0
    requires forall d | first <= d <= last :: !Accepted(fout, d)
    ensures forall d: nat :: InReach(fout, d) ==> !Accepted(fout, d)
  {
    hide Accepted;
    forall d: nat | InReach(fout, d)
      ensures !Accepted(fout, d)
    {
      FirstUnique(fout, first, d);
      if d > last {
        if First(fout, d) {
          FirstUnique(fout, d, first);
        } else if d - 1 > last {
          VcoOrder(fout, last, d - 1);
        }
      }
    }
  }

  // ------------------------------------------------------------- the setting

  datatype Setting = Setting(c: nat, m: int, ko: real, k: u32)

  /** Exact: the VCO is a multiple of the pixel clock and the fraction is usable. Otherwise
      the fraction is dropped, and the VCO is off by at most 2.5 MHz. */
  predicate Exact(fout: real, s: Setting) { Accepted(fout, s.c) && Vco(fout, s.c) == 50.0 * (s.m as real + s.ko) }

  predicate Rounded(fout: real, s: Setting) {
    && First(fout, s.c) && s.ko == 0.0
    && -2.5 <= 50.0 * s.m as real - Vco(fout, s.c) <= 2.5
  }

  /** setPLL (and the same code in crt_set_mode) up to the register writes. */
  method SetPll(fout: real) returns (s: Setting, ghost found: bool)
    requires fout > 0.0
    ensures found <==> exists d: nat :: InReach(fout, d) && Accepted(fout, d)
    ensures InReach(fout, s.c) && (s.ko == 0.0 || 0.05 < s.ko < 0.95)
    ensures if found then Exact(fout, s) else Rounded(fout, s)
    ensures s.m == Multiplier(fout, s.c) || s.m == Multiplier(fout, s.c) + 1
    ensures s.k == (if s.ko == 0.0 then 1 else (s.ko * 4294967296.0).Floor)
  {
    var ok, c, m, ko := FindPllPar(fout);
    found := ok;
    if !ok {
      c := FirstDivider(fout);
      var fvco := fout * c as real;
      m := (fvco / 50.0).Floor;
      ko := fvco / 50.0 - m as real;
      Split(fout, c);
      assert InReach(fout, c) && !Accepted(fout, c);
      if ko <= 0.05 {
        ko := 0.0;
      } else if ko >= 0.95 {
        m := m + 1;
        ko := 0.0;
      }
    } else {
      Split(fout, c);
    }
    s := Setting(c, m, ko, if ko != 0.0 then (ko * 4294967296.0).Floor else 1);
  }

  /** The synthesized pixel clock: exact after a successful search; after the fallback the
      error of the VCO is divided by c. */
  lemma PixelClock(fout: real, s: Setting)
    requires fout > 0.0 && s.c >= 1 && (Exact(fout, s) || Rounded(fout, s))
    ensures var fpix := 50.0 * (s.m as real + s.ko) / s.c as real;
      && (Exact(fout, s) ==> fpix == fout)
      && (Rounded(fout, s) ==> -2.5 / s.c as real <= fpix - fout <= 2.5 / s.c as real)
  {
    var c, v := s.c as real, 50.0 * (s.m as real + s.ko);
    if Exact(fout, s) {
      assert v == fout * c;
      Quotient(fout, 0.0, c, v);
    }
    if Rounded(fout, s) {
      var e := v - fout * c;
      assert -2.5 <= e <= 2.5;
      hide *;
      Quotient(fout, e, c, v);
      DivOrder(-2.5, e, c);
      DivOrder(e, 2.5, c);
    }
  }

  lemma Quotient(fout: real, e: real, c: real, v: real)
    requires c >= 1.0 && v == fout * c + e
    ensures v / c == fout + e / c
  {
    assert fout * c / c == fout;
    assert (fout * c + e) / c == fout * c / c + e / c;
  }

  lemma DivOrder(x: real, y: real, c: real)
    requires x <= y && c >= 1.0
    ensures x / c <= y / c
  {
    var d := (y - x) / c;
    assert d * c == y - x;
    RealOrder(d, 0.0, c);
    assert y / c == x / c + d;
  }

  // ------------------------------------------------------------- divider words

  /** Bitwise or. */
  function BitOr(a: nat, b: nat): nat
    decreases a + b
  {
    if a == 0 then b else if b == 0 then a
    else 2 * BitOr(a / 2, b / 2) + if a % 2 == 1 || b % 2 == 1 then 1 else 0
  }

  function Pow2(k: nat): (p: nat)
    ensures p > 0
  {
    if k == 0 then 1 else 2 * Pow2(k - 1)
  }

  /** Operands that share no bit are added. */
  lemma {:induction false} OrDisjoint(a: nat, b: nat, k: nat)
    requires b < Pow2(k)
    ensures BitOr(a * Pow2(k), b) == a * Pow2(k) + b
    decreases k
  {
    if k == 0 {
      assert b == 0;
    } else if a > 0 && b > 0 {
      var p := Pow2(k - 1);
      assert a * Pow2(k) == 2 * (a * p);
      MulPos(a, p);
      OrDisjoint(a, b / 2, k - 1);
    } else if a == 0 {
      assert 0 * Pow2(k) == 0;
    } else {
      MulPos(a, Pow2(k));
    }
  }

  lemma MulPos(a: nat, p: nat)
    requires a > 0 && p > 0
    ensures a * p > 0
  {
  }

  /** getPLLdiv */
  function GetPllDiv(div: u32): nat {
    if div % 2 == 1 then BitOr(BitOr(0x20000, Wrap32((div / 2 + 1) * 0x100)), div / 2)
    else BitOr(Wrap32(div / 2 * 0x100), div / 2)
  }

  /** The fields of a divider word: high count, low count, odd-division flag. */
  function HighCount(w: nat): (n: nat)
    ensures n < 0x100
  {
    w / 0x100 % 0x100
  }

  function LowCount(w: nat): (n: nat)
    ensures n < 0x100
  {
    w % 0x100
  }

  predicate OddFlag(w: nat) { w / 0x20000 % 2 == 1 }

  predicate Decodes(div: u32) {
    var w := GetPllDiv(div);
    && HighCount(w) + LowCount(w) == div
    && HighCount(w) == LowCount(w) + (if OddFlag(w) then 1 else 0)
    && (OddFlag(w) <==> div % 2 == 1)
  }

  lemma WordFor(div: u32)
    requires div <= 510
    ensures GetPllDiv(div) == (if div % 2 == 1 then 0x20000 + (div / 2 + 1) * 0x100 + div / 2 else div / 2 * 0x100 + div / 2)
  {
    hide BitOr, Pow2;
    Powers();
    var half := div / 2;
    if div % 2 == 1 {
      assert Wrap32((half + 1) * 0x100) == (half + 1) * 0x100;
      hide Wrap32;
      OrDisjoint(2, (half + 1) * 0x100, 16);
      OrDisjoint(0x200 + half + 1, half, 8);
    } else {
      assert Wrap32(half * 0x100) == half * 0x100;
      hide Wrap32;
      OrDisjoint(half, half, 8);
    }
  }

  lemma Powers()
    ensures Pow2(8) == 0x100 && Pow2(16) == 0x1_0000
  {
    assert Pow2(4) == 16;
    assert Pow2(6) == 64;
    assert Pow2(8) == 256;
    assert Pow2(10) == 1024;
    assert Pow2(12) == 4096;
    assert Pow2(14) == 0x4000;
  }

  /** A divider can be read back from its word if and only if it is at most 510. */
  lemma DecodesExactly(div: u32)
    ensures Decodes(div) <==> div <= 510
  {
    hide GetPllDiv, HighCount, LowCount, OddFlag;
    if div <= 510 {
      var q, r := div / 2, div % 2;
      assert div == 2 * q + r;
      WordFor(div);
      FieldsOf(2 * r, q + r, q);
    }
  }

  lemma FieldsOf(top: nat, high: nat, low: nat)
    requires high < 0x100 && low < 0x100 && (top == 0 || top == 2)
    ensures var w := 0x1_0000 * top + 0x100 * high + low;
      HighCount(w) == high && LowCount(w) == low && OddFlag(w) == (top == 2)
  {
  }

  /** For every pixel clock from 4 to 1000 MHz, by search or by fallback, both divider
      words decode to the dividers they were made from. */
  lemma WordsDecode(fout: real, s: Setting)
    requires 4.0 <= fout <= 1000.0
    requires InReach(fout, s.c) && (s.m == Multiplier(fout, s.c) || s.m == Multiplier(fout, s.c) + 1)
    ensures 1 <= s.c <= 376 && 8 <= s.m <= 51
    ensures Decodes(s.c) && Decodes(s.m)
  {
    hide Decodes;
    var v := Vco(fout, s.c);
    assert v <= 2500.0 && s.c <= 376 by {
      if s.c > 1 {
        VcoOrder(fout, s.c - 1, s.c);
        assert Vco(fout, s.c - 1) <= 1500.0;
        assert v == Vco(fout, s.c - 1) + fout;
        SmallDivider(fout, (s.c - 1) as real);
      }
    }
    assert 8 <= Multiplier(fout, s.c) <= 50 by {
      assert 8.0 <= v / 50.0 <= 50.0;
    }
    DecodesExactly(s.c);
    DecodesExactly(s.m);
  }

  lemma SmallDivider(fout: real, c: real)
    requires fout >= 4.0 && c >= 0.0 && fout * c <= 1500.0
    ensures c <= 375.0
  {
    assert (fout - 4.0) * c >= 0.0;
  }
}
