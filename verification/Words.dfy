/** Fixed-width unsigned words. The source stores counters, ticks and register
    values in 8, 12, 16 and 32 bits; here they are bounded naturals and every
    wrap-around is an explicit remainder. */
module Words {

  type u8 = x: nat | x < 0x100
  type u10 = x: nat | x < 0x400
  type u11 = x: nat | x < 0x800
  type u12 = x: nat | x < 0x1000
  type u16 = x: nat | x < 0x1_0000
  type u32 = x: nat | x < 0x1_0000_0000

  /** Addition in twelve bits. A carry out is lost; written without a remainder, it stays
      linear arithmetic. */
  function Add12(a: u12, b: u12): u12 { if a + b < 0x1000 then a + b else a + b - 0x1000 }

  function Wrap16(x: int): u16 { x % 0x1_0000 }

  function Wrap32(x: int): u32 { x % 0x1_0000_0000 }

  /** The two's-complement reading of a 32-bit word. */
  function Signed32(w: u32): int {
    if w < 0x8000_0000 then w else w - 0x1_0000_0000
  }

  function Min(a: int, b: int): int { if a < b then a else b }

  function Max(a: int, b: int): int { if a < b then b else a }

  lemma WrapAdd16(a: int, x: int)
    ensures Wrap16(Wrap16(a) + x) == Wrap16(a + x)
  {
  }

  lemma SmallWrap16(x: int)
    requires 0 <= x < 0x1_0000
    ensures Wrap16(x) == x
  {
  }

  lemma Add12Wraps(a: u12, b: u12)
    ensures Add12(a, b) == (a + b) % 0x1000
  {
  }

  /** Quotient and remainder are determined by the division identity. */
  lemma DivMod(a: int, q: int, r: int, d: int)
    requires d > 0 && 0 <= r < d
    requires a == q * d + r
    ensures a / d == q && a % d == r
  {
    var q', r' := a / d, a % d;
    assert (q - q') * d == r' - r;
    if q > q' {
      MulGe(q - q', d);
    } else if q < q' {
      MulGe(q' - q, d);
    }
  }

  lemma MulGe(a: int, d: int)
    requires a >= 1 && d >= 0
    ensures a * d >= d
  {
    assert (a - 1) * d >= 0;
  }

  lemma MulSucc(n: int, k: int)
    ensures (n + 1) * k == n * k + k && k * (n + 1) == k * n + k
  {
  }

  lemma RealOrder(x: real, y: real, f: real)
    requires f > 0.0
    ensures x < y <==> f * x < f * y
    ensures x <= y <==> f * x <= f * y
  {
    if x < y {
      assert f * (y - x) > 0.0;
    } else if y < x {
      assert f * (x - y) > 0.0;
    }
  }

  lemma RealNonneg(a: real, b: real)
    requires a >= 0.0 && b >= 0.0
    ensures a * b >= 0.0
  {
  }
}
