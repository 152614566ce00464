/** Integer conversions: print_integer, print_integer_finalization and out_rev_
    of printf.c, and the field that section 7.21.6.1 of ISO/IEC 9899:2011 asks for. */
module IntegerFormat {
  import opened Words
  import opened Numerals
  import opened Gadget

  const BUFFER_SIZE: nat := 32

  datatype Option<T> = None | Some(value: T)

  /** The flag word of a directive. The first five members are the flag
      characters 0 - + space #, the others are set while the directive is read. */
  datatype Flags = Flags(
    zero: bool, left: bool, plus: bool, space: bool, hash: bool,
    upper: bool, char8: bool, short: bool, long: bool, longLong: bool, precision: bool)

  // ---------------------------------------------------------------- reference

  /** The digits of a converted magnitude: at least `precision` of them, none for
      zero at precision zero, and a leading zero under # in base eight. */
  function FieldDigits(v: nat, base: Radix, f: Flags, precision: nat): string {
    var least := if f.precision then precision else 1;
    var n := Numeral(v, base, f.upper);
    var body := if v == 0 && least == 0 then "" else Fill('0', least - |n|) + n;
    if f.hash && base.Oct? && (body == "" || body[0] != '0') then "0" + body else body
  }

  function FieldSign(negative: bool, f: Flags): string {
    if negative then "-" else if f.plus then "+" else if f.space then " " else ""
  }

  function FieldPrefix(v: nat, base: Radix, f: Flags): string {
    if f.hash && base.Hex? && v != 0 then (if f.upper then "0X" else "0x") else ""
  }

  /** Zeros fill the field only without - and without a precision. */
  predicate ZeroPadded(f: Flags) { f.zero && !f.left && !f.precision }

  /** The field of an integer conversion by section 7.21.6.1 of ISO/IEC 9899:2011. */
  function Field(v: nat, negative: bool, base: Radix, precision: nat, width: nat, f: Flags): string {
    var sign, prefix, digits := FieldSign(negative, f), FieldPrefix(v, base, f), FieldDigits(v, base, f, precision);
    var room := width - |sign| - |prefix| - |digits|;
    if f.left then sign + prefix + digits + Fill(' ', room)
    else if ZeroPadded(f) then sign + prefix + Fill('0', room) + digits
    else Fill(' ', room) + sign + prefix + digits
  }

  // ---------------------------------------------------------------- the code

  /** The two zero-filling loops stop at the end of the 32-character buffer. */
  function ZeroFill(buf: string, target: nat): (r: string)
    ensures |r| == Max(|buf|, Min(target, BUFFER_SIZE))
  {
    buf + Fill('0', Min(target, BUFFER_SIZE) - |buf|)
  }

  /** Append while the buffer has room. */
  function Push(buf: string, c: char): string {
    if |buf| < BUFFER_SIZE then buf + [c] else buf
  }

  function SignedWidth(width: u32, negative: bool, f: Flags): u32 {
    if !f.left && width > 0 && f.zero && (negative || f.plus || f.space) then width - 1 else width
  }

  /** Give back padding zeros that the prefix is about to take. */
  function TakeBack(buf: string, unpadded: nat, base: Radix, precision: u32, width: u32, f: Flags): (r: string)
    requires unpadded <= |buf|
    ensures unpadded <= |r| <= |buf| && r == buf[..|r|]
  {
    if !f.precision && |buf| > 0 && (|buf| == precision || |buf| == width) then
      var one := if unpadded < |buf| then buf[..|buf| - 1] else buf;
      if |one| > 0 && (base.Hex? || base.Bin?) && unpadded < |one| then one[..|one| - 1] else one
    else buf
  }

  function PrefixBuffer(buf: string, unpadded: nat, base: Radix, precision: u32, width: u32, f: Flags): string
    requires unpadded <= |buf|
  {
    var b := TakeBack(buf, unpadded, base, precision, width, f);
    Push(match base
         case Hex => Push(b, if f.upper then 'X' else 'x')
         case Bin => Push(b, 'b')
         case _ => b,
         '0')
  }

  function SignBuffer(buf: string, negative: bool, f: Flags): string {
    if negative then Push(buf, '-') else if f.plus then Push(buf, '+')
    else if f.space then Push(buf, ' ') else buf
  }

  function PaddedBuffer(digits: string, precision: u32, width: u32, f: Flags): (r: string)
    ensures |digits| <= |r|
  {
    ZeroFill(if !f.left && f.zero then ZeroFill(digits, width) else digits, precision)
  }

  /** The buffer, least significant character first, after finalization of `digits`. */
  function FinalBuffer(digits: string, negative: bool, base: Radix, precision: u32, width: u32, f: Flags): string {
    var padded := PaddedBuffer(digits, precision, width, f);
    var hash := f.hash && !(base.Oct? && |padded| > |digits|);
    SignBuffer(if hash then PrefixBuffer(padded, |digits|, base, precision, width, f) else padded, negative, f)
  }

  /** out_rev_. */
  function Justified(buf: string, width: u32, f: Flags): string {
    (if !f.left && !f.zero then Fill(' ', width - |buf|) else "")
    + Reverse(buf)
    + (if f.left then Fill(' ', width - |buf|) else "")
  }

  /** The digits print_integer starts from, and the # flag it keeps. */
  function StartDigits(v: u32, base: Radix, f: Flags): string {
    if v == 0 && f.precision then "" else Reverse(Numeral(v, base, f.upper))
  }

  function KeptHash(v: u32, base: Radix, f: Flags): bool {
    f.hash && !(v == 0 && (!f.precision || base.Hex?))
  }

  function FinalText(digits: string, negative: bool, base: Radix, precision: u32, width: u32, f: Flags): string {
    var w := SignedWidth(width, negative, f);
    Justified(FinalBuffer(digits, negative, base, precision, w, f), w, f)
  }

  /** Everything print_integer emits. */
  function IntegerText(v: u32, negative: bool, base: Radix, precision: u32, width: u32, f: Flags): string {
    FinalText(StartDigits(v, base, f), negative, base, precision, width, f.(hash := KeptHash(v, base, f)))
  }

  // ---------------------------------------------------------------- methods

  /** One space for every column from `from` up to the width. */
  method PutSpaces(output: OutputGadget, from: nat, width: nat)
    requires output.Valid()
    modifies output`pos, output`text, output.buffer
    ensures output.Valid() && output.text == old(output.text) + Fill(' ', width - from)
  {
    var i := from;
    while i < width
      invariant from <= i && (i <= width || i == from)
      invariant output.Valid() && output.text == old(output.text) + Fill(' ', i - from)
    {
      output.PutChar(' ');
      assert Fill(' ', i - from) + [' '] == Fill(' ', i + 1 - from);
      i := i + 1;
    }
  }

  method PutReversed(output: OutputGadget, buf: string)
    requires output.Valid()
    modifies output`pos, output`text, output.buffer
    ensures output.Valid() && output.text == old(output.text) + Reverse(buf)
  {
    var n := |buf|;
    ghost var r := Reverse(buf);
    while n > 0
      invariant 0 <= n <= |buf| && output.Valid()
      invariant output.text == old(output.text) + r[..|buf| - n]
    {
      n := n - 1;
      output.PutChar(buf[n]);
      assert r[..|buf| - n] == r[..|buf| - n - 1] + [buf[n]];
    }
    assert r[..|buf|] == r;
  }

  /** Trailing spaces until the cursor is `width` past `startPos`; `k` characters
      have been emitted since then. */
  method PutTrailing(output: OutputGadget, startPos: u32, ghost k: nat, width: u32)
    requires output.Valid()
    requires k <= |output.text| && k < 0x1_0000_0000 && startPos == (|output.text| - k) % 0x1_0000_0000
    modifies output`pos, output`text, output.buffer
    ensures output.Valid() && output.text == old(output.text) + Fill(' ', width - k)
  {
    ghost var j := 0;
    ghost var start := |output.text| - k;
    PositionGap(start, k);
    while Wrap32(output.pos - startPos) < width
      invariant output.Valid() && output.text == old(output.text) + Fill(' ', j)
      invariant 0 <= j && (k + j <= width || j == 0)
      invariant Wrap32(output.pos - startPos) == k + j
      decreases width - k - j
    {
      PositionGap(start, k + j + 1);
      assert Fill(' ', j) + [' '] == Fill(' ', j + 1);
      output.PutChar(' ');
      j := j + 1;
    }
    assert Fill(' ', j) == Fill(' ', width - k);
  }

  /** The 32-bit cursor difference counts the characters emitted since `start`. */
  lemma PositionGap(start: nat, k: u32)
    ensures Wrap32((start + k) % 0x1_0000_0000 - start % 0x1_0000_0000) == k
  {
  }

  method OutRev(output: OutputGadget, buf: string, width: u32, f: Flags)
    requires output.Valid() && |buf| <= BUFFER_SIZE
    modifies output`pos, output`text, output.buffer
    ensures output.Valid() && output.text == old(output.text) + Justified(buf, width, f)
  {
    var startPos := output.pos;
    if !f.left && !f.zero {
      PutSpaces(output, |buf|, width);
    }
    PutReversed(output, buf);
    if f.left {
      PutTrailing(output, startPos, |buf|, width);
    }
  }

  /** Zeros up to the target length, as far as the buffer reaches. */
  method FillZeros(buf: array<char>, start: nat, target: nat) returns (len: nat)
    requires buf.Length == BUFFER_SIZE && start <= BUFFER_SIZE
    modifies buf
    ensures len <= BUFFER_SIZE && buf[..len] == ZeroFill(old(buf[..start]), target)
  {
    len := start;
    while len < target && len < BUFFER_SIZE
      invariant start <= len <= BUFFER_SIZE && (len <= target || len == start)
      invariant buf[..len] == old(buf[..start]) + Fill('0', len - start)
    {
      buf[len] := '0';
      assert buf[..len + 1] == buf[..len] + ['0'];
      assert Fill('0', len - start) + ['0'] == Fill('0', len + 1 - start);
      len := len + 1;
    }
    assert len - start == Max(0, Min(target, BUFFER_SIZE) - start);
    assert Fill('0', len - start) == Fill('0', Min(target, BUFFER_SIZE) - start);
  }

  method PushChar(buf: array<char>, len: nat, c: char) returns (newLen: nat)
    requires buf.Length == BUFFER_SIZE && len <= BUFFER_SIZE
    modifies buf
    ensures newLen <= BUFFER_SIZE && buf[..newLen] == Push(old(buf[..len]), c)
  {
    newLen := len;
    if len < BUFFER_SIZE {
      buf[len] := c;
      newLen := len + 1;
      assert buf[..newLen] == buf[..len] + [c];
    }
  }

  method PutPadding(buf: array<char>, length: nat, precision: u32, width: u32, f: Flags) returns (len: nat)
    requires buf.Length == BUFFER_SIZE && length <= BUFFER_SIZE
    modifies buf
    ensures length <= len <= BUFFER_SIZE && buf[..len] == PaddedBuffer(old(buf[..length]), precision, width, f)
  {
    len := length;
    if !f.left && f.zero {
      len := FillZeros(buf, len, width);
    }
    len := FillZeros(buf, len, precision);
  }

  method PutSign(buf: array<char>, length: nat, negative: bool, f: Flags) returns (len: nat)
    requires buf.Length == BUFFER_SIZE && length <= BUFFER_SIZE
    modifies buf
    ensures len <= BUFFER_SIZE && buf[..len] == SignBuffer(old(buf[..length]), negative, f)
  {
    len := length;
    if negative {
      len := PushChar(buf, len, '-');
    } else if f.plus {
      len := PushChar(buf, len, '+');
    } else if f.space {
      len := PushChar(buf, len, ' ');
    }
  }

  /** The # block of print_integer_finalization. */
  method PutPrefix(buf: array<char>, len: nat, unpadded: nat, base: Radix, precision: u32, width: u32, f: Flags)
      returns (newLen: nat)
    requires buf.Length == BUFFER_SIZE && unpadded <= len <= BUFFER_SIZE
    modifies buf
    ensures newLen <= BUFFER_SIZE
    ensures buf[..newLen] == PrefixBuffer(old(buf[..len]), unpadded, base, precision, width, f)
  {
    newLen := len;
    ghost var b := buf[..len];
    if !f.precision && newLen > 0 && (newLen == precision || newLen == width) {
      if unpadded < newLen {
        newLen := newLen - 1;
      }
      if newLen > 0 && (base.Hex? || base.Bin?) && unpadded < newLen {
        newLen := newLen - 1;
      }
    }
    assert buf[..newLen] == TakeBack(b, unpadded, base, precision, width, f);
    if base.Hex? && !f.upper {
      newLen := PushChar(buf, newLen, 'x');
    } else if base.Hex? && f.upper {
      newLen := PushChar(buf, newLen, 'X');
    } else if base.Bin? {
      newLen := PushChar(buf, newLen, 'b');
    }
    newLen := PushChar(buf, newLen, '0');
  }

  /** print_integer_finalization, up to its call of out_rev_: zeros, prefix and
      sign, still in reverse. `width` has already made room for the sign. */
  method FinalizeBuffer(buf: array<char>, length: nat, negative: bool, base: Radix, precision: u32, width: u32,
                        flags: Flags) returns (len: nat)
    requires buf.Length == BUFFER_SIZE && length <= BUFFER_SIZE
    modifies buf
    ensures len <= BUFFER_SIZE
    ensures buf[..len] == FinalBuffer(old(buf[..length]), negative, base, precision, width, flags)
  {
    len := PutPadding(buf, length, precision, width, flags);
    var hash := flags.hash;
    if base.Oct? && len > length {
      hash := false;
    }
    if hash {
      len := PutPrefix(buf, len, length, base, precision, width, flags);
    }
    len := PutSign(buf, len, negative, flags);
  }

  /** print_integer_finalization. */
  method PrintIntegerFinalization(output: OutputGadget, buf: array<char>, length: nat, negative: bool,
                                  base: Radix, precision: u32, fieldWidth: u32, f: Flags)
    requires output.Valid() && buf.Length == BUFFER_SIZE && length <= BUFFER_SIZE && output.buffer != buf
    modifies output`pos, output`text, output.buffer, buf
    ensures output.Valid()
    ensures output.text == old(output.text) + FinalText(old(buf[..length]), negative, base, precision, fieldWidth, f)
  {
    var width := fieldWidth;
    if !f.left && width > 0 && f.zero && (negative || f.plus || f.space) {
      width := width - 1;
    }
    var len := FinalizeBuffer(buf, length, negative, base, precision, width, f);
    OutRev(output, buf[..len], width, f);
  }

  /** The digit loop of print_integer: value % base, least significant first,
      until nothing is left or the buffer is full. It is never cut short. */
  method PutDigits(buf: array<char>, v: u32, base: Radix, upper: bool) returns (len: nat)
    requires buf.Length == BUFFER_SIZE && v != 0
    modifies buf
    ensures len <= BUFFER_SIZE && buf[..len] == Reverse(Numeral(v, base, upper))
  {
    hide Numeral, Reverse;
    var value: nat := v;
    len := 0;
    WordDigits(v, base, upper);
    ghost var all := Reverse(Numeral(v, base, upper));
    while true
      invariant 0 <= len < BUFFER_SIZE && value > 0
      invariant all == buf[..len] + Reverse(Numeral(value, base, upper))
      decreases value
    {
      var digit := base.Low(value);
      ReverseSnoc(value, base, upper);
      ghost var done, rest := buf[..len], if base.Over(value) > 0 then Reverse(Numeral(base.Over(value), base, upper)) else "";
      buf[len] := DigitChar(digit, upper);
      len := len + 1;
      assert buf[..len] == done + [DigitChar(digit, upper)];
      Pushed(done, DigitChar(digit, upper), rest);
      value := base.Over(value);
      if !(value > 0 && len < BUFFER_SIZE) {
        break;
      }
    }
  }

  /** The low digit of a number is the first character of its reversed numeral. */
  lemma ReverseSnoc(v: nat, base: Radix, upper: bool)
    requires v > 0
    ensures Reverse(Numeral(v, base, upper)) ==
      [DigitChar(base.Low(v), upper)] +
      (if base.Over(v) > 0 then Reverse(Numeral(base.Over(v), base, upper)) else "")
  {
    var low := DigitChar(base.Low(v), upper);
    if v >= base.Size() {
      var high := Numeral(base.Over(v), base, upper);
      assert Numeral(v, base, upper) == high + [low];
      ReversePush(high, low);
    } else {
      assert Numeral(v, base, upper) == [low] && base.Over(v) == 0;
      ReversePush("", low);
    }
  }

  lemma Pushed(done: string, c: char, rest: string)
    ensures done + ([c] + rest) == done + [c] + rest && (rest == "" ==> done + ([c] + rest) == done + [c])
  {
  }

  lemma ReversePush(s: string, c: char)
    ensures Reverse(s + [c]) == [c] + Reverse(s) && Reverse([c]) == [c]
  {
  }

  lemma ZeroDigits(base: Radix, f: Flags)
    ensures StartDigits(0, base, f) == if f.precision then "" else ['0']
  {
    assert Reverse("0") == "0";
  }

  /** The digits print_integer starts from. */
  method StartBuffer(v: u32, base: Radix, flags: Flags) returns (buf: array<char>, len: nat)
    ensures fresh(buf) && buf.Length == BUFFER_SIZE && len <= BUFFER_SIZE
    ensures buf[..len] == StartDigits(v, base, flags)
  {
    buf := new char[BUFFER_SIZE];
    if v != 0 {
      len := PutDigits(buf, v, base, flags.upper);
    } else {
      len := 0;
      if !flags.precision {
        len := PushChar(buf, len, '0');
      }
      ZeroDigits(base, flags);
    }
  }

  /** print_integer. */
  method PrintInteger(output: OutputGadget, v: u32, negative: bool, base: Radix, precision: u32, width: u32, flags: Flags)
    requires output.Valid()
    modifies output`pos, output`text, output.buffer
    ensures output.Valid()
    ensures output.text == old(output.text) + IntegerText(v, negative, base, precision, width, flags)
  {
    var buf, len := StartBuffer(v, base, flags);
    var f := flags;
    if v == 0 && (!f.precision || base.Hex?) {
      f := f.(hash := false);
    }
    PrintIntegerFinalization(output, buf, len, negative, base, precision, width, f);
  }
}
