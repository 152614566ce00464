/** Where print_integer agrees with the C standard. The main result is
    IntegerTextIsField: the emitted text is the standard's field if and only if
    the field's characters fit the 32-character buffer, with one coincidence. */
module IntegerField {
  import opened Words
  import opened Numerals
  import opened IntegerFormat

  /** How format_string_loop calls print_integer for d, i, u, o, x and X: no 0 flag
      beside a precision, no # in base ten, no sign outside base ten. */
  predicate Normal(negative: bool, base: Radix, precision: u32, f: Flags) {
    && !base.Bin?
    && (f.precision ==> !f.zero)
    && (!f.precision ==> precision == 0)
    && (base.Dec? ==> !f.hash)
    && (!base.Dec? ==> !f.plus && !f.space && !negative)
  }

  /** What a caller can look at before the call. Zero padding must not exceed 32
      columns. Otherwise sign, prefix and digits must fit 32 characters, except that
      a lost space sign is made good by the padding when the field is right-justified. */
  predicate Fits(v: u32, negative: bool, base: Radix, precision: u32, width: u32, f: Flags) {
    var sign, digits := FieldSign(negative, f), FieldDigits(v, base, f, precision);
    if ZeroPadded(f) then width <= BUFFER_SIZE
    else
      || |sign| + |FieldPrefix(v, base, f)| + |digits| <= BUFFER_SIZE
      || (sign == " " && |digits| == BUFFER_SIZE && width > BUFFER_SIZE && !f.left)
  }

  // ---------------------------------------------------------- shape of the field

  /** The digits before any zero is added, most significant first. */
  function Core(v: u32, base: Radix, f: Flags): string {
    if v == 0 && f.precision then "" else Numeral(v, base, f.upper)
  }

  /** How many zeros precision and # put in front of the digits. */
  function ExtraZeros(v: u32, base: Radix, precision: u32, f: Flags): nat {
    Max(if f.precision then Max(0, precision - |Core(v, base, f)|) else 0,
        if KeptHash(v, base, f) && base.Oct? then 1 else 0)
  }

  lemma DigitsShape(v: u32, base: Radix, precision: u32, f: Flags)
    ensures FieldDigits(v, base, f, precision) == Fill('0', ExtraZeros(v, base, precision, f)) + Core(v, base, f)
  {
    var n := Numeral(v, base, f.upper);
    if v == 0 {
      assert n == "0";
    } else {
      NumeralCanonical(v, base, f.upper);
    }
    assert FieldDigits(v, base, f, precision) == Fill('0', ExtraZeros(v, base, precision, f)) + Core(v, base, f);
  }

  /** Sign, prefix and digits of the field. */
  function Body(v: u32, negative: bool, base: Radix, precision: u32, f: Flags): string {
    FieldSign(negative, f) + FieldPrefix(v, base, f) + FieldDigits(v, base, f, precision)
  }

  /** Only a space sign, in front, is a space. */
  lemma BodySpaces(v: u32, negative: bool, base: Radix, precision: u32, f: Flags, i: nat)
    requires i < |Body(v, negative, base, precision, f)|
    ensures Body(v, negative, base, precision, f)[i] == ' ' <==> i == 0 && FieldSign(negative, f) == " "
  {
    DigitsShape(v, base, precision, f);
    NumeralChars(v, base, f.upper);
    var digits := FieldDigits(v, base, f, precision);
    assert forall c | c in digits :: c != ' ' by {
      assert forall c | c in Fill('0', ExtraZeros(v, base, precision, f)) :: c == '0';
    }
    var front := FieldSign(negative, f) + FieldPrefix(v, base, f);
    if i >= |front| {
      assert digits[i - |front|] in digits;
    }
  }

  // ------------------------------------------------------------- buffer shapes

  /** The 0x prefix as it stands in the buffer. */
  function HexTail(base: Radix, f: Flags): string {
    if f.hash && base.Hex? then (if f.upper then "X0" else "x0") else ""
  }

  /** The finished buffer when nothing is lost, with `z` zeros before the digits `d`. */
  function Assembled(d: string, z: int, negative: bool, base: Radix, f: Flags): string {
    d + Fill('0', z) + HexTail(base, f) + FieldSign(negative, f)
  }

  lemma ReadBack(v: u32, negative: bool, base: Radix, z: int, f: Flags)
    ensures Reverse(Assembled(Reverse(Core(v, base, f)), z, negative, base, f.(hash := KeptHash(v, base, f))))
         == FieldSign(negative, f) + FieldPrefix(v, base, f) + (Fill('0', z) + Core(v, base, f))
  {
    hide Numeral, Core;
    var sign, tail := FieldSign(negative, f), HexTail(base, f.(hash := KeptHash(v, base, f)));
    assert Reverse(sign) == sign;
    PrefixBackwards(v, base, f);
    ReverseParts(Core(v, base, f), Fill('0', z), tail, sign);
    assert Reverse(Fill('0', z)) == Fill('0', z);
  }

  lemma PrefixBackwards(v: u32, base: Radix, f: Flags)
    ensures Reverse(HexTail(base, f.(hash := KeptHash(v, base, f)))) == FieldPrefix(v, base, f)
  {
    assert Reverse("X0") == "0X" && Reverse("x0") == "0x" && Reverse("") == "";
  }

  lemma ReverseParts(n: string, z: string, p: string, s: string)
    ensures Reverse(Reverse(n) + z + p + s) == Reverse(s) + Reverse(p) + (Reverse(z) + n)
  {
  }

  // ---------------------------------------------------------- without zero padding

  /** The sign goes on top while there is room. */
  lemma SignStep(buf: string, negative: bool, f: Flags)
    requires |buf| + |FieldSign(negative, f)| <= BUFFER_SIZE
    ensures SignBuffer(buf, negative, f) == buf + FieldSign(negative, f)
  {
  }

  /** No padding to give back: the prefix goes on top while there is room. */
  lemma PrefixStep(buf: string, unpadded: nat, base: Radix, precision: u32, width: u32, f: Flags)
    requires unpadded == |buf| || (unpadded <= |buf| && f.precision)
    ensures base.Hex? && |buf| + 2 <= BUFFER_SIZE ==>
      PrefixBuffer(buf, unpadded, base, precision, width, f) == buf + (if f.upper then "X0" else "x0")
    ensures base.Oct? && |buf| + 1 <= BUFFER_SIZE ==>
      PrefixBuffer(buf, unpadded, base, precision, width, f) == buf + "0"
  {
    assert TakeBack(buf, unpadded, base, precision, width, f) == buf;
  }

  function Placed(body: string, width: u32, f: Flags): string {
    if f.left then body + Fill(' ', width - |body|) else Fill(' ', width - |body|) + body
  }

  lemma FieldPlain(v: u32, negative: bool, base: Radix, precision: u32, width: u32, f: Flags)
    requires !ZeroPadded(f)
    ensures var body := Body(v, negative, base, precision, f);
      Field(v, negative, base, precision, width, f) == Placed(body, width, f)
  {
    var sign, prefix, digits := FieldSign(negative, f), FieldPrefix(v, base, f), FieldDigits(v, base, f, precision);
    var pad := Fill(' ', width - |sign| - |prefix| - |digits|);
    assert pad + sign + prefix + digits == pad + (sign + prefix + digits);
  }

  /** The zeros that precision asks for, when they fit. */
  lemma PaddedPlain(d: string, precision: u32, width: u32, f: Flags, z: nat)
    requires !(f.zero && !f.left) && z == Max(0, precision - |d|) && |d| + z <= BUFFER_SIZE
    ensures PaddedBuffer(d, precision, width, f) == d + Fill('0', z)
  {
    assert Fill('0', Min(precision, BUFFER_SIZE) - |d|) == Fill('0', z);
  }

  lemma StartIsCore(v: u32, base: Radix, f: Flags)
    ensures StartDigits(v, base, f) == Reverse(Core(v, base, f))
  {
    if v == 0 && f.precision { assert Reverse("") == ""; }
  }

  /** The same for the prefix: octal counts as one more zero. */
  lemma PrefixPlain(d: string, base: Radix, precision: u32, width: u32, f: Flags, z: nat)
    requires !base.Bin? && (base.Dec? ==> !f.hash) && (!f.precision ==> z == 0)
    requires |d| + z + (if f.hash && base.Hex? then 2 else if f.hash && base.Oct? && z == 0 then 1 else 0) <= BUFFER_SIZE
    ensures var padded := d + Fill('0', z);
      (if f.hash && !(base.Oct? && |padded| > |d|) then PrefixBuffer(padded, |d|, base, precision, width, f) else padded)
      == d + Fill('0', if f.hash && base.Oct? then Max(z, 1) else z) + HexTail(base, f)
  {
    var padded := d + Fill('0', z);
    if f.hash && !(base.Oct? && z > 0) {
      PrefixStep(padded, |d|, base, precision, width, f);
      if base.Oct? { assert padded == d && Fill('0', 1) == "0"; }
    }
  }

  /** The buffer when nothing is lost, for any digits. */
  lemma PlainBuffer(d: string, negative: bool, base: Radix, precision: u32, width: u32, f: Flags, z: nat)
    requires !base.Bin? && (base.Dec? ==> !f.hash) && !(f.zero && !f.left)
    requires (!f.precision ==> precision == 0)
    requires z == Max(Max(0, precision - |d|), if f.hash && base.Oct? then 1 else 0)
    requires |d| + z + |HexTail(base, f)| + |FieldSign(negative, f)| <= BUFFER_SIZE
    ensures FinalBuffer(d, negative, base, precision, width, f) == Assembled(d, z, negative, base, f)
  {
    PaddedPlain(d, precision, width, f, Max(0, precision - |d|));
    PrefixPlain(d, base, precision, width, f, Max(0, precision - |d|));
    SignStep(d + Fill('0', z) + HexTail(base, f), negative, f);
  }

  lemma BodyLength(v: u32, negative: bool, base: Radix, precision: u32, f: Flags)
    ensures |Body(v, negative, base, precision, f)| == |FieldSign(negative, f)|
      + (if KeptHash(v, base, f) && base.Hex? then 2 else 0) + ExtraZeros(v, base, precision, f) + |Core(v, base, f)|
  {
    DigitsShape(v, base, precision, f);
  }

  /** Both sides of the comparison as a placed string. */
  lemma PlainText(v: u32, negative: bool, base: Radix, precision: u32, width: u32, f: Flags)
    requires Normal(negative, base, precision, f) && !ZeroPadded(f)
    ensures var g := f.(hash := KeptHash(v, base, f));
      IntegerText(v, negative, base, precision, width, f) ==
        Placed(Reverse(FinalBuffer(Reverse(Core(v, base, f)), negative, base, precision, width, g)), width, f)
    ensures Field(v, negative, base, precision, width, f) == Placed(Body(v, negative, base, precision, f), width, f)
  {
    StartIsCore(v, base, f);
    FieldPlain(v, negative, base, precision, width, f);
    var g := f.(hash := KeptHash(v, base, f));
    JustifiedIsPlaced(FinalBuffer(Reverse(Core(v, base, f)), negative, base, precision, width, g), width, g);
  }

  lemma JustifiedIsPlaced(buf: string, width: u32, f: Flags)
    requires f.left || !f.zero
    ensures Justified(buf, width, f) == Placed(Reverse(buf), width, f)
  {
    var r, pad := Reverse(buf), Fill(' ', width - |buf|);
    if f.left {
      assert "" + r + pad == r + pad;
    } else {
      assert pad + r + "" == pad + r;
    }
  }

  lemma PlainFits(v: u32, negative: bool, base: Radix, precision: u32, width: u32, f: Flags)
    requires Normal(negative, base, precision, f) && !ZeroPadded(f)
    requires |Body(v, negative, base, precision, f)| <= BUFFER_SIZE
    ensures IntegerText(v, negative, base, precision, width, f) == Field(v, negative, base, precision, width, f)
  {
    BodyLength(v, negative, base, precision, f);
    PlainBuffer(Reverse(Core(v, base, f)), negative, base, precision, width, f.(hash := KeptHash(v, base, f)),
                ExtraZeros(v, base, precision, f));
    PlainText(v, negative, base, precision, width, f);
    AssembledBody(v, negative, base, precision, f);
  }

  lemma AssembledBody(v: u32, negative: bool, base: Radix, precision: u32, f: Flags)
    ensures Reverse(Assembled(Reverse(Core(v, base, f)), ExtraZeros(v, base, precision, f), negative, base,
                              f.(hash := KeptHash(v, base, f))))
         == Body(v, negative, base, precision, f)
  {
    DigitsShape(v, base, precision, f);
    ReadBack(v, negative, base, ExtraZeros(v, base, precision, f), f);
  }

  /** Too long a body fills the buffer to the last cell; in base ten the digits alone do. */
  lemma FullBuffer(d: string, negative: bool, base: Radix, precision: u32, width: u32, f: Flags)
    requires !base.Bin? && (base.Dec? ==> !f.hash) && f.precision && !f.zero && |d| <= 11
    requires (!base.Dec? ==> FieldSign(negative, f) == "")
    requires precision + |FieldSign(negative, f)| + (if f.hash && base.Hex? then 2 else 0) > BUFFER_SIZE
    ensures |FinalBuffer(d, negative, base, precision, width, f)| == BUFFER_SIZE
    ensures base.Dec? ==>
      FinalBuffer(d, negative, base, precision, width, f) == d + Fill('0', BUFFER_SIZE - |d|)
  {
    var padded := PaddedBuffer(d, precision, width, f);
    assert padded == d + Fill('0', Min(precision, BUFFER_SIZE) - |d|);
    assert TakeBack(padded, |d|, base, precision, width, f) == padded;
  }

  /** A body of more than 32 characters needs a precision of at least 31. */
  lemma LongBody(v: u32, negative: bool, base: Radix, precision: u32, f: Flags)
    requires Normal(negative, base, precision, f) && |Body(v, negative, base, precision, f)| > BUFFER_SIZE
    ensures f.precision && |Core(v, base, f)| <= 11 && precision >= 31
    ensures |FieldDigits(v, base, f, precision)| == precision
  {
    DigitsShape(v, base, precision, f);
    WordDigits(v, base, f.upper);
  }

  /** A full buffer cannot stand for a longer body that has a visible character
      where the buffer's padding begins. */
  lemma Mismatch(full: string, body: string, width: u32, f: Flags)
    requires |full| == BUFFER_SIZE < |body|
    requires width >= |body| ==> body[if f.left then BUFFER_SIZE else |body| - BUFFER_SIZE - 1] != ' '
    ensures Placed(full, width, f) != Placed(body, width, f)
  {
    var text, field := Placed(full, width, f), Placed(body, width, f);
    if width >= |body| {
      var i := if f.left then BUFFER_SIZE else width - BUFFER_SIZE - 1;
      assert text[i] == ' ' && field[i] != ' ';
    } else {
      assert |text| != |field|;
    }
  }

  /** Too long a body: the text is not the field, unless the only loss is a space
      sign that right-justification supplies again. */
  lemma PlainOverflow(v: u32, negative: bool, base: Radix, precision: u32, width: u32, f: Flags)
    requires Normal(negative, base, precision, f) && !ZeroPadded(f)
    requires |Body(v, negative, base, precision, f)| > BUFFER_SIZE
    ensures IntegerText(v, negative, base, precision, width, f) == Field(v, negative, base, precision, width, f)
       <==> Fits(v, negative, base, precision, width, f)
  {
    LongBody(v, negative, base, precision, f);
    if Fits(v, negative, base, precision, width, f) {
      OverflowSame(v, negative, base, precision, width, f);
    } else {
      OverflowDiffers(v, negative, base, precision, width, f);
    }
  }

  lemma OverflowDiffers(v: u32, negative: bool, base: Radix, precision: u32, width: u32, f: Flags)
    requires Normal(negative, base, precision, f) && !ZeroPadded(f)
    requires |Body(v, negative, base, precision, f)| > BUFFER_SIZE && !Fits(v, negative, base, precision, width, f)
    ensures IntegerText(v, negative, base, precision, width, f) != Field(v, negative, base, precision, width, f)
  {
    LongBody(v, negative, base, precision, f);
    PlainText(v, negative, base, precision, width, f);
    var g := f.(hash := KeptHash(v, base, f));
    var d := Reverse(Core(v, base, f));
    FullBuffer(d, negative, base, precision, width, g);
    var body := Body(v, negative, base, precision, f);
    BodySpaces(v, negative, base, precision, f, if f.left then BUFFER_SIZE else |body| - BUFFER_SIZE - 1);
    Mismatch(Reverse(FinalBuffer(d, negative, base, precision, width, g)), body, width, f);
  }

  lemma OverflowSame(v: u32, negative: bool, base: Radix, precision: u32, width: u32, f: Flags)
    requires Normal(negative, base, precision, f) && f.precision && precision == BUFFER_SIZE
    requires FieldSign(negative, f) == " " && width > BUFFER_SIZE && !f.left && |Core(v, base, f)| <= 11
    ensures IntegerText(v, negative, base, precision, width, f) == Field(v, negative, base, precision, width, f)
  {
    assert f == f.(hash := KeptHash(v, base, f));
    PlainText(v, negative, base, precision, width, f);
    FullBuffer(Reverse(Core(v, base, f)), negative, base, precision, width, f);
    LostSpace(v, negative, base, precision, width, f);
  }

  lemma LostSpace(v: u32, negative: bool, base: Radix, precision: u32, width: u32, f: Flags)
    requires Normal(negative, base, precision, f) && f.precision && precision == BUFFER_SIZE
    requires FieldSign(negative, f) == " " && width > BUFFER_SIZE && !f.left && |Core(v, base, f)| <= 11
    ensures var d := Reverse(Core(v, base, f));
      Placed(Reverse(d + Fill('0', BUFFER_SIZE - |d|)), width, f) == Placed(Body(v, negative, base, precision, f), width, f)
  {
    hide Numeral, Placed, FieldDigits, Core;
    DigitsShape(v, base, precision, f);
    var n := Core(v, base, f);
    var zeros := Fill('0', BUFFER_SIZE - |n|);
    ReverseParts(n, zeros, "", "");
    assert Reverse(n) + zeros + "" + "" == Reverse(n) + zeros;
    assert Reverse("") + Reverse("") + (Reverse(zeros) + n) == zeros + n;
    assert Body(v, negative, base, precision, f) == " " + (zeros + n);
    SpaceInFront(zeros + n, width, f);
  }

  lemma SpaceInFront(d: string, width: u32, f: Flags)
    requires |d| < width && !f.left
    ensures Placed(d, width, f) == Placed(" " + d, width, f)
  {
    var short := Fill(' ', width - |d| - 1);
    assert Fill(' ', width - |d|) == short + " ";
    assert short + " " + d == short + (" " + d);
  }

  // ------------------------------------------------------------- zero padding

  /** Hexadecimal under # gives back up to two padding zeros for 0x. */
  lemma TakeBackTwo(d: string, width: u32, f: Flags)
    requires 1 <= |d| <= 11 && width <= BUFFER_SIZE && !f.precision
    ensures var z := Max(0, width - |d|);
      TakeBack(d + Fill('0', z), |d|, Hex, 0, width, f) == d + Fill('0', width - 2 - |d|)
  {
    var z := Max(0, width - |d|);
    if z >= 2 {
      assert (d + Fill('0', z))[..|d| + z - 1] == d + Fill('0', z - 1);
      assert (d + Fill('0', z - 1))[..|d| + z - 2] == d + Fill('0', z - 2);
    } else if z == 1 {
      assert (d + Fill('0', 1))[..|d|] == d;
    }
  }

  lemma PaddedZero(d: string, w: u32, f: Flags)
    requires f.zero && !f.left && w <= BUFFER_SIZE
    ensures PaddedBuffer(d, 0, w, f) == d + Fill('0', w - |d|)
  {
    var padded := ZeroFill(d, w);
    assert padded == d + Fill('0', w - |d|);
    assert padded + Fill('0', 0 - |padded|) == padded;
  }

  lemma ZeroHex(d: string, w: u32, f: Flags)
    requires ZeroPadded(f) && f.hash && 1 <= |d| <= 11 && w <= BUFFER_SIZE
    requires FieldSign(false, f) == ""
    ensures FinalBuffer(d, false, Hex, 0, w, f) == Assembled(d, w - 2 - |d|, false, Hex, f)
  {
    PaddedZero(d, w, f);
    TakeBackTwo(d, w, f);
    assert Fill('0', w - |d|) == Fill('0', Max(0, w - |d|));
    var b := d + Fill('0', w - 2 - |d|);
    assert |b| <= 30;
    assert Push(Push(b, if f.upper then 'X' else 'x'), '0') == b + HexTail(Hex, f);
  }

  lemma ZeroOct(d: string, w: u32, f: Flags)
    requires ZeroPadded(f) && f.hash && 1 <= |d| <= 11 && w <= BUFFER_SIZE
    requires FieldSign(false, f) == ""
    ensures FinalBuffer(d, false, Oct, 0, w, f) == Assembled(d, Max(w - |d|, 1), false, Oct, f)
  {
    PaddedZero(d, w, f);
    if w <= |d| {
      assert d + Fill('0', w - |d|) == d && Fill('0', 1) == "0";
      PrefixStep(d, |d|, Oct, 0, w, f);
    }
  }

  lemma ZeroPlain(d: string, negative: bool, base: Radix, w: u32, f: Flags)
    requires ZeroPadded(f) && !f.hash && 1 <= |d| <= 11
    requires w + |FieldSign(negative, f)| <= BUFFER_SIZE
    ensures FinalBuffer(d, negative, base, 0, w, f) == Assembled(d, w - |d|, negative, base, f)
  {
    PaddedZero(d, w, f);
    SignStep(d + Fill('0', w - |d|), negative, f);
    assert d + Fill('0', w - |d|) + "" == d + Fill('0', w - |d|);
  }

  /** The zero-padded buffer of at most 32 columns; `w` has made room for the sign. */
  lemma ZeroBuffer(d: string, negative: bool, base: Radix, w: u32, f: Flags)
    requires !base.Bin? && (base.Dec? ==> !f.hash) && ZeroPadded(f) && 1 <= |d| <= 11
    requires (!base.Dec? ==> !negative && FieldSign(negative, f) == "") && w + |FieldSign(negative, f)| <= BUFFER_SIZE
    ensures FinalBuffer(d, negative, base, 0, w, f)
         == Assembled(d, Max(w - |HexTail(base, f)| - |d|, if f.hash && base.Oct? then 1 else 0), negative, base, f)
  {
    if f.hash && base.Hex? {
      ZeroHex(d, w, f);
      assert Fill('0', w - 2 - |d|) == Fill('0', Max(w - 2 - |d|, 0));
    } else if f.hash {
      ZeroOct(d, w, f);
    } else {
      ZeroPlain(d, negative, base, w, f);
      assert Fill('0', w - |d|) == Fill('0', Max(w - |d|, 0));
    }
  }

  /** The zero-padded field, with the padding and the octal zero in one run. */
  lemma FieldZero(v: u32, negative: bool, base: Radix, width: u32, f: Flags)
    requires ZeroPadded(f)
    ensures var sign, prefix, core := FieldSign(negative, f), FieldPrefix(v, base, f), Core(v, base, f);
      var z := ExtraZeros(v, base, 0, f);
      Field(v, negative, base, 0, width, f) ==
        sign + prefix + (Fill('0', Max(z, width - |sign| - |prefix| - |core|)) + core)
  {
    DigitsShape(v, base, 0, f);
    var sign, prefix, core := FieldSign(negative, f), FieldPrefix(v, base, f), Core(v, base, f);
    var z := ExtraZeros(v, base, 0, f);
    MergeZeros(sign + prefix, width - |sign| - |prefix| - |core| - z, z, core);
  }

  lemma MergeZeros(front: string, room: int, z: nat, core: string)
    ensures front + Fill('0', room) + (Fill('0', z) + core) == front + (Fill('0', Max(z, room + z)) + core)
  {
    assert Fill('0', room) + Fill('0', z) == Fill('0', Max(z, room + z));
  }

  lemma ZeroFits(v: u32, negative: bool, base: Radix, width: u32, f: Flags)
    requires Normal(negative, base, 0, f) && ZeroPadded(f) && width <= BUFFER_SIZE
    ensures IntegerText(v, negative, base, 0, width, f) == Field(v, negative, base, 0, width, f)
  {
    ZeroTextParts(v, negative, base, width, f);
    ZeroCount(v, negative, base, width, f);
    FieldZero(v, negative, base, width, f);
  }

  /** The zeros print_integer puts between prefix and digits when padding with zeros. */
  function CodeZeros(v: u32, negative: bool, base: Radix, width: u32, f: Flags): int {
    var g := f.(hash := KeptHash(v, base, f));
    Max(SignedWidth(width, negative, g) - |HexTail(base, g)| - |Core(v, base, f)|, if g.hash && base.Oct? then 1 else 0)
  }

  lemma ZeroTextParts(v: u32, negative: bool, base: Radix, width: u32, f: Flags)
    requires Normal(negative, base, 0, f) && ZeroPadded(f) && width <= BUFFER_SIZE
    ensures IntegerText(v, negative, base, 0, width, f) ==
      FieldSign(negative, f) + FieldPrefix(v, base, f)
      + (Fill('0', CodeZeros(v, negative, base, width, f)) + Core(v, base, f))
  {
    hide IntegerText, FinalBuffer, Numeral, Reverse, Assembled;
    var g := f.(hash := KeptHash(v, base, f));
    WordDigits(v, base, f.upper);
    ZeroText(v, negative, base, width, f);
    ZeroBuffer(Reverse(Core(v, base, f)), negative, base, SignedWidth(width, negative, g), g);
    ReadBack(v, negative, base, CodeZeros(v, negative, base, width, f), f);
  }

  /** The code and the standard leave the same number of zeros. */
  lemma ZeroCount(v: u32, negative: bool, base: Radix, width: u32, f: Flags)
    requires Normal(negative, base, 0, f) && ZeroPadded(f)
    ensures CodeZeros(v, negative, base, width, f)
      == Max(ExtraZeros(v, base, 0, f),
             width - |FieldSign(negative, f)| - |FieldPrefix(v, base, f)| - |Core(v, base, f)|)
  {
  }

  lemma ZeroText(v: u32, negative: bool, base: Radix, width: u32, f: Flags)
    requires Normal(negative, base, 0, f) && ZeroPadded(f)
    ensures var g := f.(hash := KeptHash(v, base, f));
      IntegerText(v, negative, base, 0, width, f) ==
        Reverse(FinalBuffer(Reverse(Core(v, base, f)), negative, base, 0, SignedWidth(width, negative, g), g))
  {
    var g := f.(hash := KeptHash(v, base, f));
    var w := SignedWidth(width, negative, g);
    StartIsCore(v, base, f);
    EmptyPad(FinalBuffer(Reverse(Core(v, base, f)), negative, base, 0, w, g), w, g);
  }

  lemma EmptyPad(buf: string, width: u32, f: Flags)
    requires f.zero && !f.left
    ensures Justified(buf, width, f) == Reverse(buf)
  {
  }

  /** The buffer never holds more than 32 characters. */
  lemma BufferBound(d: string, negative: bool, base: Radix, precision: u32, width: u32, f: Flags)
    requires |d| <= BUFFER_SIZE
    ensures |FinalBuffer(d, negative, base, precision, width, f)| <= BUFFER_SIZE
  {
  }

  lemma ZeroTooWide(v: u32, negative: bool, base: Radix, width: u32, f: Flags)
    requires Normal(negative, base, 0, f) && ZeroPadded(f) && width > BUFFER_SIZE
    ensures IntegerText(v, negative, base, 0, width, f) != Field(v, negative, base, 0, width, f)
  {
    WordDigits(v, base, f.upper);
    ZeroText(v, negative, base, width, f);
    var g := f.(hash := KeptHash(v, base, f));
    BufferBound(Reverse(Core(v, base, f)), negative, base, 0, SignedWidth(width, negative, g), g);
    FieldZero(v, negative, base, width, f);
    assert |Field(v, negative, base, 0, width, f)| >= width;
  }

  // ------------------------------------------------------------- the main result

  /** For every 32-bit magnitude, base eight, ten or sixteen, flag set, precision and
      width: print_integer emits the standard's field exactly when Fits holds. */
  lemma IntegerTextIsField(v: u32, negative: bool, base: Radix, precision: u32, width: u32, f: Flags)
    requires Normal(negative, base, precision, f)
    ensures IntegerText(v, negative, base, precision, width, f) == Field(v, negative, base, precision, width, f)
       <==> Fits(v, negative, base, precision, width, f)
  {
    if ZeroPadded(f) {
      if width <= BUFFER_SIZE {
        ZeroFits(v, negative, base, width, f);
      } else {
        ZeroTooWide(v, negative, base, width, f);
      }
    } else if |Body(v, negative, base, precision, f)| <= BUFFER_SIZE {
      PlainFits(v, negative, base, precision, width, f);
    } else {
      PlainOverflow(v, negative, base, precision, width, f);
    }
  }
}
