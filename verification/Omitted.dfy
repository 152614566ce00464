/** A negative star precision. The C standard takes it as if the precision were omitted, the
    code reads it as zero; here is when the two still print the same. */
module Omitted {
  import opened Words
  import opened Numerals
  import opened Gadget
  import opened IntegerFormat
  import opened IntegerField
  import opened FormatLoop
  import opened PrintfTheorems

  /** The room left for padding in a field without a precision. */
  function Room(v: nat, negative: bool, base: Radix, width: nat, f: Flags): int {
    width - |FieldSign(negative, f)| - |FieldPrefix(v, base, f)| - |FieldDigits(v, base, f.(precision := false), 0)|
  }

  /** The value has digits at precision zero, and no zeros pad the field. */
  predicate Harmless(v: nat, negative: bool, base: Radix, width: nat, f: Flags) {
    && (v != 0 || (base.Oct? && f.hash))
    && !(f.zero && !f.left && Room(v, negative, base, width, f) > 0)
  }

  /** The digits at precision zero. */
  lemma ZeroPrecisionDigits(v: nat, base: Radix, f: Flags)
    requires f.precision
    ensures FieldDigits(v, base, f, 0) ==
      if v != 0 || (base.Oct? && f.hash) then FieldDigits(v, base, f.(precision := false), 0) else ""
  {
    var n := Numeral(v, base, f.upper);
    assert Fill('0', 0 - |n|) + n == n && Fill('0', 1 - |n|) + n == n;
    if v == 0 {
      assert n == ['0'] && "0" + "" == "0";
    }
  }

  /** Spaces in front of the sign against zeros behind it. */
  lemma PaddingDiffers(sign: string, prefix: string, digits: string, room: nat)
    requires room > 0 && |sign| <= 1 && '0' !in sign && (prefix != "" ==> prefix[0] == '0')
    ensures Fill(' ', room) + sign + prefix + digits != sign + prefix + Fill('0', room) + digits
  {
    var a, b := Fill(' ', room) + sign + prefix + digits, sign + prefix + Fill('0', room) + digits;
    var k := |sign|;
    assert b[k] == '0' by {
      assert b[k] == if prefix != "" then prefix[0] else Fill('0', room)[0];
    }
    if k < room {
      assert a[k] == ' ';
    } else {
      assert a[k] == sign[0] && sign[0] in sign;
    }
  }

  /** The two ways to fill a field. */
  function Filled(sign: string, prefix: string, digits: string, room: int, left: bool, zeros: bool): string {
    if left then sign + prefix + digits + Fill(' ', room)
    else if zeros then sign + prefix + Fill('0', room) + digits
    else Fill(' ', room) + sign + prefix + digits
  }

  lemma FieldsFilled(v: nat, negative: bool, base: Radix, width: nat, f: Flags)
    requires f.precision && (v != 0 || (base.Oct? && f.hash))
    ensures var digits, room := FieldDigits(v, base, f.(precision := false), 0), Room(v, negative, base, width, f);
      && Field(v, negative, base, 0, width, f) == Filled(FieldSign(negative, f), FieldPrefix(v, base, f), digits, room, f.left, false)
      && Field(v, negative, base, 0, width, f.(precision := false))
           == Filled(FieldSign(negative, f), FieldPrefix(v, base, f), digits, room, f.left, f.zero)
  {
    ZeroPrecisionDigits(v, base, f);
    SamePrefix(v, negative, base, f);
    FieldFilled(v, negative, base, width, f);
    FieldFilled(v, negative, base, width, f.(precision := false));
    hide Field, FieldDigits, FieldSign, FieldPrefix, Filled;
  }

  lemma SamePrefix(v: nat, negative: bool, base: Radix, f: Flags)
    ensures FieldSign(negative, f.(precision := false)) == FieldSign(negative, f)
    ensures FieldPrefix(v, base, f.(precision := false)) == FieldPrefix(v, base, f)
  {
  }

  lemma FieldFilled(v: nat, negative: bool, base: Radix, width: nat, f: Flags)
    ensures var sign, prefix, digits := FieldSign(negative, f), FieldPrefix(v, base, f), FieldDigits(v, base, f, 0);
      Field(v, negative, base, 0, width, f)
      == Filled(sign, prefix, digits, width - |sign| - |prefix| - |digits|, f.left, ZeroPadded(f))
  {
    hide FieldDigits, FieldSign, FieldPrefix, Fill;
  }

  lemma FilledAlike(sign: string, prefix: string, digits: string, room: int, left: bool, zeros: bool)
    requires |sign| <= 1 && '0' !in sign && (prefix != "" ==> prefix[0] == '0')
    ensures Filled(sign, prefix, digits, room, left, false) == Filled(sign, prefix, digits, room, left, zeros)
       <==> !(zeros && !left && room > 0)
  {
    if zeros && !left {
      if room > 0 {
        PaddingDiffers(sign, prefix, digits, room);
      } else {
        NoRoom(sign, prefix, digits, room);
      }
    }
  }

  /** A zero is printed where the other text has none. */
  lemma ZeroMissing(v: nat, negative: bool, base: Radix, width: nat, f: Flags)
    requires f.precision && v == 0 && !(base.Oct? && f.hash)
    ensures Field(v, negative, base, 0, width, f) != Field(v, negative, base, 0, width, f.(precision := false))
  {
    ZeroPrecisionDigits(v, base, f);
    ZeroDigits(base, f);
    SamePrefix(v, negative, base, f);
    FieldFilled(v, negative, base, width, f);
    FieldFilled(v, negative, base, width, f.(precision := false));
    var sign := FieldSign(negative, f);
    assert FieldPrefix(v, base, f) == "" && '0' !in sign;
    hide Field, FieldDigits, FieldSign, FieldPrefix, Filled;
    OnlyOneHasZero(sign, width - |sign|, width - |sign| - 1, f.left, f.zero);
  }

  lemma ZeroDigits(base: Radix, f: Flags)
    requires f.precision && !(base.Oct? && f.hash)
    ensures FieldDigits(0, base, f.(precision := false), 0) == "0"
  {
    var n := Numeral(0, base, f.upper);
    assert n == "0" && Fill('0', 1 - |n|) + n == n;
  }

  lemma OnlyOneHasZero(sign: string, room: int, less: int, left: bool, zeros: bool)
    requires '0' !in sign
    ensures Filled(sign, "", "", room, left, false) != Filled(sign, "", "0", less, left, zeros)
  {
    var a, b := Filled(sign, "", "", room, left, false), Filled(sign, "", "0", less, left, zeros);
    assert '0' !in a by { NoZero(sign, room); }
    var at := if left then |sign| else |b| - 1;
    assert b[at] == '0';
  }

  lemma NoZero(sign: string, room: int)
    requires '0' !in sign
    ensures '0' !in sign + "" + "" + Fill(' ', room) && '0' !in Fill(' ', room) + sign + "" + ""
  {
  }

  /** A field with precision zero is the field without a precision exactly when this is
      harmless. */
  lemma OmittedField(v: nat, negative: bool, base: Radix, width: nat, f: Flags)
    requires f.precision
    ensures Field(v, negative, base, 0, width, f) == Field(v, negative, base, 0, width, f.(precision := false))
       <==> Harmless(v, negative, base, width, f)
  {
    hide Field, FieldDigits, Filled, Room;
    if v == 0 && !(base.Oct? && f.hash) {
      ZeroMissing(v, negative, base, width, f);
    } else {
      FieldsFilled(v, negative, base, width, f);
      FilledAlike(FieldSign(negative, f), FieldPrefix(v, base, f), FieldDigits(v, base, f.(precision := false), 0),
                  Room(v, negative, base, width, f), f.left, f.zero);
    }
  }

  lemma NoRoom(sign: string, prefix: string, digits: string, room: int)
    requires room <= 0
    ensures Fill(' ', room) + sign + prefix + digits == sign + prefix + Fill('0', room) + digits
  {
  }

  // ------------------------------------------------------------- conversions

  /** The standard's reading of a directive whose precision is to be taken as omitted. */
  function WithoutPrecision(d: Directive): (e: Directive)
    requires d.Directive?
    ensures e.Directive?
  {
    d.(flags := d.flags.(precision := false))
  }

  /** What a caller can look at: the value converted, the flags and the width. */
  predicate HarmlessDirective(c: char, d: Directive, bits: u32)
    requires d.Directive?
  {
    var v := ArgValue(c, bits, d.flags);
    Harmless(if v < 0 then -v else v, v < 0, BaseOf(c), d.width, StandardFlags(c, d.flags))
  }

  /** At precision zero everything fits the work buffer. */
  lemma ZeroPrecisionFits(v: u32, negative: bool, base: Radix, width: u32, f: Flags)
    requires f.precision && !base.Bin?
    ensures Fits(v, negative, base, 0, width, f)
  {
    WordDigits(v, base, f.upper);
    var n := Numeral(v, base, f.upper);
    assert Fill('0', 0 - |n|) == "" && "" + n == n;
  }

  /** A d, i, u, o, x or X directive whose star precision was negative prints the standard's
      field, in which the precision counts as omitted, if and only if the value has digits
      at precision zero and the field is not padded with zeros. */
  lemma NegativePrecision(c: char, d: Directive, bits: u32)
    requires d.Directive? && c in {'d', 'i', 'u', 'o', 'x', 'X'}
    requires !d.flags.upper && d.flags.precision && d.precision == 0
    ensures IntegerConversion(c, d, bits) == StandardField(c, WithoutPrecision(d), bits) <==> HarmlessDirective(c, d, bits)
  {
    hide Field, IntegerText, IntegerConversion, Harmless, Fits, AbsForPrinting, BaseOf;
    var v := ArgValue(c, bits, d.flags);
    ConversionIsStandard(c, d, bits);
    assert BaseOf(c) != Bin by { BaseKnown(c); }
    ZeroPrecisionFits(AbsForPrinting(v), v < 0, BaseOf(c), d.width, IntegerFlags(c, d.flags));
    SameArgument(c, bits, d.flags);
    hide ArgValue;
    OmittedField(if v < 0 then -v else v, v < 0, BaseOf(c), d.width, StandardFlags(c, d.flags));
  }

  lemma BaseKnown(c: char)
    requires c in {'d', 'i', 'u', 'o', 'x', 'X'}
    ensures BaseOf(c) != Bin
  {
  }

  lemma SameArgument(c: char, bits: u32, f: Flags)
    ensures ArgValue(c, bits, f.(precision := false)) == ArgValue(c, bits, f)
    ensures StandardFlags(c, f.(precision := false)) == StandardFlags(c, f).(precision := false)
  {
  }

  /** The string field by the standard: all of the string, in a field of spaces. */
  function PaddedString(s: string, width: nat, left: bool): string {
    if left then s + Fill(' ', width - |s|) else Fill(' ', width - |s|) + s
  }

  predicate AllSpaces(s: string) { forall i | 0 <= i < |s| :: s[i] == ' ' }

  /** A %s whose star precision was negative prints nothing of the string. That is the whole
      string exactly when it is spaces that the padding supplies. */
  lemma NegativeStringPrecision(s: string, width: u32, f: Flags)
    requires f.precision && |s| <= INT_MAX
    ensures StringText(Some(s), 0, width, f) == PaddedString(s, width, f.left) <==> AllSpaces(s) && |s| <= width
  {
    StringIsStandard(s, 0, width, f);
    var pad := Fill(' ', width);
    assert s[..0] == "" && pad + "" == pad && "" + pad == pad;
    assert StringText(Some(s), 0, width, f) == pad;
    hide StringText;
    SpacesPadded(s, width, f.left);
  }

  lemma SpacesPadded(s: string, width: u32, left: bool)
    ensures Fill(' ', width) == PaddedString(s, width, left) <==> AllSpaces(s) && |s| <= width
  {
    var text, pad := PaddedString(s, width, left), |Fill(' ', width - |s|)|;
    var at := if left then 0 else pad;
    assert text[at..at + |s|] == s;
    if Fill(' ', width) == text {
      forall i | 0 <= i < |s| ensures s[i] == ' ' {
        assert s[i] == text[at..at + |s|][i] == text[at + i];
      }
    }
  }

  /** The smallest failing call: printing 0 with format "%.*u" and precision -1 yields the
      empty text, and the standard asks for "0". */
  lemma NegativePrecisionFails()
    ensures var d := DirectiveAt("%.*u", 1, [Word(0xffff_ffff), Word(0)], 0);
      && d.Directive? && d.flags.precision && d.precision == 0 && d.at == 3 && d.arg == 1
      && IntegerConversion('u', d, 0) == "" && StandardField('u', WithoutPrecision(d), 0) == "0"
  {
    NegativeRead();
    hide *;
    NothingPrinted();
  }

  const READ := Directive(NO_FLAGS.(precision := true), 0, 0, 3, 1)

  lemma NegativeRead()
    ensures DirectiveAt("%.*u", 1, [Word(0xffff_ffff), Word(0)], 0) == READ
    ensures READ.Directive? && READ.flags.precision && READ.precision == 0 && READ.at == 3 && READ.arg == 1
  {
    var fmt, args := "%.*u", [Word(0xffff_ffff), Word(0)];
    assert FlagsFrom(fmt, 1, NO_FLAGS) == (NO_FLAGS, 1);
    assert WidthPart(fmt, 1, args, 0, NO_FLAGS) == Part(NO_FLAGS, 0, 1, 0);
    assert PrecisionPart(fmt, 1, args, 0, NO_FLAGS) == Part(READ.flags, 0, 3, 1);
    assert LengthPart(fmt, 3, 1, READ.flags) == Part(READ.flags, 0, 3, 1);
  }

  lemma NothingPrinted()
    ensures IntegerConversion('u', READ, 0) == "" && StandardField('u', WithoutPrecision(READ), 0) == "0"
  {
    EngineNothing();
    StandardZero();
    hide *;
  }

  lemma EngineNothing()
    ensures IntegerConversion('u', READ, 0) == ""
  {
    var f := NO_FLAGS.(precision := true);
    assert IntegerFlags('u', f) == f && BaseOf('u') == Dec && ArgValue('u', 0, f) == 0;
    assert StartDigits(0, Dec, f) == "" && KeptHash(0, Dec, f) == f.hash;
    assert FinalBuffer("", false, Dec, 0, 0, f) == "" && Justified("", 0, f) == "";
  }

  lemma StandardZero()
    ensures StandardField('u', WithoutPrecision(READ), 0) == "0"
  {
    var f := StandardFlags('u', NO_FLAGS);
    assert f == NO_FLAGS && BaseOf('u') == Dec && ArgValue('u', 0, NO_FLAGS) == 0;
    assert Numeral(0, Dec, false) == "0" && FieldDigits(0, Dec, NO_FLAGS, 0) == "0";
  }
}
