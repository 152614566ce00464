/** What the printf engine promises its callers: the C standard's fields for directives as
    read, renderings piece by piece, and a parser that reads back what the printer writes. */
module PrintfTheorems {
  import opened Words
  import opened Numerals
  import opened Gadget
  import opened IntegerFormat
  import opened IntegerField
  import opened FormatLoop

  // ------------------------------------------------------------- the C standard

  /** Sign flags count only for d and i, # only for o, x and X. */
  function StandardFlags(c: char, f: Flags): Flags {
    var signed := c == 'd' || c == 'i';
    f.(upper := c == 'X', hash := f.hash && (c == 'o' || c == 'x' || c == 'X'),
       plus := f.plus && signed, space := f.space && signed)
  }

  /** The field of a d, i, u, o, x or X directive by section 7.21.6.1 of
      ISO/IEC 9899:2011, for the argument `bits`. */
  function StandardField(c: char, d: Directive, bits: u32): string
    requires d.Directive?
  {
    var v := ArgValue(c, bits, d.flags);
    Field(if v < 0 then -v else v, v < 0, BaseOf(c), d.precision, d.width, StandardFlags(c, d.flags))
  }

  predicate DirectiveFits(c: char, d: Directive, bits: u32)
    requires d.Directive?
  {
    var v := ArgValue(c, bits, d.flags);
    Fits(AbsForPrinting(v), v < 0, BaseOf(c), d.precision, d.width, IntegerFlags(c, d.flags))
  }

  /** The 0 flag means nothing beside a precision. */
  lemma FieldIgnoresZero(v: nat, negative: bool, base: Radix, precision: nat, width: nat, f: Flags)
    requires f.precision
    ensures Field(v, negative, base, precision, width, f)
         == Field(v, negative, base, precision, width, f.(zero := false))
  {
    hide Numeral, Fill;
    assert FieldDigits(v, base, f, precision) == FieldDigits(v, base, f.(zero := false), precision);
  }

  /** Every integer directive and every 32-bit argument, the most negative one
      included: the text is the standard's field exactly when it fits. What is
      required of the directive holds of every DirectiveAt. */
  lemma ConversionIsStandard(c: char, d: Directive, bits: u32)
    requires d.Directive? && c in {'d', 'i', 'u', 'o', 'x', 'X'}
    requires !d.flags.upper && (!d.flags.precision ==> d.precision == 0)
    ensures IntegerConversion(c, d, bits) == StandardField(c, d, bits) <==> DirectiveFits(c, d, bits)
  {
    hide Field, IntegerText, Fits, ArgValue, AbsForPrinting, BaseOf, StandardFlags, IntegerFlags;
    var v := ArgValue(c, bits, d.flags);
    Magnitude(c, bits, d.flags);
    FlagsAgree(c, v < 0, d);
    SameField(AbsForPrinting(v), v < 0, BaseOf(c), d.precision, d.width, StandardFlags(c, d.flags));
  }

  lemma FlagsAgree(c: char, negative: bool, d: Directive)
    requires d.Directive? && c in {'d', 'i', 'u', 'o', 'x', 'X'} && (negative ==> c == 'd' || c == 'i')
    requires !d.flags.upper && (!d.flags.precision ==> d.precision == 0)
    ensures var f := StandardFlags(c, d.flags);
      && IntegerFlags(c, d.flags) == f.(zero := f.zero && !f.precision)
      && Normal(negative, BaseOf(c), d.precision, IntegerFlags(c, d.flags))
  {
  }

  /** The main result of IntegerField for flags as the directive has them. */
  lemma SameField(v: u32, negative: bool, base: Radix, precision: u32, width: u32, f: Flags)
    requires Normal(negative, base, precision, f.(zero := f.zero && !f.precision))
    ensures var g := f.(zero := f.zero && !f.precision);
      IntegerText(v, negative, base, precision, width, g) == Field(v, negative, base, precision, width, f)
      <==> Fits(v, negative, base, precision, width, g)
  {
    hide Field, IntegerText, Fits;
    IntegerTextIsField(v, negative, base, precision, width, f.(zero := f.zero && !f.precision));
    if f.precision {
      FieldIgnoresZero(v, negative, base, precision, width, f);
    } else {
      assert f.(zero := f.zero && !f.precision) == f;
    }
  }

  /** ABS_FOR_PRINTING yields the magnitude, also of the most negative argument. */
  lemma Magnitude(c: char, bits: u32, f: Flags)
    ensures var v := ArgValue(c, bits, f);
      AbsForPrinting(v) == (if v < 0 then -v else v) && (v < 0 ==> c == 'd' || c == 'i')
  {
  }

  /** The size of the type that the length modifiers select. */
  function TypeSize(f: Flags): nat {
    if f.long then 0x1_0000_0000 else if f.char8 then 0x100 else if f.short then 0x1_0000 else 0x1_0000_0000
  }

  predicate Congruent(a: int, b: int, f: Flags) {
    if f.long then (a - b) % 0x1_0000_0000 == 0 else if f.char8 then (a - b) % 0x100 == 0
    else if f.short then (a - b) % 0x1_0000 == 0 else (a - b) % 0x1_0000_0000 == 0
  }

  /** An argument is converted to the type its length modifiers select: the value of that
      type, signed for d and i and unsigned for the others, that is congruent to the argument
      word. */
  lemma ArgumentValue(c: char, bits: u32, f: Flags)
    ensures Congruent(ArgValue(c, bits, f), bits, f)
    ensures if c == 'd' || c == 'i' then 0 - TypeSize(f) <= 2 * ArgValue(c, bits, f) < TypeSize(f)
            else 0 <= ArgValue(c, bits, f) < TypeSize(f)
  {
    LowBits(bits);
  }

  lemma LowBits(bits: u32)
    ensures (bits % 0x100 - bits) % 0x100 == 0 && (bits % 0x100 - 0x100 - bits) % 0x100 == 0
    ensures (bits % 0x1_0000 - bits) % 0x1_0000 == 0 && (bits % 0x1_0000 - 0x1_0000 - bits) % 0x1_0000 == 0
    ensures (bits - 0x1_0000_0000 - bits) % 0x1_0000_0000 == 0
  {
    LowByte(bits / 0x100, bits % 0x100);
    LowHalf(bits / 0x1_0000, bits % 0x1_0000);
  }

  lemma LowByte(q: int, r: int)
    ensures (r - (0x100 * q + r)) % 0x100 == 0 && (r - 0x100 - (0x100 * q + r)) % 0x100 == 0
  {
    assert (0x100 * (0 - q)) % 0x100 == 0 && (0x100 * (0 - q - 1)) % 0x100 == 0;
  }

  lemma LowHalf(q: int, r: int)
    ensures (r - (0x1_0000 * q + r)) % 0x1_0000 == 0 && (r - 0x1_0000 - (0x1_0000 * q + r)) % 0x1_0000 == 0
  {
    assert (0x1_0000 * (0 - q)) % 0x1_0000 == 0 && (0x1_0000 * (0 - q - 1)) % 0x1_0000 == 0;
  }

  /** %s shows at most `precision` characters of the string and fills the field with
      spaces on the side the - flag says, for every string of at most INT_MAX characters. */
  lemma StringIsStandard(s: string, precision: u32, width: u32, f: Flags)
    requires |s| <= INT_MAX && (!f.precision ==> precision == 0)
    ensures var shown := s[..if f.precision then Min(|s|, precision) else |s|];
      StringText(Some(s), precision, width, f) ==
        (if f.left then "" else Fill(' ', width - |shown|)) + shown + (if f.left then Fill(' ', width - |shown|) else "")
  {
    var shown := s[..if f.precision then Min(|s|, precision) else |s|];
    assert shown == Shown(s, precision, f);
    assert StringLength(s, precision, f) == |shown|;
    assert "" + shown == shown && forall t: string :: t + "" == t;
  }

  /** A NULL string prints as (null), whatever the precision: in spaces up to the width, on
      the side the - flag says; the 0 flag drops the spaces in front. */
  lemma NullString(precision: u32, width: u32, f: Flags)
    ensures StringText(None, precision, width, f) ==
      (if f.left then "(null)" + Fill(' ', width - 6) else if f.zero then "(null)" else Fill(' ', width - 6) + "(null)")
  {
    assert Reverse(")llun(") == "(null)";
    hide Fill, Reverse;
  }

  /** The bases of the integer conversions. */
  lemma Bases()
    ensures BaseOf('d') == BaseOf('i') == BaseOf('u') == Dec && BaseOf('o') == Oct && BaseOf('x') == BaseOf('X') == Hex
    ensures BaseOf('b') == Bin && Bin.Size() == 2 && Oct.Size() == 8 && Dec.Size() == 10 && Hex.Size() == 16
  {
  }

  // ------------------------------------------------------------- rendering

  /** Text without a percent sign is copied. */
  lemma {:induction false} RenderLiteral(fmt: string, i: nat, j: nat, args: seq<Arg>, k: nat)
    requires i <= j <= |fmt| && '%' !in fmt[i..j]
    requires Render(fmt, j, args, k).Some?
    ensures Render(fmt, i, args, k) == Some(fmt[i..j] + Render(fmt, j, args, k).value)
    decreases j - i
  {
    hide DirectiveAt, Converted;
    if i < j {
      assert fmt[i] in fmt[i..j];
      assert fmt[i + 1..j] == fmt[i..j][1..];
      RenderLiteral(fmt, i + 1, j, args, k);
      var rest := Render(fmt, j, args, k).value;
      assert fmt[i..j] + rest == [fmt[i]] + (fmt[i + 1..j] + rest);
    } else {
      var rest := Render(fmt, j, args, k).value;
      assert fmt[i..j] == "" && "" + rest == rest;
    }
  }

  /** A directive whose conversion is known contributes its text. */
  lemma RenderDirective(fmt: string, i: nat, args: seq<Arg>, k: nat, d: Directive, text: string, next: nat)
    requires i + 1 < |fmt| && fmt[i] == '%'
    requires DirectiveAt(fmt, i + 1, args, k) == d && d.Directive? && d.at < |fmt|
    requires Converted(fmt[d.at], d, args) == Some((text, next))
    requires Render(fmt, d.at + 1, args, next).Some?
    ensures Render(fmt, i, args, k) == Some(text + Render(fmt, d.at + 1, args, next).value)
  {
    hide DirectiveAt, Converted;
  }

  /** A format that ends inside a directive, right behind its percent sign, dot, star or length
      modifier, prints the text before the directive and nothing of it. */
  lemma CutShort(fmt: string, i: nat, args: seq<Arg>)
    requires i < |fmt| && '%' !in fmt[..i] && fmt[i] == '%'
    requires i + 1 == |fmt| || DirectiveAt(fmt, i + 1, args, 0).Cut?
    ensures Render(fmt, 0, args, 0) == Some(fmt[..i])
    ensures fmt[|fmt| - 1] in {'%', '.', '*', 'h', 'l', 't', 'z', 'j'}
  {
    if i + 1 < |fmt| {
      CutAt(fmt, i + 1, args, 0);
    }
    hide DirectiveAt, Converted;
    assert Render(fmt, i, args, 0) == Some("");
    hide Render;
    assert fmt[0..i] == fmt[..i] && fmt[..i] + "" == fmt[..i];
    RenderLiteral(fmt, 0, i, args, 0);
  }

  lemma CutAt(fmt: string, i: nat, args: seq<Arg>, k: nat)
    requires i < |fmt| && DirectiveAt(fmt, i, args, k).Cut?
    ensures fmt[|fmt| - 1] in {'.', '*', 'h', 'l', 't', 'z', 'j'}
  {
    hide FlagsFrom, WidthPart, PrecisionPart, LengthPart;
    var (f, j) := FlagsFrom(fmt, i, NO_FLAGS);
    var p := WidthPart(fmt, j, args, k, f);
    EndedAt(fmt, j, args, k, f);
    if p.Part? {
      EndedAt(fmt, p.at, args, p.arg, p.flags);
      var q := PrecisionPart(fmt, p.at, args, p.arg, p.flags);
      if q.Part? {
        EndedAt(fmt, q.at, args, q.arg, q.flags);
      }
    }
  }

  /** The three parts end a string only behind these characters. */
  lemma EndedAt(fmt: string, i: nat, args: seq<Arg>, k: nat, f: Flags)
    requires i <= |fmt| && fmt != ""
    ensures WidthPart(fmt, i, args, k, f).Ended? ==> fmt[|fmt| - 1] == '*'
    ensures PrecisionPart(fmt, i, args, k, f).Ended? ==> fmt[|fmt| - 1] in {'.', '*'}
    ensures LengthPart(fmt, i, k, f).Ended? ==> fmt[|fmt| - 1] in {'h', 'l', 't', 'z', 'j'}
  {
    hide NumberFrom;
  }

  /** Without long long support a conversion of that size prints nothing and takes no argument. */
  lemma LongLongSkipped(fmt: string, i: nat, args: seq<Arg>, k: nat)
    requires i + 1 < |fmt| && fmt[i] == '%'
    requires var d := DirectiveAt(fmt, i + 1, args, k);
      d.Directive? && d.flags.longLong && d.at < |fmt| && IntegerSpecifier(fmt[d.at])
    ensures var d := DirectiveAt(fmt, i + 1, args, k);
      Render(fmt, i, args, k) == Render(fmt, d.at + 1, args, d.arg)
  {
    hide DirectiveAt;
    var d := DirectiveAt(fmt, i + 1, args, k);
    assert Converted(fmt[d.at], d, args) == Some(("", d.arg));
    hide Converted;
    var rest := Render(fmt, d.at + 1, args, d.arg);
    assert rest.Some? ==> "" + rest.value == rest.value;
  }

  /** So the directive behind it gets the argument that was meant for this one. */
  lemma LongLongShifts()
    ensures Render("%lld%c", 0, [Word(65), Word(66)], 0) == Some("A")
  {
    var fmt, args := "%lld%c", [Word(65), Word(66)];
    assert FlagsFrom(fmt, 1, NO_FLAGS) == (NO_FLAGS, 1) && FlagsFrom(fmt, 5, NO_FLAGS) == (NO_FLAGS, 5);
    assert DirectiveAt(fmt, 1, args, 0) == Directive(NO_FLAGS.(long := true, longLong := true), 0, 0, 3, 0);
    var d := Directive(NO_FLAGS, 0, 0, 5, 0);
    assert DirectiveAt(fmt, 5, args, 0) == d;
    assert CharText('A', 0, NO_FLAGS) == "A" && (65 % 0x100) as char == 'A';
    assert Converted('c', d, args) == Some(("A", 1));
    hide Render, DirectiveAt, Converted;
    EndOfFormat(fmt, args, 1);
    RenderDirective(fmt, 4, args, 0, d, "A", 1);
    LongLongSkipped(fmt, 0, args, 0);
    assert "A" + "" == "A";
  }

  /** %#b writes 0b in front of the binary digits, if and only if there are at most thirty of
      them: the rest of the 32-character buffer is what the prefix gets. */
  lemma BinaryPrefix(v: u32)
    requires v > 0
    ensures IntegerText(v, false, Bin, 0, 0, NO_FLAGS.(hash := true)) == "0b" + Numeral(v, Bin, false)
       <==> |Numeral(v, Bin, false)| <= 30
  {
    var n := Numeral(v, Bin, false);
    assert IntegerText(v, false, Bin, 0, 0, NO_FLAGS.(hash := true))
        == FinalText(Reverse(n), false, Bin, 0, 0, NO_FLAGS.(hash := true)) by { hide Numeral, FinalText, Reverse; }
    hide *;
    PrefixedDigits(n);
  }

  lemma PrefixedDigits(n: string)
    requires n != ""
    ensures FinalText(Reverse(n), false, Bin, 0, 0, NO_FLAGS.(hash := true)) == "0b" + n <==> |n| <= 30
  {
    var d, f := Reverse(n), NO_FLAGS.(hash := true);
    assert PaddedBuffer(d, 0, 0, f) == d;
    hide PaddedBuffer;
    var b := PrefixBuffer(d, |d|, Bin, 0, 0, f);
    assert b == (if |n| <= 30 then d + "b0" else if |n| == 31 then d + "b" else d);
    hide PrefixBuffer;
    assert FinalText(d, false, Bin, 0, 0, f) == Reverse(b) by {
      assert forall t: string :: t + "" == t && "" + t == t;
    }
    if |n| <= 30 {
      assert Reverse(b) == "0b" + n;
    }
  }

  // ------------------------------------------------------------- printer and parser

  lemma WrapStep(n: nat, d: nat)
    ensures Wrap32((n % 0x1_0000_0000) * 10 + d) == (10 * n + d) % 0x1_0000_0000
  {
    var q, r := n / 0x1_0000_0000, n % 0x1_0000_0000;
    Shift32(10 * r + d, 10 * q);
  }

  lemma Shift32(x: nat, k: nat)
    ensures (x + k * 0x1_0000_0000) % 0x1_0000_0000 == x % 0x1_0000_0000
  {
  }

  /** The parser's accumulator after i digits is the value of those digits. */
  lemma {:induction false} NumberPrefix(t: string, n: nat, i: nat)
    requires i <= n <= |t| && (forall j | 0 <= j < n :: IsDigit(t[j]))
    ensures NumberFrom(t, 0, 0) == NumberFrom(t, i, Value(t[..i], Dec) % 0x1_0000_0000)
    decreases i
  {
    if i > 0 {
      NumberPrefix(t, n, i - 1);
      var before := Value(t[..i - 1], Dec);
      assert t[..i][..i - 1] == t[..i - 1];
      assert Value(t[..i], Dec) == 10 * before + DigitValue(t[i - 1]);
      WrapStep(before, DigitValue(t[i - 1]));
    } else {
      assert t[..0] == "";
    }
  }

  /** atou_ reads a run of digits as the number it denotes, modulo 2^32. */
  lemma AtouReads(digits: string, rest: string)
    requires forall c | c in digits :: IsDigit(c)
    requires rest == "" || !IsDigit(rest[0])
    ensures NumberFrom(digits + rest, 0, 0) == (Value(digits, Dec) % 0x1_0000_0000, |digits|)
  {
    var t := digits + rest;
    assert forall j | 0 <= j < |digits| :: t[j] == digits[j] && digits[j] in digits;
    NumberPrefix(t, |digits|, |digits|);
    assert t[..|digits|] == digits;
  }

  /** Reading from the middle is reading the rest. */
  lemma {:induction false} NumberSuffix(a: string, b: string, i: nat, acc: u32)
    requires i <= |b|
    ensures var (n, j) := NumberFrom(b, i, acc); NumberFrom(a + b, |a| + i, acc) == (n, |a| + j)
    decreases |b| - i
  {
    if i < |b| && IsDigit(b[i]) {
      NumberSuffix(a, b, i + 1, Wrap32(acc * 10 + DigitValue(b[i])));
    }
  }

  /** No step of the parser overflows: every prefix denotes no more than the whole. */
  lemma {:induction false} PrefixValue(s: string, i: nat)
    requires i <= |s|
    ensures Value(s[..i], Dec) <= Value(s, Dec)
    decreases |s| - i
  {
    if i < |s| {
      PrefixValue(s, i + 1);
      assert s[..i + 1][..i] == s[..i];
    } else {
      assert s[..i] == s;
    }
  }

  const PLAIN := NO_FLAGS
  const ZERO := NO_FLAGS.(zero := true)

  /** The text of %u and of %0Nu for N up to 32. */
  lemma UnsignedText(v: u32, n: u32)
    requires n <= 32
    ensures IntegerText(v, false, Dec, 0, 0, PLAIN) == Numeral(v, Dec, false)
    ensures IntegerText(v, false, Dec, 0, n, ZERO) == Fill('0', n - |Numeral(v, Dec, false)|) + Numeral(v, Dec, false)
  {
    hide IntegerText, Numeral;
    WordDigits(v, Dec, false);
    PlainIsPadded(v, 0, PLAIN);
    IntegerTextIsField(v, false, Dec, 0, 0, PLAIN);
    PlainIsPadded(v, n, ZERO);
    IntegerTextIsField(v, false, Dec, 0, n, ZERO);
  }

  lemma PlainIsPadded(v: u32, n: u32, f: Flags)
    requires (f == PLAIN && n == 0) || f == ZERO
    ensures FieldDigits(v, Dec, f, 0) == Numeral(v, Dec, false)
    ensures Field(v, false, Dec, 0, n, f) == Fill('0', n - |Numeral(v, Dec, false)|) + Numeral(v, Dec, false)
  {
    hide Numeral;
    var s := Numeral(v, Dec, false);
    assert Fill('0', 1 - |s|) + s == s;
    assert FieldDigits(v, Dec, f, 0) == s;
    var pad := Fill('0', n - |s|);
    if f == ZERO {
      assert "" + "" + pad + s == pad + s;
    } else {
      assert Fill(' ', 0 - |s|) + "" + "" + s == pad + s;
    }
  }

  /** Printing and parsing are inverse: atou_ applied to the text of %u or %0Nu,
      followed by anything that is not a digit, returns the number and stops there,
      and no intermediate value exceeds it. */
  lemma PrintThenParse(v: u32, n: u32, rest: string)
    requires n <= 32 && (rest == "" || !IsDigit(rest[0]))
    ensures var plain := IntegerText(v, false, Dec, 0, 0, PLAIN);
      NumberFrom(plain + rest, 0, 0) == (v, |plain|)
    ensures var padded := IntegerText(v, false, Dec, 0, n, ZERO);
      && NumberFrom(padded + rest, 0, 0) == (v, |padded|)
      && forall i | 0 <= i <= |padded| :: Value(padded[..i], Dec) <= v
  {
    hide IntegerText, Numeral, NumberFrom, Value;
    var s := Numeral(v, Dec, false);
    var zeros := Fill('0', n - |s|);
    UnsignedText(v, n);
    NumeralValue(v, Dec, false);
    NumeralChars(v, Dec, false);
    AtouReads(s, rest);
    LeadingZeros(|zeros|, s, Dec);
    assert zeros == Fill('0', |zeros|);
    assert forall c | c in zeros + s :: IsDigit(c);
    AtouReads(zeros + s, rest);
    forall i | 0 <= i <= |zeros + s| ensures Value((zeros + s)[..i], Dec) <= v {
      PrefixValue(zeros + s, i);
    }
  }
}
