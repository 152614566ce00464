/** Whole formats: a list of literal texts and written directives with their arguments, what
    the engine renders for it and what the C standard asks for. */
module Formats {
  import opened Words
  import opened Numerals
  import opened Gadget
  import opened IntegerFormat
  import opened FormatLoop
  import opened PrintfTheorems
  import opened Directives
  import opened Omitted

  // ------------------------------------------------------------- items

  /** A literal text, a percent sign (written twice), or a directive and its argument. */
  datatype Item = Literal(text: string) | Percent | Conversion(spec: Spec, arg: Arg)

  predicate IntegerSpec(d: Spec, a: Arg) {
    d.conv in {'d', 'i', 'u', 'o', 'x', 'X'} && a.Word? && !d.length.LongLong? && !d.length.Intmax?
  }

  predicate CharSpec(d: Spec, a: Arg) { d.conv == 'c' && a.Word? && d.length.NoLength? }

  predicate StringSpec(d: Spec, a: Arg) {
    d.conv == 's' && a.Str? && a.chars.Some? && |a.chars.value| <= INT_MAX && d.length.NoLength?
  }

  /** Widths and precisions that a word can hold. */
  ghost predicate WordSized(d: Spec) {
    && (d.width.WidthDigits? ==> Value(d.width.digits, Dec) < 0x1_0000_0000)
    && (d.precision.DotDigits? ==> Value(d.precision.digits, Dec) < 0x1_0000_0000)
  }

  /** Directives the standard defines and this configuration supports. */
  ghost predicate Proper(x: Item) {
    match x
    case Literal(text) => '%' !in text
    case Percent => true
    case Conversion(d, a) => Written(d) && WordSized(d) && (IntegerSpec(d, a) || CharSpec(d, a) || StringSpec(d, a))
  }

  function ItemText(x: Item): string {
    match x
    case Literal(text) => text
    case Percent => "%%"
    case Conversion(d, _) => "%" + HeaderText(d) + [d.conv]
  }

  function ItemArgs(x: Item): seq<Arg> {
    match x
    case Literal(_) => []
    case Percent => []
    case Conversion(d, a) => WidthArgs(d.width) + PrecisionArgs(d.precision) + [a]
  }

  function FormatOf(items: seq<Item>): string {
    if items == [] then "" else ItemText(items[0]) + FormatOf(items[1..])
  }

  function ArgsOf(items: seq<Item>): seq<Arg> {
    if items == [] then [] else ItemArgs(items[0]) + ArgsOf(items[1..])
  }

  // ------------------------------------------------------------- the standard

  /** Section 7.21.6.1 of ISO/IEC 9899:2011: a negative star width is a - flag and a width, a
      negative star precision counts as omitted. */
  function StandardWidth(w: Width): nat {
    match w
    case NoWidth => 0
    case WidthDigits(digits) => Value(digits, Dec)
    case WidthStar(bits) => if Signed32(bits) < 0 then 0 - Signed32(bits) else Signed32(bits)
  }

  predicate OmittedPrecision(p: Precision) { p.NoPrecision? || (p.DotStar? && Signed32(p.bits) < 0) }

  function StandardPrecision(p: Precision): nat {
    if OmittedPrecision(p) then 0
    else if p.DotDigits? then Value(p.digits, Dec) else Signed32(p.bits)
  }

  /** What a header says, flag by flag and modifier by modifier. */
  function HeaderFlags(d: Spec): Flags {
    Flags('0' in d.flags, '-' in d.flags || NegativeWidth(d.width), '+' in d.flags, ' ' in d.flags, '#' in d.flags, false,
          d.length.HalfHalf?, d.length.HalfHalf? || d.length.Half?,
          d.length.Long? || d.length.LongLong? || d.length.Ptrdiff? || d.length.Size?,
          d.length.LongLong? || d.length.Intmax?, !d.precision.NoPrecision?)
  }

  /** The flags count as StandardFlags says, for the conversions they belong to. */
  function StandardFlagWord(d: Spec): Flags {
    StandardFlags(d.conv, HeaderFlags(d)).(precision := !OmittedPrecision(d.precision))
  }

  /** The number of values of the type a length modifier selects on this target: signed or
      unsigned char, short, and int or long. */
  function TypeValues(l: Length): nat {
    match l
    case HalfHalf => 0x100
    case Half => 0x1_0000
    case _ => 0x1_0000_0000
  }

  /** v is the argument word converted to that type: signed for d and i, unsigned otherwise. */
  ghost predicate Converts(conv: char, l: Length, bits: u32, v: int) {
    && (exists q: int :: v == bits + q * TypeValues(l))
    && if conv == 'd' || conv == 'i' then 0 - TypeValues(l) <= 2 * v < TypeValues(l) else 0 <= v < TypeValues(l)
  }

  function StandardValue(conv: char, l: Length, bits: u32): (v: int)
    ensures Converts(conv, l, bits, v)
  {
    var r := match l
      case HalfHalf => bits % 0x100
      case Half => bits % 0x1_0000
      case _ => bits;
    assert r == bits + (0 - bits / TypeValues(l)) * TypeValues(l);
    if (conv == 'd' || conv == 'i') && 2 * r >= TypeValues(l) then
      assert r - TypeValues(l) == bits + (0 - bits / TypeValues(l) - 1) * TypeValues(l);
      r - TypeValues(l)
    else r
  }

  /** There is only one such value. */
  lemma ConvertsOnce(conv: char, l: Length, bits: u32, v: int, w: int)
    requires Converts(conv, l, bits, v) && Converts(conv, l, bits, w)
    ensures v == w
  {
    var n := TypeValues(l);
    var p: int :| v == bits + p * n;
    var q: int :| w == bits + q * n;
    assert v - w == (p - q) * n;
    if p > q {
      MulGe(p - q, n);
    } else if p < q {
      MulGe(q - p, n);
    }
  }

  function StandardBase(conv: char): Radix {
    match conv
    case 'o' => Oct
    case 'x' => Hex
    case 'X' => Hex
    case _ => Dec
  }

  function StandardInteger(d: Spec, bits: u32): string {
    var v := StandardValue(d.conv, d.length, bits);
    Field(if v < 0 then -v else v, v < 0, StandardBase(d.conv), StandardPrecision(d.precision), StandardWidth(d.width),
          StandardFlagWord(d))
  }

  function StandardString(d: Spec, s: string): string {
    var shown := if OmittedPrecision(d.precision) then s else s[..Min(|s|, StandardPrecision(d.precision))];
    PaddedString(shown, StandardWidth(d.width), '-' in d.flags || NegativeWidth(d.width))
  }

  function StandardItem(x: Item): string {
    match x
    case Literal(text) => text
    case Percent => "%"
    case Conversion(d, a) =>
      if a.Str? then (if a.chars.Some? then StandardString(d, a.chars.value) else "")
      else if d.conv == 'c' then
        PaddedString([(a.bits % 0x100) as char], StandardWidth(d.width), '-' in d.flags || NegativeWidth(d.width))
      else StandardInteger(d, a.bits)
  }

  function StandardOf(items: seq<Item>): string {
    if items == [] then "" else StandardItem(items[0]) + StandardOf(items[1..])
  }

  // ------------------------------------------------------------- the engine

  /** The directive the engine reads, up to its place in the format. */
  function ReadAs(d: Spec, at: nat, arg: nat): (r: Directive)
    ensures r.Directive? && r.at == at && r.arg == arg
  {
    Directive(FlagsRead(d), WidthRead(d.width), PrecisionRead(d.precision), at, arg)
  }

  function EngineItem(x: Item): string {
    match x
    case Literal(text) => text
    case Percent => "%"
    case Conversion(d, a) =>
      if a.Str? then StringText(a.chars, PrecisionRead(d.precision), WidthRead(d.width), FlagsRead(d))
      else if d.conv == 'c' then CharText((a.bits % 0x100) as char, WidthRead(d.width), FlagsRead(d))
      else IntegerConversion(d.conv, ReadAs(d, 0, 0), a.bits)
  }

  function EngineOf(items: seq<Item>): string {
    if items == [] then "" else EngineItem(items[0]) + EngineOf(items[1..])
  }

  lemma FlagsReadAre(d: Spec)
    ensures FlagsRead(d) == HeaderFlags(d)
  {
    PrecisionFlagsAre(d);
    hide PrecisionFlags, NegativeWidth, LengthRead;
    LengthReadIs(d.length, '0' in d.flags, '-' in d.flags || NegativeWidth(d.width), '+' in d.flags, ' ' in d.flags,
                 '#' in d.flags, !d.precision.NoPrecision?);
  }

  lemma PrecisionFlagsAre(d: Spec)
    ensures PrecisionFlags(d) == Flags('0' in d.flags, '-' in d.flags || NegativeWidth(d.width), '+' in d.flags, ' ' in d.flags,
                                       '#' in d.flags, false, false, false, false, false, !d.precision.NoPrecision?)
  {
    WithAllIs(d.flags);
    hide NegativeWidth, WithAll;
    LeftSet('0' in d.flags, '-' in d.flags, '+' in d.flags, ' ' in d.flags, '#' in d.flags, NegativeWidth(d.width),
            !d.precision.NoPrecision?);
  }

  lemma LeftSet(zero: bool, left: bool, plus: bool, space: bool, hash: bool, negative: bool, precision: bool)
    ensures var f := Flags(zero, left, plus, space, hash, false, false, false, false, false, false);
      (if negative then f.(left := true) else f).(precision := precision)
      == Flags(zero, left || negative, plus, space, hash, false, false, false, false, false, precision)
  {
  }

  lemma WithAllIs(run: string)
    ensures WithAll(NO_FLAGS, run)
         == Flags('0' in run, '-' in run, '+' in run, ' ' in run, '#' in run, false, false, false, false, false, false)
  {
  }

  lemma LengthReadIs(l: Length, zero: bool, left: bool, plus: bool, space: bool, hash: bool, precision: bool)
    ensures LengthRead(l, Flags(zero, left, plus, space, hash, false, false, false, false, false, precision))
         == Flags(zero, left, plus, space, hash, false, l.HalfHalf?, l.HalfHalf? || l.Half?,
                  l.Long? || l.LongLong? || l.Ptrdiff? || l.Size?, l.LongLong? || l.Intmax?, precision)
  {
  }

  lemma ConvertedInteger(d: Spec, a: Arg, at: nat, args: seq<Arg>, k: nat)
    requires IntegerSpec(d, a) && k < |args| && args[k] == a
    ensures Converted(d.conv, ReadAs(d, at, k), args) == Some((EngineItem(Conversion(d, a)), k + 1))
  {
    FlagsReadAre(d);
    hide FlagsRead, WidthRead, PrecisionRead, IntegerText, IntegerFlags, ArgValue, AbsForPrinting, BaseOf, StringText, CharText;
  }

  lemma ConvertedOther(d: Spec, a: Arg, at: nat, args: seq<Arg>, k: nat)
    requires (CharSpec(d, a) || StringSpec(d, a)) && k < |args| && args[k] == a
    ensures Converted(d.conv, ReadAs(d, at, k), args) == Some((EngineItem(Conversion(d, a)), k + 1))
  {
    hide FlagsRead, WidthRead, PrecisionRead, IntegerConversion, StringText, CharText;
  }

  lemma ConvertedAs(d: Spec, a: Arg, at: nat, args: seq<Arg>, k: nat)
    requires Proper(Conversion(d, a)) && k < |args| && args[k] == a
    ensures Converted(d.conv, ReadAs(d, at, k), args) == Some((EngineItem(Conversion(d, a)), k + 1))
  {
    hide Converted, ReadAs, EngineItem;
    if IntegerSpec(d, a) {
      ConvertedInteger(d, a, at, args, k);
    } else {
      ConvertedOther(d, a, at, args, k);
    }
  }

  // ------------------------------------------------------------- rendering a list

  /** One item behind a rendered prefix: the rest of the format follows it. */
  lemma ItemRenders(a: string, x: Item, rest: string, before: seq<Arg>, after: seq<Arg>)
    requires Proper(x)
    requires Render(a + ItemText(x) + rest, |a| + |ItemText(x)|, before + ItemArgs(x) + after, |before| + |ItemArgs(x)|).Some?
    ensures var fmt, args := a + ItemText(x) + rest, before + ItemArgs(x) + after;
      Render(fmt, |a|, args, |before|) ==
        Some(EngineItem(x) + Render(fmt, |a| + |ItemText(x)|, args, |before| + |ItemArgs(x)|).value)
  {
    var fmt, args := a + ItemText(x) + rest, before + ItemArgs(x) + after;
    Middle(a, ItemText(x), rest);
    match x
    case Literal(text) =>
      hide Render;
      LiteralRenders(fmt, |a|, text, args, |before|);
    case Percent =>
      hide Render;
      PercentRenders(fmt, |a|, args, |before|);
    case Conversion(d, arg) =>
      hide *;
      ConversionRenders(a, d, arg, rest, before, after);
  }

  lemma Middle(a: string, b: string, c: string)
    ensures (a + b + c)[|a|..|a| + |b|] == b
  {
  }

  lemma LiteralRenders(fmt: string, i: nat, text: string, args: seq<Arg>, k: nat)
    requires i + |text| <= |fmt| && fmt[i..i + |text|] == text && '%' !in text && Render(fmt, i + |text|, args, k).Some?
    ensures Render(fmt, i, args, k) == Some(text + Render(fmt, i + |text|, args, k).value)
  {
    hide Render;
    RenderLiteral(fmt, i, i + |text|, args, k);
  }

  lemma PercentRenders(fmt: string, i: nat, args: seq<Arg>, k: nat)
    requires i + 2 <= |fmt| && fmt[i..i + 2] == "%%" && Render(fmt, i + 2, args, k).Some?
    ensures Render(fmt, i, args, k) == Some("%" + Render(fmt, i + 2, args, k).value)
  {
    assert fmt[i] == fmt[i..i + 2][0] == '%' && fmt[i + 1] == fmt[i..i + 2][1] == '%';
    var d := Directive(NO_FLAGS, 0, 0, i + 1, k);
    assert DirectiveAt(fmt, i + 1, args, k) == d;
    assert Converted('%', d, args) == Some(("%", k));
    hide Render, Converted, DirectiveAt;
    RenderDirective(fmt, i, args, k, d, "%", k);
  }

  lemma ConversionRenders(a: string, d: Spec, arg: Arg, rest: string, before: seq<Arg>, after: seq<Arg>)
    requires Proper(Conversion(d, arg))
    requires var x := Conversion(d, arg);
      Render(a + ItemText(x) + rest, |a| + |ItemText(x)|, before + ItemArgs(x) + after, |before| + |ItemArgs(x)|).Some?
    ensures var x := Conversion(d, arg);
      var fmt, args := a + ItemText(x) + rest, before + ItemArgs(x) + after;
      Render(fmt, |a|, args, |before|) ==
        Some(EngineItem(x) + Render(fmt, |a| + |ItemText(x)|, args, |before| + |ItemArgs(x)|).value)
  {
    hide *;
    var x := Conversion(d, arg);
    var fmt, args := a + ItemText(x) + rest, before + ItemArgs(x) + after;
    var at, k := |a| + 1 + |HeaderText(d)|, AfterHeader(|before|, d);
    ConversionStands(a, d, arg, rest);
    ConversionArgs(before, d, arg, after);
    HeaderReadAs(fmt, |a| + 1, d, args, |before|);
    ConvertedAs(d, arg, at, args, k);
    RenderDirective(fmt, |a|, args, |before|, ReadAs(d, at, k), EngineItem(x), k + 1);
  }

  lemma HeaderReadAs(fmt: string, i: nat, d: Spec, args: seq<Arg>, k: nat)
    requires HeaderStands(fmt, i, d) && Supplied(args, k, d)
    ensures i <= |fmt| && DirectiveAt(fmt, i, args, k) == ReadAs(d, i + |HeaderText(d)|, AfterHeader(k, d))
  {
    assert i <= |fmt|;
    hide HeaderStands, Supplied, DirectiveAt, HeaderText, AfterHeader, FlagsRead, WidthRead, PrecisionRead;
    HeaderRoundTrip(fmt, i, d, args, k);
  }

  lemma ConversionStands(a: string, d: Spec, arg: Arg, rest: string)
    requires Proper(Conversion(d, arg))
    ensures var fmt := a + ItemText(Conversion(d, arg)) + rest;
      && |a| + 1 < |fmt| && fmt[|a|] == '%' && HeaderStands(fmt, |a| + 1, d)
      && |a| + 1 + |HeaderText(d)| < |fmt| && fmt[|a| + 1 + |HeaderText(d)|] == d.conv
      && |a| + |ItemText(Conversion(d, arg))| == |a| + 1 + |HeaderText(d)| + 1
  {
    assert Written(d);
    hide HeaderText, Written, Proper;
    var h := HeaderText(d);
    var fmt := a + ("%" + h + [d.conv]) + rest;
    assert fmt[|a| + 1..|a| + 1 + |h|] == h;
  }

  lemma ConversionArgs(before: seq<Arg>, d: Spec, arg: Arg, after: seq<Arg>)
    ensures var args := before + ItemArgs(Conversion(d, arg)) + after;
      var k := AfterHeader(|before|, d);
      && Supplied(args, |before|, d) && k < |args| && args[k] == arg
      && |before| + |ItemArgs(Conversion(d, arg))| == k + 1
  {
    var w, p := WidthArgs(d.width), PrecisionArgs(d.precision);
    hide WidthArgs, PrecisionArgs;
    var args := before + (w + p + [arg]) + after;
    assert args[|before|..|before| + |w|] == w;
    assert args[|before| + |w|..|before| + |w| + |p|] == p;
  }

  /** Rendering a written format yields the items' texts one after the other, from any
      point of a longer format and argument list on. */
  lemma {:induction false} FormatRenders(a: string, items: seq<Item>, before: seq<Arg>)
    requires forall x | x in items :: Proper(x)
    ensures Render(a + FormatOf(items), |a|, before + ArgsOf(items), |before|) == Some(EngineOf(items))
    decreases |items|
  {
    hide Render, ItemText, ItemArgs, EngineItem, Proper;
    if items == [] {
      assert a + "" == a && before + [] == before;
      EndOfFormat(a, before, |before|);
    } else {
      var x, rest := items[0], items[1..];
      FormatRenders(a + ItemText(x), rest, before + ItemArgs(x));
      Joined(a, ItemText(x), FormatOf(rest));
      Joined(before, ItemArgs(x), ArgsOf(rest));
      ItemRenders(a, x, FormatOf(rest), before, ArgsOf(rest));
    }
  }

  lemma Joined<T>(a: seq<T>, b: seq<T>, c: seq<T>)
    ensures a + (b + c) == a + b + c
  {
  }

  // ------------------------------------------------------------- engine and standard

  predicate NegativeStar(p: Precision) { p.DotStar? && Signed32(p.bits) < 0 }

  /** When the engine prints what the standard asks for. An integer field must fit the work
      buffer; after a negative star precision the value must have digits at precision zero
      and no zeros may pad the field, and a string must be spaces that padding supplies. */
  ghost predicate Conforms(x: Item) {
    match x
    case Literal(_) => true
    case Percent => true
    case Conversion(d, a) =>
      if a.Str? then
        NegativeStar(d.precision) && a.chars.Some? ==> AllSpaces(a.chars.value) && |a.chars.value| <= StandardWidth(d.width)
      else if d.conv == 'c' then true
      else if NegativeStar(d.precision) then HarmlessDirective(d.conv, ReadAs(d, 0, 0), a.bits)
      else DirectiveFits(d.conv, ReadAs(d, 0, 0), a.bits)
  }

  /** Width and precision are read as written, but for a negative star precision. */
  lemma NumbersRead(d: Spec)
    requires WordSized(d)
    ensures WidthRead(d.width) == StandardWidth(d.width)
    ensures PrecisionRead(d.precision) == StandardPrecision(d.precision)
  {
  }

  lemma IntegerIsStandard(d: Spec, bits: u32)
    requires WordSized(d) && IntegerSpec(d, Word(bits))
    ensures IntegerConversion(d.conv, ReadAs(d, 0, 0), bits) == StandardInteger(d, bits)
       <==> if NegativeStar(d.precision) then HarmlessDirective(d.conv, ReadAs(d, 0, 0), bits)
            else DirectiveFits(d.conv, ReadAs(d, 0, 0), bits)
  {
    NumbersRead(d);
    FlagsReadAre(d);
    var r := ReadAs(d, 0, 0);
    assert r.flags == HeaderFlags(d) && !r.flags.upper && r.flags.precision == !d.precision.NoPrecision?;
    assert !r.flags.precision ==> r.precision == 0;
    hide FlagsRead, WidthRead, IntegerConversion, HarmlessDirective, DirectiveFits, HeaderFlags;
    if NegativeStar(d.precision) {
      NegativePrecision(d.conv, r, bits);
      NegativeReference(d, bits);
    } else {
      ConversionIsStandard(d.conv, r, bits);
      PlainReference(d, bits);
    }
  }

  /** The engine takes the argument as the type and in the base the standard asks for. */
  lemma ArgumentRead(d: Spec, bits: u32)
    requires IntegerSpec(d, Word(bits))
    ensures ArgValue(d.conv, bits, HeaderFlags(d)) == StandardValue(d.conv, d.length, bits)
    ensures BaseOf(d.conv) == StandardBase(d.conv)
  {
  }

  lemma PlainReference(d: Spec, bits: u32)
    requires WordSized(d) && !NegativeStar(d.precision) && IntegerSpec(d, Word(bits))
    ensures StandardField(d.conv, ReadAs(d, 0, 0), bits) == StandardInteger(d, bits)
  {
    NumbersRead(d);
    FlagsReadAre(d);
    ArgumentRead(d, bits);
    assert StandardFlagWord(d) == StandardFlags(d.conv, HeaderFlags(d)) by { hide *; FlagWord(d); }
    hide WidthRead, PrecisionRead, StandardWidth, StandardPrecision, FlagsRead, HeaderFlags, StandardFlags, StandardFlagWord, Field,
      ArgValue, BaseOf, StandardValue, StandardBase;
  }

  lemma NegativeReference(d: Spec, bits: u32)
    requires WordSized(d) && NegativeStar(d.precision) && IntegerSpec(d, Word(bits))
    ensures StandardField(d.conv, WithoutPrecision(ReadAs(d, 0, 0)), bits) == StandardInteger(d, bits)
  {
    NumbersRead(d);
    FlagsReadAre(d);
    ArgumentRead(d, bits);
    SameArgument(d.conv, bits, HeaderFlags(d));
    assert StandardFlagWord(d) == StandardFlags(d.conv, HeaderFlags(d)).(precision := false);
    hide WidthRead, PrecisionRead, StandardWidth, StandardPrecision, FlagsRead, HeaderFlags, StandardFlags, StandardFlagWord, Field,
      ArgValue, BaseOf, StandardValue, StandardBase;
  }

  lemma FlagWord(d: Spec)
    ensures !NegativeStar(d.precision) ==> StandardFlagWord(d) == StandardFlags(d.conv, HeaderFlags(d))
  {
    assert StandardFlags(d.conv, HeaderFlags(d)).precision == !d.precision.NoPrecision?;
    hide StandardFlags, HeaderFlags;
  }

  lemma StringItemIsStandard(d: Spec, s: string)
    requires WordSized(d) && |s| <= INT_MAX
    ensures StringText(Some(s), PrecisionRead(d.precision), WidthRead(d.width), FlagsRead(d)) == StandardString(d, s)
       <==> (NegativeStar(d.precision) ==> AllSpaces(s) && |s| <= StandardWidth(d.width))
  {
    NumbersRead(d);
    FlagsReadAre(d);
    var f := FlagsRead(d);
    assert f.left == ('-' in d.flags || NegativeWidth(d.width)) && f.precision == !d.precision.NoPrecision?;
    assert NegativeStar(d.precision) ==> PrecisionRead(d.precision) == 0;
    hide FlagsRead, HeaderFlags, WidthRead, PrecisionRead, StandardWidth, StringText, NegativeWidth;
    if NegativeStar(d.precision) {
      NegativeStringPrecision(s, WidthRead(d.width), f);
    } else {
      StringIsStandard(s, PrecisionRead(d.precision), WidthRead(d.width), f);
    }
  }

  lemma CharItemIsStandard(d: Spec, c: char)
    requires WordSized(d)
    ensures CharText(c, WidthRead(d.width), FlagsRead(d))
         == PaddedString([c], StandardWidth(d.width), '-' in d.flags || NegativeWidth(d.width))
  {
    NumbersRead(d);
    FlagsReadAre(d);
    assert FlagsRead(d).left == ('-' in d.flags || NegativeWidth(d.width));
    hide FlagsRead, HeaderFlags, WidthRead, StandardWidth, NegativeWidth;
  }

  /** Every supported item, its directive as written and its arguments as passed: the engine
      prints what the standard asks for if and only if the item conforms. */
  lemma ItemIsStandard(x: Item)
    requires Proper(x)
    ensures EngineItem(x) == StandardItem(x) <==> Conforms(x)
  {
    hide IntegerConversion, StandardInteger, StringText, StandardString, CharText, PaddedString, HarmlessDirective, DirectiveFits,
      Written, WidthRead, PrecisionRead, FlagsRead, ReadAs;
    match x
    case Literal(_) =>
    case Percent =>
    case Conversion(d, a) =>
      if a.Str? {
        StringItemIsStandard(d, a.chars.value);
      } else if d.conv == 'c' {
        CharItemIsStandard(d, (a.bits % 0x100) as char);
      } else {
        IntegerIsStandard(d, a.bits);
      }
  }

  lemma {:induction false} AllConform(items: seq<Item>)
    requires forall x | x in items :: Proper(x) && Conforms(x)
    ensures EngineOf(items) == StandardOf(items)
  {
    hide EngineItem, StandardItem, Proper, Conforms;
    if items != [] {
      ItemIsStandard(items[0]);
      AllConform(items[1..]);
    }
  }

  /** A format written as literals and directives, with its arguments in order, renders as the
      literals and the standard's fields in order, whenever each of its directives conforms. */
  lemma FormatIsStandard(items: seq<Item>)
    requires forall x | x in items :: Proper(x) && Conforms(x)
    ensures Render(FormatOf(items), 0, ArgsOf(items), 0) == Some(StandardOf(items))
  {
    hide Render, EngineItem, StandardItem, Proper, Conforms;
    FormatRenders("", items, []);
    assert "" + FormatOf(items) == FormatOf(items) && [] + ArgsOf(items) == ArgsOf(items);
    AllConform(items);
  }

  // ------------------------------------------------------------- into a buffer

  /** The strings of an item are C strings. */
  predicate TextItem(x: Item) {
    match x
    case Literal(text) => CText(text)
    case Percent => true
    case Conversion(_, a) => a.Str? && a.chars.Some? ==> CText(a.chars.value)
  }

  lemma HeaderIsText(d: Spec)
    requires Written(d)
    ensures CText(HeaderText(d))
  {
    assert forall c | c in d.flags :: IsFlag(c);
    assert CText(d.flags) && CText(LengthText(d.length));
    assert CText(WidthText(d.width)) && CText(PrecisionText(d.precision));
    hide WidthText, PrecisionText, LengthText, IsFlag;
  }

  lemma ItemIsText(x: Item)
    requires Proper(x) && TextItem(x)
    ensures CText(ItemText(x)) && CArguments(ItemArgs(x))
  {
    hide HeaderText, WordSized;
    if x.Conversion? {
      HeaderIsText(x.spec);
      assert x.spec.conv != '\0';
    }
  }

  lemma {:induction false} FormatIsText(items: seq<Item>)
    requires forall x | x in items :: Proper(x) && TextItem(x)
    ensures CText(FormatOf(items)) && CArguments(ArgsOf(items))
  {
    hide ItemText, ItemArgs, Proper, TextItem;
    if items != [] {
      ItemIsText(items[0]);
      FormatIsText(items[1..]);
    }
  }

  /** snprintf of a written format whose directives conform: the destination gets the
      standard's text, cut to its size and terminated, and the whole length is returned. */
  method PrintItems(s: array?<char>, n: nat, items: seq<Item>) returns (count: int)
    requires s != null ==> Min(n, INT_MAX) <= s.Length
    requires forall x | x in items :: Proper(x) && TextItem(x) && Conforms(x)
    modifies s
    ensures count == Signed32(Wrap32(|StandardOf(items)|))
    ensures |StandardOf(items)| < 0x1_0000_0000 && s != null ==>
      s[..] == Printed(StandardOf(items), old(s[..]), Min(n, INT_MAX))
  {
    hide Render, Proper, TextItem, Conforms, FormatOf, ArgsOf, StandardOf;
    FormatIsText(items);
    FormatIsStandard(items);
    count := Vsnprintf(s, n, FormatOf(items), ArgsOf(items));
  }
}
