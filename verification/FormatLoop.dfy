/** format_string_loop and vsnprintf_impl of printf.c in the shipped configuration
    (no floating point, no long long, 32-bit int and long). */
module FormatLoop {
  import opened Words
  import opened Numerals
  import opened Gadget
  import opened IntegerFormat

  /** A variable argument: an int-sized word or a string pointer (None is NULL). */
  datatype Arg = Word(bits: u32) | Str(chars: Option<string>)

  const NO_FLAGS := Flags(false, false, false, false, false, false, false, false, false, false, false)

  /** A C string holds no NUL; the model leaves out the one at its end. */
  predicate CText(s: string) { '\0' !in s }

  predicate CArguments(args: seq<Arg>) {
    forall a | a in args :: a.Str? && a.chars.Some? ==> CText(a.chars.value)
  }

  /** A format is a C string: index |fmt| is the terminating NUL. */
  function At(fmt: string, i: nat): char
    requires i <= |fmt|
  {
    if i < |fmt| then fmt[i] else '\0'
  }

  // ------------------------------------------------------------- reading a directive

  predicate IsFlag(c: char) { c == '0' || c == '-' || c == '+' || c == ' ' || c == '#' }

  function WithFlag(f: Flags, c: char): (g: Flags)
    ensures g.upper == f.upper && g.precision == f.precision
  {
    match c
    case '0' => f.(zero := true)
    case '-' => f.(left := true)
    case '+' => f.(plus := true)
    case ' ' => f.(space := true)
    case '#' => f.(hash := true)
    case _ => f
  }

  function FlagsFrom(fmt: string, i: nat, f: Flags): (r: (Flags, nat))
    requires i <= |fmt|
    ensures i <= r.1 <= |fmt| && r.0.upper == f.upper && r.0.precision == f.precision
    decreases |fmt| - i
  {
    if i < |fmt| && IsFlag(fmt[i]) then FlagsFrom(fmt, i + 1, WithFlag(f, fmt[i])) else (f, i)
  }

  /** atou_: decimal digits, modulo 2^32. */
  function NumberFrom(fmt: string, i: nat, acc: u32): (r: (u32, nat))
    requires i <= |fmt|
    ensures i <= r.1 <= |fmt|
    decreases |fmt| - i
  {
    if i < |fmt| && IsDigit(fmt[i]) then NumberFrom(fmt, i + 1, Wrap32(acc * 10 + DigitValue(fmt[i]))) else (acc, i)
  }

  /** How far the reading of one part got: past it, at the end of the string
      (ADVANCE_IN_FORMAT_STRING returns), or at an argument that is not there. */
  datatype Part = Part(flags: Flags, value: u32, at: nat, arg: nat) | Ended | NoArgument

  function Advanced(fmt: string, f: Flags, value: u32, i: nat, k: nat): (p: Part)
    requires i < |fmt|
    ensures p.Part? ==> p.at == i + 1 < |fmt| && p.flags == f && p.value == value
  {
    if i + 1 == |fmt| then Ended else Part(f, value, i + 1, k)
  }

  function WidthPart(fmt: string, i: nat, args: seq<Arg>, k: nat, f: Flags): (p: Part)
    requires i <= |fmt|
    ensures p.Part? ==> i <= p.at <= |fmt| && p.flags.upper == f.upper && p.flags.precision == f.precision
  {
    if IsDigit(At(fmt, i)) then
      var (w, j) := NumberFrom(fmt, i, 0);
      Part(f, w, j, k)
    else if At(fmt, i) == '*' then
      if k >= |args| || !args[k].Word? then NoArgument
      else
        var w := Signed32(args[k].bits);
        if w < 0 then Advanced(fmt, f.(left := true), Wrap32(-w), i, k + 1)
        else Advanced(fmt, f, w, i, k + 1)
    else Part(f, 0, i, k)
  }

  function PrecisionPart(fmt: string, i: nat, args: seq<Arg>, k: nat, f: Flags): (p: Part)
    requires i <= |fmt|
    ensures p.Part? ==> i <= p.at <= |fmt| && p.flags.upper == f.upper && (!p.flags.precision ==> p.value == 0)
  {
    if At(fmt, i) != '.' then Part(f, 0, i, k)
    else
      var g := f.(precision := true);
      if i + 1 == |fmt| then Ended
      else if IsDigit(fmt[i + 1]) then
        var (p, j) := NumberFrom(fmt, i + 1, 0);
        Part(g, p, j, k)
      else if fmt[i + 1] == '*' then
        if k >= |args| || !args[k].Word? then NoArgument
        else Advanced(fmt, g, Max(0, Signed32(args[k].bits)), i + 1, k + 1)
      else Part(g, 0, i + 1, k)
  }

  /** What the first letter of a length modifier selects. On this 32-bit target ptrdiff_t and
      size_t are as wide as long and intmax_t is wider. */
  function OneLength(f: Flags, c: char): (g: Flags)
    ensures g.upper == f.upper && g.precision == f.precision
  {
    if c == 'h' then f.(short := true) else if c == 'j' then f.(longLong := true) else f.(long := true)
  }

  function LengthPart(fmt: string, i: nat, k: nat, f: Flags): (p: Part)
    requires i <= |fmt|
    ensures p.Part? ==> i <= p.at <= |fmt| && p.flags.upper == f.upper && p.flags.precision == f.precision
  {
    var c := At(fmt, i);
    if c == 'l' && i + 1 < |fmt| && fmt[i + 1] == 'l' then
      Advanced(fmt, OneLength(f, c).(longLong := true), 0, i + 1, k)
    else if c == 'h' && i + 1 < |fmt| && fmt[i + 1] == 'h' then
      Advanced(fmt, OneLength(f, c).(char8 := true), 0, i + 1, k)
    else if c == 'l' || c == 'h' || c == 't' || c == 'z' || c == 'j' then Advanced(fmt, OneLength(f, c), 0, i, k)
    else Part(f, 0, i, k)
  }

  datatype Directive =
    | Directive(flags: Flags, width: u32, precision: u32, at: nat, arg: nat)
    | Cut
    | Undefined

  /** Everything between the percent sign and the specifier. Without a dot the
      precision is zero, and the upper-case flag is set only later, by X. */
  function DirectiveAt(fmt: string, i: nat, args: seq<Arg>, k: nat): (d: Directive)
    requires i <= |fmt|
    ensures d.Directive? ==> i <= d.at <= |fmt| && !d.flags.upper && (!d.flags.precision ==> d.precision == 0)
  {
    var (f, j) := FlagsFrom(fmt, i, NO_FLAGS);
    match WidthPart(fmt, j, args, k, f)
    case Ended => Cut
    case NoArgument => Undefined
    case Part(f1, width, j1, k1) =>
      match PrecisionPart(fmt, j1, args, k1, f1)
      case Ended => Cut
      case NoArgument => Undefined
      case Part(f2, precision, j2, k2) =>
        match LengthPart(fmt, j2, k2, f2)
        case Ended => Cut
        case NoArgument => Undefined
        case Part(f3, _, j3, k3) => Directive(f3, width, precision, j3, k3)
  }

  // ------------------------------------------------------------- converting

  /** The value of an argument under the length modifiers. */
  function SignedArg(bits: u32, f: Flags): int {
    if f.long then Signed32(bits)
    else if f.char8 then (if bits % 0x100 < 0x80 then bits % 0x100 else bits % 0x100 - 0x100)
    else if f.short then (if bits % 0x1_0000 < 0x8000 then bits % 0x1_0000 else bits % 0x1_0000 - 0x1_0000)
    else Signed32(bits)
  }

  function UnsignedArg(bits: u32, f: Flags): u32 {
    if f.long then bits else if f.char8 then bits % 0x100 else if f.short then bits % 0x1_0000 else bits
  }

  predicate IntegerSpecifier(c: char) { c in {'d', 'i', 'u', 'x', 'X', 'o', 'b'} }

  function BaseOf(c: char): Radix {
    if c == 'x' || c == 'X' then Hex else if c == 'o' then Oct else if c == 'b' then Bin else Dec
  }

  /** The flag word with which print_integer is called. */
  function IntegerFlags(c: char, f: Flags): Flags {
    var signed := c == 'd' || c == 'i';
    f.(hash := f.hash && !BaseOf(c).Dec?, upper := f.upper || c == 'X', zero := f.zero && !f.precision,
       plus := f.plus && signed, space := f.space && signed)
  }

  /** d and i read a signed argument, the others an unsigned one. */
  function ArgValue(c: char, bits: u32, f: Flags): int {
    if c == 'd' || c == 'i' then SignedArg(bits, f) else UnsignedArg(bits, f)
  }

  /** ABS_FOR_PRINTING. Negating the most negative long wraps around to itself. */
  function AbsForPrinting(v: int): u32 { Wrap32(if v > 0 then v else -v) }

  function IntegerConversion(c: char, d: Directive, bits: u32): string
    requires d.Directive?
  {
    var v := ArgValue(c, bits, d.flags);
    IntegerText(AbsForPrinting(v), v < 0, BaseOf(c), d.precision, d.width, IntegerFlags(c, d.flags))
  }

  function CharText(c: char, width: u32, f: Flags): string {
    var pad := Fill(' ', width - 1);
    if f.left then [c] + pad else pad + [c]
  }

  function Shown(s: string, precision: u32, f: Flags): string {
    if f.precision && precision < |s| then s[..precision] else s
  }

  /** The length the padding of %s is computed from (strnlen_s_, then the precision). */
  function StringLength(s: string, precision: u32, f: Flags): nat {
    var l := Min(|s|, if precision != 0 then precision else INT_MAX);
    if f.precision then Min(l, precision) else l
  }

  function StringText(s: Option<string>, precision: u32, width: u32, f: Flags): string {
    match s
    case None => Justified(")llun(", width, f)
    case Some(s) =>
      var pad := Fill(' ', width - StringLength(s, precision, f));
      if f.left then Shown(s, precision, f) + pad else pad + Shown(s, precision, f)
  }

  /** What a conversion emits and the next argument. None: the argument is missing
      or of the wrong kind, or the specifier is p or n, which are not modelled. */
  function Converted(c: char, d: Directive, args: seq<Arg>): Option<(string, nat)>
    requires d.Directive?
  {
    var k := d.arg;
    if IntegerSpecifier(c) then
      if d.flags.longLong then Some(("", k))
      else if k < |args| && args[k].Word? then Some((IntegerConversion(c, d, args[k].bits), k + 1)) else None
    else if c == 'c' then
      if k < |args| && args[k].Word? then Some((CharText((args[k].bits % 0x100) as char, d.width, d.flags), k + 1)) else None
    else if c == 's' then
      if k < |args| && args[k].Str? then Some((StringText(args[k].chars, d.precision, d.width, d.flags), k + 1)) else None
    else if c == 'p' || c == 'n' then None
    else Some(([c], k))
  }

  /** The complete, untruncated output. None where the C code has no defined
      behaviour: arguments missing or mistyped, or a directive that runs into the
      end of the format after its flags or digits and is then read past the NUL. */
  function Render(fmt: string, i: nat, args: seq<Arg>, k: nat): Option<string>
    requires i <= |fmt|
    decreases |fmt| - i
  {
    if i == |fmt| then Some("")
    else if fmt[i] != '%' then
      match Render(fmt, i + 1, args, k)
      case None => None
      case Some(rest) => Some([fmt[i]] + rest)
    else if i + 1 == |fmt| then Some("")
    else
      var d := DirectiveAt(fmt, i + 1, args, k);
      match d
      case Cut => Some("")
      case Undefined => None
      case Directive(_, _, _, at, _) =>
        if at == |fmt| then None
        else
          match Converted(fmt[at], d, args)
          case None => None
          case Some((text, next)) =>
            match Render(fmt, at + 1, args, next)
            case None => None
            case Some(rest) => Some(text + rest)
  }

  // ------------------------------------------------------------- the loop

  /** parse_flags. */
  method ParseFlags(fmt: string, start: nat) returns (f: Flags, i: nat)
    requires start <= |fmt|
    ensures (f, i) == FlagsFrom(fmt, start, NO_FLAGS) && start <= i <= |fmt|
  {
    f, i := NO_FLAGS, start;
    while true
      invariant start <= i <= |fmt|
      invariant FlagsFrom(fmt, i, f) == FlagsFrom(fmt, start, NO_FLAGS)
      decreases |fmt| - i
    {
      match At(fmt, i) {
        case '0' => f := f.(zero := true);
        case '-' => f := f.(left := true);
        case '+' => f := f.(plus := true);
        case ' ' => f := f.(space := true);
        case '#' => f := f.(hash := true);
        case _ => return;
      }
      i := i + 1;
    }
  }

  /** atou_. */
  method Atou(fmt: string, start: nat) returns (n: u32, i: nat)
    requires start <= |fmt|
    ensures (n, i) == NumberFrom(fmt, start, 0) && start <= i <= |fmt|
  {
    n, i := 0, start;
    while IsDigit(At(fmt, i))
      invariant start <= i <= |fmt|
      invariant NumberFrom(fmt, i, n) == NumberFrom(fmt, start, 0)
      decreases |fmt| - i
    {
      n := Wrap32(n * 10 + DigitValue(fmt[i]));
      i := i + 1;
    }
  }

  /** The width field: digits, or an argument whose sign selects left-justification. */
  method ReadWidth(fmt: string, start: nat, args: seq<Arg>, arg: nat, flags: Flags) returns (p: Part)
    requires start <= |fmt|
    ensures p == WidthPart(fmt, start, args, arg, flags)
  {
    hide NumberFrom;
    var f, width: u32, i, k := flags, 0, start, arg;
    if IsDigit(At(fmt, i)) {
      width, i := Atou(fmt, i);
    } else if At(fmt, i) == '*' {
      if k >= |args| || !args[k].Word? {
        return NoArgument;
      }
      var w := Signed32(args[k].bits);
      k := k + 1;
      if w < 0 {
        f := f.(left := true);
        width := Wrap32(-w);
      } else {
        width := w;
      }
      i := i + 1;
      if i == |fmt| {
        return Ended;
      }
    }
    p := Part(f, width, i, k);
  }

  /** The precision field: nothing without a dot; behind it digits, an argument or nothing. */
  method ReadPrecision(fmt: string, start: nat, args: seq<Arg>, arg: nat, flags: Flags) returns (p: Part)
    requires start <= |fmt|
    ensures p == PrecisionPart(fmt, start, args, arg, flags)
  {
    hide NumberFrom;
    var f, precision: u32, i, k := flags, 0, start, arg;
    if At(fmt, i) == '.' && i < |fmt| {
      f := f.(precision := true);
      i := i + 1;
      if i == |fmt| {
        return Ended;
      }
      if IsDigit(fmt[i]) {
        precision, i := Atou(fmt, i);
      } else if fmt[i] == '*' {
        if k >= |args| || !args[k].Word? {
          return NoArgument;
        }
        var n := Signed32(args[k].bits);
        k := k + 1;
        if n > 0 {
          precision := n;
        }
        i := i + 1;
        if i == |fmt| {
          return Ended;
        }
      }
    }
    p := Part(f, precision, i, k);
  }

  /** The length modifier. */
  method ReadLength(fmt: string, start: nat, arg: nat, flags: Flags) returns (p: Part)
    requires start <= |fmt|
    ensures p == LengthPart(fmt, start, arg, flags)
  {
    var f, i, c := flags, start, At(fmt, start);
    if !(c == 'l' || c == 'h' || c == 't' || c == 'z' || c == 'j') {
      return Part(f, 0, i, arg);
    }
    f := OneLength(f, c);
    i := i + 1;
    if i == |fmt| {
      return Ended;
    }
    if fmt[i] == c && (c == 'l' || c == 'h') {
      f := if c == 'l' then f.(longLong := true) else f.(char8 := true);
      i := i + 1;
      if i == |fmt| {
        return Ended;
      }
    }
    p := Part(f, 0, i, arg);
  }

  /** The header of a directive, from `start` up to its specifier. */
  method ReadDirective(fmt: string, start: nat, args: seq<Arg>, k: nat) returns (d: Directive)
    requires start <= |fmt|
    ensures d == DirectiveAt(fmt, start, args, k)
  {
    hide FlagsFrom, WidthPart, PrecisionPart, LengthPart;
    var f, i := ParseFlags(fmt, start);
    var p := ReadWidth(fmt, i, args, k, f);
    if p.Part? {
      var width := p.value;
      p := ReadPrecision(fmt, p.at, args, p.arg, p.flags);
      if p.Part? {
        var precision := p.value;
        p := ReadLength(fmt, p.at, p.arg, p.flags);
        if p.Part? {
          return Directive(p.flags, width, precision, p.at, p.arg);
        }
      }
    }
    d := if p.Ended? then Cut else Undefined;
  }

  /** The %c case. */
  method PutCharField(output: OutputGadget, c: char, width: u32, f: Flags)
    requires output.Valid()
    modifies output`pos, output`text, output.buffer
    ensures output.Valid() && output.text == old(output.text) + CharText(c, width, f)
  {
    if !f.left {
      PutSpaces(output, 1, width);
    }
    output.PutChar(c);
    if f.left {
      PutSpaces(output, 1, width);
    }
  }

  /** strnlen_s_. */
  method Strnlen(s: string, maxsize: u32) returns (n: nat)
    ensures n == Min(|s|, maxsize)
  {
    n := 0;
    var room := maxsize;
    while n < |s| && room > 0
      invariant n <= |s| && n + room == maxsize
    {
      n, room := n + 1, room - 1;
    }
  }

  /** The characters of a string until its end or until the precision is used up. */
  method PutChars(output: OutputGadget, s: string, precision: u32, f: Flags)
    requires output.Valid()
    modifies output`pos, output`text, output.buffer
    ensures output.Valid() && output.text == old(output.text) + Shown(s, precision, f)
  {
    var i, left := 0, precision;
    while i < |s| && (!f.precision || left != 0)
      invariant 0 <= i <= |s| && output.Valid() && output.text == old(output.text) + s[..i]
      invariant f.precision ==> i + left == precision
      decreases |s| - i
    {
      output.PutChar(s[i]);
      assert s[..i + 1] == s[..i] + [s[i]];
      i, left := i + 1, if left == 0 then 0xffff_ffff else left - 1;
    }
    assert s[..|s|] == s;
  }

  /** The %s case. */
  method PutStringField(output: OutputGadget, s: Option<string>, precision: u32, width: u32, f: Flags)
    requires output.Valid()
    modifies output`pos, output`text, output.buffer
    ensures output.Valid() && output.text == old(output.text) + StringText(s, precision, width, f)
  {
    hide Shown, Fill, Justified;
    match s {
      case None =>
        OutRev(output, ")llun(", width, f);
      case Some(chars) =>
        var l := Strnlen(chars, if precision != 0 then precision else INT_MAX);
        if f.precision && precision < l {
          l := precision;
        }
        PutPadded(output, chars, l, precision, width, f);
    }
  }

  /** The characters shown, in a field of spaces computed for length l. */
  method PutPadded(output: OutputGadget, chars: string, l: nat, precision: u32, width: u32, f: Flags)
    requires output.Valid()
    modifies output`pos, output`text, output.buffer
    ensures output.Valid()
    ensures var pad := Fill(' ', width - l);
      output.text == old(output.text) + if f.left then Shown(chars, precision, f) + pad else pad + Shown(chars, precision, f)
  {
    hide Shown, Fill;
    if !f.left {
      PutSpaces(output, l, width);
    }
    PutChars(output, chars, precision, f);
    if f.left {
      PutSpaces(output, l, width);
    }
  }

  /** The integer cases, for an argument that is there. */
  method PutIntegerField(output: OutputGadget, c: char, d: Directive, bits: u32)
    requires output.Valid() && d.Directive?
    modifies output`pos, output`text, output.buffer
    ensures output.Valid() && output.text == old(output.text) + IntegerConversion(c, d, bits)
  {
    hide IntegerText, IntegerFlags;
    var f := IntegerFlags(c, d.flags);
    if c == 'd' || c == 'i' {
      var v := SignedArg(bits, d.flags);
      PrintInteger(output, AbsForPrinting(v), v < 0, BaseOf(c), d.precision, d.width, f);
    } else {
      PrintInteger(output, UnsignedArg(bits, d.flags), false, BaseOf(c), d.precision, d.width, f);
    }
  }

  /** The switch on the specifier. */
  method PutConverted(output: OutputGadget, c: char, d: Directive, args: seq<Arg>) returns (next: nat)
    requires output.Valid() && d.Directive? && Converted(c, d, args).Some?
    modifies output`pos, output`text, output.buffer
    ensures output.Valid()
    ensures output.text == old(output.text) + Converted(c, d, args).value.0 && next == Converted(c, d, args).value.1
  {
    next := d.arg;
    if IntegerSpecifier(c) {
      if !d.flags.longLong {
        PutIntegerField(output, c, d, args[next].bits);
        next := next + 1;
      }
    } else if c == 'c' {
      PutCharField(output, (args[next].bits % 0x100) as char, d.width, d.flags);
      next := next + 1;
    } else if c == 's' {
      PutStringField(output, args[next].chars, d.precision, d.width, d.flags);
      next := next + 1;
    } else {
      output.PutChar(c);
    }
  }

  /** One turn of the loop, at an ordinary character and at a directive. */
  lemma RenderStep(fmt: string, i: nat, args: seq<Arg>, k: nat)
    requires i < |fmt| && Render(fmt, i, args, k).Some?
    ensures fmt[i] != '%' ==>
      && Render(fmt, i + 1, args, k).Some?
      && Render(fmt, i, args, k).value == [fmt[i]] + Render(fmt, i + 1, args, k).value
    ensures fmt[i] == '%' && i + 1 == |fmt| ==> Render(fmt, i, args, k).value == ""
    ensures fmt[i] == '%' && i + 1 < |fmt| ==>
      var d := DirectiveAt(fmt, i + 1, args, k);
      && !d.Undefined?
      && (d.Cut? ==> Render(fmt, i, args, k).value == "")
      && (d.Directive? ==>
            && d.at < |fmt| && Converted(fmt[d.at], d, args).Some?
            && Render(fmt, d.at + 1, args, Converted(fmt[d.at], d, args).value.1).Some?
            && Render(fmt, i, args, k).value == Converted(fmt[d.at], d, args).value.0 +
                 Render(fmt, d.at + 1, args, Converted(fmt[d.at], d, args).value.1).value)
  {
    hide Converted, DirectiveAt;
  }

  /** format_string_loop: the gadget is given exactly the rendered text. */
  method FormatStringLoop(output: OutputGadget, fmt: string, args: seq<Arg>)
    requires output.Valid() && CText(fmt) && CArguments(args) && Render(fmt, 0, args, 0).Some?
    modifies output`pos, output`text, output.buffer
    ensures output.Valid() && output.text == old(output.text) + Render(fmt, 0, args, 0).value
  {
    hide Converted, DirectiveAt, Render;
    var i, k := 0, 0;
    ghost var goal := old(output.text) + Render(fmt, 0, args, 0).value;
    while i < |fmt|
      invariant 0 <= i <= |fmt| && 0 <= k && output.Valid()
      invariant Render(fmt, i, args, k).Some? && goal == output.text + Render(fmt, i, args, k).value
      decreases |fmt| - i
    {
      RenderStep(fmt, i, args, k);
      if fmt[i] != '%' {
        output.PutChar(fmt[i]);
        i := i + 1;
        continue;
      }
      if i + 1 == |fmt| {
        return;
      }
      var d := ReadDirective(fmt, i + 1, args, k);
      if d.Cut? {
        return;
      }
      var next := PutConverted(output, fmt[d.at], d, args);
      i, k := d.at + 1, next;
    }
    EndOfFormat(fmt, args, k);
  }

  lemma EndOfFormat(fmt: string, args: seq<Arg>, k: nat)
    ensures Render(fmt, |fmt|, args, k) == Some("")
  {
  }

  /** vsnprintf_: buffer_gadget, the loop, the terminating NUL, the count. The
      destination gets what C promises; the count does not depend on `n`. */
  method Vsnprintf(s: array?<char>, n: nat, fmt: string, args: seq<Arg>) returns (count: int)
    requires s != null ==> Min(n, INT_MAX) <= s.Length
    requires CText(fmt) && CArguments(args) && Render(fmt, 0, args, 0).Some?
    modifies s
    ensures count == Signed32(Wrap32(|Render(fmt, 0, args, 0).value|))
    ensures |Render(fmt, 0, args, 0).value| < 0x1_0000_0000 && s != null ==>
      s[..] == Printed(Render(fmt, 0, args, 0).value, old(s[..]), Min(n, INT_MAX))
  {
    hide Render;
    var gadget := new OutputGadget.OnBuffer(s, n);
    FormatStringLoop(gadget, fmt, args);
    gadget.AppendTermination();
    count := Signed32(gadget.pos);
  }
}
