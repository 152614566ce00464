/** What the reader of a directive understands: which flags a run of flag characters sets,
    and that every header, wherever it stands in a format, is read back as what was written. */
module Directives {
  import opened Words
  import opened Numerals
  import opened IntegerFormat
  import opened FormatLoop
  import opened PrintfTheorems

  // ------------------------------------------------------------- flags

  ghost predicate AllFlags(s: string) { forall c | c in s :: IsFlag(c) }

  /** The flags f and those whose characters occur in the run. */
  function WithAll(f: Flags, run: string): Flags {
    f.(zero := f.zero || '0' in run, left := f.left || '-' in run, plus := f.plus || '+' in run,
       space := f.space || ' ' in run, hash := f.hash || '#' in run)
  }

  lemma OneMore(f: Flags, c: char, run: string)
    requires IsFlag(c)
    ensures WithAll(WithFlag(f, c), run) == WithAll(f, [c] + run)
  {
    OneFlag(f, c);
    hide WithFlag;
    InFront(c, run, '0');
    InFront(c, run, '-');
    InFront(c, run, '+');
    InFront(c, run, ' ');
    InFront(c, run, '#');
  }

  lemma OneFlag(f: Flags, c: char)
    ensures c == '0' ==> WithFlag(f, c) == f.(zero := true)
    ensures c == '-' ==> WithFlag(f, c) == f.(left := true)
    ensures c == '+' ==> WithFlag(f, c) == f.(plus := true)
    ensures c == ' ' ==> WithFlag(f, c) == f.(space := true)
    ensures c == '#' ==> WithFlag(f, c) == f.(hash := true)
  {
  }

  lemma InFront(c: char, run: string, x: char)
    ensures x in [c] + run <==> x == c || x in run
  {
    var s := [c] + run;
    assert s[0] == c;
    if x in run {
      var i :| 0 <= i < |run| && run[i] == x;
      assert s[i + 1] == x;
    }
    if x in s && x != c {
      var i :| 0 <= i < |s| && s[i] == x;
      assert run[i - 1] == x;
    }
  }

  /** parse_flags stops at the first character that is no flag, and sets each flag exactly
      when its character occurs before that. */
  lemma {:induction false} FlagsMean(fmt: string, i: nat, f: Flags)
    requires i <= |fmt|
    ensures var (g, j) := FlagsFrom(fmt, i, f);
      AllFlags(fmt[i..j]) && (j == |fmt| || !IsFlag(fmt[j])) && g == WithAll(f, fmt[i..j])
    decreases |fmt| - i
  {
    if i < |fmt| && IsFlag(fmt[i]) {
      var (g, j) := FlagsFrom(fmt, i, f);
      FlagsMean(fmt, i + 1, WithFlag(f, fmt[i]));
      OneMore(f, fmt[i], fmt[i + 1..j]);
      hide WithAll, WithFlag, IsFlag;
      assert fmt[i..j] == [fmt[i]] + fmt[i + 1..j];
    } else {
      assert fmt[i..i] == "";
    }
  }

  // ------------------------------------------------------------- headers as text

  datatype Width = NoWidth | WidthDigits(digits: string) | WidthStar(bits: u32)

  /** No digits behind the dot count as zero. */
  datatype Precision = NoPrecision | DotDigits(digits: string) | DotStar(bits: u32)

  datatype Length = NoLength | HalfHalf | Half | Long | LongLong | Ptrdiff | Size | Intmax

  /** A directive as it is written; a star stands for the argument word beside it. */
  datatype Spec = Spec(flags: string, width: Width, precision: Precision, length: Length, conv: char)

  ghost predicate AllDigits(s: string) { forall c | c in s :: IsDigit(c) }

  /** A character that ends a header. */
  predicate Ends(c: char) {
    !IsFlag(c) && !IsDigit(c) && c != '*' && c != '.' && c != 'l' && c != 'h' && c != 't' && c != 'z' && c != 'j'
  }

  /** A width starts with no zero, which would be a flag. */
  ghost predicate Written(d: Spec) {
    && AllFlags(d.flags) && Ends(d.conv)
    && (d.width.WidthDigits? ==> d.width.digits != "" && AllDigits(d.width.digits) && d.width.digits[0] != '0')
    && (d.precision.DotDigits? ==> AllDigits(d.precision.digits))
  }

  function WidthText(w: Width): string {
    match w
    case NoWidth => ""
    case WidthDigits(digits) => digits
    case WidthStar(_) => "*"
  }

  function PrecisionText(p: Precision): string {
    match p
    case NoPrecision => ""
    case DotDigits(digits) => "." + digits
    case DotStar(_) => ".*"
  }

  function LengthText(l: Length): string {
    match l
    case NoLength => ""
    case HalfHalf => "hh"
    case Half => "h"
    case Long => "l"
    case LongLong => "ll"
    case Ptrdiff => "t"
    case Size => "z"
    case Intmax => "j"
  }

  function HeaderText(d: Spec): string { d.flags + WidthText(d.width) + PrecisionText(d.precision) + LengthText(d.length) }

  function WidthArgs(w: Width): seq<Arg> { if w.WidthStar? then [Word(w.bits)] else [] }

  function PrecisionArgs(p: Precision): seq<Arg> { if p.DotStar? then [Word(p.bits)] else [] }

  // ------------------------------------------------------------- what is read

  predicate NegativeWidth(w: Width) { w.WidthStar? && Signed32(w.bits) < 0 }

  function WidthRead(w: Width): u32 {
    match w
    case NoWidth => 0
    case WidthDigits(digits) => Value(digits, Dec) % 0x1_0000_0000
    case WidthStar(bits) => if Signed32(bits) < 0 then 0 - Signed32(bits) else Signed32(bits)
  }

  /** A negative star precision is read as zero. */
  function PrecisionRead(p: Precision): u32 {
    match p
    case NoPrecision => 0
    case DotDigits(digits) => Value(digits, Dec) % 0x1_0000_0000
    case DotStar(bits) => Max(0, Signed32(bits))
  }

  function LengthRead(l: Length, f: Flags): Flags {
    match l
    case NoLength => f
    case HalfHalf => f.(short := true, char8 := true)
    case Half => f.(short := true)
    case Long => f.(long := true)
    case LongLong => f.(long := true, longLong := true)
    case Ptrdiff => f.(long := true)
    case Size => f.(long := true)
    case Intmax => f.(longLong := true)
  }

  /** The flag word after the width, after the precision, and complete. */
  function WidthFlags(d: Spec): (f: Flags)
    ensures !f.precision
  {
    var f := WithAll(NO_FLAGS, d.flags);
    if NegativeWidth(d.width) then f.(left := true) else f
  }

  function PrecisionFlags(d: Spec): Flags { WidthFlags(d).(precision := !d.precision.NoPrecision?) }

  function FlagsRead(d: Spec): Flags { LengthRead(d.length, PrecisionFlags(d)) }

  // ------------------------------------------------------------- reading back

  /** The text t stands at position i, and something follows it. */
  predicate Stands(fmt: string, i: nat, t: string) { i + |t| < |fmt| && fmt[i..i + |t|] == t }

  /** The parts of a header, each with what may follow it. */
  predicate FlagsStand(fmt: string, i: nat, s: string) { Stands(fmt, i, s) && !IsFlag(fmt[i + |s|]) }

  predicate WidthStands(fmt: string, i: nat, w: Width) {
    Stands(fmt, i, WidthText(w)) && !IsDigit(fmt[i + |WidthText(w)|]) && fmt[i + |WidthText(w)|] != '*'
  }

  predicate PrecisionStands(fmt: string, i: nat, p: Precision) {
    && Stands(fmt, i, PrecisionText(p))
    && var c := fmt[i + |PrecisionText(p)|]; !IsDigit(c) && c != '.' && c != '*'
  }

  predicate LengthStands(fmt: string, i: nat, l: Length) {
    Stands(fmt, i, LengthText(l)) && Ends(fmt[i + |LengthText(l)|])
  }

  lemma {:induction false} FlagsAt(fmt: string, i: nat, s: string, f: Flags)
    requires FlagsStand(fmt, i, s) && AllFlags(s)
    ensures FlagsFrom(fmt, i, f) == (WithAll(f, s), i + |s|)
    decreases |s|
  {
    hide WithAll, WithFlag, IsFlag, AllFlags;
    if s == "" {
      NoFlags(f);
    } else {
      assert fmt[i] == s[0] && s == [s[0]] + s[1..];
      FlagsBehind(fmt, i, s);
      FlagsAt(fmt, i + 1, s[1..], WithFlag(f, s[0]));
      OneMore(f, s[0], s[1..]);
    }
  }

  lemma NoFlags(f: Flags)
    ensures WithAll(f, "") == f
  {
  }

  lemma FlagsBehind(fmt: string, i: nat, s: string)
    requires FlagsStand(fmt, i, s) && AllFlags(s) && s != ""
    ensures FlagsStand(fmt, i + 1, s[1..]) && AllFlags(s[1..]) && IsFlag(s[0])
  {
    hide IsFlag;
    assert fmt[i + 1..i + 1 + |s[1..]|] == s[1..];
    assert s[0] in s;
  }

  lemma DigitsAt(fmt: string, i: nat, s: string)
    requires Stands(fmt, i, s) && AllDigits(s) && !IsDigit(fmt[i + |s|])
    ensures NumberFrom(fmt, i, 0) == (Value(s, Dec) % 0x1_0000_0000, i + |s|)
  {
    hide Value, NumberFrom;
    var a, rest := fmt[..i], fmt[i + |s|..];
    assert fmt == a + (s + rest);
    AtouReads(s, rest);
    NumberSuffix(a, s + rest, 0, 0);
  }

  lemma WidthAt(fmt: string, i: nat, w: Width, args: seq<Arg>, k: nat, f: Flags)
    requires WidthStands(fmt, i, w)
    requires w.WidthDigits? ==> w.digits != "" && AllDigits(w.digits)
    requires w.WidthStar? ==> k < |args| && args[k] == Word(w.bits)
    ensures WidthPart(fmt, i, args, k, f)
         == Part(if NegativeWidth(w) then f.(left := true) else f, WidthRead(w), i + |WidthText(w)|, k + |WidthArgs(w)|)
  {
    hide Value, NumberFrom;
    if w.WidthDigits? {
      DigitsAt(fmt, i, w.digits);
      assert fmt[i] == w.digits[0] && w.digits[0] in w.digits;
    } else if w.WidthStar? {
      assert fmt[i] == fmt[i..i + 1][0] == '*';
    }
  }

  lemma PrecisionAt(fmt: string, i: nat, p: Precision, args: seq<Arg>, k: nat, f: Flags)
    requires PrecisionStands(fmt, i, p) && !f.precision
    requires p.DotDigits? ==> AllDigits(p.digits)
    requires p.DotStar? ==> k < |args| && args[k] == Word(p.bits)
    ensures PrecisionPart(fmt, i, args, k, f)
         == Part(f.(precision := !p.NoPrecision?), PrecisionRead(p), i + |PrecisionText(p)|, k + |PrecisionArgs(p)|)
  {
    hide Value, NumberFrom;
    if p.DotDigits? {
      DotDigitsAt(fmt, i, p.digits);
    } else if p.DotStar? {
      assert fmt[i] == fmt[i..i + 2][0] == '.' && fmt[i + 1] == fmt[i..i + 2][1] == '*';
    }
  }

  lemma DotDigitsAt(fmt: string, i: nat, digits: string)
    requires Stands(fmt, i, "." + digits) && AllDigits(digits) && !IsDigit(fmt[i + 1 + |digits|])
    ensures fmt[i] == '.' && NumberFrom(fmt, i + 1, 0) == (Value(digits, Dec) % 0x1_0000_0000, i + 1 + |digits|)
    ensures if digits == "" then !IsDigit(fmt[i + 1]) && Value(digits, Dec) == 0 else IsDigit(fmt[i + 1])
  {
    var t := "." + digits;
    assert fmt[i] == fmt[i..i + |t|][0] == '.';
    assert fmt[i + 1..i + 1 + |digits|] == fmt[i..i + |t|][1..] == digits;
    DigitsAt(fmt, i + 1, digits);
    hide NumberFrom;
    if digits != "" {
      assert fmt[i + 1] == digits[0] && digits[0] in digits;
    }
  }

  lemma LengthAt(fmt: string, i: nat, l: Length, k: nat, f: Flags)
    requires LengthStands(fmt, i, l)
    ensures LengthPart(fmt, i, k, f) == Part(LengthRead(l, f), 0, i + |LengthText(l)|, k)
  {
    var t := LengthText(l);
    if |t| > 0 {
      assert fmt[i] == fmt[i..i + |t|][0];
    }
    if |t| > 1 {
      assert fmt[i + 1] == fmt[i..i + |t|][1];
    }
  }

  /** The parts of a text stand one behind the other. */
  lemma PartStands(fmt: string, i: nat, a: string, b: string)
    requires Stands(fmt, i, a + b)
    ensures Stands(fmt, i, a) && Stands(fmt, i + |a|, b) && fmt[i + |a|] == (b + [fmt[i + |a + b|]])[0]
  {
    var t := fmt[i..i + |a + b|];
    assert fmt[i..i + |a|] == t[..|a|] == a;
    assert fmt[i + |a|..i + |a| + |b|] == t[|a|..] == b;
    if b != "" {
      assert fmt[i + |a|] == t[|a|] == b[0];
    }
  }

  /** What the first character behind the flags, the width and the precision cannot be. */
  lemma Followers(d: Spec)
    requires Written(d)
    ensures var s := LengthText(d.length) + [d.conv]; !IsDigit(s[0]) && s[0] != '.' && s[0] != '*' && !IsFlag(s[0])
    ensures var s := PrecisionText(d.precision) + LengthText(d.length) + [d.conv];
      !IsDigit(s[0]) && s[0] != '*' && !IsFlag(s[0])
    ensures var s := WidthText(d.width) + PrecisionText(d.precision) + LengthText(d.length) + [d.conv]; !IsFlag(s[0])
  {
    var l := LengthText(d.length) + [d.conv];
    assert l[0] == if d.length.NoLength? then d.conv else LengthText(d.length)[0];
    var p := PrecisionText(d.precision) + LengthText(d.length) + [d.conv];
    assert p[0] == if d.precision.NoPrecision? then l[0] else '.';
    var w := WidthText(d.width) + PrecisionText(d.precision) + LengthText(d.length) + [d.conv];
    assert w[0] == if d.width.NoWidth? then p[0] else WidthText(d.width)[0];
    if d.width.WidthDigits? {
      assert d.width.digits[0] in d.width.digits;
    }
  }

  /** The parts of a directive in their order. */
  lemma DirectiveParts(fmt: string, start: nat, args: seq<Arg>, k: nat, f: Flags, i: nat, g: Flags, w: u32, j: nat, k1: nat,
                       h: Flags, p: u32, l: nat, k2: nat, e: Flags, at: nat)
    requires start <= i <= j <= l <= at <= |fmt| && FlagsFrom(fmt, start, NO_FLAGS) == (f, i)
    requires WidthPart(fmt, i, args, k, f) == Part(g, w, j, k1)
    requires PrecisionPart(fmt, j, args, k1, g) == Part(h, p, l, k2)
    requires LengthPart(fmt, l, k2, h) == Part(e, 0, at, k2)
    ensures DirectiveAt(fmt, start, args, k) == Directive(e, w, p, at, k2)
  {
    hide FlagsFrom, WidthPart, PrecisionPart, LengthPart;
  }

  /** The header's arguments are next in the list. */
  predicate Supplied(args: seq<Arg>, k: nat, d: Spec) {
    var w, p := |WidthArgs(d.width)|, |PrecisionArgs(d.precision)|;
    k + w + p <= |args| && args[k..k + w] == WidthArgs(d.width) && args[k + w..k + w + p] == PrecisionArgs(d.precision)
  }

  /** Positions and argument numbers behind the width and the precision. */
  function WidthEnd(i: nat, d: Spec): nat { i + |d.flags| + |WidthText(d.width)| }

  function PrecisionEnd(i: nat, d: Spec): nat { WidthEnd(i, d) + |PrecisionText(d.precision)| }

  function AfterWidth(k: nat, d: Spec): nat { k + |WidthArgs(d.width)| }

  function AfterHeader(k: nat, d: Spec): nat { AfterWidth(k, d) + |PrecisionArgs(d.precision)| }

  /** A whole header stands at position i, its specifier behind it. */
  ghost predicate HeaderStands(fmt: string, i: nat, d: Spec) {
    Written(d) && Stands(fmt, i, HeaderText(d)) && fmt[i + |HeaderText(d)|] == d.conv
  }

  /** Where the parts of a header stand. */
  lemma HeaderFacts(fmt: string, i: nat, d: Spec)
    requires HeaderStands(fmt, i, d)
    ensures Written(d) && PrecisionEnd(i, d) + |LengthText(d.length)| == i + |HeaderText(d)| < |fmt|
    ensures FlagsStand(fmt, i, d.flags) && WidthStands(fmt, i + |d.flags|, d.width)
    ensures PrecisionStands(fmt, WidthEnd(i, d), d.precision) && LengthStands(fmt, PrecisionEnd(i, d), d.length)
  {
    Header(fmt, i, d);
    hide *;
    Followers(d);
    PartsStand(fmt, i, d.flags, WidthText(d.width), PrecisionText(d.precision), LengthText(d.length));
    PartsFollowed(fmt, i, d);
  }

  /** What it means for a header to stand somewhere. */
  lemma Header(fmt: string, i: nat, d: Spec)
    requires HeaderStands(fmt, i, d)
    ensures Written(d) && Ends(d.conv)
    ensures HeaderText(d) == d.flags + WidthText(d.width) + PrecisionText(d.precision) + LengthText(d.length)
    ensures Stands(fmt, i, HeaderText(d)) && i + |HeaderText(d)| < |fmt| && fmt[i + |HeaderText(d)|] == d.conv
    ensures PrecisionEnd(i, d) + |LengthText(d.length)| == i + |HeaderText(d)|
    ensures WidthEnd(i, d) == i + |d.flags| + |WidthText(d.width)|
    ensures PrecisionEnd(i, d) == i + |d.flags| + |WidthText(d.width)| + |PrecisionText(d.precision)|
  {
    hide WidthText, PrecisionText, LengthText, Ends, AllFlags;
  }

  lemma PartsFollowed(fmt: string, i: nat, d: Spec)
    requires WidthEnd(i, d) <= PrecisionEnd(i, d) && PrecisionEnd(i, d) + |LengthText(d.length)| < |fmt|
    requires Stands(fmt, i, d.flags) && !IsFlag(fmt[i + |d.flags|])
    requires Stands(fmt, i + |d.flags|, WidthText(d.width)) && !IsDigit(fmt[WidthEnd(i, d)]) && fmt[WidthEnd(i, d)] != '*'
    requires Stands(fmt, WidthEnd(i, d), PrecisionText(d.precision))
    requires var c := fmt[PrecisionEnd(i, d)]; !IsDigit(c) && c != '.' && c != '*'
    requires Stands(fmt, PrecisionEnd(i, d), LengthText(d.length)) && Ends(fmt[PrecisionEnd(i, d) + |LengthText(d.length)|])
    ensures FlagsStand(fmt, i, d.flags) && WidthStands(fmt, i + |d.flags|, d.width)
    ensures PrecisionStands(fmt, WidthEnd(i, d), d.precision) && LengthStands(fmt, PrecisionEnd(i, d), d.length)
  {
    hide Stands, WidthText, PrecisionText, LengthText, IsFlag, IsDigit, Ends;
  }

  /** What the reader makes of the width, the precision and the length of a header at i. */
  lemma WidthStage(fmt: string, i: nat, d: Spec, args: seq<Arg>, k: nat)
    requires HeaderStands(fmt, i, d) && Supplied(args, k, d)
    ensures i + |d.flags| <= WidthEnd(i, d) <= |fmt|
    ensures WidthPart(fmt, i + |d.flags|, args, k, WithAll(NO_FLAGS, d.flags))
         == Part(WidthFlags(d), WidthRead(d.width), WidthEnd(i, d), AfterWidth(k, d))
  {
    hide *;
    HeaderFacts(fmt, i, d);
    ArgsSupplied(args, k, d);
    WidthFacts(i, d, k);
    WidthAt(fmt, i + |d.flags|, d.width, args, k, WithAll(NO_FLAGS, d.flags));
  }

  lemma WidthFacts(i: nat, d: Spec, k: nat)
    ensures WidthFlags(d) == if NegativeWidth(d.width) then WithAll(NO_FLAGS, d.flags).(left := true) else WithAll(NO_FLAGS, d.flags)
    ensures WidthEnd(i, d) == i + |d.flags| + |WidthText(d.width)| && AfterWidth(k, d) == k + |WidthArgs(d.width)|
    ensures Written(d) && d.width.WidthDigits? ==> d.width.digits != "" && AllDigits(d.width.digits)
  {
    hide WithAll, AllFlags, Ends, IsDigit;
  }

  lemma PrecisionStage(fmt: string, i: nat, d: Spec, args: seq<Arg>, k: nat)
    requires HeaderStands(fmt, i, d) && Supplied(args, k, d)
    ensures WidthEnd(i, d) <= PrecisionEnd(i, d) <= |fmt|
    ensures PrecisionPart(fmt, WidthEnd(i, d), args, AfterWidth(k, d), WidthFlags(d))
         == Part(PrecisionFlags(d), PrecisionRead(d.precision), PrecisionEnd(i, d), AfterHeader(k, d))
  {
    hide *;
    HeaderFacts(fmt, i, d);
    ArgsSupplied(args, k, d);
    PrecisionFacts(i, d, k);
    PrecisionAt(fmt, WidthEnd(i, d), d.precision, args, AfterWidth(k, d), WidthFlags(d));
  }

  lemma PrecisionFacts(i: nat, d: Spec, k: nat)
    ensures PrecisionFlags(d) == WidthFlags(d).(precision := !d.precision.NoPrecision?)
    ensures PrecisionEnd(i, d) == WidthEnd(i, d) + |PrecisionText(d.precision)|
    ensures AfterWidth(k, d) == k + |WidthArgs(d.width)| && AfterHeader(k, d) == AfterWidth(k, d) + |PrecisionArgs(d.precision)|
    ensures Written(d) && d.precision.DotDigits? ==> AllDigits(d.precision.digits)
  {
    hide WidthFlags, AllFlags, AllDigits, Ends, IsDigit;
  }

  lemma LengthStage(fmt: string, i: nat, d: Spec, k: nat)
    requires HeaderStands(fmt, i, d)
    ensures PrecisionEnd(i, d) <= i + |HeaderText(d)| <= |fmt|
    ensures LengthPart(fmt, PrecisionEnd(i, d), k, PrecisionFlags(d)) == Part(FlagsRead(d), 0, i + |HeaderText(d)|, k)
  {
    assert FlagsRead(d) == LengthRead(d.length, PrecisionFlags(d)) by { hide LengthRead, PrecisionFlags; }
    hide *;
    HeaderFacts(fmt, i, d);
    LengthAt(fmt, PrecisionEnd(i, d), d.length, k, PrecisionFlags(d));
  }

  lemma FlagsStage(fmt: string, i: nat, d: Spec)
    requires HeaderStands(fmt, i, d)
    ensures FlagsFrom(fmt, i, NO_FLAGS) == (WithAll(NO_FLAGS, d.flags), i + |d.flags|)
  {
    HeaderFacts(fmt, i, d);
    assert AllFlags(d.flags);
    hide HeaderStands, FlagsStand, WidthStands, PrecisionStands, LengthStands, AllFlags, FlagsFrom, WithAll;
    FlagsAt(fmt, i, d.flags, NO_FLAGS);
  }

  /** Every header of flags, width, precision and length modifier, with digits or stars, is
      read back as what it was made from, wherever it stands in a format; the reader stops
      at the specifier and has taken the arguments of the stars. */
  lemma HeaderRoundTrip(fmt: string, i: nat, d: Spec, args: seq<Arg>, k: nat)
    requires HeaderStands(fmt, i, d) && Supplied(args, k, d)
    ensures DirectiveAt(fmt, i, args, k) ==
      Directive(FlagsRead(d), WidthRead(d.width), PrecisionRead(d.precision), i + |HeaderText(d)|, AfterHeader(k, d))
  {
    hide *;
    FlagsStage(fmt, i, d);
    WidthStage(fmt, i, d, args, k);
    PrecisionStage(fmt, i, d, args, k);
    LengthStage(fmt, i, d, AfterHeader(k, d));
    DirectiveParts(fmt, i, args, k, WithAll(NO_FLAGS, d.flags), i + |d.flags|, WidthFlags(d), WidthRead(d.width), WidthEnd(i, d),
                   AfterWidth(k, d), PrecisionFlags(d), PrecisionRead(d.precision), PrecisionEnd(i, d), AfterHeader(k, d),
                   FlagsRead(d), i + |HeaderText(d)|);
  }

  lemma ArgsSupplied(args: seq<Arg>, k: nat, d: Spec)
    requires Supplied(args, k, d)
    ensures d.width.WidthStar? ==> k < |args| && args[k] == Word(d.width.bits)
    ensures var k1 := k + |WidthArgs(d.width)|;
      d.precision.DotStar? ==> k1 < |args| && args[k1] == Word(d.precision.bits)
  {
    var w, p := |WidthArgs(d.width)|, |PrecisionArgs(d.precision)|;
    if d.width.WidthStar? {
      assert args[k] == args[k..k + w][0];
    }
    if d.precision.DotStar? {
      assert args[k + w] == args[k + w..k + w + p][0];
    }
  }

  lemma PartsStand(fmt: string, i: nat, f: string, w: string, p: string, l: string)
    requires Stands(fmt, i, f + w + p + l)
    ensures var c := fmt[i + |f + w + p + l|];
      && Stands(fmt, i, f) && fmt[i + |f|] == (w + p + l + [c])[0]
      && Stands(fmt, i + |f|, w) && fmt[i + |f| + |w|] == (p + l + [c])[0]
      && Stands(fmt, i + |f| + |w|, p) && fmt[i + |f| + |w| + |p|] == (l + [c])[0]
      && Stands(fmt, i + |f| + |w| + |p|, l)
  {
    assert f + w + p + l == f + (w + p + l) && w + p + l == w + (p + l);
    hide Stands;
    PartStands(fmt, i, f, w + p + l);
    PartStands(fmt, i + |f|, w, p + l);
    PartStands(fmt, i + |f| + |w|, p, l);
  }
}
