/** Tick counts as text: clock_ticks_to_ms_us, ticks_to_ms_str and the lines of
    update_sample_status. */
module TickText {
  import opened Words
  import opened Numerals
  import opened Gadget
  import opened IntegerFormat
  import opened FormatLoop
  import opened PrintfTheorems

  /** clock_ticks_to_ms_us at ten ticks to the microsecond. */
  function Milliseconds(ticks: u32): u32 { ticks / 10000 }

  function Microseconds(ticks: u32): u32 { (ticks / 10) % 1000 }

  const TICK_FORMAT := "%u.%03u"

  /** The text of a tick count: milliseconds, a point, three digits. */
  function TickString(ticks: u32): string {
    var us := Numeral(Microseconds(ticks), Dec, false);
    Numeral(Milliseconds(ticks), Dec, false) + "." + Fill('0', 3 - |us|) + us
  }

  // ------------------------------------------------------------- rendering

  lemma TickDirectives(args: seq<Arg>)
    ensures DirectiveAt(TICK_FORMAT, 1, args, 0) == Directive(PLAIN, 0, 0, 1, 0)
    ensures DirectiveAt(TICK_FORMAT, 4, args, 1) == Directive(ZERO, 3, 0, 6, 1)
  {
    var fmt := TICK_FORMAT;
    assert FlagsFrom(fmt, 1, NO_FLAGS) == (NO_FLAGS, 1);
    assert FlagsFrom(fmt, 5, ZERO) == (ZERO, 5);
    assert FlagsFrom(fmt, 4, NO_FLAGS) == (ZERO, 5);
    assert NumberFrom(fmt, 6, 3) == (3, 6);
    assert NumberFrom(fmt, 5, 0) == (3, 6);
  }

  lemma TickConversions(ms: u32, us: u32)
    ensures var args := [Word(ms), Word(us)];
      && Converted('u', Directive(PLAIN, 0, 0, 1, 0), args) == Some((IntegerText(ms, false, Dec, 0, 0, PLAIN), 1))
      && Converted('u', Directive(ZERO, 3, 0, 6, 1), args) == Some((IntegerText(us, false, Dec, 0, 3, ZERO), 2))
  {
    hide IntegerText;
    assert IntegerFlags('u', PLAIN) == PLAIN && IntegerFlags('u', ZERO) == ZERO;
    assert ArgValue('u', ms, PLAIN) == ms == AbsForPrinting(ms);
    assert ArgValue('u', us, ZERO) == us == AbsForPrinting(us);
  }

  /** What ticks_to_ms_str renders. */
  lemma TickRender(ticks: u32)
    ensures Render(TICK_FORMAT, 0, [Word(Milliseconds(ticks)), Word(Microseconds(ticks))], 0) == Some(TickString(ticks))
  {
    hide Render, DirectiveAt, Converted, IntegerText, Numeral;
    var ms, us := Milliseconds(ticks), Microseconds(ticks);
    var fmt, args := TICK_FORMAT, [Word(ms), Word(us)];
    TickDirectives(args);
    UnsignedText(ms, 0);
    UnsignedText(us, 3);
    var usText := IntegerText(us, false, Dec, 0, 3, ZERO);
    EndOfFormat(fmt, args, 2);
    TickConversions(ms, us);
    RenderDirective(fmt, 3, args, 1, Directive(ZERO, 3, 0, 6, 1), usText, 2);
    assert fmt[2..3] == ".";
    RenderLiteral(fmt, 2, 3, args, 1);
    RenderDirective(fmt, 0, args, 0, Directive(PLAIN, 0, 0, 1, 0), Numeral(ms, Dec, false), 1);
    assert usText + "" == usText;
    assert Numeral(ms, Dec, false) + ("." + usText) == TickString(ticks);
  }

  /** ticks_to_ms_str. */
  method TicksToMsStr(ticks: u32, str: array<char>, len: nat) returns (count: int)
    requires len <= str.Length
    modifies str
    ensures count == |TickString(ticks)|
    ensures str[..] == Printed(TickString(ticks), old(str[..]), Min(len, INT_MAX))
  {
    hide Render, Printed, TickString, CText, CArguments, Milliseconds, Microseconds;
    var ms, us := Milliseconds(ticks), Microseconds(ticks);
    TickRender(ticks);
    TickLength(ticks);
    TickCall(ms, us);
    count := Vsnprintf(str, len, TICK_FORMAT, [Word(ms), Word(us)]);
  }

  lemma TickCall(ms: u32, us: u32)
    ensures CText(TICK_FORMAT) && CArguments([Word(ms), Word(us)])
  {
  }

  /** A tick text can be passed on as a C string. */
  lemma TickIsText(ticks: u32)
    ensures CText(TickString(ticks))
  {
    NumeralChars(Milliseconds(ticks), Dec, false);
    NumeralChars(Microseconds(ticks), Dec, false);
    hide Numeral;
  }

  // ------------------------------------------------------------- reading it back

  /** Ten characters at most, and exactly three after the point. */
  lemma TickLength(ticks: u32)
    ensures |TickString(ticks)| == |Numeral(Milliseconds(ticks), Dec, false)| + 4 <= 10
    ensures Milliseconds(ticks) < 1000 <==> |TickString(ticks)| <= 7
  {
    var ms, us := Milliseconds(ticks), Microseconds(ticks);
    assert Dec.Pow(3) == 1000 && Dec.Pow(6) == 1000000 by {
      assert Dec.Pow(1) == 10 && Dec.Pow(2) == 100;
      assert Dec.Pow(4) == 10000 && Dec.Pow(5) == 100000;
    }
    NumeralLength(us, Dec, false, 3);
    NumeralLength(ms, Dec, false, 6);
    if ms < 1000 {
      NumeralLength(ms, Dec, false, 3);
    } else {
      assert |Numeral(ms, Dec, false)| == |Numeral(ms / 10, Dec, false)| + 1;
      assert |Numeral(ms / 10, Dec, false)| == |Numeral(ms / 10 / 10, Dec, false)| + 1;
      assert |Numeral(ms / 10 / 10, Dec, false)| == |Numeral(ms / 10 / 10 / 10, Dec, false)| + 1;
    }
  }

  /** The text of any tick count parses back to the whole microseconds in it: the
      number before the point, the point, and three digits up to the end. */
  lemma TickRoundTrip(ticks: u32)
    ensures var t := TickString(ticks);
      var (ms, dot) := NumberFrom(t, 0, 0);
      && dot + 4 == |t| && t[dot] == '.'
      && NumberFrom(t, dot + 1, 0).1 == |t|
      && ms * 1000 + NumberFrom(t, dot + 1, 0).0 == ticks / 10
  {
    hide IntegerText, NumberFrom, Numeral;
    var ms, us := Milliseconds(ticks), Microseconds(ticks);
    var a := Numeral(ms, Dec, false);
    var u := Numeral(us, Dec, false);
    var b := Fill('0', 3 - |u|) + u;
    TickLength(ticks);
    UnsignedText(ms, 0);
    UnsignedText(us, 3);
    assert TickString(ticks) == a + ("." + b);
    PrintThenParse(ms, 0, "." + b);
    PrintThenParse(us, 3, "");
    assert b + "" == b;
    NumberSuffix(a + ".", b, 0, 0);
    assert TickString(ticks) == (a + ".") + b;
  }

  // ------------------------------------------------------------- status lines

  const STATUS_W: nat := 16

  function StatusText(caption: string, ticks: u32): string { caption + TickString(ticks) + " ms" }

  predicate IsCaption(caption: string) { |caption| == 5 && '%' !in caption && CText(caption) }

  lemma StatusDirective(caption: string, args: seq<Arg>)
    requires IsCaption(caption)
    ensures DirectiveAt(caption + "%s ms", 6, args, 0) == Directive(PLAIN, 0, 0, 6, 0)
  {
    var fmt := caption + "%s ms";
    assert fmt[6] == 's';
    assert FlagsFrom(fmt, 6, NO_FLAGS) == (NO_FLAGS, 6);
  }

  lemma StatusRender(caption: string, t: string)
    requires IsCaption(caption) && |t| <= INT_MAX
    ensures Render(caption + "%s ms", 0, [Str(Some(t))], 0) == Some(caption + t + " ms")
  {
    hide Render, DirectiveAt;
    var fmt, args := caption + "%s ms", [Str(Some(t))];
    var d := Directive(PLAIN, 0, 0, 6, 0);
    StatusDirective(caption, args);
    EndOfFormat(fmt, args, 1);
    assert fmt[7..10] == " ms" && |fmt| == 10;
    RenderLiteral(fmt, 7, 10, args, 1);
    assert Fill(' ', 0 - |t|) + t == t;
    assert Converted('s', d, args) == Some((t, 1));
    RenderDirective(fmt, 5, args, 0, d, t, 1);
    assert fmt[0..5] == caption;
    RenderLiteral(fmt, 0, 5, args, 0);
    assert caption + (t + (" ms" + "")) == caption + t + " ms";
  }

  /** One line of update_sample_status: the tick text goes through a 16-byte scratch
      buffer, the line through snprintf with 16 of the line's 17 bytes. */
  method PutStatusLine(line: array<char>, caption: string, ticks: u32)
    requires line.Length == STATUS_W + 1 && IsCaption(caption)
    modifies line
    ensures line[..] == Printed(caption + TickString(ticks) + " ms", old(line[..]), 16)
  {
    hide Render;
    var msStr := new char[16];
    var count := TicksToMsStr(ticks, msStr, 16);
    TickLength(ticks);
    assert msStr[..count] == TickString(ticks) && msStr[count] == '\0';
    var shown := msStr[..count];
    StatusRender(caption, shown);
    TickIsText(ticks);
    assert CText(caption + "%s ms");
    var _ := Vsnprintf(line, STATUS_W, caption + "%s ms", [Str(Some(shown))]);
  }

  /** The line is complete exactly below 1000 ms; from there on its last
      character is lost. */
  lemma StatusTruncation(caption: string, ticks: u32, before: string)
    requires IsCaption(caption) && |before| == STATUS_W + 1
    ensures var text, line := StatusText(caption, ticks), Printed(StatusText(caption, ticks), before, STATUS_W);
      (exists n | 0 <= n < STATUS_W :: line[..n] == text && line[n] == '\0') <==> Milliseconds(ticks) < 1000
  {
    hide TickString;
    TickLength(ticks);
    var text, line := StatusText(caption, ticks), Printed(StatusText(caption, ticks), before, STATUS_W);
    assert |text| == |TickString(ticks)| + 8;
    if Milliseconds(ticks) < 1000 {
      assert line[..|text|] == text && line[|text|] == '\0';
    } else {
      assert |text| >= STATUS_W;
    }
  }
}
