# MiSTerLaggy, verified

A Dafny model of MiSTerLaggy, the display lag meter: a 68000 firmware that lights part of
the screen and times the response of a light sensor, the video hardware it drives, and the
printf engine it reports with. Every module names the component it follows.

| module | component |
|---|---|
| Words, Numerals | fixed-width words; positional numerals, the reference for printing and parsing |
| Gadget, IntegerFormat, IntegerField, FormatLoop, PrintfTheorems, Directives, Omitted, Formats | the printf engine, as configured by the firmware's Makefile |
| TickText | tick counts as text and the status lines |
| Protocol, ProtocolOrder, ProtocolPolls, ProtocolTheorems, ProtocolRuns | the measurement: polled state machine and nested interrupt handlers |
| SampleRing, RunStatistics | sample history, and the statistics of a run of the measurement |
| FracCen, Crtc, Raster | pixel enable, CRT controller, the raster it draws |
| Sheet, Tilemap, Display | tile ROM, tilemap pipeline, the picture on the screen |
| Blitter, Gfx, Drawing, Screen, Firmware | rectangle filler, page flipping, drawing while displaying, the firmware's display calls |
| Pll, Cvt | PLL settings and video timing |

`dafny verify dfyconfig.toml` checks the project.

## Main results

- **Printing.** `FormatIsStandard` compares whole formats, as written and with their arguments,
  with an independent statement of the C standard's fields; `ItemIsStandard` gives the exact
  condition for each directive. An integer field must fit the 32-character work buffer (with
  one coincidence: a lost space sign that padding supplies again), and a negative star
  precision must be harmless. `HeaderRoundTrip` reads every header back. `Vsnprintf` is proved
  on the in-place buffer, truncation included. `PrintThenParse` and `TickRoundTrip` read the
  output back.
- **Measuring.** `RunInv` covers every interleaving. `PollOutcome` says how every poll of every
  run ends, `LimitsRun` that no phase outlives its limit by more than a poll, `Progress` and
  `StepsEnd` that nothing gets stuck. clock_get_ticks ends by enabling
  interrupts, also inside a handler, so handlers of one level can nest; the state machine
  keeps a stack of them. "First" is the first handler that finds the round's sequence number
  stale. `RecordedSample` says that a sample runs from the earliest frame read to the earliest
  sensor read of its round. A frame handler can be overtaken before its clock read, but
  `FrameOrderRun` shows that such a round never yields a sample within one wrap of the counter;
  `OvertakenRun` is one. Properties that hold only conditionally have an if-and-only-if and a
  concrete run that breaks them: `ReentryRun`, `StaleRun`, `WrapRun`, `LostRun`, `LateRun`.
- **Displaying.** `ShowsFromAnyContents` is a refinement: divider, controller, memories with
  their read latencies and the nine-column pipeline together show the simple picture function
  of the front page. `NoTearing` and `RectOnBackPage` add the blitter drawing meanwhile,
  `FlipShowsRect` goes from gfx_rect through the page flip to the pixels on the screen, and
  `ClearedScreen` shows that clearing the root window reaches all of them.
- **Timing.** `FrameVisitsOnce`, `VisiblePerFrame`, `Conservation`, `ShiftedRate`,
  `TerminatesExactly`, `FindPllPar`, `CvtIsSound` and `HorizontalFields` hold for all register
  contents and all frequencies and modes of their domain.

## Where code and comments disagree

- The restart branch of jtframe_frac_cen assigns the accumulator, but a later non-blocking
  assignment in the same clock always wins. The model follows the code; `RecoversExactly`
  says which contents recover without it.
- A negative `*` precision is read as zero, where the C standard takes it as omitted. The
  model follows the code; `NegativePrecisionFails` is an input, `NegativePrecision` and
  `NegativeStringPrecision` say when the two agree all the same.
- Reset is meant to clear the counters of crtc.sv, but a pixel enable in the same clock assigns
  them later; `ResetExactly` says when they are zero all the same.
- Long long conversions are compiled out without consuming their argument: `LongLongShifts`.
- The status lines reserve 17 bytes but snprintf is given 16, hence `StatusTruncation`.

## Form

Hardware and gadget state are classes whose methods update fields in place, each proved equal
to a step function on values; runs and theorems are about those functions. The main loop and
the interrupt handlers are a state machine over atomic steps, because their instructions
interleave. Time is an environment choice that strictly increases from one clock read to the
next. Frequencies and rates are real numbers.

## Model

| member | source | states |
|---|---|---|
| `Numerals.NumeralValue` | firmware/src/printf/printf.c:544-550 | The digits that repeated division by the base produces denote the number they were made from, in every base |
| `Numerals.NumeralCanonical` | firmware/src/printf/printf.c:544-550 | No numeral of a positive number starts with a zero |
| `Numerals.WordDigits` | firmware/src/printf/printf.c:525-553 | The 32-character buffer never cuts a digit of a 32-bit value: at most 32, 11, 10 and 8 digits in base 2, 8, 10 and 16 |
| `Numerals.DigitNames` | firmware/src/printf/printf.c:544-550 | The sixteen digit values have the characters 0 to 9 and a to f, or A to F, and no two the same |
| `Gadget.CellStep` | firmware/src/printf/printf.c:322-339 | Pushing a character changes exactly the cell under the 32-bit cursor, also after the cursor has wrapped |
| `Gadget.OutputGadget.OnBuffer` | firmware/src/printf/printf.c:373-383 | A fresh gadget has counted nothing; a null destination discards and an oversized one is clipped to INT_MAX |
| `Gadget.OutputGadget.PutChar` | firmware/src/printf/printf.c:322-339 | Every character is counted; each cell of the destination always holds the last text character that fell on it, or what it held before |
| `Gadget.OutputGadget.AppendTermination` | firmware/src/printf/printf.c:342-352 | After termination an n-byte destination holds the first min(n - 1, L) characters, a NUL and otherwise its old contents |
| `IntegerFormat.OutRev` | firmware/src/printf/printf.c:431-453 | The buffer is emitted reversed and justified to the width, also when the cursor wraps on the way |
| `IntegerFormat.PutDigits` | firmware/src/printf/printf.c:544-550 | The digit loop leaves the reversed numeral of the value, never cut short |
| `IntegerFormat.PutPrefix` | firmware/src/printf/printf.c:483-507 | The in-place # block leaves the buffer that the prefix function gives; PlainFits and ZeroFits prove what that means |
| `IntegerFormat.PrintIntegerFinalization` | firmware/src/printf/printf.c:458-522 | Zeros, prefix, sign and justification, worked in place in the 32-character buffer, emit the text that the field theorems are about |
| `IntegerFormat.PrintInteger` | firmware/src/printf/printf.c:525-553 | The gadget receives exactly IntegerText, the text IntegerTextIsField compares with the C standard |
| `IntegerField.BodySpaces` | firmware/src/printf/printf.c:509-519 | Sign, prefix and digits contain a space only as a space sign in front |
| `IntegerField.PlainFits` | firmware/src/printf/printf.c:458-522 | Without zero padding, a body of at most 32 characters is emitted as the C standard's field |
| `IntegerField.PlainOverflow` | firmware/src/printf/printf.c:458-522 | A longer body is emitted as the standard's field if and only if all it loses is a space sign that right-justification supplies again |
| `IntegerField.ZeroFits` | firmware/src/printf/printf.c:458-522 | Zero padding to at most 32 columns yields the standard's field, including the zeros given back to 0x and the sign |
| `IntegerField.ZeroTooWide` | firmware/src/printf/printf.c:466-469 | Zero padding to more than 32 columns never yields the standard's field |
| `IntegerField.IntegerTextIsField` | firmware/src/printf/printf.c:458-553 | For every value, width, precision and flag set, the emitted text is the field of section 7.21.6.1 of ISO/IEC 9899:2011 if and only if Fits holds |
| `FormatLoop.ParseFlags` | firmware/src/printf/printf.c:1024-1037 | Reads exactly the maximal run of flag characters and the set of flags in it |
| `FormatLoop.Atou` | firmware/src/printf/printf.c:420-427 | Reads the maximal run of digits, modulo 2^32; AtouReads and PrintThenParse say what that number is |
| `FormatLoop.ReadWidth` | firmware/src/printf/printf.c:1061-1076 | Digits, or an argument whose sign selects left-justification, read step by step with the early return at the end of the string; HeaderRoundTrip says what is read |
| `FormatLoop.ReadPrecision` | firmware/src/printf/printf.c:1078-1091 | Nothing without a dot; behind it digits, an argument clipped at zero, or nothing |
| `FormatLoop.ReadLength` | firmware/src/printf/printf.c:1093-1150 | One or two modifier letters and the flags they set on this 32-bit target |
| `FormatLoop.ReadDirective` | firmware/src/printf/printf.c:1056-1150 | The four readers in sequence stop where HeaderRoundTrip says, with flags, width, precision, position and next argument |
| `Directives.HeaderRoundTrip` | firmware/src/printf/printf.c:1056-1150 | Wherever it stands in a format, every header of flags, width, precision and length modifier, with digits of any length or stars, is read back as what it was made from, up to the specifier and past the arguments of its stars |
| `Directives.FlagsMean` | firmware/src/printf/printf.c:1024-1037 | parse_flags stops at the first character that is no flag, and sets each flag exactly when its character occurs before that |
| `FormatLoop.PutStringField` | firmware/src/printf/printf.c:1278-1308 | Emits the padded and truncated string, or the justified (null) |
| `FormatLoop.FormatStringLoop` | firmware/src/printf/printf.c:1039-1349 | Over any format and argument list with defined behaviour the gadget receives exactly the rendered text |
| `FormatLoop.Vsnprintf` | firmware/src/printf/printf.c:1352-1377 | Returns the untruncated length as an int whatever the size, and leaves what C promises in the destination: min(n - 1, L) characters, a NUL, all other cells untouched |
| `Formats.FormatRenders` | firmware/src/printf/printf.c:1048-1349 | A format written as literals, percent signs and directives, behind any prefix, renders as the texts of these items in order, each directive with its own arguments |
| `Formats.StandardValue` | firmware/src/printf/printf.c:1190-1236 | The number the standard converts: in the range of the type that length and conversion select, and congruent to the argument word |
| `Formats.ConvertsOnce` | firmware/src/printf/printf.c:1190-1236 | There is only one such number |
| `Formats.ArgumentRead` | firmware/src/printf/printf.c:1154-1236 | The engine reads that number, in the standard's base, for every conversion and length |
| `Formats.ItemIsStandard` | firmware/src/printf/printf.c:1056-1308 | For every supported directive as written and every argument (d, i, u, o, x, X, c, s; all flags, widths, precisions, stars and lengths) the text is what section 7.21.6.1 of ISO/IEC 9899:2011 asks for if and only if the item conforms: it fits the work buffer, or its negative star precision is harmless |
| `Formats.FormatIsStandard` | firmware/src/printf/printf.c:1039-1349 | A whole format whose directives conform renders as its literals and the standard's fields in order |
| `Formats.PrintItems` | firmware/src/printf/printf.c:1373-1377 | snprintf of a whole format whose directives conform leaves the standard's text, cut and terminated, in the destination and returns its full length |
| `Omitted.OmittedField` | firmware/src/printf/printf.c:1087-1090 | A field at precision zero is the field without a precision if and only if the value has digits there and no zeros pad it |
| `Omitted.NegativePrecision` | firmware/src/printf/printf.c:1087-1090 | After a negative star precision an integer directive prints the standard's field, precision omitted, if and only if the value is not 0 (or is # octal) and the field is not padded with zeros |
| `Omitted.NegativeStringPrecision` | firmware/src/printf/printf.c:1087-1090 | After a negative star precision %s prints the standard's field if and only if the string is spaces that the padding supplies |
| `Omitted.NegativePrecisionFails` | firmware/src/printf/printf.c:1087-1090 | Counterexample: printing 0 with "%.*u" and precision -1 yields the empty text where the standard asks for 0 |
| `PrintfTheorems.Magnitude` | firmware/src/printf/printf.c:297-300 | ABS_FOR_PRINTING gives the true magnitude under every length modifier, the most negative value included |
| `PrintfTheorems.ArgumentValue` | firmware/src/printf/printf.c:1200-1236 | The converted argument is the value of the type the length modifiers select, signed exactly for d and i and unsigned for the others, that is congruent to the argument word |
| `PrintfTheorems.Bases` | firmware/src/printf/printf.c:1166-1179 | d, i and u are decimal, o octal, x and X hexadecimal, b binary |
| `PrintfTheorems.NullString` | firmware/src/printf/printf.c:1280-1282 | A NULL string is (null) in spaces up to the width, whatever the precision; the 0 flag drops the spaces in front |
| `PrintfTheorems.CutShort` | firmware/src/printf/printf.c:1042-1057 | A format that ends inside a directive prints the text before it and nothing of the directive, and its last character is a percent sign, dot, star or length letter |
| `PrintfTheorems.LongLongSkipped` | firmware/src/printf/printf.c:1194-1200 | A long long conversion renders as nothing and leaves its argument to the next directive |
| `PrintfTheorems.LongLongShifts` | firmware/src/printf/printf.c:1194-1200 | Counterexample: "%lld%c" with the arguments 65 and 66 prints A |
| `PrintfTheorems.BinaryPrefix` | firmware/src/printf/printf.c:499-507 | %#b writes 0b in front of the digits if and only if there are at most thirty of them |
| `PrintfTheorems.FieldIgnoresZero` | firmware/src/printf/printf.c:1186-1189 | Beside a precision the 0 flag has no effect on the field |
| `PrintfTheorems.AtouReads` | firmware/src/printf/printf.c:420-427 | atou_ reads a run of digits as the number it denotes modulo 2^32 and stops behind it |
| `PrintfTheorems.PrintThenParse` | firmware/src/printf/printf.c:420-427 | Parsing inverts printing: atou_ returns the value printed by %u or %0Nu (N up to 32), stops at its end, and no intermediate value exceeds it |
| `TickText.TickRender` | firmware/src/clock.c:3-7 | The format of ticks_to_ms_str renders milliseconds, a point and exactly three microsecond digits for every tick count |
| `TickText.TicksToMsStr` | firmware/src/main.c:296-301 | The buffer holds the tick text, truncated and terminated as C promises, and the full length is returned |
| `TickText.TickLength` | firmware/src/main.c:353-356 | The text has at most ten characters, so the 16-byte scratch buffers never truncate; at most seven exactly below 1000 ms |
| `TickText.TickRoundTrip` | firmware/src/main.c:296-301 | The text of any tick count parses back to the whole microseconds it stands for |
| `TickText.PutStatusLine` | firmware/src/main.c:353-362 | A status line is caption, tick text and unit through two snprintf calls; the 17th byte of the line is never touched |
| `TickText.StatusTruncation` | firmware/src/main.c:353-362 | A status line is complete if and only if the time is below 1000 ms |
| `Protocol.AfterCheck` | firmware/src/main.c:54-54 | A handler that finds its sequence number stale keeps the channel invariant, also when it interrupts a handler of its own level |
| `Protocol.AfterLatch` | firmware/src/clock.h:26-36 | The clock read, after which interrupts are enabled even inside a handler, keeps the channel invariant |
| `Protocol.AfterStore` | firmware/src/main.c:56-56 | Storing the stamp keeps the channel invariant with any handlers nested below |
| `Protocol.AfterFinish` | firmware/src/main.c:57-57 | Storing the sequence number keeps it; when the last handler returns the stamp belongs to the current round |
| `Protocol.ElapsedBound` | firmware/src/main.c:372-373 | The 32-bit elapsed time never exceeds the true one and equals it within one wrap |
| `Protocol.NextInv` | firmware/src/main.c:370-425 | Every step of every handler and of the poll keeps the protocol invariant |
| `Protocol.RunInv` | firmware/src/main.c:370-425 | Every state of every interleaving, of any length and nesting depth, satisfies the protocol invariant |
| `ProtocolPolls.LimitsRun` | firmware/src/main.c:382-406 | In every state of every run, a phase that is still waiting was within its limit at the last poll: at most 5,000,000 ticks in a round, fewer than 2,000,000 before one |
| `ProtocolPolls.PollOutcome` | firmware/src/main.c:370-425 | Every poll of every run, whatever interrupts fall into it, ends as its clock read and the sequence numbers say: a round is kept open before 200 ms, given up after 500 ms, and closed with exactly one sample or one missing sample if both numbers are current |
| `ProtocolPolls.StepsEnd` | firmware/src/main.c:370-425 | Between interrupts every handler and every poll comes to its end: each step lowers a rank |
| `ProtocolPolls.Progress` | firmware/src/main.c:370-425 | There is no deadlock: in every state of every run some step is possible without a new interrupt |
| `ProtocolTheorems.SequenceMeansCurrent` | firmware/src/main.c:407-407 | An equal 16-bit sequence number means a capture in the current round if and only if fewer than 65536 rounds lie between |
| `ProtocolOrder.SensorOrderRun` | firmware/src/main.c:63-70 | In every run the sensor's clock reads happen in the order in which its handlers found the round fresh |
| `ProtocolOrder.FrameOrderRun` | firmware/src/main.c:52-61 | In every run, if a frame handler reads the clock before the one that first found the round fresh, every sensor stamp of the round is earlier than that first handler's read |
| `ProtocolTheorems.EarliestSensorRead` | firmware/src/main.c:63-70 | The first sensor handler's read is the earliest of the round, and the stamp of a sample is that read if and only if the handler was not re-entered between its stores |
| `ProtocolTheorems.EarliestFrameRead` | firmware/src/main.c:52-61 | The same of the frame in every sample whose frame stamp is before its sensor stamp, although frame handlers can be overtaken |
| `ProtocolTheorems.RecordedSample` | firmware/src/main.c:407-418 | A recorded sample is positive, made of two stamps of the current round, and is the true time between them if and only if the counter did not wrap between them; then it runs from the round's earliest frame read to its earliest sensor read unless a first handler was re-entered between its stores |
| `ProtocolTheorems.SampleBound` | firmware/src/main.c:402-418 | Without an interrupt in the poll a sample is at most 500 ms if and only if the counter did not wrap between the stamps; in any poll a wrap between them makes it longer, and without one the excess is at most the time by which the sensor stamp is later than the poll's own clock read |
| `ProtocolTheorems.MissingSample` | firmware/src/main.c:410-418 | In every run a closed round counts as missing exactly when the sensor did not fire after the frame, if and only if the time between the stamps is as long as the wraps it crosses; for stamps less than one wrap apart, if and only if they lie in one wrap; otherwise a wrap after the frame loses the sample and one after the sensor makes one up |
| `ProtocolTheorems.StampsFrozen` | firmware/src/main.c:407-417 | From the sequence test to the recording no interrupt can change a stamp or a sequence number, so the two reads of each stamp agree |
| `ProtocolTheorems.OneOutcomePerRound` | firmware/src/main.c:389-419 | In every run, rounds started equal samples recorded plus samples missed plus the one open round |
| `ProtocolTheorems.StartsApart` | firmware/src/main.c:382-397 | Two rounds start at least 4,000,000 true ticks (400 ms) apart, however often the counter wraps and however rarely the poll runs |
| `ProtocolRuns.MissedRounds` | firmware/src/main.c:396-406 | From any waiting state the protocol can run through any number of rounds without an interrupt, keeping both stamps |
| `ProtocolRuns.ReentryRun` | firmware/src/main.c:63-70 | Counterexample run: a second sensor edge between the two stores makes the sample 500,100 ticks where the first read says 500,000 |
| `ProtocolRuns.LateRun` | firmware/src/main.c:402-418 | Counterexample run: a sensor edge between the poll's clock read and its sequence test records 510 ms |
| `ProtocolRuns.OvertakenRun` | firmware/src/main.c:52-70 | A run in which the first frame handler is overtaken by one nested in a sensor handler, and the round counts as missing |
| `ProtocolRuns.StaleRun` | firmware/src/main.c:407-418 | Counterexample run: round 65537 records a sample from round 1 although no handler ran in it |
| `ProtocolRuns.WrapRun` | firmware/src/main.c:410-417 | Counterexample run: a sensor edge just before and a frame just after the counter wraps record 0xFFFFFFF0 ticks instead of a missing sample |
| `ProtocolRuns.LostRun` | firmware/src/main.c:410-413 | Counterexample run: a frame just before and a sensor edge just after the counter wraps count as a missing sample |
| `RunStatistics.SamplesBounded` | firmware/src/main.c:370-425 | In a run whose recordings SampleBound bounds, every recorded sample is positive and at most 500 ms |
| `RunStatistics.RunStatistics` | firmware/src/main.c:329-346 | The statistics over such a run's samples never overflow the 32-bit total, and the mean lies between any bounds on the samples looked at |
| `RunStatistics.UpdateStatus` | firmware/src/main.c:329-346 | Minimum, mean and maximum shown after such a run are in order, positive and at most 500 ms |
| `SampleRing.CellIs` | firmware/src/main.c:316-322 | A cell holds the latest sample whose number is congruent to its index modulo sixteen |
| `SampleRing.FullRing` | firmware/src/main.c:316-322 | From sixteen samples on the ring is a rotation of the last sixteen in order |
| `SampleRing.LiveIsRecent` | firmware/src/main.c:335-344 | The cells the statistics look at are the multiset of the last min(n, 16) samples if and only if the 32-bit index has not wrapped to a value below sixteen |
| `SampleRing.TotalNeverOverflows` | firmware/src/main.c:333-340 | If every recorded sample is below 2^28 the 32-bit total never overflows |
| `SampleRing.MeanBetween` | firmware/src/main.c:346-346 | A mean whose total did not overflow lies between any bounds on the samples |
| `SampleRing.MeanRoundsDown` | firmware/src/main.c:346-346 | The mean is the largest number whose count-fold does not exceed the total |
| `SampleRing.History.constructor` | firmware/src/main.c:304-306 | The cleared ring records the empty history |
| `SampleRing.History.RecordNewSample` | firmware/src/main.c:316-322 | Recording appends to the history the ring stands for, index wrap-around included |
| `SampleRing.History.Statistics` | firmware/src/main.c:329-346 | Minimum and maximum are attained bounds of the live samples, and the mean lies between them unless the total overflowed |
| `FracCen.ClockEnable.Clock` | rtl/jtframe_frac_cen.v:37-59 | One clock of all registers with non-blocking semantics; the restart assignment has no effect because a later one always overrides it |
| `FracCen.Conservation` | rtl/jtframe_frac_cen.v:24-56 | m times the pulses plus the accumulator equals the start plus n times the clocks: no fraction of a pulse is ever lost |
| `FracCen.PulseRate` | rtl/jtframe_frac_cen.v:24-56 | After any number k of clocks there have been exactly floor((c + k n) / m) pulses |
| `FracCen.HalfRate` | rtl/jtframe_frac_cen.v:33-54 | cen[1] pulses exactly once for every two pulses of cen[0] |
| `FracCen.OneShiftedPerPeriod` | rtl/jtframe_frac_cen.v:31-49 | Between two consecutive pulses of cen[0] lies exactly one pulse of cenb[0] |
| `FracCen.ShiftedRate` | rtl/jtframe_frac_cen.v:31-49 | Up to a rate of one half there have been floor((k n + m - m / 2) / m) shifted pulses after k clocks from reset: half a period ahead |
| `FracCen.GatedPauses` | rtl/jtframe_frac_cen.v:37-58 | With any pattern of cen_in the counters are those of the enabled clocks alone, and a clock without it has no pulse |
| `FracCen.RecoversExactly` | rtl/jtframe_frac_cen.v:41-57 | From arbitrary accumulator contents normal operation is reached if and only if n < m, or the contents are in range, or the next sum overflows eleven bits |
| `Crtc.Controller.Clock` | rtl/crtc.sv:81-113 | All registers after one clock, with reset, byte writes and counting in the order in which the source assigns |
| `Crtc.WordWritten` | rtl/crtc.sv:89-113 | A word write to a register below the counters sets that register and no other, whatever the counters do |
| `Crtc.ByteWritten` | rtl/crtc.sv:89-90 | A byte strobe replaces its own byte of the addressed register; every other byte of the timing registers stays |
| `Crtc.ResetExactly` | rtl/crtc.sv:84-112 | Reset leaves both counters at zero if and only if no pixel enable falls on the same clock, or that enable wraps them: the later assignment wins |
| `Raster.ThreeClocksSettle` | rtl/crtc.sv:96-101 | Three clocks after the last write all six boundary registers are the sums of the timing registers, from any contents |
| `Raster.SettledStep` | rtl/crtc.sv:103-112 | A pixel enable moves the counters one raster position on, and nothing else moves them |
| `Raster.RunWalks` | rtl/crtc.sv:81-113 | The position after any pattern of enables depends only on their number |
| `Raster.EntersRange` | rtl/crtc.sv:103-112 | From any counter values one line of enables leads into the raster |
| `Raster.FrameVisitsOnce` | firmware/src/hdmi.h:18-21 | A frame is exactly video_mode_pixels enables, and it visits every position of the raster exactly once, from any start |
| `Raster.Blanking` | rtl/crtc.sv:73-76 | A position is unblanked if and only if it is in the active rectangle, and both sync pulses lie inside blanking |
| `Raster.SyncPulses` | rtl/crtc.sv:74-76 | Horizontal sync is high exactly in the last hs columns and vertical sync exactly in the last vs lines |
| `Raster.BoxPerFrame` | rtl/crtc.sv:103-112 | Any rectangle of the raster is visited as often per frame as it has positions, from any start |
| `Raster.VisiblePerFrame` | rtl/crtc.sv:73-76 | Of the enables of every frame, from any start, exactly hact * vact are unblanked, hs * Vtotal have horizontal and vs * Htotal vertical sync |
| `Sheet.PackThenShift` | rtl/tilemap.sv:94-101 | Shifting out a packed row yields its eight pixels, low four bits each, from left to right |
| `Sheet.WriteSheet` | roms/gfxgen.py:40-58 | The 2048 words hold row r of tile t at address 8 t + r, blank where the sheet has no tile |
| `Sheet.SheetRoundTrip` | roms/gfxgen.py:48-57 | Pixel column c of the word for (tile, row) differs from the sheet's pixel 8 row + c by a multiple of sixteen, is that pixel if it has four bits, and is 0 where the sheet has no tile |
| `Tilemap.Device.Clock` | rtl/tilemap.sv:79-105 | One clock of video RAM, offset registers, memory read registers and colour pipeline |
| `Tilemap.ByteLanes` | rtl/tilemap.sv:31-57 | A byte strobe replaces its own byte of a cell or offset register and keeps the other |
| `Tilemap.OffsetsWritten` | rtl/tilemap.sv:81-84 | A word written to an even register address is the horizontal offset, to an odd one the vertical offset, and video RAM stays |
| `Tilemap.HoldsClock` | rtl/tilemap.sv:34-70 | Between enables the memories deliver, one and two clocks late, what the pipeline invariant says |
| `Tilemap.HoldsEnable` | rtl/tilemap.sv:86-104 | A pixel enable carries the pipeline invariant from column H to H + 1: the output is the pixel of nine columns before |
| `Blitter.Machine.Clock` | rtl/blitter.sv:32-85 | All registers after one clock, idle or active, reset first |
| `Blitter.ByteLanes` | rtl/blitter.sv:23-27 | A byte strobe replaces its own byte of a register and keeps the other |
| `Blitter.NoRegister` | rtl/blitter.sv:52-82 | An address that is no register, and a submit without its low strobe, change nothing |
| `Blitter.BusIgnored` | rtl/blitter.sv:36-52 | Whatever is on the bus meanwhile, short of a reset a running fill does what it does on a quiet bus |
| `Blitter.ResetStops` | rtl/blitter.sv:33-35 | A reset ends any fill at once and keeps its registers; the next submit begins anew |
| `Blitter.FillMoves` | rtl/blitter.sv:36-51 | An active clock writes the value at start + row * (span + skip) + column and moves to the next position |
| `Blitter.TerminatesExactly` | rtl/blitter.sv:36-51 | For arbitrary registers a submitted fill ends if and only if the row register is not 0xFFFF |
| `Blitter.ActiveClocks` | rtl/blitter.sv:36-51 | A fill of w by h cells is active for exactly w * h + 1 clocks |
| `Gfx.Pages.Set240p` | firmware/src/gfx.c:72-122 | The two timings in numbers, 480 by 230 and 400 by 253 in all; the root window is exactly the visible picture; the offsets show one page and drawing goes to the other, in both modes and from any earlier page |
| `Gfx.Pages.PageFlip` | firmware/src/gfx.c:124-135 | Front and back change places together: the offsets always show the page that is not drawn on |
| `Gfx.SetMode` | firmware/src/hdmi.c:272-294 | The register writes of crt_set_mode leave exactly the requested timing, a 1/4 divider and the aspect ratio, whatever enables fall between them |
| `Gfx.WriteTileCtrl` | firmware/src/gfx.c:129-130 | The two offset writes of a page flip arrive in the tilemap and leave video RAM alone |
| `Gfx.CellOfPage` | firmware/src/gfx.c:115-119 | vram[128 y + x] of a page is RAM cell 0x2000 page + 128 y + x |
| `Gfx.FetchedRow` | rtl/tilemap.sv:25-47 | With a page's offsets, row py of the screen is read from row py / 8 of that page, whatever the column |
| `Gfx.DrawingIsInvisible` | firmware/src/gfx.c:124-135 | In every page state, no cell drawn at in-page coordinates is one the tilemap fetches for a displayed row |
| `Gfx.Rect` | firmware/src/gfx.c:366-376 | The six register writes submit a fill with the window's origin, the pen's blank tile and a row stride of 128 cells |
| `Gfx.ClearWindow` | firmware/src/gfx.c:137-148 | Clearing programs the rectangle of the whole window with pen 0 |
| `Gfx.RectAddress` | firmware/src/gfx.c:366-376 | Row r, column c of a rectangle of 1 to 128 columns is written at start + 128 r + c |
| `Drawing.RunFill` | rtl/blitter.sv:32-85 | Clocked until idle, a fill leaves memory with exactly its row-by-row writes applied, after one clock per write and one more |
| `Drawing.RectWritesOnce` | firmware/src/gfx.c:366-376 | A rectangle up to 128 by 512 writes w * h words in row order, each at start + 128 i + j with the pen's blank tile, and no address twice |
| `Drawing.FilledCell` | rtl/blitter.sv:36-51 | After a fill a cell holds the fill value if some write hit it and its old contents otherwise |
| `Drawing.RectIsPageRect` | firmware/src/gfx.c:366-376 | For in-page coordinates the 16-bit register arithmetic of gfx_rect is exact |
| `Drawing.RectOnPage` | firmware/src/gfx.c:366-376 | Exactly the cells of the rectangle change, all other cells of both pages are as before |
| `Display.FirmwareModes` | firmware/src/gfx.c:76-106 | Both firmware timings satisfy what the screen theorem asks of a mode, their pictures are 48 by 27 and 40 by 30 cells, and their frames 480 * 230 and 400 * 253 pixels |
| `Display.InLineStep` | rtl/system.sv:370-391 | One clock of divider, controller and tilemap together keeps the display invariant while anything is written to the other page |
| `Display.ScreenShowsPicture` | rtl/tilemap.sv:25-105 | Refinement: for every run of at least one line, whatever the pipeline held, the colour at every visible position is that of the front page's picture |
| `Display.ShowsFromAnyContents` | rtl/crtc.sv:58-113 | The same from arbitrary divider, counter, boundary and pipeline contents, 684 clocks and two lines after the settings are written |
| `Display.PictureFromSheet` | roms/gfxgen.py:40-58 | With the generated ROM the picture is made of the sheet's own pixels plus the cell's attribute |
| `Screen.FillKeepsToItsPage` | rtl/system.sv:370-391 | Throughout an in-page fill no write reaches the other page |
| `Screen.NoTearing` | rtl/system.sv:370-391 | While a rectangle is drawn on the back page, every visible position of every clock shows the front page's picture |
| `Screen.RectOnBackPage` | firmware/src/gfx.c:366-376 | End to end: after w * h + 1 clocks the fill is over, the front page is unchanged, and the back page's picture differs exactly by the fill value in the rectangle |
| `Screen.FlipReady` | firmware/src/gfx.c:129-130 | After the two offset writes a page is on display as it was in memory, without any settling |
| `Screen.FlipShowsRect` | firmware/src/gfx.c:124-135 | From gfx_rect to the screen: one line after the page flip every visible position shows the back page's old picture with the pen's blank tile in exactly the rectangle |
| `Screen.ClearedScreen` | firmware/src/gfx.c:124-148 | After clearing the root window and flipping, every visible position shows the space of pen 0: nothing that is seen is left out |
| `Firmware.Set240p` | firmware/src/gfx.c:72-122 | After all register writes of gfx_set_240p the hardware is set up to display the new front page in the timing given in numbers, whose picture is the root window, for any divider and pipeline contents |
| `Firmware.PageFlip` | firmware/src/gfx.c:124-135 | After a page flip the hardware is set up to display the page that was drawn on, with memory unchanged and drawing directed to the other page |
| `Firmware.DisplayShows` | rtl/crtc.sv:58-113 | From there 684 clocks and two lines lead to the front page's picture at every visible position |
| `Pll.FirstDivider` | firmware/src/hdmi.c:92-93 | The first divider is the least with a VCO of at least 400 MHz |
| `Pll.ReachIsRange` | firmware/src/hdmi.c:92-122 | The dividers in reach are all with a VCO from 400 to 1500 MHz, and none below 400 MHz or, but for divider one, more than a step above 1500 MHz |
| `Pll.FindPllPar` | firmware/src/hdmi.c:90-126 | The search ends for every positive frequency, succeeds if and only if some divider in reach has an allowed fraction, and returns the least such divider with VCO = 50 (m + ko) |
| `Pll.NothingInReach` | firmware/src/hdmi.c:95-122 | When the search gives up every divider in reach has been rejected |
| `Pll.SetPll` | firmware/src/hdmi.c:128-158 | Search or fallback, the fraction handed to the hardware is allowed, the setting is exact when the search succeeds, and within 2.5 MHz of VCO otherwise |
| `Pll.PixelClock` | firmware/src/hdmi.c:159-161 | The synthesized clock is exactly the requested one after a successful search and off by at most 2.5 / c MHz after the fallback |
| `Pll.DecodesExactly` | firmware/src/hdmi.c:84-88 | High count, low count and odd flag of a divider word give back the divider if and only if it is at most 510 |
| `Pll.WordsDecode` | firmware/src/hdmi.c:128-172 | For every pixel clock from 4 to 1000 MHz both divider words decode to their dividers |
| `Cvt.DetermineVsync` | firmware/src/hdmi.c:300-316 | The sync width of the first aspect ratio in table order that gives the width, ten if none does |
| `Cvt.WidthProportions` | firmware/src/hdmi.c:302-308 | The width tried for a ratio is h in the proportions 4:3, 16:9, 16:10, 5:4 or 15:9, rounded down to fours |
| `Cvt.AspectRatios` | firmware/src/hdmi.c:302-313 | Exact 4:3, 16:9, 16:10, 5:4 and 15:9 sizes get 4, 5, 6, 7 and 7 lines of sync |
| `Cvt.Period` | firmware/src/hdmi.c:365-365 | The estimated line period is positive if and only if a frame lasts longer than the 550 us of sync and back porch |
| `Cvt.ReducedPeriod` | firmware/src/hdmi.c:338-338 | With reduced blanking, if and only if a frame lasts longer than 460 us |
| `Cvt.FrameIsFilled` | firmware/src/hdmi.c:338-365 | lines + 3 periods and 550 us, or with reduced blanking lines periods and 460 us, are exactly one frame |
| `Cvt.StretchShare` | firmware/src/hdmi.c:383-383 | The stretched blanking is the duty cycle's share of the whole line |
| `Cvt.HorizontalFields` | firmware/src/hdmi.c:367-403 | Normal blanking, on the stored fields: the width rounded down to fours; a quarter of it, or from a duty of 20 % on the share of 30 % less 0.3 % per microsecond of period, rounded down to eights; half of that as back porch; 8 % of the line, rounded down to fours, as sync |
| `Cvt.VerticalFields` | firmware/src/hdmi.c:338-402 | Two lines of front porch, the sync width of the ratio, and a back porch one line longer than the fewest lines, at least six, that make up 550 us (460 us); 48, 32 and 80 columns with reduced blanking |
| `Cvt.SyncFits` | firmware/src/hdmi.c:386-390 | The sync pulse fits the half of the blanking that is not back porch, for every width |
| `Cvt.CvtIsSound` | firmware/src/hdmi.c:318-404 | For every width, line count and rate with a positive line period: no negative porch, porches adding up to the blanking, a back porch of at least seven lines, and more than 550 us (reduced: 460 us) of sync and back porch (vertical blank) |
| `Cvt.ReducedClock` | firmware/src/hdmi.c:332-357 | With reduced blanking the pixel clock is exactly the rate times the pixels of a stored frame |
| `Cvt.NormalClock` | firmware/src/hdmi.c:386-392 | Without reduced blanking one stored line of pixels takes exactly the estimated line period |
| `Cvt.CalculateCvt` | firmware/src/hdmi.c:318-404 | The stored mode is the timing that HorizontalFields and VerticalFields describe, field by field, in sixteen bits |
| `Cvt.StoredExactly` | firmware/src/hdmi.c:395-403 | Nothing is lost in sixteen bits if and only if the line period is long enough for fewer than 65536 lines of back porch |

## Left out

- Floating point, long long, %p, %n, function gadgets and printf to the console: not part of the model; long long conversions are compiled out of the firmware, and `LongLongSkipped` says what then happens.
- FormatStringLoop: formats with missing or mistyped arguments, and directives that run into the end of the string and are read past its NUL, have no defined behaviour and no rendering.
- Vsnprintf: the destination is stated for outputs below 2^32 characters; beyond that the cursor wraps and only the cell invariant of the gadget holds.
- FormatIsStandard: conversion b, which the standard does not have, %p and %n, the lengths ll and j, lengths on c and s, and NULL strings are no items of the comparison; widths and precisions are below 2^32.
- Magnitude: negating the most negative long is modelled as the wrap-around that two's complement gives.
- RecordedSample: asks for fewer than 65536 rounds since each capture; SequenceMeansCurrent shows this is what the sequence test needs and StaleRun what happens otherwise.
- EarliestFrameRead: asks for a frame stamp before the sensor stamp, which every sample within one wrap of the counter has.
- RunStatistics: asks for recordings in polls without an interrupt and without a counter wrap in the round, the case in which SampleBound bounds a sample by 500 ms.
- SampleBound: asks for a poll less than one counter wrap after the round began, and for stamps at least 500 ms short of that if an interrupt came during the poll.
- Protocol: update in place of the globals is not modelled, handlers and poll are steps on values; the level 2 handler, palette writes, the unreachable default case and debug markers are left out.
- Statistics: asks for a non-zero sample index; at zero (before the first sample, or after 2^32 of them) the source divides by zero.
- Processor, bus timing, tick latch and interrupt wiring: a register write is one clock, an interrupt is an environment step.
- Memories: only their latency is modelled, one clock for RAM and two for the ROM; the processor's read port is left out.
- crtc.sv and blitter.sv read-back (dout), PLL write strobe, and the tilemap's unread stage and vcnt_prev registers.
- WriteSheet: the .mif text around the words is left out; every tile of the sheet has 64 pixels, as cropping makes it.
- FindPllPar: dividers are unbounded integers and frequencies exact reals; IEEE rounding and the float comparison constants 0.05 and 0.95 are taken as exact.
- SetPll: real arithmetic, like FindPllPar; the register writes themselves are left out.
- CvtIsSound: real arithmetic; single-precision rounding of the period and of the 0.08 factor is not modelled.
- CalculateCvt: asks for a positive estimated line period, without which the source converts a negative or infinite float to int.
- HDMI register programming, I2C, menus, windows, text output, the context stack, images and frames, rand32 and the boot code: they would add members but no harder property.
