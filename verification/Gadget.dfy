/** The output gadget of printf.c: a cursor that counts every character it is
    given, also the ones that no longer fit, and writes only those that do. */
module Gadget {
  import opened Words

  /** PRINTF_MAX_POSSIBLE_BUFFER_SIZE is INT_MAX. */
  const INT_MAX: nat := 0x7fff_ffff

  /** The last index below n that falls on cell i when the 32-bit cursor wraps. */
  ghost function LastAt(n: nat, i: u32): (k: nat)
    requires i < n
    ensures k < n && k % 0x1_0000_0000 == i
  {
    i + (n - 1 - i) / 0x1_0000_0000 * 0x1_0000_0000
  }

  /** Cell i of a destination of `limit` usable cells once `text` has gone
      through the cursor. */
  ghost function Cell(text: string, initial: string, limit: u32, i: nat): char
    requires i < |initial|
  {
    if i < limit && i < |text| then text[LastAt(|text|, i)] else initial[i]
  }

  /** What C promises of an n-byte destination: the first min(n - 1, L)
      characters, a NUL, and every other cell as it was. */
  ghost function Printed(text: string, initial: string, n: nat): (cells: string)
    requires n <= |initial|
    ensures |cells| == |initial|
  {
    if n == 0 then initial
    else
      var k := Min(n - 1, |text|);
      text[..k] + ['\0'] + initial[k + 1..]
  }

  lemma LastAtStep(n: nat, i: u32)
    requires i <= n
    ensures i == n % 0x1_0000_0000 ==> LastAt(n + 1, i) == n
    ensures i != n % 0x1_0000_0000 ==> i < n && LastAt(n + 1, i) == LastAt(n, i)
  {
  }

  /** Pushing one character changes exactly the cell under the cursor. */
  lemma CellStep(text: string, c: char, initial: string, limit: u32, i: nat)
    requires i < |initial|
    ensures Cell(text + [c], initial, limit, i)
         == if i < limit && i == |text| % 0x1_0000_0000 then c else Cell(text, initial, limit, i)
  {
    if i < limit {
      if i <= |text| {
        LastAtStep(|text|, i);
      } else {
        assert |text| % 0x1_0000_0000 == |text|;
      }
    }
  }

  class OutputGadget {
    var buffer: array?<char>
    var pos: u32
    var maxChars: u32
    /** Everything pushed so far, and the destination before the first push. */
    ghost var text: string
    ghost const initial: string

    ghost predicate Valid()
      reads this, buffer
    {
      && pos == |text| % 0x1_0000_0000
      && maxChars <= INT_MAX
      && (buffer == null ==> maxChars == 0)
      && (buffer != null ==>
            && maxChars <= buffer.Length == |initial|
            && forall i | 0 <= i < buffer.Length :: buffer[i] == Cell(text, initial, maxChars, i))
    }

    /** buffer_gadget: a null destination discards, an oversized one is clipped. */
    constructor OnBuffer(destination: array?<char>, size: nat)
      requires destination != null ==> Min(size, INT_MAX) <= destination.Length
      ensures Valid() && text == "" && buffer == destination
      ensures destination != null ==> initial == destination[..] && maxChars == Min(size, INT_MAX)
    {
      buffer := destination;
      pos := 0;
      maxChars := if destination == null then 0 else if size > INT_MAX then INT_MAX else size;
      text := "";
      initial := if destination == null then "" else destination[..];
    }

    /** putchar_via_gadget. */
    method PutChar(c: char)
      requires Valid()
      modifies this`pos, this`text, buffer
      ensures Valid() && text == old(text) + [c]
    {
      var writePos := pos;
      forall i | 0 <= i < |initial| {
        CellStep(text, c, initial, maxChars, i);
      }
      pos := Wrap32(pos + 1);
      text := text + [c];
      if writePos >= maxChars {
        return;
      }
      buffer[writePos] := c;
    }

    /** append_termination_with_gadget: the cell under the cursor, or the last
        usable cell when the cursor has run past the end, becomes NUL. */
    method AppendTermination()
      requires Valid()
      modifies buffer
      ensures buffer != null ==> forall i | 0 <= i < buffer.Length ::
        (buffer[i] == if maxChars > 0 && i == Min(pos, maxChars - 1) then '\0'
                      else Cell(text, initial, maxChars, i))
      ensures buffer != null && |text| < 0x1_0000_0000 ==> buffer[..] == Printed(text, initial, maxChars)
    {
      if maxChars == 0 {
        assert buffer != null ==> buffer[..] == initial;
        return;
      }
      var nullPos := if pos < maxChars then pos else maxChars - 1;
      buffer[nullPos] := '\0';
      if |text| < 0x1_0000_0000 {
        assert pos == |text|;
        var want := Printed(text, initial, maxChars);
        forall i | 0 <= i < buffer.Length
          ensures buffer[i] == want[i]
        {
          if i < nullPos { assert LastAt(|text|, i) == i; }
        }
        assert buffer[..] == want;
      }
    }
  }
}
