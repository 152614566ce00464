/** Tile graphics: gfxgen.py packs eight 4-bit pixels into a 32-bit ROM word, leftmost
    first, and tilemap.sv shifts them out from the top of the word. */
module Sheet {
  import opened Words

  /** A word as its eight hexadecimal digits. */
  function Word8(a: nat, b: nat, c: nat, d: nat, e: nat, f: nat, g: nat, h: nat): nat {
    0x1000_0000 * a + 0x100_0000 * b + 0x10_0000 * c + 0x1_0000 * d + 0x1000 * e + 0x100 * f + 0x10 * g + h
  }

  function TopNibble(w: u32): nat { w / 0x1000_0000 }

  /** The shift register moves up by one pixel; a zero follows. */
  function ShiftOnce(w: u32): u32 { w * 16 % 0x1_0000_0000 }

  function Shifted(w: u32, j: nat): u32 {
    if j == 0 then w else ShiftOnce(Shifted(w, j - 1))
  }

  /** Pixel j of a ROM word. */
  function Nibble(w: u32, j: nat): nat { TopNibble(Shifted(w, j)) }

  lemma Shift8(a: nat, b: nat, c: nat, d: nat, e: nat, f: nat, g: nat, h: nat)
    requires a < 16 && b < 16 && c < 16 && d < 16 && e < 16 && f < 16 && g < 16 && h < 16
    ensures Word8(a, b, c, d, e, f, g, h) < 0x1_0000_0000
    ensures TopNibble(Word8(a, b, c, d, e, f, g, h)) == a
    ensures ShiftOnce(Word8(a, b, c, d, e, f, g, h)) == Word8(b, c, d, e, f, g, h, 0)
  {
    hide TopNibble, ShiftOnce;
    ShiftSplit(a, Word8(0, b, c, d, e, f, g, h));
  }

  lemma ShiftSplit(a: nat, low: nat)
    requires a < 16 && low < 0x1000_0000
    ensures TopNibble(0x1000_0000 * a + low) == a && ShiftOnce(0x1000_0000 * a + low) == 16 * low
  {
  }

  /** The low four bits of a pixel value. */
  function Low4(b: int): (d: nat)
    ensures d < 16
  {
    b % 16
  }

  /** The word write_sheet builds from a row: each pixel goes in below the ones before it. */
  function Packed(pixels: seq<int>): nat {
    if pixels == [] then 0 else 16 * Packed(pixels[..|pixels| - 1]) + Low4(pixels[|pixels| - 1])
  }

  lemma PackedRow(p: seq<int>)
    requires |p| == 8
    ensures Packed(p) == Word8(Low4(p[0]), Low4(p[1]), Low4(p[2]), Low4(p[3]), Low4(p[4]), Low4(p[5]), Low4(p[6]), Low4(p[7]))
    ensures Packed(p) < 0x1_0000_0000
  {
    hide Packed, Low4;
    assert Packed([]) == 0 by { PackedEmpty(); }
    PackedPrefix(p, 1);
    PackedPrefix(p, 2);
    PackedPrefix(p, 3);
    PackedPrefix(p, 4);
    PackedPrefix(p, 5);
    PackedPrefix(p, 6);
    PackedPrefix(p, 7);
    PackedPrefix(p, 8);
    assert p[..8] == p && p[..0] == [];
    Shift8(Low4(p[0]), Low4(p[1]), Low4(p[2]), Low4(p[3]), Low4(p[4]), Low4(p[5]), Low4(p[6]), Low4(p[7]));
  }

  lemma PackedEmpty()
    ensures Packed([]) == 0
  {
  }

  lemma PackedPrefix(p: seq<int>, k: nat)
    requires 0 < k <= |p|
    ensures Packed(p[..k]) == 16 * Packed(p[..k - 1]) + Low4(p[k - 1])
  {
    assert p[..k][..k - 1] == p[..k - 1];
  }

  /** Packing and shifting out are inverse: pixel j of the packed row is the low four
      bits of the j-th source pixel. */
  lemma PackThenShift(p: seq<int>, j: nat)
    requires |p| == 8 && j < 8 && Packed(p) < 0x1_0000_0000
    ensures Nibble(Packed(p), j) == Low4(p[j])
  {
    hide Packed, Low4, Nibble;
    PackedRow(p);
    var a, b, c, d := Low4(p[0]), Low4(p[1]), Low4(p[2]), Low4(p[3]);
    var e, f, g, h := Low4(p[4]), Low4(p[5]), Low4(p[6]), Low4(p[7]);
    ShiftChain(a, b, c, d, e, f, g, h, j);
  }

  lemma ShiftChain(a: nat, b: nat, c: nat, d: nat, e: nat, f: nat, g: nat, h: nat, j: nat)
    requires a < 16 && b < 16 && c < 16 && d < 16 && e < 16 && f < 16 && g < 16 && h < 16 && j < 8
    ensures Word8(a, b, c, d, e, f, g, h) < 0x1_0000_0000
    ensures Nibble(Word8(a, b, c, d, e, f, g, h), j) == [a, b, c, d, e, f, g, h][j]
    decreases j
  {
    hide Word8, TopNibble, ShiftOnce;
    var w := Word8(a, b, c, d, e, f, g, h);
    Shift8(a, b, c, d, e, f, g, h);
    if j > 0 {
      ShiftChain(b, c, d, e, f, g, h, 0, j - 1);
      ShiftedTail(w, j - 1);
    }
  }

  lemma {:induction false} ShiftedTail(w: u32, j: nat)
    ensures Shifted(w, j + 1) == Shifted(ShiftOnce(w), j)
  {
    hide ShiftOnce;
    if j > 0 {
      ShiftedTail(w, j - 1);
    }
  }

  // ------------------------------------------------------------- write_sheet

  predicate WholeTiles(sheet: map<nat, seq<int>>) { forall t | t in sheet :: |sheet[t]| == 64 }

  /** The pixels of a tile; a tile that is not in the sheet is blank. */
  function TilePixels(sheet: map<nat, seq<int>>, tile: nat): (p: seq<int>)
    requires WholeTiles(sheet)
    ensures |p| == 64
  {
    if tile in sheet then sheet[tile] else seq(64, _ => 0)
  }

  function RowPixels(sheet: map<nat, seq<int>>, tile: nat, row: nat): (p: seq<int>)
    requires WholeTiles(sheet) && row < 8
    ensures |p| == 8
  {
    TilePixels(sheet, tile)[8 * row..8 * row + 8]
  }

  /** What gfx.mif must hold: row r of tile t at address 8 * t + r. */
  ghost predicate RomOf(sheet: map<nat, seq<int>>, rom: seq<u32>)
    requires WholeTiles(sheet)
  {
    && |rom| == 2048
    && forall t, r | 0 <= t < 256 && 0 <= r < 8 :: rom[8 * t + r] == Packed(RowPixels(sheet, t, r))
  }

  method PackRow(pixels: seq<int>) returns (row32: u32)
    requires |pixels| == 8
    ensures row32 == Packed(pixels)
  {
    var acc: nat := 0;
    var i := 0;
    while i < 8
      invariant 0 <= i <= 8 && acc == Packed(pixels[..i])
    {
      PackedPrefix(pixels, i + 1);
      acc := 16 * acc + Low4(pixels[i]);
      i := i + 1;
    }
    assert pixels[..8] == pixels;
    PackedRow(pixels);
    row32 := acc;
  }

  /** write_sheet: the address counts up over 256 tiles of eight rows. */
  method WriteSheet(sheet: map<nat, seq<int>>) returns (rom: seq<u32>)
    requires WholeTiles(sheet)
    ensures RomOf(sheet, rom)
  {
    rom := [];
    var tile := 0;
    while tile < 256
      invariant 0 <= tile <= 256 && |rom| == 8 * tile
      invariant forall t, r | 0 <= t < tile && 0 <= r < 8 :: rom[8 * t + r] == Packed(RowPixels(sheet, t, r))
    {
      ghost var before := rom;
      var row := 0;
      while row < 8
        invariant 0 <= row <= 8 && |rom| == 8 * tile + row && before <= rom
        invariant forall r | 0 <= r < row :: rom[8 * tile + r] == Packed(RowPixels(sheet, tile, r))
      {
        var word := PackRow(RowPixels(sheet, tile, row));
        rom := rom + [word];
        row := row + 1;
      }
      forall t, r | 0 <= t < tile + 1 && 0 <= r < 8
        ensures rom[8 * t + r] == Packed(RowPixels(sheet, t, r))
      {
        if t < tile { assert rom[8 * t + r] == before[8 * t + r]; }
      }
      tile := tile + 1;
    }
  }

  /** From picture to screen: shifting out the word at 8 * tile + row yields the tile's
      pixels of that row from left to right. */
  lemma SheetRoundTrip(sheet: map<nat, seq<int>>, rom: seq<u32>, tile: nat, row: nat, col: nat)
    requires WholeTiles(sheet) && RomOf(sheet, rom) && tile < 256 && row < 8 && col < 8
    ensures var nibble := Nibble(rom[8 * tile + row], col);
      && nibble == Low4(TilePixels(sheet, tile)[8 * row + col])
      && (tile in sheet ==> exists q :: sheet[tile][8 * row + col] == 16 * q + nibble)
      && (tile in sheet && 0 <= sheet[tile][8 * row + col] < 16 ==> nibble == sheet[tile][8 * row + col])
      && (tile !in sheet ==> nibble == 0)
  {
    PackThenShift(RowPixels(sheet, tile, row), col);
    LowBits(TilePixels(sheet, tile)[8 * row + col]);
  }

  /** What is kept of a pixel value: it is unchanged if it has four bits, and otherwise differs
      by a multiple of sixteen. */
  lemma LowBits(b: int)
    ensures Low4(b) < 16 && exists q :: b == 16 * q + Low4(b)
    ensures 0 <= b < 16 ==> Low4(b) == b
  {
    assert b == 16 * (b / 16) + Low4(b);
  }
}
