/** The text console of src/drivers/framebuffer_console.rs. */
module Console {
  import opened Machine
  import opened Screen

  const CARRIAGE_RETURN: u8 := 0x0D
  const LINE_FEED: u8 := 0x0A
  const TAB: u8 := 0x09
  const BACKSPACE: u8 := 0x08
  const ESCAPE: u8 := 0x1B

  // ------------------------------------------------------------ the cursor

  datatype Cursor = Cursor(row: u16, col: u16)

  predicate Prints(byte: u8) {
    byte !in {CARRIAGE_RETURN, LINE_FEED, TAB, BACKSPACE, ESCAPE}
  }

  /** The byte starts a line: a line feed, or a character past the last column. */
  predicate Breaks(g: Geometry, c: Cursor, byte: u8) {
    byte == LINE_FEED || (Prints(byte) && c.col >= Cols(g))
  }

  function NextLine(g: Geometry, c: Cursor): Cursor
    requires c.row < Rows(g)
  {
    Cursor(if c.row + 1 < Rows(g) then c.row + 1 else c.row, 0)
  }

  /** The next multiple of eight, in sixteen bits, but no further than the last column. */
  function TabStop(g: Geometry, col: u16): u16 {
    var next := (col + 8) % 0x1_0000 / 8 * 8;
    if col < next && col < Cols(g) then Min(next, Cols(g)) else col
  }

  function Step(g: Geometry, c: Cursor, byte: u8): (r: Cursor)
    requires c.row < Rows(g)
    ensures r.row < Rows(g)
  {
    if byte == CARRIAGE_RETURN then Cursor(c.row, 0)
    else if byte == LINE_FEED then NextLine(g, c)
    else if byte == TAB then Cursor(c.row, TabStop(g, c.col))
    else if byte == BACKSPACE then Cursor(c.row, if c.col > 0 then c.col - 1 else 0)
    else if byte == ESCAPE then Cursor(c.row, Min(c.col + 1, 0xFFFF))
    else
      var d := if c.col >= Cols(g) then NextLine(g, c) else c;
      Cursor(d.row, d.col + 1)
  }

  /** Where a whole byte sequence takes the cursor of a cleared screen. */
  function Run(g: Geometry, bytes: seq<u8>): (r: Cursor)
    ensures r.row < Rows(g)
  {
    if bytes == [] then Cursor(0, 0) else Step(g, Run(g, bytes[..|bytes| - 1]), bytes[|bytes| - 1])
  }

  /** How many lines the sequence starts. */
  function LinesStarted(g: Geometry, bytes: seq<u8>): nat {
    if bytes == [] then 0
    else
      var n := |bytes| - 1;
      LinesStarted(g, bytes[..n]) + (if Breaks(g, Run(g, bytes[..n]), bytes[n]) then 1 else 0)
  }

  /** For every byte sequence the row counts the lines started and stops at the last row. */
  lemma {:induction false} RowCountsLines(g: Geometry, bytes: seq<u8>)
    ensures Run(g, bytes).row == Min(LinesStarted(g, bytes), Rows(g) - 1) < Rows(g)
  {
    hide Rows, Cols, TabStop;
    if bytes != [] {
      RowCountsLines(g, bytes[..|bytes| - 1]);
    }
  }

  /** Without escapes the column never passes the end of the line. */
  lemma {:induction false} ColumnStays(g: Geometry, bytes: seq<u8>)
    requires ESCAPE !in bytes
    ensures Run(g, bytes).col <= Cols(g)
  {
    hide Rows;
    if bytes != [] {
      var n := |bytes| - 1;
      assert bytes[n] in bytes;
      assert forall b :: b in bytes[..n] ==> b in bytes;
      ColumnStays(g, bytes[..n]);
    }
  }

  /** Where each byte leaves the cursor, after any bytes before it: a carriage return at the
      start of the row, a backspace one column back, a tab at the next multiple of eight but not
      past the line, any other character one column on, or on a new line if the line was full. */
  lemma ColumnAfter(g: Geometry, bytes: seq<u8>, byte: u8)
    ensures var c, d := Run(g, bytes), Run(g, bytes + [byte]);
            && (byte == 0x0D ==> d == Cursor(c.row, 0))
            && (byte == 0x0A ==> d.col == 0)
            && (byte == 0x08 ==> d == Cursor(c.row, Max(c.col - 1, 0)))
            && (byte == 0x09 && c.col < Cols(g) ==> d == Cursor(c.row, Min(8 * (c.col / 8 + 1), Cols(g))))
            && (byte == 0x09 && c.col >= Cols(g) ==> d == c)
            && (Prints(byte) ==> d.col == (if c.col < Cols(g) then c.col + 1 else 1))
  {
    hide Rows, Cols, TabStop;
    assert (bytes + [byte])[..|bytes|] == bytes;
    TabStopIs(g, Run(g, bytes).col);
  }

  lemma TabStopIs(g: Geometry, col: u16)
    ensures TabStop(g, col) == if col < Cols(g) then Min(8 * (col / 8 + 1), Cols(g)) else col
  {
    if col < Cols(g) {
      assert col + 8 < 0x1_0000;
      assert (col + 8) / 8 == col / 8 + 1;
    }
  }

  /** Text on a fresh line fills the columns in turn and goes on on the next line. */
  lemma {:induction false} TextWraps(g: Geometry, head: seq<u8>, text: seq<u8>)
    requires Run(g, head).col == 0 && forall b :: b in text ==> Prints(b)
    ensures Run(g, head + text).col == if text == [] then 0 else (|text| - 1) % Cols(g) + 1
    ensures LinesStarted(g, head + text) == LinesStarted(g, head) + (if text == [] then 0 else (|text| - 1) / Cols(g))
  {
    hide Rows, Cols, Prints, Run, LinesStarted;
    if text == [] {
      assert head + text == head;
    } else {
      var n := |text| - 1;
      assert text[n] in text;
      assert forall b :: b in text[..n] ==> b in text;
      TextWraps(g, head, text[..n]);
      OneMore(g, head + text[..n], text[n]);
      assert head + text == head + text[..n] + [text[n]];
      ColumnAfter(g, head + text[..n], text[n]);
      Division(n, Cols(g));
    }
  }

  lemma OneMore(g: Geometry, bytes: seq<u8>, byte: u8)
    ensures LinesStarted(g, bytes + [byte]) ==
              LinesStarted(g, bytes) + (if Breaks(g, Run(g, bytes), byte) then 1 else 0)
  {
    hide Breaks, Run;
    assert (bytes + [byte])[..|bytes|] == bytes;
  }

  lemma Division(n: nat, d: nat)
    requires d > 0
    ensures n > 0 && (n - 1) % d + 1 < d ==> n % d == (n - 1) % d + 1 && n / d == (n - 1) / d
    ensures n > 0 && (n - 1) % d + 1 == d ==> n % d == 0 && n / d == (n - 1) / d + 1
    ensures n == 0 ==> n % d == 0 && n / d == 0
  {
    if n > 0 {
      var q, r := (n - 1) / d, (n - 1) % d;
      assert n == q * d + r + 1;
      if r + 1 < d {
        Euclid(n, d, q, r + 1);
      } else {
        assert n == (q + 1) * d;
        Euclid(n, d, q + 1, 0);
      }
    } else {
      Euclid(0, d, 0, 0);
    }
  }

  lemma Euclid(n: nat, d: nat, q: nat, r: nat)
    requires d > 0 && n == q * d + r && r < d
    ensures n / d == q && n % d == r
  {
    var p := n / d;
    assert p * d <= n < p * d + d;
    assert p < q ==> (p + 1) * d <= q * d;
    assert q < p ==> (q + 1) * d <= p * d;
  }

  // ------------------------------------------------------------ glyphs

  /** One bit of a glyph row, the most significant leftmost. */
  predicate Bit(row: u8, gx: nat) {
    gx < 8 && row / [128, 64, 32, 16, 8, 4, 2, 1][gx] % 2 == 1
  }

  /** The bits of a row, from left to right, are its binary digits: each halves what is left of
      the row to its right. */
  lemma BitsOfRow(row: u8, gx: nat)
    requires gx < 8
    ensures Upto(row, gx + 1) == 2 * Upto(row, gx) + (if Bit(row, gx) then 1 else 0)
    ensures Upto(row, 0) == 0 && Upto(row, 8) == row
  {
    if gx < 4 {
      assert gx == 0 || gx == 1 || gx == 2 || gx == 3;
    } else {
      assert gx == 4 || gx == 5 || gx == 6 || gx == 7;
    }
  }

  /** The number the first `gx` bits of a row make. */
  function Upto(row: u8, gx: nat): nat
    requires gx <= 8
  {
    row / [256, 128, 64, 32, 16, 8, 4, 2, 1][gx]
  }

  function GlyphInk(glyph: seq<u8>, fg: u32, bg: u32): Ink {
    (gx: nat, gy: nat) => if gy < |glyph| && Bit(glyph[gy], gx) then fg else bg
  }

  /** The left edge of a column, in sixteen bits. */
  function CellX(col: u16): nat {
    col * FONT_GLYPH_WIDTH % 0x1_0000
  }

  /** A column on the screen does not wrap. */
  lemma CellOnScreen(g: Geometry, col: u16)
    requires col < Cols(g)
    ensures CellX(col) == col * FONT_GLYPH_WIDTH
  {
  }

  /** A stretch of a glyph row shows glyphs, and nothing else has changed. */
  ghost predicate Inked(g: Geometry, before: seq<u8>, after: seq<u8>, row: nat, left: nat, right: nat, ink: Ink)
    requires Sound(g)
  {
    && |after| == |before| >= Size(g)
    && after[Size(g)..] == before[Size(g)..]
    && forall x, y :: Visible(g, x, y) ==>
         Pixel(g, after, x, y)
         == if InStretch(x, y, row, left, right)
            then LeBytes(ink(x % FONT_GLYPH_WIDTH, y % FONT_GLYPH_HEIGHT), g.pixelBytes)
            else Pixel(g, before, x, y)
  }

  predicate InStretch(x: int, y: int, row: nat, left: nat, right: nat) {
    left <= x < right && y / FONT_GLYPH_HEIGHT == row
  }

  lemma BlitOneMore(fb: seq<u8>, at: nat, data: seq<u8>, i: nat)
    requires at + |data| <= |fb| && i < |data|
    ensures Blit(fb, at, data[..i])[at + i := data[i]] == Blit(fb, at, data[..i + 1])
  {
    hide Blit;
  }

  lemma InkedCell(g: Geometry, before: seq<u8>, after: seq<u8>, row: nat, col: u16, ink: Ink)
    requires Sound(g)
    requires Painted(g, before, after, CellX(col), row * FONT_GLYPH_HEIGHT, FONT_GLYPH_WIDTH, FONT_GLYPH_HEIGHT, 0, ink)
    ensures Inked(g, before, after, row, CellX(col), CellX(col) + FONT_GLYPH_WIDTH, ink)
  {
    hide LeBytes, Pixel, Size, CellX, InBlock, InStretch;
    forall x, y | Visible(g, x, y)
      ensures Pixel(g, after, x, y)
           == if InStretch(x, y, row, CellX(col), CellX(col) + FONT_GLYPH_WIDTH)
              then LeBytes(ink(x % FONT_GLYPH_WIDTH, y % FONT_GLYPH_HEIGHT), g.pixelBytes) else Pixel(g, before, x, y)
    {
      CellPixel(x, y, row, col);
    }
  }

  /** A pixel of a cell, by its place in the cell and by its place on the screen. */
  lemma CellPixel(x: nat, y: nat, row: nat, col: u16)
    ensures var dx, dy := x - CellX(col), y - row * FONT_GLYPH_HEIGHT;
            && InBlock(dx, dy, FONT_GLYPH_WIDTH, FONT_GLYPH_HEIGHT, 0)
               == InStretch(x, y, row, CellX(col), CellX(col) + FONT_GLYPH_WIDTH)
            && (InStretch(x, y, row, CellX(col), CellX(col) + FONT_GLYPH_WIDTH) ==>
                  dx == x % FONT_GLYPH_WIDTH && dy == y % FONT_GLYPH_HEIGHT)
  {
    assert CellX(col) % FONT_GLYPH_WIDTH == 0;
    hide CellX;
    var dx := x - CellX(col);
    if 0 <= dx < FONT_GLYPH_WIDTH {
      assert x == FONT_GLYPH_WIDTH * (CellX(col) / FONT_GLYPH_WIDTH) + dx;
    }
  }

  /** A cell shows a glyph: the pixels of its set bits in one colour, all others in the other. */
  ghost predicate Shows(g: Geometry, fb: seq<u8>, row: nat, left: nat, glyph: seq<u8>, fg: u32, bg: u32)
    requires Sound(g)
  {
    && |fb| >= Size(g)
    && forall x, y :: Visible(g, x, y) && InStretch(x, y, row, left, left + FONT_GLYPH_WIDTH) ==>
         && (SetIn(glyph, x, y) ==> Pixel(g, fb, x, y) == LeBytes(fg, g.pixelBytes))
         && (!SetIn(glyph, x, y) ==> Pixel(g, fb, x, y) == LeBytes(bg, g.pixelBytes))
  }

  predicate SetIn(glyph: seq<u8>, x: nat, y: nat) {
    y % FONT_GLYPH_HEIGHT < |glyph| && Bit(glyph[y % FONT_GLYPH_HEIGHT], x % FONT_GLYPH_WIDTH)
  }

  lemma InkedShows(g: Geometry, before: seq<u8>, after: seq<u8>, row: nat, left: nat, glyph: seq<u8>, fg: u32, bg: u32)
    requires Sound(g)
    requires Inked(g, before, after, row, left, left + FONT_GLYPH_WIDTH, GlyphInk(glyph, fg, bg))
    ensures Shows(g, after, row, left, glyph, fg, bg)
  {
    hide LeBytes, Pixel, Size, Bit, InStretch;
  }

  lemma InkedNothing(g: Geometry, fb: seq<u8>, row: nat, at: nat, ink: Ink)
    requires Sound(g) && |fb| >= Size(g)
    ensures Inked(g, fb, fb, row, at, at, ink)
  {
  }

  lemma InkedMore(g: Geometry, a: seq<u8>, b: seq<u8>, c: seq<u8>, row: nat, left: nat, mid: nat, right: nat, ink: Ink)
    requires Sound(g) && left <= mid <= right
    requires Inked(g, a, b, row, left, mid, ink) && Inked(g, b, c, row, mid, right, ink)
    ensures Inked(g, a, c, row, left, right, ink)
  {
    hide LeBytes, Pixel, Size;
  }

  // ------------------------------------------------------------ what one byte draws

  /** The screen under the new line's glyphs: scrolled if the byte started a line below the last. */
  function Ground(g: Geometry, before: seq<u8>, c: Cursor, byte: u8, bg: u32, x: int, y: int): seq<u8>
    requires Sound(g) && |before| >= Size(g) && Visible(g, x, y)
  {
    if Breaks(g, c, byte) && c.row + 1 >= Rows(g) then ScrolledPixel(g, before, bg, x, y) else Pixel(g, before, x, y)
  }

  /** The stretch of the cursor's row the byte draws glyphs in. */
  function Stretch(g: Geometry, c: Cursor, byte: u8): (nat, nat)
    requires c.row < Rows(g)
  {
    var d := Step(g, c, byte);
    if Prints(byte) then (CellX(d.col - 1), CellX(d.col - 1) + FONT_GLYPH_WIDTH)
    else if byte == BACKSPACE && c.col > 0 then (CellX(d.col), CellX(d.col) + FONT_GLYPH_WIDTH)
    else if byte == TAB then (c.col * FONT_GLYPH_WIDTH, d.col * FONT_GLYPH_WIDTH)
    else (0, 0)
  }

  function Glyph(byte: u8): u8 {
    if Prints(byte) then byte else 0x20
  }

  /** The screen a byte leaves, before the cursor is drawn on it. */
  ghost predicate Drawn(g: Geometry, before: seq<u8>, after: seq<u8>, c: Cursor, byte: u8, ink: Ink, bg: u32)
    requires Sound(g) && c.row < Rows(g)
  {
    && |after| == |before| >= Size(g)
    && after[Size(g)..] == before[Size(g)..]
    && forall x, y :: Visible(g, x, y) ==>
         Pixel(g, after, x, y)
         == if InStretch(x, y, Step(g, c, byte).row, Stretch(g, c, byte).0, Stretch(g, c, byte).1)
            then LeBytes(ink(x % FONT_GLYPH_WIDTH, y % FONT_GLYPH_HEIGHT), g.pixelBytes)
            else Ground(g, before, c, byte, bg, x, y)
  }

  /** The ground a line break leaves. */
  ghost predicate Fed(g: Geometry, before: seq<u8>, after: seq<u8>, c: Cursor, bg: u32)
    requires Sound(g)
  {
    if c.row + 1 >= Rows(g) then ScrolledTo(g, before, after, bg) else |before| >= Size(g) && after == before
  }

  lemma DrawnOnGround(g: Geometry, before: seq<u8>, ground: seq<u8>, after: seq<u8>, c: Cursor, byte: u8, ink: Ink,
                      bg: u32)
    requires Sound(g) && c.row < Rows(g) && |before| >= Size(g)
    requires if Breaks(g, c, byte) then Fed(g, before, ground, c, bg) else ground == before
    requires Inked(g, ground, after, Step(g, c, byte).row, Stretch(g, c, byte).0, Stretch(g, c, byte).1, ink)
    ensures Drawn(g, before, after, c, byte, ink, bg)
  {
    hide LeBytes, Pixel, Size, ScrolledPixel, Stretch, Step, Breaks;
  }

  /** The screen with the cursor's underline, if it is shown. */
  ghost predicate WithCursor(g: Geometry, before: seq<u8>, after: seq<u8>, c: Cursor, visible: bool, fg: u32)
    requires Sound(g)
  {
    if visible then Painted(g, before, after, CellX(c.col), c.row * FONT_GLYPH_HEIGHT + FONT_GLYPH_HEIGHT - 2,
                            FONT_GLYPH_WIDTH, 2, 0, Plain(fg))
    else after == before
  }

  // ------------------------------------------------------------ the console

  class FramebufferConsole {
    const fb: array<u8>
    const g: Geometry
    const font: u8 -> seq<u8>
    var fgColor: u32
    var bgColor: u32
    var cursorRow: u16
    var cursorCol: u16
    var cursorVisible: bool

    /** The framebuffer covers the mode. */
    ghost predicate Mapped()
    {
      Sound(g) && fb.Length >= Size(g)
    }

    ghost predicate Valid()
      reads this
    {
      Mapped() && cursorRow < Rows(g)
    }

    function At(): Cursor
      reads this
    {
      Cursor(cursorRow, cursorCol)
    }

    constructor (fb: array<u8>, g: Geometry, font: u8 -> seq<u8>)
      requires Sound(g) && fb.Length >= Size(g)
      ensures Valid() && this.fb == fb && this.g == g && this.font == font && At() == Cursor(0, 0)
      ensures fgColor == 0x00FF_FFFF && bgColor == 0 && cursorVisible
    {
      this.fb, this.g, this.font := fb, g, font;
      fgColor, bgColor := 0x00FF_FFFF, 0;
      cursorRow, cursorCol, cursorVisible := 0, 0, true;
    }

    method WritePixel(x: u16, y: u16, color: u32)
      requires Mapped()
      modifies fb
      ensures fb[..] == PutPixel(g, old(fb[..]), x, y, color)
    {
      if x >= g.width || y >= g.height {
        return;
      }
      var offset := y * g.pitch + x * g.pixelBytes;
      assert offset == Screen.At(g, x, y);
      StoreBytes(offset, LeBytes(color, g.pixelBytes));
    }

    /** A colour's bytes, least significant first. */
    method StoreBytes(offset: nat, bytes: seq<u8>)
      requires offset + |bytes| <= fb.Length
      modifies fb
      ensures fb[..] == Blit(old(fb[..]), offset, bytes)
    {
      hide Blit;
      for i := 0 to |bytes|
        invariant fb[..] == Blit(old(fb[..]), offset, bytes[..i])
      {
        BlitOneMore(old(fb[..]), offset, bytes, i);
        fb[offset + i] := bytes[i];
      }
      assert bytes[..|bytes|] == bytes;
    }

    /** A block of pixels in row order. */
    method Paint(x0: u16, y0: u16, w: u16, h: u16, ink: Ink)
      requires Mapped() && x0 + w <= 0x1_0000 && y0 + h <= 0x1_0000
      modifies fb
      ensures Painted(g, old(fb[..]), fb[..], x0, y0, w, h, 0, ink)
    {
      hide Painted, PutPixel, Size;
      PaintStart(g, fb[..], x0, y0, w, ink);
      for gy := 0 to h
        invariant Painted(g, old(fb[..]), fb[..], x0, y0, w, gy, 0, ink)
      {
        for gx := 0 to w
          invariant Painted(g, old(fb[..]), fb[..], x0, y0, w, gy, gx, ink)
        {
          PaintNext(g, old(fb[..]), fb[..], x0, y0, w, gy, gx, ink);
          WritePixel(x0 + gx, y0 + gy, ink(gx, gy));
        }
        PaintRow(g, old(fb[..]), fb[..], x0, y0, w, gy, ink);
      }
    }

    method StoreWord(at: nat, color: u32)
      requires at + 4 <= fb.Length
      modifies fb
      ensures fb[..] == Blit(old(fb[..]), at, Rotated(color, 0))
    {
      hide WordByte;
      fb[at], fb[at + 1], fb[at + 2], fb[at + 3] :=
        WordByte(color, 0), WordByte(color, 1), WordByte(color, 2), WordByte(color, 3);
    }

    /** Words of one colour, one after another. */
    method FillWords(start: nat, count: nat, color: u32)
      requires start + 4 * count <= fb.Length
      modifies fb
      ensures fb[..] == Blit(old(fb[..]), start, Repeated(color, 4 * count))
    {
      hide WordByte, Blit;
      assert Blit(fb[..], start, Repeated(color, 0)) == fb[..];
      hide Repeated, Rotated;
      for i := 0 to count
        invariant fb[..] == Blit(old(fb[..]), start, Repeated(color, 4 * i))
      {
        RepeatedMore(old(fb[..]), start, color, i);
        StoreWord(start + 4 * i, color);
      }
    }

    method ClearBottom()
      requires Mapped() && Tall(g)
      modifies fb
      ensures GlyphRowBytes(g) <= Size(g)
      ensures g.pixelBytes == 4 ==> fb[..] == Filled(g, old(fb[..]), bgColor)
      ensures g.pixelBytes != 4 ==> Painted(g, old(fb[..]), fb[..], 0, (Rows(g) - 1) * FONT_GLYPH_HEIGHT, g.width,
                                            FONT_GLYPH_HEIGHT, 0, Plain(bgColor))
    {
      RowsFit(g);
      if g.pixelBytes == 4 {
        assert 4 * (g.pitch * FONT_GLYPH_HEIGHT / 4) == GlyphRowBytes(g);
        hide Blit, Repeated, Size, GlyphRowBytes;
        FillWords(Size(g) - GlyphRowBytes(g), g.pitch * FONT_GLYPH_HEIGHT / 4, bgColor);
      } else {
        hide Painted, Size;
        Paint(0, (Rows(g) - 1) * FONT_GLYPH_HEIGHT, g.width, FONT_GLYPH_HEIGHT, Plain(bgColor));
      }
    }

    method Fill()
      requires Mapped()
      modifies fb
      ensures fb[Size(g)..] == old(fb[Size(g)..])
      ensures g.pixelBytes == 4 ==> fb[..] == Cleared(g, old(fb[..]), bgColor)
      ensures ClearCondition(g, bgColor) ==> AllBackground(g, fb[..], bgColor)
    {
      if g.pixelBytes == 4 {
        hide AllBackground, Repeated, ClearCondition, Sound;
        if ClearCondition(g, bgColor) {
          ClearRight(g, fb[..], bgColor);
        }
        FillWords(0, Size(g) / 4, bgColor);
      } else {
        Paint(0, 0, g.width, g.height, Plain(bgColor));
        PixelsClear(g, old(fb[..]), fb[..], bgColor);
      }
    }

    /** A cleared screen is background, with the cursor home, whenever mode and colour meet the
        condition; with four-byte pixels it is in every case what the word fill leaves. */
    method Clear()
      requires Valid()
      modifies fb, `cursorRow, `cursorCol
      ensures Valid() && At() == Cursor(0, 0) && fb[Size(g)..] == old(fb[Size(g)..])
      ensures ClearCondition(g, bgColor) ==>
                exists blank :: AllBackground(g, blank, bgColor)
                  && WithCursor(g, blank, fb[..], At(), cursorVisible, fgColor)
      ensures g.pixelBytes == 4 ==>
                exists erased ::
                  && |erased| >= Size(g) && WithCursor(g, old(fb[..]), erased, old(At()), true, bgColor)
                  && WithCursor(g, Cleared(g, erased, bgColor), fb[..], At(), cursorVisible, fgColor)
    {
      hide AllBackground, ClearCondition, Cleared, Pixel;
      Underline(bgColor);
      ghost var erased := fb[..];
      Fill();
      cursorRow, cursorCol := 0, 0;
      ghost var blank := fb[..];
      DrawCursor();
      assert WithCursor(g, blank, fb[..], At(), cursorVisible, fgColor);
      assert WithCursor(g, old(fb[..]), erased, old(At()), true, bgColor);
    }

    /** The screen moves up one row of glyphs: the picture left is the one the mode and the
        colour determine, and it is the intended one whenever they meet the condition. */
    method Scroll()
      requires Mapped() && Tall(g)
      modifies fb, `cursorRow
      ensures ScrolledTo(g, old(fb[..]), fb[..], bgColor)
      ensures ScrollCondition(g, bgColor) ==>
                forall x, y :: Visible(g, x, y) ==> Pixel(g, fb[..], x, y) == IdealPixel(g, old(fb[..]), bgColor, x, y)
      ensures cursorRow == Rows(g) - 1
    {
      hide ScrolledTo, ScrollCondition, Painted, Size, Pixel, IdealPixel, Moved, Filled, GlyphRowBytes, Plain, Visible,
           Sound;
      ghost var before := fb[..];
      MoveUp();
      ClearBottom();
      if g.pixelBytes == 4 {
        WordScrolled(g, before, bgColor);
      } else {
        PixelScrolled(g, before, fb[..], bgColor);
      }
      if ScrollCondition(g, bgColor) {
        ScrolledIdeal(g, before, fb[..], bgColor);
      }
      cursorRow := Rows(g) - 1;
    }

    /** The overlapping copy. */
    method MoveUp()
      requires Mapped() && Tall(g)
      modifies fb
      ensures fb[..] == Moved(g, old(fb[..]))
    {
      RowsFit(g);
      var size, shift := Size(g), GlyphRowBytes(g);
      hide Size, GlyphRowBytes;
      forall k | 0 <= k < size - shift {
        fb[k] := fb[k + shift];
      }
    }

    function GlyphOf(ch: u8): Ink
      reads this
    {
      GlyphInk(font(ch), fgColor, bgColor)
    }

    method PutChar(ch: u8, row: u16, col: u16)
      requires Mapped() && row < Rows(g)
      modifies fb
      ensures Inked(g, old(fb[..]), fb[..], row, CellX(col), CellX(col) + FONT_GLYPH_WIDTH, GlyphOf(ch))
      ensures Shows(g, fb[..], row, CellX(col), font(ch), fgColor, bgColor)
    {
      hide Inked, Painted, Size, Shows;
      Paint(CellX(col), row * FONT_GLYPH_HEIGHT, FONT_GLYPH_WIDTH, FONT_GLYPH_HEIGHT, GlyphOf(ch));
      InkedCell(g, old(fb[..]), fb[..], row, col, GlyphOf(ch));
      InkedShows(g, old(fb[..]), fb[..], row, CellX(col), font(ch), fgColor, bgColor);
    }

    /** The two bottom pixel rows of the cursor's cell in one colour. */
    method Underline(color: u32)
      requires Valid()
      modifies fb
      ensures WithCursor(g, old(fb[..]), fb[..], At(), true, color)
    {
      hide Painted, Size;
      Paint(CellX(cursorCol), cursorRow * FONT_GLYPH_HEIGHT + FONT_GLYPH_HEIGHT - 2, FONT_GLYPH_WIDTH, 2, Plain(color));
    }

    method DrawCursor()
      requires Valid()
      modifies fb
      ensures WithCursor(g, old(fb[..]), fb[..], At(), cursorVisible, fgColor)
    {
      if cursorVisible {
        Underline(fgColor);
      }
    }

    method StartLine()
      requires Valid() && (Tall(g) || cursorRow + 1 < Rows(g))
      modifies fb, `cursorRow, `cursorCol
      ensures Valid() && At() == NextLine(g, old(At()))
      ensures Fed(g, old(fb[..]), fb[..], old(At()), bgColor)
    {
      hide ScrolledTo, Size, ScrollCondition, Pixel, IdealPixel;
      cursorCol := 0;
      cursorRow := cursorRow + 1;
      if cursorRow >= Rows(g) {
        Scroll();
      }
    }

    method Tabulate()
      requires Valid()
      modifies fb, `cursorCol
      ensures cursorCol == TabStop(g, old(cursorCol))
      ensures Inked(g, old(fb[..]), fb[..], cursorRow, old(cursorCol) * FONT_GLYPH_WIDTH, cursorCol * FONT_GLYPH_WIDTH,
                    GlyphOf(0x20))
    {
      hide Inked, Size, CellX, Cols, Rows, Sound, GlyphInk;
      var next := (cursorCol + 8) % 0x1_0000 / 8 * 8;
      InkedNothing(g, fb[..], cursorRow, cursorCol * FONT_GLYPH_WIDTH, GlyphOf(0x20));
      while cursorCol < next && cursorCol < Cols(g)
        invariant old(cursorCol) <= cursorCol
        invariant cursorCol == old(cursorCol) || (cursorCol <= next && cursorCol <= Cols(g))
        invariant Inked(g, old(fb[..]), fb[..], cursorRow, old(cursorCol) * FONT_GLYPH_WIDTH,
                        cursorCol * FONT_GLYPH_WIDTH, GlyphOf(0x20))
        decreases next - cursorCol
      {
        ghost var before := fb[..];
        CellOnScreen(g, cursorCol);
        PutChar(0x20, cursorRow, cursorCol);
        InkedMore(g, old(fb[..]), before, fb[..], cursorRow, old(cursorCol) * FONT_GLYPH_WIDTH,
                  cursorCol * FONT_GLYPH_WIDTH, (cursorCol + 1) * FONT_GLYPH_WIDTH, GlyphOf(0x20));
        cursorCol := cursorCol + 1;
      }
    }

    /** The byte's own part: the cursor moves and the byte's glyphs are drawn. */
    method Advance(byte: u8)
      requires Valid() && (Tall(g) || !Breaks(g, At(), byte))
      modifies fb, `cursorRow, `cursorCol
      ensures Valid() && At() == Step(g, old(At()), byte)
      ensures Drawn(g, old(fb[..]), fb[..], old(At()), byte, GlyphOf(Glyph(byte)), bgColor)
    {
      hide Drawn, Inked, Fed, Size, Sound;
      ghost var before, c := fb[..], At();
      ghost var ground := before;
      InkedNothing(g, before, cursorRow, 0, GlyphOf(Glyph(byte)));
      if byte == CARRIAGE_RETURN {
        cursorCol := 0;
      } else if byte == LINE_FEED {
        StartLine();
        ground := fb[..];
        InkedNothing(g, ground, cursorRow, 0, GlyphOf(Glyph(byte)));
      } else if byte == TAB {
        Tabulate();
      } else if byte == BACKSPACE {
        if cursorCol > 0 {
          cursorCol := cursorCol - 1;
          PutChar(0x20, cursorRow, cursorCol);
        }
      } else if byte == ESCAPE {
        cursorCol := Min(cursorCol + 1, 0xFFFF);
      } else {
        if cursorCol >= Cols(g) {
          StartLine();
          ground := fb[..];
        }
        PutChar(byte, cursorRow, cursorCol);
        cursorCol := cursorCol + 1;
      }
      DrawnOnGround(g, before, ground, fb[..], c, byte, GlyphOf(Glyph(byte)), bgColor);
    }

    /** One byte: the screen and the cursor are those the byte determines, the row stays on the
        screen, and no byte outside pitch times height is written. */
    method WriteByte(byte: u8)
      requires Valid() && (Tall(g) || !Breaks(g, At(), byte))
      modifies fb, `cursorRow, `cursorCol
      ensures Valid() && At() == Step(g, old(At()), byte)
      ensures fb[Size(g)..] == old(fb[Size(g)..])
      ensures exists drawn ::
                && Drawn(g, old(fb[..]), drawn, old(At()), byte, GlyphOf(Glyph(byte)), bgColor)
                && WithCursor(g, drawn, fb[..], At(), cursorVisible, fgColor)
    {
      Advance(byte);
      ghost var drawn := fb[..];
      DrawCursor();
      assert Drawn(g, old(fb[..]), drawn, old(At()), byte, GlyphOf(Glyph(byte)), bgColor);
    }

    /** A string is its bytes; on a fresh console the cursor ends where the run says. */
    method WriteStr(bytes: seq<u8>)
      requires Valid() && Tall(g)
      modifies fb, `cursorRow, `cursorCol
      ensures Valid() && fb[Size(g)..] == old(fb[Size(g)..])
      ensures old(At()) == Cursor(0, 0) ==> At() == Run(g, bytes)
    {
      hide Size, Step, WithCursor, Drawn;
      for i := 0 to |bytes|
        invariant Valid() && fb[Size(g)..] == old(fb[Size(g)..])
        invariant old(At()) == Cursor(0, 0) ==> At() == Run(g, bytes[..i])
      {
        assert bytes[..i + 1][..i] == bytes[..i];
        WriteByte(bytes[i]);
      }
      assert bytes[..|bytes|] == bytes;
    }
  }
}
