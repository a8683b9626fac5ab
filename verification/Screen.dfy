/** Pixels of a linear framebuffer, and what a scroll does to them. */
module Screen {
  import opened Machine

  const FONT_GLYPH_HEIGHT := 16
  const FONT_GLYPH_WIDTH := 8

  datatype Geometry = Geometry(width: u16, height: u16, pitch: u32, pixelBytes: nat)

  /** A display mode the console can drive: a row's pixels fit its pitch, and a pixel its colour
      word. */
  predicate Sound(g: Geometry) {
    g.pixelBytes <= 4 && g.width * g.pixelBytes <= g.pitch
  }

  /** One row of glyphs fits the screen, which a scroll takes for granted. */
  predicate Tall(g: Geometry) {
    g.height >= FONT_GLYPH_HEIGHT
  }

  function Size(g: Geometry): nat {
    g.pitch * g.height
  }

  predicate Visible(g: Geometry, x: int, y: int) {
    0 <= x < g.width && 0 <= y < g.height
  }

  /** The whole rows of glyphs the screen holds, and one at least. */
  function Rows(g: Geometry): (r: nat)
    ensures r >= 1 && (Tall(g) ==> r * FONT_GLYPH_HEIGHT <= g.height < (r + 1) * FONT_GLYPH_HEIGHT)
    ensures !Tall(g) ==> r == 1
  {
    if g.height / FONT_GLYPH_HEIGHT > 1 then g.height / FONT_GLYPH_HEIGHT else 1
  }

  /** The whole glyphs a line holds, and one at least. */
  function Cols(g: Geometry): (r: nat)
    ensures r >= 1 && (g.width >= FONT_GLYPH_WIDTH ==> r * FONT_GLYPH_WIDTH <= g.width < (r + 1) * FONT_GLYPH_WIDTH)
    ensures g.width < FONT_GLYPH_WIDTH ==> r == 1
  {
    if g.width / FONT_GLYPH_WIDTH > 1 then g.width / FONT_GLYPH_WIDTH else 1
  }

  lemma Distribute(a: nat, b: nat, k: nat)
    ensures (a + b) * k == a * k + b * k
    ensures a * k >= 0 && b * k >= 0
  {
  }

  /** `c` items of size `k` fit before the item at `d`. */
  lemma NextItem(c: nat, d: nat, k: nat)
    requires c < d
    ensures c * k + k <= d * k
  {
    Distribute(c, d - c, k);
    Distribute(1, d - c - 1, k);
  }

  lemma AtRow(g: Geometry, x: int, y: int)
    requires Sound(g) && Visible(g, x, y)
    ensures 0 <= y * g.pitch <= y * g.pitch + x * g.pixelBytes
    ensures y * g.pitch + x * g.pixelBytes + g.pixelBytes <= y * g.pitch + g.pitch <= Size(g)
  {
    NextItem(x, g.width, g.pixelBytes);
    NextItem(y, g.height, g.pitch);
  }

  /** Where a pixel's bytes start; they lie inside pitch times height. */
  function At(g: Geometry, x: int, y: int): (r: nat)
    requires Sound(g) && Visible(g, x, y)
    ensures r + g.pixelBytes <= Size(g)
  {
    AtRow(g, x, y);
    y * g.pitch + x * g.pixelBytes
  }

  function Pixel(g: Geometry, fb: seq<u8>, x: int, y: int): (r: seq<u8>)
    requires Sound(g) && Visible(g, x, y) && |fb| >= Size(g)
    ensures |r| == g.pixelBytes
  {
    fb[At(g, x, y)..At(g, x, y) + g.pixelBytes]
  }

  /** Different pixels share no byte. */
  lemma PixelsApart(g: Geometry, x: int, y: int, u: int, v: int)
    requires Sound(g) && Visible(g, x, y) && Visible(g, u, v) && (x != u || y != v)
    ensures At(g, x, y) + g.pixelBytes <= At(g, u, v) || At(g, u, v) + g.pixelBytes <= At(g, x, y)
  {
    AtRow(g, x, y);
    AtRow(g, u, v);
    if y < v {
      NextItem(y, v, g.pitch);
    } else if v < y {
      NextItem(v, y, g.pitch);
    } else if x < u {
      NextItem(x, u, g.pixelBytes);
    } else {
      NextItem(u, x, g.pixelBytes);
    }
  }

  /** The framebuffer with one pixel coloured; a pixel off the panel is not drawn. */
  function PutPixel(g: Geometry, fb: seq<u8>, x: int, y: int, color: u32): (r: seq<u8>)
    requires Sound(g) && |fb| >= Size(g)
    ensures |r| == |fb|
  {
    if Visible(g, x, y) then Blit(fb, At(g, x, y), LeBytes(color, g.pixelBytes)) else fb
  }

  lemma PutPixelShows(g: Geometry, fb: seq<u8>, x: int, y: int, color: u32, u: int, v: int)
    requires Sound(g) && |fb| >= Size(g) && Visible(g, u, v)
    ensures Pixel(g, PutPixel(g, fb, x, y, color), u, v)
         == if x == u && y == v then LeBytes(color, g.pixelBytes) else Pixel(g, fb, u, v)
  {
    hide LeBytes, Blit;
    if Visible(g, x, y) && (x != u || y != v) {
      PixelsApart(g, x, y, u, v);
      hide At, Size;
      BlitElsewhere(fb, At(g, x, y), LeBytes(color, g.pixelBytes), At(g, u, v), At(g, u, v) + g.pixelBytes);
    }
  }

  lemma PutPixelInside(g: Geometry, fb: seq<u8>, x: int, y: int, color: u32)
    requires Sound(g) && |fb| >= Size(g)
    ensures PutPixel(g, fb, x, y, color)[Size(g)..] == fb[Size(g)..]
  {
  }

  // ------------------------------------------------------------ blocks of pixels

  /** The colour of each pixel of a block. */
  type Ink = (nat, nat) -> u32

  /** The first `gy` rows of a block, and `gx` pixels of the next, are painted, and no other
      pixel and no byte past the screen has changed. */
  ghost predicate Painted(g: Geometry, before: seq<u8>, after: seq<u8>, x0: nat, y0: nat, w: nat, gy: nat, gx: nat,
                          ink: Ink)
    requires Sound(g)
  {
    && |after| == |before| >= Size(g)
    && after[Size(g)..] == before[Size(g)..]
    && forall x, y :: Visible(g, x, y) ==>
         Pixel(g, after, x, y) == if InBlock(x - x0, y - y0, w, gy, gx) then LeBytes(ink(x - x0, y - y0), g.pixelBytes)
                                  else Pixel(g, before, x, y)
  }

  predicate InBlock(dx: int, dy: int, w: nat, gy: nat, gx: nat) {
    && 0 <= dx < w && 0 <= dy
    && (dy < gy || (dy == gy && dx < gx))
  }

  lemma PaintStart(g: Geometry, fb: seq<u8>, x0: nat, y0: nat, w: nat, ink: Ink)
    requires Sound(g) && |fb| >= Size(g)
    ensures Painted(g, fb, fb, x0, y0, w, 0, 0, ink)
  {
  }

  lemma PaintNext(g: Geometry, before: seq<u8>, fb: seq<u8>, x0: nat, y0: nat, w: nat, gy: nat, gx: nat, ink: Ink)
    requires Sound(g) && gx < w && Painted(g, before, fb, x0, y0, w, gy, gx, ink)
    ensures Painted(g, before, PutPixel(g, fb, x0 + gx, y0 + gy, ink(gx, gy)), x0, y0, w, gy, gx + 1, ink)
  {
    hide LeBytes, Pixel, PutPixel, Size;
    var after := PutPixel(g, fb, x0 + gx, y0 + gy, ink(gx, gy));
    PutPixelInside(g, fb, x0 + gx, y0 + gy, ink(gx, gy));
    forall x, y | Visible(g, x, y)
      ensures Pixel(g, after, x, y)
           == if InBlock(x - x0, y - y0, w, gy, gx + 1) then LeBytes(ink(x - x0, y - y0), g.pixelBytes)
              else Pixel(g, before, x, y)
    {
      PutPixelShows(g, fb, x0 + gx, y0 + gy, ink(gx, gy), x, y);
    }
  }

  lemma PaintRow(g: Geometry, before: seq<u8>, fb: seq<u8>, x0: nat, y0: nat, w: nat, gy: nat, ink: Ink)
    requires Sound(g) && Painted(g, before, fb, x0, y0, w, gy, w, ink)
    ensures Painted(g, before, fb, x0, y0, w, gy + 1, 0, ink)
  {
    hide LeBytes, Pixel, Size;
    assert forall dx, dy :: InBlock(dx, dy, w, gy, w) == InBlock(dx, dy, w, gy + 1, 0);
  }

  // ------------------------------------------------------------ scrolling

  /** The picture a scroll is for: every pixel moves up one row of glyphs and the bottom row of
      glyphs is background. */
  function IdealPixel(g: Geometry, before: seq<u8>, bg: u32, x: int, y: int): seq<u8>
    requires Sound(g) && |before| >= Size(g) && Visible(g, x, y)
  {
    if y + FONT_GLYPH_HEIGHT < g.height then Pixel(g, before, x, y + FONT_GLYPH_HEIGHT)
    else LeBytes(bg, g.pixelBytes)
  }

  /** Byte `i` of a word written over and over. */
  function WordByte(color: u32, i: nat): u8 {
    LeBytes(color, 4)[i % 4]
  }

  /** The four bytes of such a fill from byte `r` on. */
  function Rotated(color: u32, r: nat): seq<u8> {
    [WordByte(color, r), WordByte(color, r + 1), WordByte(color, r + 2), WordByte(color, r + 3)]
  }

  /** Which byte of a fill word the `row`-th filled row starts with. */
  function FillPhase(row: nat, pitch: nat): (r: nat)
    ensures r < 4
  {
    row * pitch % 4
  }

  /** The picture the code leaves: word fill for four-byte pixels, and pixel by pixel from the
      last whole row of glyphs otherwise. */
  function ScrolledPixel(g: Geometry, before: seq<u8>, bg: u32, x: int, y: int): seq<u8>
    requires Sound(g) && |before| >= Size(g) && Visible(g, x, y)
  {
    var clearFrom := (Rows(g) - 1) * FONT_GLYPH_HEIGHT;
    if g.pixelBytes != 4 && clearFrom <= y < clearFrom + FONT_GLYPH_HEIGHT then LeBytes(bg, g.pixelBytes)
    else if y + FONT_GLYPH_HEIGHT < g.height then Pixel(g, before, x, y + FONT_GLYPH_HEIGHT)
    else if g.pixelBytes == 4 then Rotated(bg, FillPhase(y + FONT_GLYPH_HEIGHT - g.height, g.pitch))
    else Pixel(g, before, x, y)
  }

  ghost predicate ScrollsRight(g: Geometry, before: seq<u8>, bg: u32)
    requires Sound(g) && |before| >= Size(g)
  {
    forall x, y :: Visible(g, x, y) ==> ScrolledPixel(g, before, bg, x, y) == IdealPixel(g, before, bg, x, y)
  }

  /** When the code's scroll is the intended one: a fill word looks the same from the start of
      every row, or the height is a whole number of glyphs. */
  predicate ScrollCondition(g: Geometry, bg: u32) {
    if g.pixelBytes == 4 then Rotated(bg, g.pitch) == LeBytes(bg, 4) else g.height % FONT_GLYPH_HEIGHT == 0
  }

  lemma SumMod(a: nat, b: nat)
    ensures (a + b) % 4 == (a % 4 + b) % 4 == (a + b % 4) % 4
  {
    assert a == 4 * (a / 4) + a % 4 && b == 4 * (b / 4) + b % 4;
  }

  lemma RotatedBy(color: u32, r: nat)
    ensures Rotated(color, r) == Rotated(color, r % 4)
  {
    hide LeBytes;
    SumMod(r, 1);
    SumMod(r, 2);
    SumMod(r, 3);
  }

  lemma NotRotated(color: u32)
    ensures Rotated(color, 0) == LeBytes(color, 4)
  {
    hide LeBytes;
    var word := LeBytes(color, 4);
    assert word == [word[0], word[1], word[2], word[3]];
  }

  /** Where a fill looks like the word, it does so from there on. */
  lemma LooksAlike(color: u32, r: nat, m: nat)
    requires Rotated(color, r) == LeBytes(color, 4)
    ensures WordByte(color, r + m) == WordByte(color, m)
  {
    hide LeBytes;
    SumMod(r, m);
    assert Rotated(color, r)[m % 4] == WordByte(color, r + m % 4);
  }

  lemma {:induction false} RotatedRow(color: u32, pitch: nat, row: nat)
    requires Rotated(color, pitch) == LeBytes(color, 4)
    ensures Rotated(color, row * pitch) == LeBytes(color, 4)
    decreases row
  {
    hide LeBytes, WordByte;
    if row == 0 {
      NotRotated(color);
    } else {
      RotatedRow(color, pitch, row - 1);
      Distribute(row - 1, 1, pitch);
      RotatedOnce(color, (row - 1) * pitch, pitch);
    }
  }

  lemma RotatedOnce(color: u32, r: nat, pitch: nat)
    requires Rotated(color, r) == Rotated(color, pitch) == LeBytes(color, 4)
    ensures Rotated(color, r + pitch) == LeBytes(color, 4)
  {
    hide LeBytes, WordByte;
    LooksAlike(color, r, pitch);
    LooksAlike(color, r, pitch + 1);
    LooksAlike(color, r, pitch + 2);
    LooksAlike(color, r, pitch + 3);
  }

  lemma FillLooksAlike(color: u32, pitch: nat, row: nat)
    requires Rotated(color, pitch) == LeBytes(color, 4)
    ensures Rotated(color, FillPhase(row, pitch)) == LeBytes(color, 4)
  {
    hide LeBytes, Rotated;
    RotatedRow(color, pitch, row);
    RotatedBy(color, row * pitch);
  }

  lemma ScrollRight(g: Geometry, before: seq<u8>, bg: u32)
    requires Sound(g) && Tall(g) && |before| >= Size(g) && ScrollCondition(g, bg)
    ensures ScrollsRight(g, before, bg)
  {
    hide LeBytes, Rotated, Pixel, Size, FillPhase;
    forall x, y | Visible(g, x, y)
      ensures ScrolledPixel(g, before, bg, x, y) == IdealPixel(g, before, bg, x, y)
    {
      if g.pixelBytes == 4 && y + FONT_GLYPH_HEIGHT >= g.height {
        FillLooksAlike(bg, g.pitch, y + FONT_GLYPH_HEIGHT - g.height);
      }
    }
  }

  lemma ScrollWrong(g: Geometry, bg: u32) returns (before: seq<u8>)
    requires Sound(g) && Tall(g) && g.width > 0 && g.pixelBytes > 0 && !ScrollCondition(g, bg)
    ensures |before| == Size(g) && !ScrollsRight(g, before, bg)
  {
    var word := LeBytes(bg, g.pixelBytes);
    var other: u8 := if word[0] == 0 then 1 else 0;
    before := seq(Size(g), i => other);
    if g.pixelBytes == 4 {
      var y := g.height - FONT_GLYPH_HEIGHT + 1;
      assert 1 * g.pitch == g.pitch;
      RotatedBy(bg, g.pitch);
      assert ScrolledPixel(g, before, bg, 0, y) == Rotated(bg, g.pitch);
      assert Visible(g, 0, y);
    } else {
      var y := g.height - 1;
      assert Visible(g, 0, y);
      assert ScrolledPixel(g, before, bg, 0, y) == Pixel(g, before, 0, y);
      assert Pixel(g, before, 0, y)[0] == other;
    }
  }

  /** The scroll is right on every screen exactly when the condition holds: the mode and the
      background colour alone decide it. */
  lemma ScrollExact(g: Geometry, bg: u32)
    requires Sound(g) && Tall(g) && g.width > 0 && g.pixelBytes > 0
    ensures ScrollCondition(g, bg)
       <==> forall before: seq<u8> :: |before| >= Size(g) ==> ScrollsRight(g, before, bg)
  {
    if ScrollCondition(g, bg) {
      forall before: seq<u8> | |before| >= Size(g)
        ensures ScrollsRight(g, before, bg)
      {
        ScrollRight(g, before, bg);
      }
    } else {
      var before := ScrollWrong(g, bg);
    }
  }

  /** A pitch of whole words is enough for the word fill, whatever the colour. */
  lemma WholeWordPitch(g: Geometry, bg: u32)
    requires Sound(g) && g.pixelBytes == 4 && g.pitch % 4 == 0
    ensures ScrollCondition(g, bg)
  {
    hide LeBytes;
    RotatedBy(bg, g.pitch);
    NotRotated(bg);
  }

  // ------------------------------------------------------------ the two steps of a scroll

  function GlyphRowBytes(g: Geometry): nat {
    FONT_GLYPH_HEIGHT * g.pitch
  }

  /** The overlapping copy: the screen from its second row of glyphs on, then what was at its end. */
  function Moved(g: Geometry, before: seq<u8>): (r: seq<u8>)
    requires Sound(g) && Tall(g) && |before| >= Size(g)
    ensures GlyphRowBytes(g) <= Size(g) && |r| == |before|
  {
    RowsFit(g);
    Shifted(before, GlyphRowBytes(g), Size(g))
  }

  function Shifted(before: seq<u8>, shift: nat, size: nat): (r: seq<u8>)
    requires shift <= size <= |before|
    ensures |r| == |before|
  {
    before[shift..size] + before[size - shift..]
  }

  lemma RowsFit(g: Geometry)
    requires Sound(g) && Tall(g)
    ensures Size(g) - GlyphRowBytes(g) == (g.height - FONT_GLYPH_HEIGHT) * g.pitch >= 0
  {
    Distribute(g.height - FONT_GLYPH_HEIGHT, FONT_GLYPH_HEIGHT, g.pitch);
    assert g.height == g.height - FONT_GLYPH_HEIGHT + FONT_GLYPH_HEIGHT;
  }

  lemma AtAbove(g: Geometry, x: int, y: int)
    requires Sound(g) && Tall(g) && Visible(g, x, y) && y + FONT_GLYPH_HEIGHT < g.height
    ensures At(g, x, y) + g.pixelBytes <= Size(g) - GlyphRowBytes(g)
    ensures At(g, x, y + FONT_GLYPH_HEIGHT) == At(g, x, y) + GlyphRowBytes(g)
  {
    RowsFit(g);
    AtRow(g, x, y);
    NextItem(y, g.height - FONT_GLYPH_HEIGHT, g.pitch);
    Distribute(y, FONT_GLYPH_HEIGHT, g.pitch);
  }

  lemma AtIs(g: Geometry, x: int, y: int)
    requires Sound(g) && Visible(g, x, y)
    ensures At(g, x, y) == y * g.pitch + x * g.pixelBytes && x * g.pixelBytes >= 0
  {
    hide Size;
    AtRow(g, x, y);
  }

  lemma AtBelow(g: Geometry, x: int, y: int) returns (row: nat)
    requires Sound(g) && Tall(g) && Visible(g, x, y) && y + FONT_GLYPH_HEIGHT >= g.height
    ensures row == (y + FONT_GLYPH_HEIGHT - g.height) * g.pitch
    ensures At(g, x, y) == Size(g) - GlyphRowBytes(g) + row + x * g.pixelBytes
    ensures x * g.pixelBytes >= 0
  {
    hide At, Size, GlyphRowBytes;
    RowsFit(g);
    AtIs(g, x, y);
    var up, dy: nat := g.height - FONT_GLYPH_HEIGHT, y + FONT_GLYPH_HEIGHT - g.height;
    Distribute(up, dy, g.pitch);
    row := dy * g.pitch;
    assert y == up + dy;
  }

  lemma MovedPixel(g: Geometry, before: seq<u8>, x: int, y: int)
    requires Sound(g) && Tall(g) && |before| >= Size(g) && Visible(g, x, y)
    ensures Pixel(g, Moved(g, before), x, y)
         == if y + FONT_GLYPH_HEIGHT < g.height then Pixel(g, before, x, y + FONT_GLYPH_HEIGHT)
            else Pixel(g, before, x, y)
  {
    hide At, Size, GlyphRowBytes, Shifted;
    assert |Moved(g, before)| == |before|;
    if y + FONT_GLYPH_HEIGHT < g.height {
      AtAbove(g, x, y);
    } else {
      var row := AtBelow(g, x, y);
    }
    ShiftedSlice(before, GlyphRowBytes(g), Size(g), At(g, x, y), g.pixelBytes);
  }

  lemma ShiftedSlice(before: seq<u8>, shift: nat, size: nat, at: nat, n: nat)
    requires shift <= size <= |before| && at + n <= size
    ensures at + n <= size - shift ==> Shifted(before, shift, size)[at..at + n] == before[at + shift..at + shift + n]
    ensures size - shift <= at ==> Shifted(before, shift, size)[at..at + n] == before[at..at + n]
  {
    var up, rest := before[shift..size], before[size - shift..];
    if at + n <= size - shift {
      LeftSlice(up, rest, at, n);
      SliceOfSlice(before, shift, size, at, n);
    }
    if size - shift <= at {
      RightSlice(up, rest, at, n);
      SliceOfSlice(before, size - shift, |before|, at - (size - shift), n);
      assert before[size - shift..|before|] == rest;
    }
  }

  lemma LeftSlice(a: seq<u8>, b: seq<u8>, at: nat, n: nat)
    requires at + n <= |a|
    ensures (a + b)[at..at + n] == a[at..at + n]
  {
  }

  lemma RightSlice(a: seq<u8>, b: seq<u8>, at: nat, n: nat)
    requires |a| <= at && at + n <= |a| + |b|
    ensures (a + b)[at..at + n] == b[at - |a|..at - |a| + n]
  {
    var l, r := (a + b)[at..at + n], b[at - |a|..at - |a| + n];
    forall i | 0 <= i < n
      ensures l[i] == r[i]
    {
      assert (a + b)[at + i] == b[at + i - |a|];
    }
  }

  lemma SliceOfSlice(s: seq<u8>, lo: nat, hi: nat, at: nat, n: nat)
    requires lo <= hi <= |s| && at + n <= hi - lo
    ensures s[lo..hi][at..at + n] == s[lo + at..lo + at + n]
  {
    var l, r := s[lo..hi][at..at + n], s[lo + at..lo + at + n];
    forall i | 0 <= i < n
      ensures l[i] == r[i]
    {
      assert s[lo..hi][at + i] == s[lo + at + i];
    }
  }

  /** The bottom row of glyphs filled with a word, over and over. */
  function Filled(g: Geometry, fb: seq<u8>, bg: u32): (r: seq<u8>)
    requires Sound(g) && |fb| >= Size(g) >= GlyphRowBytes(g)
    ensures |r| == |fb|
  {
    Blit(fb, Size(g) - GlyphRowBytes(g), Repeated(bg, GlyphRowBytes(g)))
  }

  function Repeated(color: u32, n: nat): (r: seq<u8>)
    ensures |r| == n
  {
    seq(n, i requires 0 <= i < n => WordByte(color, i))
  }

  lemma FilledPixel(g: Geometry, fb: seq<u8>, bg: u32, x: int, y: int)
    requires Sound(g) && Tall(g) && |fb| >= Size(g) >= GlyphRowBytes(g) && Visible(g, x, y) && g.pixelBytes == 4
    ensures Pixel(g, Filled(g, fb, bg), x, y)
         == if y + FONT_GLYPH_HEIGHT < g.height then Pixel(g, fb, x, y)
            else Rotated(bg, FillPhase(y + FONT_GLYPH_HEIGHT - g.height, g.pitch))
  {
    hide At, Size, GlyphRowBytes, Blit, Repeated, Rotated, LeBytes;
    if y + FONT_GLYPH_HEIGHT < g.height {
      AtAbove(g, x, y);
    } else {
      var row := AtBelow(g, x, y);
      RotatedBy(bg, row);
      RepeatedFrom(bg, GlyphRowBytes(g), row, x);
      BlitSlice(fb, Size(g) - GlyphRowBytes(g), Repeated(bg, GlyphRowBytes(g)), row + 4 * x, 4);
    }
  }

  lemma BlitSlice(fb: seq<u8>, at: nat, data: seq<u8>, from: nat, n: nat)
    requires at + |data| <= |fb| && from + n <= |data|
    ensures Blit(fb, at, data)[at + from..at + from + n] == data[from..from + n]
  {
  }

  lemma RepeatedMore(before: seq<u8>, start: nat, color: u32, i: nat)
    requires start + 4 * i + 4 <= |before|
    ensures Blit(Blit(before, start, Repeated(color, 4 * i)), start + 4 * i, Rotated(color, 0))
         == Blit(before, start, Repeated(color, 4 * (i + 1)))
  {
    hide LeBytes, Blit;
    RepeatedFrom(color, 4 * (i + 1), 0, i);
    hide Rotated;
    assert Repeated(color, 4 * (i + 1)) == Repeated(color, 4 * i) + Rotated(color, 0);
  }

  lemma RepeatedFrom(color: u32, n: nat, row: nat, x: nat)
    requires row + 4 * x + 4 <= n
    ensures Repeated(color, n)[row + 4 * x..row + 4 * x + 4] == Rotated(color, row)
  {
    hide LeBytes;
    assert (row + 4 * x) % 4 == row % 4;
    RotatedBy(color, row);
    RotatedBy(color, row + 4 * x);
  }

  /** `after` is the screen the code's scroll makes of `before`. */
  ghost predicate ScrolledTo(g: Geometry, before: seq<u8>, after: seq<u8>, bg: u32)
    requires Sound(g)
  {
    && |after| == |before| >= Size(g)
    && after[Size(g)..] == before[Size(g)..]
    && forall x, y :: Visible(g, x, y) ==> Pixel(g, after, x, y) == ScrolledPixel(g, before, bg, x, y)
  }

  function Plain(color: u32): Ink {
    (gx: nat, gy: nat) => color
  }

  lemma WordScrolled(g: Geometry, before: seq<u8>, bg: u32)
    requires Sound(g) && Tall(g) && |before| >= Size(g) && g.pixelBytes == 4
    ensures ScrolledTo(g, before, Filled(g, Moved(g, before), bg), bg)
  {
    var after := Filled(g, Moved(g, before), bg);
    assert after[Size(g)..] == Moved(g, before)[Size(g)..] == before[Size(g)..];
    hide LeBytes, Pixel, Size, Moved, Filled, Rotated, FillPhase;
    forall x, y | Visible(g, x, y)
      ensures Pixel(g, after, x, y) == ScrolledPixel(g, before, bg, x, y)
    {
      FilledPixel(g, Moved(g, before), bg, x, y);
      MovedPixel(g, before, x, y);
    }
  }

  lemma PixelScrolled(g: Geometry, before: seq<u8>, after: seq<u8>, bg: u32)
    requires Sound(g) && Tall(g) && |before| >= Size(g) && g.pixelBytes != 4
    requires Painted(g, Moved(g, before), after, 0, (Rows(g) - 1) * FONT_GLYPH_HEIGHT, g.width, FONT_GLYPH_HEIGHT, 0,
                     Plain(bg))
    ensures ScrolledTo(g, before, after, bg)
  {
    assert Moved(g, before)[Size(g)..] == before[Size(g)..];
    hide LeBytes, Pixel, Size, Moved;
    forall x, y | Visible(g, x, y)
      ensures Pixel(g, after, x, y) == ScrolledPixel(g, before, bg, x, y)
    {
      MovedPixel(g, before, x, y);
    }
  }

  /** Under the condition the code's scroll is the intended one. */
  lemma ScrolledIdeal(g: Geometry, before: seq<u8>, after: seq<u8>, bg: u32)
    requires Sound(g) && Tall(g) && ScrolledTo(g, before, after, bg) && ScrollCondition(g, bg)
    ensures forall x, y :: Visible(g, x, y) ==> Pixel(g, after, x, y) == IdealPixel(g, before, bg, x, y)
  {
    hide LeBytes, Pixel, Size, ScrolledPixel, IdealPixel, ScrollCondition;
    ScrollRight(g, before, bg);
  }

  // ------------------------------------------------------------ clearing

  ghost predicate AllBackground(g: Geometry, fb: seq<u8>, bg: u32)
    requires Sound(g)
  {
    |fb| >= Size(g) && forall x, y :: Visible(g, x, y) ==> Pixel(g, fb, x, y) == LeBytes(bg, g.pixelBytes)
  }

  /** The words a clear writes for four-byte pixels: as many whole ones as the screen has. */
  function WordBytes(g: Geometry): (r: nat)
    ensures Size(g) - 4 < r <= Size(g)
  {
    Size(g) / 4 * 4
  }

  function Cleared(g: Geometry, before: seq<u8>, bg: u32): (r: seq<u8>)
    requires |before| >= Size(g)
    ensures |r| == |before|
  {
    Blit(before, 0, Repeated(bg, WordBytes(g)))
  }

  /** When a word fill clears the screen: the word looks the same from the start of every row,
      if there is more than one, and the last pixel lies in the whole words. */
  predicate ClearCondition(g: Geometry, bg: u32) {
    g.pixelBytes == 4 && g.height > 0 ==>
      && (g.height > 1 ==> Rotated(bg, g.pitch) == LeBytes(bg, 4))
      && (g.height - 1) * g.pitch + 4 * g.width <= WordBytes(g)
  }

  lemma BeforeLast(g: Geometry, x: int, y: int)
    requires Sound(g) && Visible(g, x, y) && g.pixelBytes == 4
    ensures At(g, x, y) + 4 <= (g.height - 1) * g.pitch + 4 * g.width
  {
    AtRow(g, x, y);
    Distribute(y, g.height - 1 - y, g.pitch);
    assert y + (g.height - 1 - y) == g.height - 1;
  }

  /** What a word fill leaves at a pixel inside the whole words. */
  lemma ClearedPixel(g: Geometry, before: seq<u8>, bg: u32, x: int, y: int)
    requires Sound(g) && |before| >= Size(g) && g.pixelBytes == 4 && Visible(g, x, y) && At(g, x, y) + 4 <= WordBytes(g)
    ensures Pixel(g, Cleared(g, before, bg), x, y) == Rotated(bg, y * g.pitch)
  {
    hide LeBytes, Blit, Size, Rotated, Repeated, WordBytes;
    AtRow(g, x, y);
    RepeatedFrom(bg, WordBytes(g), y * g.pitch, x);
    BlitSlice(before, 0, Repeated(bg, WordBytes(g)), At(g, x, y), 4);
  }

  lemma ClearRight(g: Geometry, before: seq<u8>, bg: u32)
    requires Sound(g) && |before| >= Size(g) && g.pixelBytes == 4 && ClearCondition(g, bg)
    ensures AllBackground(g, Cleared(g, before, bg), bg)
  {
    hide LeBytes, Blit, Size, Rotated, Repeated, Pixel, At, Cleared, WordBytes;
    assert |Cleared(g, before, bg)| == |before|;
    forall x, y | Visible(g, x, y)
      ensures Pixel(g, Cleared(g, before, bg), x, y) == LeBytes(bg, 4)
    {
      BeforeLast(g, x, y);
      ClearedPixel(g, before, bg, x, y);
      if y == 0 {
        NotRotated(bg);
      } else {
        RotatedRow(bg, g.pitch, y);
      }
    }
  }

  lemma ClearWrong(g: Geometry, bg: u32) returns (before: seq<u8>)
    requires Sound(g) && g.width > 0 && g.pixelBytes == 4 && !ClearCondition(g, bg)
    ensures |before| == Size(g) && !AllBackground(g, Cleared(g, before, bg), bg)
  {
    hide LeBytes, Rotated, Repeated, At;
    var other: u8 := if LeBytes(bg, 4)[3] == 0 then 1 else 0;
    before := seq(Size(g), i => other);
    var after := Cleared(g, before, bg);
    AtLast(g);
    if (g.height - 1) * g.pitch + 4 * g.width <= WordBytes(g) {
      assert Visible(g, 0, 1) && 1 * g.pitch == g.pitch;
      BeforeLast(g, 0, 1);
      ClearedPixel(g, before, bg, 0, 1);
    } else {
      var x, y := g.width - 1, g.height - 1;
      assert Visible(g, x, y);
      assert after[At(g, x, y) + 3] == other;
      assert Pixel(g, after, x, y)[3] == other;
    }
  }

  lemma AtLast(g: Geometry)
    requires Sound(g) && g.width > 0 && g.height > 0 && g.pixelBytes == 4
    ensures At(g, g.width - 1, g.height - 1) + 4 == (g.height - 1) * g.pitch + 4 * g.width <= Size(g)
  {
    AtRow(g, g.width - 1, g.height - 1);
  }

  /** Exactly when a word fill clears every screen: the mode and the background alone decide. */
  lemma ClearExact(g: Geometry, bg: u32)
    requires Sound(g) && g.width > 0 && g.pixelBytes == 4
    ensures ClearCondition(g, bg)
       <==> forall before: seq<u8> :: |before| >= Size(g) ==> AllBackground(g, Cleared(g, before, bg), bg)
  {
    hide AllBackground, Cleared, ClearCondition, Size;
    if ClearCondition(g, bg) {
      forall before: seq<u8> | |before| >= Size(g)
        ensures AllBackground(g, Cleared(g, before, bg), bg)
      {
        ClearRight(g, before, bg);
      }
    } else {
      var before := ClearWrong(g, bg);
    }
  }

  /** A pitch of whole words is enough, whatever the colour. */
  lemma WholeWordsClear(g: Geometry, bg: u32)
    requires Sound(g) && g.pixelBytes == 4 && g.pitch % 4 == 0
    ensures ClearCondition(g, bg)
  {
    hide LeBytes, Rotated;
    WholeWordPitch(g, bg);
    var q := g.pitch / 4;
    assert Size(g) == 4 * (q * g.height);
    if g.height > 0 {
      Distribute(g.height - 1, 1, g.pitch);
    }
  }

  lemma PixelsClear(g: Geometry, before: seq<u8>, after: seq<u8>, bg: u32)
    requires Sound(g) && Painted(g, before, after, 0, 0, g.width, g.height, 0, Plain(bg))
    ensures AllBackground(g, after, bg)
  {
    hide LeBytes, Pixel, Size;
  }
}
