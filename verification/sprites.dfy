/**
 * `pix2d::Sprite`: a `width` x `height` grid of pixels stored bottom row
 * first, so that coordinate (0, 0) is the top-left corner. Reads and writes
 * outside the grid, or on a sprite without storage, are silently absorbed.
 */
module Sprites {
  import opened Options
  import opened Pixels
  import opened ByteLayout

  /** `data` is `sprite_data`: `None` when the pointer is null. */
  datatype Sprite = Sprite(width: int, height: int, data: Option<seq<Pixel>>)

  /** Allocated storage holds exactly `width * height` pixels. */
  predicate Valid(s: Sprite)
  {
    s.data.Some? ==> s.width * s.height >= 0 && |s.data.value| == s.width * s.height
  }

  /** The member initialisers of `Sprite`: no size and a null buffer. */
  const SpriteDefaults: Sprite := Sprite(0, 0, None)

  function Width(s: Sprite): int { s.width }

  function Height(s: Sprite): int { s.height }

  /** `get_data`: the raw buffer, null when nothing was allocated. */
  function Data(s: Sprite): Option<seq<Pixel>> { s.data }

  /** The bounds test shared by `get_pixel` and `set_pixel`. */
  predicate InRange(s: Sprite, x: int, y: int)
  {
    0 <= x && 0 <= y && x < s.width && y < s.height
  }

  lemma ProductNonNegative(a: int, b: int)
    requires 0 <= a && 0 <= b
    ensures 0 <= a * b
  {}

  lemma RowsFit(row: int, w: int, h: int)
    requires 0 <= row < h && 0 < w
    ensures row * w + w <= h * w
  {
    ProductNonNegative(h - row - 1, w);
    assert (h - row - 1) * w == h * w - row * w - w;
  }

  /** The storage slot of (x, y): rows are counted from the bottom. */
  function FlippedIndex(w: int, h: int, x: int, y: int): (i: int)
    requires 0 <= x < w && 0 <= y < h
    ensures 0 <= i < w * h
  {
    RowsFit(h - y - 1, w, h);
    (h - y - 1) * w + x
  }

  lemma RowsSeparate(r1: int, r2: int, w: int, x1: int, x2: int)
    requires r1 < r2 && 0 <= x1 < w && 0 <= x2 < w
    ensures r1 * w + x1 < r2 * w + x2
  {
    ProductNonNegative(r2 - r1 - 1, w);
    assert (r2 - r1 - 1) * w == r2 * w - r1 * w - w;
  }

  /** Distinct coordinates of the grid have distinct storage slots. */
  lemma FlippedIndexInjective(w: int, h: int, x1: int, y1: int, x2: int, y2: int)
    requires 0 <= x1 < w && 0 <= y1 < h
    requires 0 <= x2 < w && 0 <= y2 < h
    requires FlippedIndex(w, h, x1, y1) == FlippedIndex(w, h, x2, y2)
    ensures x1 == x2 && y1 == y2
  {
    var r1, r2 := h - y1 - 1, h - y2 - 1;
    if r1 < r2 {
      RowsSeparate(r1, r2, w, x1, x2);
    } else if r2 < r1 {
      RowsSeparate(r2, r1, w, x2, x1);
    }
  }

  lemma WidthPositive(w: int, h: int, i: int)
    requires 0 <= w && 0 <= i < w * h
    ensures 0 < w
  {}

  lemma QuotientBelow(w: int, h: int, i: int)
    requires 0 < w && 0 <= i < w * h
    ensures i / w < h
  {
    var q := i / w;
    assert q * w <= i;
    if q >= h {
      ProductNonNegative(q - h, w);
    }
  }

  lemma SlotDivides(w: int, h: int, i: int)
    requires 0 <= w && 0 <= h && 0 <= i < w * h
    ensures 0 < w && 0 <= i / w < h && 0 <= i % w < w
    ensures (i / w) * w + i % w == i
  {
    WidthPositive(w, h, i);
    QuotientBelow(w, h, i);
  }

  /** The coordinate that owns storage slot `i`: every slot of a grid with
      non-negative sides belongs to some in-range coordinate. */
  function CoordinatesOf(w: int, h: int, i: int): (c: (int, int))
    requires 0 <= w && 0 <= h && 0 <= i < w * h
    ensures 0 <= c.0 < w && 0 <= c.1 < h
    ensures FlippedIndex(w, h, c.0, c.1) == i
  {
    SlotDivides(w, h, i);
    (i % w, h - 1 - i / w)
  }

  /** `get_pixel`. */
  function GetPixel(s: Sprite, x: int, y: int): (p: Pixel)
    requires Valid(s)
    ensures !InRange(s, x, y) || s.data.None? ==> p == DefaultPixel()
  {
    if InRange(s, x, y) && s.data.Some? then s.data.value[FlippedIndex(s.width, s.height, x, y)]
    else DefaultPixel()
  }

  /** `set_pixel`: a raw overwrite of one slot, no blending. */
  function SetPixel(s: Sprite, x: int, y: int, p: Pixel): (t: Sprite)
    requires Valid(s)
    ensures Valid(t) && t.width == s.width && t.height == s.height
    ensures !InRange(s, x, y) || s.data.None? ==> t == s
    ensures InRange(s, x, y) && s.data.Some? ==>
              var k := FlippedIndex(s.width, s.height, x, y);
              && t.data.Some? && |t.data.value| == |s.data.value|
              && t.data.value[k] == p
              && forall i :: 0 <= i < |s.data.value| && i != k ==> t.data.value[i] == s.data.value[i]
  {
    if InRange(s, x, y) && s.data.Some? then
      s.(data := Some(s.data.value[FlippedIndex(s.width, s.height, x, y) := p]))
    else s
  }

  /** `Sprite()`: no storage, so it reads as default everywhere and ignores writes. */
  function EmptySprite(): (s: Sprite)
    ensures Valid(s) && s == SpriteDefaults
    ensures Width(s) == 0 && Height(s) == 0 && Data(s).None?
    ensures forall x, y :: GetPixel(s, x, y) == DefaultPixel()
    ensures forall x, y, p :: SetPixel(s, x, y, p) == s
  {
    Sprite(0, 0, None)
  }

  /** `Sprite(w, h)`: `w * h` default pixels. A negative product would make
      the allocation throw. */
  function NewSprite(w: int, h: int): (s: Sprite)
    requires w * h >= 0
    ensures Valid(s) && Width(s) == w && Height(s) == h
    ensures Data(s).Some? && |Data(s).value| == w * h
    ensures forall x, y :: GetPixel(s, x, y) == DefaultPixel()
  {
    Sprite(w, h, Some(seq(w * h, _ => DefaultPixel())))
  }

  /** What the image decoder returns when asked for four channels. */
  datatype Decoded = Decoded(width: int, height: int, bytes: seq<Channel>)

  predicate WellFormed(d: Decoded)
  {
    0 <= d.width && 0 <= d.height && |d.bytes| == 4 * (d.width * d.height)
  }

  /** `Sprite(image)` after decoding: `None` is a failed load, which keeps the
      initialisers; otherwise each pixel is converted from its four bytes. */
  function FromImage(decoded: Option<Decoded>): (s: Sprite)
    requires decoded.Some? ==> WellFormed(decoded.value)
    ensures Valid(s)
    ensures decoded.None? ==> s == SpriteDefaults
    ensures decoded.Some? ==>
              && Width(s) == decoded.value.width && Height(s) == decoded.value.height
              && Data(s).Some?
              && forall x, y :: InRange(s, x, y) ==>
                   var k := FlippedIndex(s.width, s.height, x, y);
                   var bytes := decoded.value.bytes;
                   GetPixel(s, x, y) == Rgba(bytes[4 * k], bytes[4 * k + 1], bytes[4 * k + 2], bytes[4 * k + 3])
  {
    match decoded
    case None => SpriteDefaults
    case Some(d) => Sprite(d.width, d.height, Some(DecodeRgba(d.bytes)))
  }

  /** A sprite without storage reads as default everywhere and ignores writes,
      whatever its recorded size. */
  lemma NullStorageInert(s: Sprite, x: int, y: int, p: Pixel)
    requires Valid(s) && s.data.None?
    ensures GetPixel(s, x, y) == DefaultPixel()
    ensures SetPixel(s, x, y, p) == s
  {}

  /** The buffer of a loaded sprite lays out exactly the decoded bytes. */
  lemma ImageBytesRoundTrip(d: Decoded)
    requires WellFormed(d)
    ensures Data(FromImage(Some(d))).Some?
    ensures EncodeRgba(Data(FromImage(Some(d))).value) == d.bytes
  {
    EncodeDecode(d.bytes);
  }

  /** An in-range write is read back exactly, whatever its alpha. */
  lemma GetAfterSet(s: Sprite, x: int, y: int, p: Pixel)
    requires Valid(s) && InRange(s, x, y) && s.data.Some?
    ensures GetPixel(SetPixel(s, x, y, p), x, y) == p
  {}

  /** A write leaves every other coordinate's pixel as it was. */
  lemma GetAfterSetElsewhere(s: Sprite, x: int, y: int, p: Pixel, x': int, y': int)
    requires Valid(s)
    requires x != x' || y != y'
    ensures GetPixel(SetPixel(s, x, y, p), x', y') == GetPixel(s, x', y')
  {
    if InRange(s, x, y) && InRange(s, x', y') && s.data.Some? {
      if FlippedIndex(s.width, s.height, x, y) == FlippedIndex(s.width, s.height, x', y') {
        FlippedIndexInjective(s.width, s.height, x, y, x', y');
      }
    }
  }

  /** Writes to distinct coordinates commute. */
  lemma SetPixelsCommute(s: Sprite, x: int, y: int, p: Pixel, x': int, y': int, q: Pixel)
    requires Valid(s)
    requires x != x' || y != y'
    ensures SetPixel(SetPixel(s, x, y, p), x', y', q) == SetPixel(SetPixel(s, x', y', q), x, y, p)
  {
    if InRange(s, x, y) && InRange(s, x', y') && s.data.Some? {
      var k := FlippedIndex(s.width, s.height, x, y);
      var k' := FlippedIndex(s.width, s.height, x', y');
      if k == k' {
        FlippedIndexInjective(s.width, s.height, x, y, x', y');
      }
      assert s.data.value[k := p][k' := q] == s.data.value[k' := q][k := p];
    }
  }

  /** The last of two writes to one coordinate wins. */
  lemma SetPixelOverwrites(s: Sprite, x: int, y: int, p: Pixel, q: Pixel)
    requires Valid(s)
    ensures SetPixel(SetPixel(s, x, y, p), x, y, q) == SetPixel(s, x, y, q)
  {
    if InRange(s, x, y) && s.data.Some? {
      var k := FlippedIndex(s.width, s.height, x, y);
      assert s.data.value[k := p][k := q] == s.data.value[k := q];
    }
  }

  /** Two allocated sprites of the same non-negative size that read alike at
      every coordinate are equal: the flipped layout loses nothing. */
  lemma ReadsDetermineSprite(s: Sprite, t: Sprite)
    requires Valid(s) && Valid(t) && s.data.Some? && t.data.Some?
    requires s.width == t.width >= 0 && s.height == t.height >= 0
    requires forall x, y :: GetPixel(s, x, y) == GetPixel(t, x, y)
    ensures s == t
  {
    var w, h := s.width, s.height;
    forall i | 0 <= i < w * h
      ensures s.data.value[i] == t.data.value[i]
    {
      var c := CoordinatesOf(w, h, i);
      assert GetPixel(s, c.0, c.1) == GetPixel(t, c.0, c.1);
    }
    assert s.data.value == t.data.value;
  }
}
