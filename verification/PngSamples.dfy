/** stream.lua, readInt, and png.lua, Pixel:__init, in numbers: the value of big-endian bytes, and the pixels
    of each colour type at 8 and at 16 bits from the bytes of the buffer. */
module PngSamples {
  import opened Bits
  import opened PngFilter
  import opened Png

  // ----- Numbers

  /** The sum of b[i] * 256^(n - 1 - i), taken from the front. */
  function Value(b: seq<byte>): nat {
    if b == [] then 0 else b[0] * Pow2(8 * (|b| - 1)) + Value(b[1..])
  }

  lemma {:induction false} BigEndianIsValue(b: seq<byte>)
    ensures BigEndian(b) == Value(b)
    decreases |b|
  {
    if |b| == 1 {
      assert b[..0] == [] && b[1..] == [] && Pow2(0) == 1;
    } else if b != [] {
      var inner := b[1..|b| - 1];
      BigEndianIsValue(b[..|b| - 1]);
      BigEndianIsValue(b[1..]);
      BigEndianIsValue(inner);
      assert b[..|b| - 1][1..] == inner && b[1..][..|b| - 2] == inner;
      ShiftByte(b[0], |b| - 2);
    }
  }

  lemma ShiftByte(v: nat, n: nat)
    ensures v * Pow2(8 * (n + 1)) == 256 * (v * Pow2(8 * n))
  {
    SmallPowers();
    Pow2Add(8 * n, 8);
    hide Pow2;
    assert v * (Pow2(8 * n) * 256) == 256 * (v * Pow2(8 * n));
  }

  /** One byte is itself; two, three and four bytes count with 256, 65536 and 16777216, and four are signed. */
  lemma BytesAre(b0: byte, b1: byte, b2: byte, b3: byte)
    ensures BytesToNum([]) == 0 && BytesToNum([b0]) == b0 && BytesToNum([b0, b1]) == 256 * b0 + b1
    ensures BytesToNum([b0, b1, b2]) == 65536 * b0 + 256 * b1 + b2
    ensures var v := 16777216 * b0 + 65536 * b1 + 256 * b2 + b3;
            BytesToNum([b0, b1, b2, b3]) == if v < 2147483648 then v else v - 4294967296
  {
    LastByte([], b0);
    LastByte([b0], b1);
    LastByte([b0, b1], b2);
    LastByte([b0, b1, b2], b3);
    hide BigEndian;
    assert [b0] == [] + [b0] && [b0, b1] == [b0] + [b1] && [b0, b1, b2] == [b0, b1] + [b2];
    assert [b0, b1, b2, b3] == [b0, b1, b2] + [b3];
  }

  lemma LastByte(b: seq<byte>, v: byte)
    ensures BigEndian([]) == 0 && BigEndian(b + [v]) == 256 * BigEndian(b) + v
  {
    assert (b + [v])[..|b|] == b;
  }

  /** readInt on bytes that are all there. */
  lemma IntFrom(pre: seq<byte>, b: seq<byte>, post: seq<byte>)
    ensures IntAt(pre + (b + post), |pre| + 1, |b|) == (BytesToNum(b), |pre| + |b| + 1)
  {
    WholeInt(pre + (b + post), |pre| + 1, |b|);
    hide BytesToNum, IntAt;
    assert (pre + (b + post))[|pre|..|pre| + |b|] == b;
  }

  /** At the end of the buffer a number is that of the bytes that are left, 0 if there are none, and the
      cursor is one step further. */
  lemma CutInt(pre: seq<byte>, b: byte)
    ensures IntAt(pre + [b], |pre| + 1, 2) == (b, |pre| + 3)
    ensures IntAt(pre, |pre| + 1, 1) == (0, |pre| + 2) && IntAt(pre, |pre| + 1, 2) == (0, |pre| + 2)
  {
    hide BytesToNum;
    BytesAre(b, 0, 0, 0);
    assert (pre + [b])[|pre|..] == [b] && pre[|pre|..] == [];
  }

  // ----- Rows that are not read as images have them

  /** A colour type without a meaning is an error; a filter type without one only clears the filter byte, and
      the row has no pixels; a row that is to be unfiltered and not all there is an error. */
  lemma OddRows(d: seq<byte>, p: int, depth: nat, colorType: nat, palette: seq<Pixel>, length: nat)
    requires 1 <= p <= |d|
    ensures colorType !in {0, 2, 3, 4, 6} ==> RowOutcome(d, p, depth, colorType, palette, length) == None
    ensures colorType in {0, 2, 3, 4, 6} && d[p - 1] > 4 ==>
              RowOutcome(d, p, depth, colorType, palette, length) == Some(([], d[p - 1 := 0], p + 1))
    ensures colorType in {0, 2, 3, 4, 6} && 1 <= d[p - 1] <= 4 && depth >= 8
            && p + length * (depth / 8 * if colorType == 2 then 3 else if colorType == 4 then 2 else if colorType == 6 then 4 else 1) > |d| ==>
              RowOutcome(d, p, depth, colorType, palette, length) == None
  {
    hide PixelsAt, RowPixels, Unfilter, RowImage, PriorRow;
  }

  // ----- Pixels at 8 bits

  /** Grey, and grey with alpha. */
  lemma GreyPixels(pre: seq<byte>, g: byte, a: byte, post: seq<byte>, palette: seq<Pixel>)
    ensures PixelAt(pre + ([g] + post), |pre| + 1, 1, 0, palette) == (Some(Pixel(g, g, g, 255)), |pre| + 2)
    ensures PixelAt(pre + ([g] + ([a] + post)), |pre| + 1, 1, 4, palette) == (Some(Pixel(g, g, g, a)), |pre| + 3)
  {
    hide BytesToNum, IntAt;
    BytesAre(g, 0, 0, 0);
    BytesAre(a, 0, 0, 0);
    IntFrom(pre, [g], post);
    IntFrom(pre, [g], [a] + post);
    IntFrom(pre + [g], [a], post);
    Regroup(pre, [g], [a] + post);
  }

  /** Red, green and blue, and the same with alpha. */
  lemma ColourPixels(pre: seq<byte>, r: byte, g: byte, b: byte, a: byte, post: seq<byte>, palette: seq<Pixel>)
    ensures PixelAt(pre + ([r] + ([g] + ([b] + post))), |pre| + 1, 1, 2, palette) == (Some(Pixel(r, g, b, 255)), |pre| + 4)
    ensures PixelAt(pre + ([r] + ([g] + ([b] + ([a] + post)))), |pre| + 1, 1, 6, palette) == (Some(Pixel(r, g, b, a)), |pre| + 5)
  {
    hide BytesToNum, IntAt, PixelAt;
    Samples(pre, [r], [g], [b], [a], post, palette);
    BytesAre(r, 0, 0, 0);
    BytesAre(g, 0, 0, 0);
    BytesAre(b, 0, 0, 0);
    BytesAre(a, 0, 0, 0);
  }

  /** An index into the palette, which counts from 0; alpha is 255 whatever the palette says. */
  lemma PalettePixel(pre: seq<byte>, i: byte, post: seq<byte>, palette: seq<Pixel>)
    ensures PixelAt(pre + ([i] + post), |pre| + 1, 1, 3, palette)
         == (if i < |palette| then Some(Pixel(palette[i].R, palette[i].G, palette[i].B, 255)) else None, |pre| + 2)
  {
    hide BytesToNum, IntAt;
    BytesAre(i, 0, 0, 0);
    IntFrom(pre, [i], post);
  }

  // ----- Pixels at 16 bits, the high byte first

  lemma WideGreyPixels(pre: seq<byte>, g1: byte, g0: byte, a1: byte, a0: byte, post: seq<byte>, palette: seq<Pixel>)
    ensures var g := 256 * g1 + g0;
            && PixelAt(pre + ([g1, g0] + post), |pre| + 1, 2, 0, palette) == (Some(Pixel(g, g, g, 255)), |pre| + 3)
            && PixelAt(pre + ([g1, g0] + ([a1, a0] + post)), |pre| + 1, 2, 4, palette)
                 == (Some(Pixel(g, g, g, 256 * a1 + a0)), |pre| + 5)
  {
    hide BytesToNum, IntAt;
    BytesAre(g1, g0, 0, 0);
    BytesAre(a1, a0, 0, 0);
    IntFrom(pre, [g1, g0], post);
    IntFrom(pre, [g1, g0], [a1, a0] + post);
    IntFrom(pre + [g1, g0], [a1, a0], post);
    Regroup(pre, [g1, g0], [a1, a0] + post);
  }

  lemma WideColourPixels(pre: seq<byte>, r1: byte, r0: byte, g1: byte, g0: byte, b1: byte, b0: byte, a1: byte, a0: byte,
                         post: seq<byte>, palette: seq<Pixel>)
    ensures PixelAt(pre + ([r1, r0] + ([g1, g0] + ([b1, b0] + post))), |pre| + 1, 2, 2, palette)
         == (Some(Pixel(256 * r1 + r0, 256 * g1 + g0, 256 * b1 + b0, 255)), |pre| + 7)
    ensures PixelAt(pre + ([r1, r0] + ([g1, g0] + ([b1, b0] + ([a1, a0] + post)))), |pre| + 1, 2, 6, palette)
         == (Some(Pixel(256 * r1 + r0, 256 * g1 + g0, 256 * b1 + b0, 256 * a1 + a0)), |pre| + 9)
  {
    hide BytesToNum, IntAt, PixelAt;
    Samples(pre, [r1, r0], [g1, g0], [b1, b0], [a1, a0], post, palette);
    BytesAre(r1, r0, 0, 0);
    BytesAre(g1, g0, 0, 0);
    BytesAre(b1, b0, 0, 0);
    BytesAre(a1, a0, 0, 0);
  }

  lemma WidePalettePixel(pre: seq<byte>, i1: byte, i0: byte, post: seq<byte>, palette: seq<Pixel>)
    ensures var i := 256 * i1 + i0;
            PixelAt(pre + ([i1, i0] + post), |pre| + 1, 2, 3, palette)
              == (if i < |palette| then Some(Pixel(palette[i].R, palette[i].G, palette[i].B, 255)) else None, |pre| + 3)
  {
    hide BytesToNum, IntAt;
    BytesAre(i1, i0, 0, 0);
    IntFrom(pre, [i1, i0], post);
  }

  /** Three and four samples of one size, one after the other. */
  lemma Samples(pre: seq<byte>, r: seq<byte>, g: seq<byte>, b: seq<byte>, a: seq<byte>, post: seq<byte>, palette: seq<Pixel>)
    requires |r| == |g| == |b| == |a|
    ensures PixelAt(pre + (r + (g + (b + post))), |pre| + 1, |r|, 2, palette)
         == (Some(Pixel(BytesToNum(r), BytesToNum(g), BytesToNum(b), 255)), |pre| + 3 * |r| + 1)
    ensures PixelAt(pre + (r + (g + (b + (a + post)))), |pre| + 1, |r|, 6, palette)
         == (Some(Pixel(BytesToNum(r), BytesToNum(g), BytesToNum(b), BytesToNum(a))), |pre| + 4 * |r| + 1)
  {
    hide BytesToNum, IntAt;
    ThreeInts(pre, r, g, b, post);
    ThreeInts(pre, r, g, b, a + post);
    FourthInt(pre, r, g, b, a, post);
  }

  lemma ThreeInts(pre: seq<byte>, r: seq<byte>, g: seq<byte>, b: seq<byte>, post: seq<byte>)
    requires |r| == |g| == |b|
    ensures var data, n := pre + (r + (g + (b + post))), |r|;
            && IntAt(data, |pre| + 1, n) == (BytesToNum(r), |pre| + n + 1)
            && IntAt(data, |pre| + n + 1, n) == (BytesToNum(g), |pre| + 2 * n + 1)
            && IntAt(data, |pre| + 2 * n + 1, n) == (BytesToNum(b), |pre| + 3 * n + 1)
  {
    hide BytesToNum, IntAt;
    IntFrom(pre, r, g + (b + post));
    Regroup(pre, r, g + (b + post));
    IntFrom(pre + r, g, b + post);
    Regroup(pre + r, g, b + post);
    IntFrom(pre + r + g, b, post);
  }

  lemma FourthInt(pre: seq<byte>, r: seq<byte>, g: seq<byte>, b: seq<byte>, a: seq<byte>, post: seq<byte>)
    requires |r| == |g| == |b| == |a|
    ensures IntAt(pre + (r + (g + (b + (a + post)))), |pre| + 3 * |r| + 1, |r|) == (BytesToNum(a), |pre| + 4 * |r| + 1)
  {
    hide BytesToNum, IntAt;
    Regroup(pre, r, g + (b + (a + post)));
    Regroup(pre + r, g, b + (a + post));
    Regroup(pre + r + g, b, a + post);
    IntFrom(pre + r + g + b, a, post);
  }

  // ----- Rows of 8 bits

  /** The pixels of a row are those read at its places; without a palette there is one at each. */
  lemma {:induction false} RowPixelIs(raw: seq<byte>, n: nat, i: nat, bps: nat, colorType: nat, palette: seq<Pixel>)
    requires BitFromColorType(colorType).Some? && n * (bps * BitFromColorType(colorType).value) <= |raw|
    ensures match RowPixels(raw, n, bps, colorType, palette)
            case None => colorType == 3
            case Some(row) =>
              var k := i * (bps * BitFromColorType(colorType).value);
              |row| == n && (i < n ==> 0 <= k && PixelAt(raw, k + 1, bps, colorType, palette).0 == Some(row[i]))
  {
    hide PixelOf, PixelAt, BitFromColorType;
    if n != 0 {
      var bpp := bps * BitFromColorType(colorType).value;
      PixelPlace(n, bpp);
      RowPixelIs(raw, n - 1, i, bps, colorType, palette);
      WholePixel(raw, (n - 1) * bpp + 1, bps, colorType, palette);
      OnlyPalettes(raw[(n - 1) * bpp..n * bpp], bps, colorType, palette);
    }
  }

  lemma OnlyPalettes(b: seq<byte>, bps: nat, colorType: nat, palette: seq<Pixel>)
    requires BitFromColorType(colorType).Some? && |b| == bps * BitFromColorType(colorType).value
    ensures PixelOf(b, bps, colorType, palette) == None ==> colorType == 3
  {
    hide BytesToNum;
  }

  /** Pixel i of a row of n pixels, from the bytes of the row. */
  lemma EightBitRow(raw: seq<byte>, n: nat, i: nat, colorType: nat, palette: seq<Pixel>)
    requires colorType in {0, 2, 3, 4, 6} && i < n
    requires n * (if colorType == 2 then 3 else if colorType == 4 then 2 else if colorType == 6 then 4 else 1) <= |raw|
    ensures match RowPixels(raw, n, 1, colorType, palette)
            case None => colorType == 3
            case Some(row) =>
              && |row| == n
              && (colorType == 0 ==> row[i] == Pixel(raw[i], raw[i], raw[i], 255))
              && (colorType == 2 ==> row[i] == Pixel(raw[3 * i], raw[3 * i + 1], raw[3 * i + 2], 255))
              && (colorType == 3 ==> raw[i] < |palette| && row[i] == palette[raw[i]].(A := 255))
              && (colorType == 4 ==> row[i] == Pixel(raw[2 * i], raw[2 * i], raw[2 * i], raw[2 * i + 1]))
              && (colorType == 6 ==> row[i] == Pixel(raw[4 * i], raw[4 * i + 1], raw[4 * i + 2], raw[4 * i + 3]))
  {
    hide RowPixels, PixelAt;
    RowPixelIs(raw, n, i, 1, colorType, palette);
    if colorType == 0 || colorType == 3 {
      OneBytePixel(raw, i, palette);
    } else if colorType == 2 {
      ThreeBytePixel(raw, 3 * i, palette);
    } else if colorType == 4 {
      TwoBytePixel(raw, 2 * i, palette);
    } else {
      FourBytePixel(raw, 4 * i, palette);
    }
  }

  lemma OneBytePixel(raw: seq<byte>, k: nat, palette: seq<Pixel>)
    requires k < |raw|
    ensures PixelAt(raw, k + 1, 1, 0, palette).0 == Some(Pixel(raw[k], raw[k], raw[k], 255))
    ensures PixelAt(raw, k + 1, 1, 3, palette).0 == if raw[k] < |palette| then Some(palette[raw[k]].(A := 255)) else None
  {
    hide PixelAt;
    GreyPixels(raw[..k], raw[k], 0, raw[k + 1..], palette);
    PalettePixel(raw[..k], raw[k], raw[k + 1..], palette);
    assert raw == raw[..k] + ([raw[k]] + raw[k + 1..]);
  }

  lemma TwoBytePixel(raw: seq<byte>, k: nat, palette: seq<Pixel>)
    requires k + 1 < |raw|
    ensures PixelAt(raw, k + 1, 1, 4, palette).0 == Some(Pixel(raw[k], raw[k], raw[k], raw[k + 1]))
  {
    hide PixelAt;
    GreyPixels(raw[..k], raw[k], raw[k + 1], raw[k + 2..], palette);
    assert raw == raw[..k] + ([raw[k]] + ([raw[k + 1]] + raw[k + 2..]));
  }

  lemma ThreeBytePixel(raw: seq<byte>, k: nat, palette: seq<Pixel>)
    requires k + 2 < |raw|
    ensures PixelAt(raw, k + 1, 1, 2, palette).0 == Some(Pixel(raw[k], raw[k + 1], raw[k + 2], 255))
  {
    hide PixelAt;
    ColourPixels(raw[..k], raw[k], raw[k + 1], raw[k + 2], 0, raw[k + 3..], palette);
    assert raw == raw[..k] + ([raw[k]] + ([raw[k + 1]] + ([raw[k + 2]] + raw[k + 3..])));
  }

  lemma FourBytePixel(raw: seq<byte>, k: nat, palette: seq<Pixel>)
    requires k + 3 < |raw|
    ensures PixelAt(raw, k + 1, 1, 6, palette).0 == Some(Pixel(raw[k], raw[k + 1], raw[k + 2], raw[k + 3]))
  {
    hide PixelAt;
    ColourPixels(raw[..k], raw[k], raw[k + 1], raw[k + 2], raw[k + 3], raw[k + 4..], palette);
    assert raw == raw[..k] + ([raw[k]] + ([raw[k + 1]] + ([raw[k + 2]] + ([raw[k + 3]] + raw[k + 4..]))));
  }
}
