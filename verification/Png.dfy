/** stream.lua and png.lua: a cursor over one mutable byte buffer, and the scan lines that undo
    the PNG filters in place, walking the cursor back to the neighbours of each byte. */
module Png {
  import opened Bits
  import opened PngFilter

  // ----- stream.lua

  /** What a read at a (1-based) position gives: nil before the first and after the last byte. */
  function ByteAt(data: seq<byte>, position: int): Option<byte> {
    if 1 <= position <= |data| then Some(data[position - 1]) else None
  }

  function OrZero(b: Option<byte>): byte {
    match b
    case None => 0
    case Some(v) => v
  }

  class Stream {
    var data: seq<byte>
    var position: int

    constructor (input: seq<byte>)
      ensures data == input && position == 1
    {
      data, position := input, 1;
    }

    method Seek(amount: int)
      modifies this`position
      ensures position == old(position) + amount
    {
      position := position + amount;
    }

    method ReadByte() returns (b: Option<byte>)
      modifies this`position
      ensures b == ByteAt(data, old(position)) && position == old(position) + 1
    {
      if position <= 0 {
        Seek(1);
        return None;
      }
      b := ByteAt(data, position);
      Seek(1);
    }

    method WriteByte(b: byte)
      modifies this
      ensures position == old(position) + 1
      ensures data == if old(position) <= 0 then old(data)
                      else if old(position) <= |old(data)| then old(data)[old(position) - 1 := b]
                      else old(data) + [b]
    {
      if position <= 0 {
        Seek(1);
        return;
      }
      var before := if position - 1 <= |data| then data[..position - 1] else data;
      var after := if position <= |data| then data[position..] else [];
      data := before + [b] + after;
      Seek(1);
    }

    /** readInt: up to num bytes, most significant first; four or more bytes are taken as signed. */
    method ReadInt(num: nat) returns (n: Option<int>)
      modifies this`position
      ensures old(position) <= 0 ==> n == None && position == old(position) + 1
      ensures old(position) >= 1 ==> n.Some? && (n.value, position) == IntAt(data, old(position), num)
    {
      if position <= 0 {
        Seek(1);
        return None;
      }
      var bytes: seq<byte> := [];
      ghost var p := position;
      var i := 1;
      while i <= num
        invariant 1 <= i <= num + 1 && position == p + i - 1
        invariant i > 1 ==> position - 1 <= |data|
        invariant bytes == if i > 1 then data[p - 1..position - 1] else []
        decreases num - i
      {
        var b := ReadByte();
        if b.None? {
          MissingByte(data, p, i, num);
          break;
        }
        bytes := bytes + [b.value];
        i := i + 1;
      }
      n := Some(BytesToNum(bytes));
    }
  }

  lemma MissingByte(data: seq<byte>, p: int, i: int, num: nat)
    requires p >= 1 && 1 <= i <= num && p + i - 1 > |data| && (i > 1 ==> p + i - 2 <= |data|)
    ensures IntAt(data, p, num) == (BytesToNum(if i > 1 then data[p - 1..p + i - 2] else []), p + i)
  {
    assert BytesToNum([]) == 0;
    if i > 1 { assert data[p - 1..p + i - 2] == data[p - 1..]; }
  }

  /** The number read from num bytes at a position, or from as many as there are, and where the cursor
      is then: one step beyond the end if a byte was missing. */
  function IntAt(data: seq<byte>, p: int, num: nat): (r: (int, int))
    requires p >= 1
    ensures r.1 >= 1
  {
    if num == 0 then (0, p)
    else if p - 1 + num <= |data| then (BytesToNum(data[p - 1..p - 1 + num]), p + num)
    else if p - 1 <= |data| then (BytesToNum(data[p - 1..]), |data| + 2)
    else (0, p + 1)
  }

  function BigEndian(bytes: seq<byte>): nat {
    if bytes == [] then 0 else BigEndian(bytes[..|bytes| - 1]) * 256 + bytes[|bytes| - 1]
  }

  function BytesToNum(bytes: seq<byte>): int {
    var n := BigEndian(bytes);
    if n > 2147483647 then n - 4294967296 else n
  }

  // ----- A row in the buffer

  /** The buffer when the row at offset start (its filter byte) has its first bytes restored. */
  function RowImage(d0: seq<byte>, start: nat, done: seq<byte>): (d: seq<byte>)
    requires start + 1 + |done| <= |d0|
    ensures |d| == |d0|
  {
    d0[..start] + [0] + done + d0[start + 1 + |done|..]
  }

  /** The row above: the bytes one line back, zero before the start of the buffer. */
  function PriorRow(d0: seq<byte>, start: nat, bpl: nat): (prior: seq<byte>)
    requires start <= |d0|
    ensures |prior| == bpl
  {
    seq(bpl, k requires 0 <= k < bpl => if start + k - bpl >= 0 then d0[start + k - bpl] else 0)
  }

  lemma RowBytes(d0: seq<byte>, start: nat, done: seq<byte>, i: int)
    requires start + 1 + |done| <= |d0|
    ensures 0 <= i < start ==> RowImage(d0, start, done)[i] == d0[i]
    ensures start < i <= start + |done| ==> RowImage(d0, start, done)[i] == done[i - start - 1]
    ensures start + |done| < i < |d0| ==> RowImage(d0, start, done)[i] == d0[i]
  {
  }

  lemma NextByte(d0: seq<byte>, start: nat, done: seq<byte>, b: byte)
    requires start + 1 + |done| < |d0|
    ensures RowImage(d0, start, done)[start + 1 + |done| := b] == RowImage(d0, start, done + [b])
  {
    var d := RowImage(d0, start, done);
    assert d0[start + 1 + |done|..] == [d0[start + 1 + |done|]] + d0[start + 1 + |done + [b]|..];
  }

  /** What the neighbour reads find while byte k of the row is being restored. */
  lemma Neighbours(d0: seq<byte>, start: nat, done: seq<byte>, bpl: nat, bpp: nat)
    requires start + 1 + |done| < |d0| && |done| < bpl && bpp >= 1
    ensures var d, k, prior := RowImage(d0, start, done), |done|, PriorRow(d0, start, bpl);
            && ByteAt(d, start + 2 + k) == Some(d0[start + 1 + k])
            && (k >= bpp ==> OrZero(ByteAt(d, start + 2 + k - bpp)) == At(done, k - bpp))
            && OrZero(ByteAt(d, start + 1 + k - bpl)) == prior[k]
            && (k >= bpp ==> OrZero(ByteAt(d, start + 1 + k - bpl - bpp)) == At(prior, k - bpp))
  {
    var k := |done|;
    RowBytes(d0, start, done, start + 1 + k);
    RowBytes(d0, start, done, start + 1 + k - bpp);
    RowBytes(d0, start, done, start + k - bpl);
    RowBytes(d0, start, done, start + k - bpl - bpp);
    hide RowImage;
  }

  // ----- One byte of a scan line, by filter type

  /** Step back, read, and take 0 when the byte does not exist or lies before limit. */
  method ReadFrom(s: Stream, back: int, limit: int) returns (b: byte)
    modifies s`position
    ensures s.position == old(s.position) + back + 1
    ensures b == if old(s.position) + back >= limit then OrZero(ByteAt(s.data, old(s.position) + back)) else 0
  {
    s.Seek(back);
    b := 0;
    if s.position >= limit {
      var r := s.ReadByte();
      b := OrZero(r);
    } else {
      var r := s.ReadByte();
    }
  }

  method ReadOrZero(s: Stream, back: int) returns (b: byte)
    modifies s`position
    ensures s.position == old(s.position) + back + 1
    ensures b == OrZero(ByteAt(s.data, old(s.position) + back))
  {
    s.Seek(back);
    var r := s.ReadByte();
    b := OrZero(r);
  }

  ghost predicate AtByte(s: Stream, d0: seq<byte>, start: nat, done: seq<byte>, bpl: nat)
    reads s
  {
    && start + 1 + |done| <= |d0| && |done| <= bpl
    && s.data == RowImage(d0, start, done)
    && s.position == start + 2 + |done|
  }

  /** The body of the inner loops: read the byte, walk to its neighbours and back, overwrite it. The
      program raises an error where the byte is missing. */
  method RestoreOne(s: Stream, f: nat, startLoc: int, bpp: nat, bpl: nat,
                    ghost d0: seq<byte>, ghost start: nat, ghost done: seq<byte>) returns (ok: bool)
    requires 1 <= f <= 4 && bpp >= 1 && |done| < bpl
    requires AtByte(s, d0, start, done, bpl) && startLoc == start + 2
    modifies s
    ensures ok <==> start + 1 + |done| < |d0|
    ensures ok ==> AtByte(s, d0, start,
                          done + [RestoreByte(f, d0[start + 1 + |done|], done, PriorRow(d0, start, bpl), bpp)], bpl)
  {
    hide RowImage, PriorRow, Paeth, ByteAt, OrZero, At, RestoreByte;
    ByteIsThere(s.data, s.position);
    var r := s.ReadByte();
    if r.None? {
      return false;
    }
    Neighbours(d0, start, done, bpl, bpp);
    LeftEdge(done, PriorRow(d0, start, bpl), |done| - bpp);
    var curByte := r.value;
    var value: byte;
    if f == 1 {
      var lastByte := ReadFrom(s, -(bpp + 1), startLoc);
      s.Seek(bpp - 1);
      value := (curByte + lastByte) % 256;
    } else if f == 2 {
      var lastByte := ReadOrZero(s, -(bpl + 2));
      s.Seek(bpl);
      value := (curByte + lastByte) % 256;
    } else if f == 3 {
      var lastByte := ReadFrom(s, -(bpp + 1), startLoc);
      var priByte := ReadOrZero(s, bpp - bpl - 2);
      s.Seek(bpl);
      value := (curByte + (lastByte + priByte) / 2) % 256;
    } else {
      var lastByte := ReadFrom(s, -(bpp + 1), startLoc);
      var priByte := ReadOrZero(s, -(bpl + 2 - bpp));
      var lastPriByte := ReadFrom(s, -(bpp + 1), startLoc - (bpl + 1));
      s.Seek(bpl + bpp);
      value := (curByte + Paeth(lastByte, priByte, lastPriByte)) % 256;
    }
    RestoredByte(f, d0[start + 1 + |done|], done, PriorRow(d0, start, bpl), bpp);
    NextByte(d0, start, done, value);
    s.WriteByte(value);
    ok := true;
  }

  lemma ByteIsThere(data: seq<byte>, p: int)
    ensures ByteAt(data, p).Some? <==> 1 <= p <= |data|
  {
  }

  lemma RestoredByte(f: nat, b: byte, done: seq<byte>, prior: seq<byte>, bpp: nat)
    requires 1 <= f <= 4 && bpp >= 1 && |done| < |prior|
    ensures var left, up, upLeft := At(done, |done| - bpp), prior[|done|], At(prior, |done| - bpp);
            RestoreByte(f, b, done, prior, bpp)
              == if f == 1 then (b + left) % 256
                 else if f == 2 then (b + up) % 256
                 else if f == 3 then (b + (left + up) / 2) % 256
                 else (b + Paeth(left, up, upLeft)) % 256
  {
    hide At, Paeth;
  }

  lemma LeftEdge(done: seq<byte>, prior: seq<byte>, k: int)
    requires k < |done| < |prior|
    ensures k < 0 ==> At(done, k) == 0 && At(prior, k) == 0
  {
  }

  // ----- Pixels

  datatype Pixel = Pixel(R: int, G: int, B: int, A: int)

  function BitFromColorType(colorType: nat): Option<nat> {
    if colorType == 0 then Some(1)
    else if colorType == 2 then Some(3)
    else if colorType == 3 then Some(1)
    else if colorType == 4 then Some(2)
    else if colorType == 6 then Some(4)
    else None
  }

  /** A pixel from its samples of bps bytes each; None where the palette has no such entry. */
  function PixelOf(b: seq<byte>, bps: nat, colorType: nat, palette: seq<Pixel>): Option<Pixel>
    requires BitFromColorType(colorType).Some? && |b| == bps * BitFromColorType(colorType).value
  {
    if colorType == 0 then
      var grey := BytesToNum(b);
      Some(Pixel(grey, grey, grey, 255))
    else if colorType == 2 then
      Some(Pixel(BytesToNum(b[..bps]), BytesToNum(b[bps..2 * bps]), BytesToNum(b[2 * bps..]), 255))
    else if colorType == 3 then
      var index := BytesToNum(b);
      if 0 <= index < |palette| then Some(palette[index].(A := 255)) else None
    else if colorType == 4 then
      var grey := BytesToNum(b[..bps]);
      Some(Pixel(grey, grey, grey, BytesToNum(b[bps..])))
    else
      Some(Pixel(BytesToNum(b[..bps]), BytesToNum(b[bps..2 * bps]), BytesToNum(b[2 * bps..3 * bps]), BytesToNum(b[3 * bps..])))
  }

  /** A sample of a pixel, seen in the whole buffer. */
  lemma SampleSlice(data: seq<byte>, at: nat, n: nat, i: nat, j: nat)
    requires i <= j <= n && at + n <= |data|
    ensures data[at..at + n][i..j] == data[at + i..at + j]
    ensures j == n ==> data[at..at + n][i..] == data[at + i..at + j]
  {
    var a, b := data[at..at + n][i..j], data[at + i..at + j];
    assert |a| == |b| && forall k :: 0 <= k < |a| ==> a[k] == b[k];
  }

  lemma RgbPixel(data: seq<byte>, at: nat, bps: nat, palette: seq<Pixel>)
    requires at + 3 * bps <= |data|
    ensures PixelOf(data[at..at + 3 * bps], bps, 2, palette)
         == Some(Pixel(BytesToNum(data[at..at + bps]), BytesToNum(data[at + bps..at + 2 * bps]),
                       BytesToNum(data[at + 2 * bps..at + 3 * bps]), 255))
  {
    hide BytesToNum;
    SampleSlice(data, at, 3 * bps, 0, bps);
    SampleSlice(data, at, 3 * bps, bps, 2 * bps);
    SampleSlice(data, at, 3 * bps, 2 * bps, 3 * bps);
  }

  lemma GreyAlphaPixel(data: seq<byte>, at: nat, bps: nat, palette: seq<Pixel>)
    requires at + 2 * bps <= |data|
    ensures var grey := BytesToNum(data[at..at + bps]);
            PixelOf(data[at..at + 2 * bps], bps, 4, palette)
              == Some(Pixel(grey, grey, grey, BytesToNum(data[at + bps..at + 2 * bps])))
  {
    hide BytesToNum;
    SampleSlice(data, at, 2 * bps, 0, bps);
    SampleSlice(data, at, 2 * bps, bps, 2 * bps);
  }

  lemma RgbAlphaPixel(data: seq<byte>, at: nat, bps: nat, palette: seq<Pixel>)
    requires at + 4 * bps <= |data|
    ensures PixelOf(data[at..at + 4 * bps], bps, 6, palette)
         == Some(Pixel(BytesToNum(data[at..at + bps]), BytesToNum(data[at + bps..at + 2 * bps]),
                       BytesToNum(data[at + 2 * bps..at + 3 * bps]), BytesToNum(data[at + 3 * bps..at + 4 * bps])))
  {
    hide BytesToNum;
    SampleSlice(data, at, 4 * bps, 0, bps);
    SampleSlice(data, at, 4 * bps, bps, 2 * bps);
    SampleSlice(data, at, 4 * bps, 2 * bps, 3 * bps);
    SampleSlice(data, at, 4 * bps, 3 * bps, 4 * bps);
  }

  lemma OneSamplePixel(data: seq<byte>, at: nat, bps: nat, palette: seq<Pixel>)
    requires at + bps <= |data|
    ensures var v := BytesToNum(data[at..at + bps]);
            && PixelOf(data[at..at + bps], bps, 0, palette) == Some(Pixel(v, v, v, 255))
            && PixelOf(data[at..at + bps], bps, 3, palette) == if 0 <= v < |palette| then Some(palette[v].(A := 255)) else None
  {
    hide BytesToNum;
  }

  /** The pixel read at a position, its samples one after the other, and where the cursor is then. The
      samples of other colour types are not read. */
  function PixelAt(data: seq<byte>, p: int, bps: nat, colorType: nat, palette: seq<Pixel>): (r: (Option<Pixel>, int))
    requires p >= 1
    ensures r.1 >= 1
  {
    var (a, p1) := IntAt(data, p, bps);
    if colorType == 0 then (Some(Pixel(a, a, a, 255)), p1)
    else if colorType == 3 then (if 0 <= a < |palette| then Some(palette[a].(A := 255)) else None, p1)
    else
      var (b, p2) := IntAt(data, p1, bps);
      if colorType == 4 then (Some(Pixel(a, a, a, b)), p2)
      else
        var (c, p3) := IntAt(data, p2, bps);
        if colorType == 2 then (Some(Pixel(a, b, c, 255)), p3)
        else if colorType == 6 then var (d, p4) := IntAt(data, p3, bps); (Some(Pixel(a, b, c, d)), p4)
        else (Some(Pixel(0, 0, 0, 0)), p)
  }

  lemma WholeInt(data: seq<byte>, p: int, num: nat)
    requires p >= 1 && p - 1 + num <= |data|
    ensures IntAt(data, p, num) == (BytesToNum(data[p - 1..p - 1 + num]), p + num)
  {
    assert num == 0 ==> data[p - 1..p - 1 + num] == [];
  }

  /** A pixel that lies wholly in the buffer is made of its bytes. */
  lemma WholePixel(data: seq<byte>, p: int, bps: nat, colorType: nat, palette: seq<Pixel>)
    requires BitFromColorType(colorType).Some? && p >= 1
    requires p - 1 + bps * BitFromColorType(colorType).value <= |data|
    ensures var n := bps * BitFromColorType(colorType).value;
            && PixelAt(data, p, bps, colorType, palette).0 == PixelOf(data[p - 1..p - 1 + n], bps, colorType, palette)
            && PixelAt(data, p, bps, colorType, palette).1 == p + n
  {
    hide BytesToNum, PixelOf, IntAt;
    var at: nat := p - 1;
    WholeInt(data, p, bps);
    if colorType == 0 || colorType == 3 {
      OneSamplePixel(data, at, bps, palette);
    } else {
      WholeInt(data, p + bps, bps);
      if colorType == 4 {
        GreyAlphaPixel(data, at, bps, palette);
      } else {
        WholeInt(data, p + 2 * bps, bps);
        if colorType == 2 {
          RgbPixel(data, at, bps, palette);
        } else {
          WholeInt(data, p + 3 * bps, bps);
          RgbAlphaPixel(data, at, bps, palette);
        }
      }
    }
  }

  /** Pixel:__init. None where the palette has no such entry. */
  method ReadPixel(s: Stream, depth: nat, colorType: nat, palette: seq<Pixel>) returns (p: Option<Pixel>)
    requires s.position >= 1
    modifies s`position
    ensures (p, s.position) == PixelAt(s.data, old(s.position), depth / 8, colorType, palette)
  {
    hide IntAt;
    var bps := depth / 8;
    if colorType == 0 {
      var grey := s.ReadInt(bps);
      p := Some(Pixel(grey.value, grey.value, grey.value, 255));
    } else if colorType == 2 {
      var r := s.ReadInt(bps);
      var g := s.ReadInt(bps);
      var b := s.ReadInt(bps);
      p := Some(Pixel(r.value, g.value, b.value, 255));
    } else if colorType == 3 {
      var index := s.ReadInt(bps);
      // the palette table counts from 1
      if 1 <= index.value + 1 <= |palette| {
        var color := palette[index.value];
        p := Some(Pixel(color.R, color.G, color.B, 255));
      } else {
        p := None;
      }
    } else if colorType == 4 {
      var grey := s.ReadInt(bps);
      var a := s.ReadInt(bps);
      p := Some(Pixel(grey.value, grey.value, grey.value, a.value));
    } else if colorType == 6 {
      var r := s.ReadInt(bps);
      var g := s.ReadInt(bps);
      var b := s.ReadInt(bps);
      var a := s.ReadInt(bps);
      p := Some(Pixel(r.value, g.value, b.value, a.value));
    } else {
      p := Some(Pixel(0, 0, 0, 0));
    }
  }

  /** n pixels read one after the other. */
  function PixelsAt(data: seq<byte>, p: int, n: nat, bps: nat, colorType: nat, palette: seq<Pixel>)
    : (r: Option<(seq<Pixel>, int)>)
    requires p >= 1
    ensures r.Some? ==> r.value.1 >= 1
  {
    if n == 0 then Some(([], p)) else
      match PixelsAt(data, p, n - 1, bps, colorType, palette)
      case None => None
      case Some((before, q)) =>
        match PixelAt(data, q, bps, colorType, palette)
        case (None, _) => None
        case (Some(v), q') => Some((before + [v], q'))
  }

  /** The first n pixels of a row of raw bytes; None if one of them is not in the palette. */
  function RowPixels(raw: seq<byte>, n: nat, bps: nat, colorType: nat, palette: seq<Pixel>): Option<seq<Pixel>>
    requires BitFromColorType(colorType).Some? && n * (bps * BitFromColorType(colorType).value) <= |raw|
  {
    if n == 0 then Some([]) else
      var bpp := bps * BitFromColorType(colorType).value;
      PixelPlace(n, bpp);
      match RowPixels(raw, n - 1, bps, colorType, palette)
      case None => None
      case Some(before) =>
        match PixelOf(raw[(n - 1) * bpp..n * bpp], bps, colorType, palette)
        case None => None
        case Some(p) => Some(before + [p])
  }

  lemma PixelPlace(n: nat, bpp: nat)
    requires n >= 1
    ensures 0 <= (n - 1) * bpp && n * bpp == (n - 1) * bpp + bpp
  {
  }

  lemma {:induction false} RowPixelsPrefix(raw: seq<byte>, whole: seq<byte>, n: nat, bps: nat, colorType: nat, palette: seq<Pixel>)
    requires BitFromColorType(colorType).Some? && n * (bps * BitFromColorType(colorType).value) <= |raw|
    requires |raw| <= |whole| && whole[..|raw|] == raw
    ensures n * (bps * BitFromColorType(colorType).value) <= |whole|
    ensures RowPixels(raw, n, bps, colorType, palette) == RowPixels(whole, n, bps, colorType, palette)
  {
    if n != 0 {
      var bpp := bps * BitFromColorType(colorType).value;
      PixelPlace(n, bpp);
      RowPixelsPrefix(raw, whole, n - 1, bps, colorType, palette);
      hide PixelOf, BitFromColorType;
      assert whole[..|raw|][(n - 1) * bpp..n * bpp] == whole[(n - 1) * bpp..n * bpp];
    }
  }

  /** A pixel that is not in the palette spoils the row. */
  lemma {:induction false} RowPixelsFail(raw: seq<byte>, i: nat, n: nat, bps: nat, colorType: nat, palette: seq<Pixel>)
    requires BitFromColorType(colorType).Some? && n * (bps * BitFromColorType(colorType).value) <= |raw|
    requires i <= n && i * (bps * BitFromColorType(colorType).value) <= |raw|
    requires RowPixels(raw, i, bps, colorType, palette) == None
    ensures RowPixels(raw, n, bps, colorType, palette) == None
  {
    if i < n {
      PixelPlace(n, bps * BitFromColorType(colorType).value);
      hide PixelOf, BitFromColorType;
      RowPixelsFail(raw, i, n - 1, bps, colorType, palette);
    }
  }

  lemma PixelFits(i: nat, length: nat, bpp: nat)
    requires 1 <= i <= length
    ensures i * bpp == (i - 1) * bpp + bpp && i * bpp <= length * bpp
  {
    if i < length {
      PixelFits(i, length - 1, bpp);
      assert length * bpp == (length - 1) * bpp + bpp;
    } else {
      assert i * bpp == (i - 1) * bpp + bpp;
    }
  }

  // ----- Scan lines

  /** The filtered bytes of a row, zeros where the buffer ends too early. */
  function RowOf(d0: seq<byte>, start: nat, bpl: nat): (filt: seq<byte>)
    ensures |filt| == bpl
    ensures start + 1 + bpl <= |d0| ==> filt == d0[start + 1..start + 1 + bpl]
  {
    seq(bpl, k requires 0 <= k < bpl => if start + 1 + k < |d0| then d0[start + 1 + k] else 0)
  }

  /** All the bytes of one pixel, the cursor coming back to its first byte. */
  method RestorePixel(s: Stream, f: nat, startLoc: int, bpp: nat, bpl: nat, ghost d0: seq<byte>, ghost start: nat, ghost k: nat)
    returns (ok: bool)
    requires 1 <= f <= 4 && bpp >= 1 && k + bpp <= bpl && startLoc == start + 2 && start <= |d0|
    requires AtByte(s, d0, start, Unfilter(f, RowOf(d0, start, bpl), PriorRow(d0, start, bpl), bpp, k), bpl)
    modifies s
    ensures ok <==> start + 1 + k + bpp <= |d0|
    ensures ok ==> s.data == RowImage(d0, start, Unfilter(f, RowOf(d0, start, bpl), PriorRow(d0, start, bpl), bpp, k + bpp))
    ensures ok ==> s.position == start + 2 + k
  {
    hide RowImage, PriorRow, RestoreByte;
    ghost var filt, prior := RowOf(d0, start, bpl), PriorRow(d0, start, bpl);
    for j := 0 to bpp
      invariant AtByte(s, d0, start, Unfilter(f, filt, prior, bpp, k + j), bpl)
    {
      ok := RestoreOne(s, f, startLoc, bpp, bpl, d0, start, Unfilter(f, filt, prior, bpp, k + j));
      if !ok {
        return;
      }
    }
    s.Seek(0 - bpp);
    ok := true;
  }

  lemma PixelBytes(d0: seq<byte>, start: nat, done: seq<byte>, k: nat)
    requires k <= |done| && start + 1 + |done| <= |d0|
    ensures RowImage(d0, start, done)[start + 1 + k..start + 1 + |done|] == done[k..]
  {
  }

  /** What becomes of a row that starts at position p: its pixels, the buffer and the cursor; None where
      the program raises an error. That is so for an invalid colour type, at a pixel that is not in the
      palette, and at a missing byte of a row that is to be unfiltered. A row whose filter byte is missing
      gets one, 0, at the end of the buffer, and is read as a row of type 0. */
  function RowOutcome(d: seq<byte>, p: int, depth: nat, colorType: nat, palette: seq<Pixel>, length: nat)
    : (r: Option<(seq<Pixel>, seq<byte>, int)>)
    requires p >= 1
    ensures r.Some? ==> r.value.2 >= 1
  {
    match BitFromColorType(colorType)
    case None => None
    case Some(channels) =>
      var start, bpp := p - 1, depth / 8 * channels;
      var bpl := length * bpp;
      if p > |d| then
        match PixelsAt(d + [0], p + 1, length, depth / 8, colorType, palette)
        case None => None
        case Some((pixels, q)) => Some((pixels, d + [0], q))
      else if d[start] > 4 then Some(([], d[start := 0], p + 1))
      else if d[start] == 0 || bpp == 0 then
        match PixelsAt(d[start := 0], p + 1, length, depth / 8, colorType, palette)
        case None => None
        case Some((pixels, q)) => Some((pixels, d[start := 0], q))
      else if p + bpl > |d| then None
      else
        var raw := UnfilterRow(d[start], RowOf(d, start, bpl), PriorRow(d, start, bpl), bpp);
        match RowPixels(raw, length, depth / 8, colorType, palette)
        case None => None
        case Some(pixels) => Some((pixels, RowImage(d, start, raw), p + 1 + bpl))
  }

  /** ScanLine:__init. */
  method ScanLine(s: Stream, depth: nat, colorType: nat, palette: seq<Pixel>, length: nat)
    returns (pixels: Option<seq<Pixel>>)
    requires s.position >= 1
    modifies s
    ensures match RowOutcome(old(s.data), old(s.position), depth, colorType, palette, length)
            case None => pixels == None
            case Some((row, d, p)) => pixels == Some(row) && s.data == d && s.position == p
  {
    hide RowImage, PriorRow, PixelsAt, Unfilter, RowPixels, BitFromColorType;
    if BitFromColorType(colorType).None? {
      return None;
    }
    var bpp := depth / 8 * BitFromColorType(colorType).value;
    var bpl := length * bpp;
    ghost var d0, start := s.data, s.position - 1;
    var filterType := s.ReadByte();
    s.Seek(-1);
    s.WriteByte(0);
    // a missing filter type is the default of the class, 0
    if filterType.None? || filterType == Some(0) {
      pixels := ScanPlain(s, depth, colorType, palette, length);
    } else if filterType.Some? && filterType.value <= 4 {
      pixels := ScanFiltered(s, filterType.value, depth, colorType, palette, length, bpp, bpl, d0, start);
    } else {
      pixels := Some([]);
    }
  }

  /** The loop over the pixels of a row of filter type 0. */
  method ScanPlain(s: Stream, depth: nat, colorType: nat, palette: seq<Pixel>, length: nat) returns (pixels: Option<seq<Pixel>>)
    requires s.position >= 1
    modifies s`position
    ensures match PixelsAt(s.data, old(s.position), length, depth / 8, colorType, palette)
            case None => pixels == None
            case Some((row, p)) => pixels == Some(row) && s.position == p
  {
    hide PixelAt;
    ghost var p := s.position;
    var result: seq<Pixel> := [];
    for i := 0 to length
      invariant PixelsAt(s.data, p, i, depth / 8, colorType, palette) == Some((result, s.position))
    {
      var v := ReadPixel(s, depth, colorType, palette);
      if v.None? {
        PixelsFail(s.data, p, i + 1, length, depth / 8, colorType, palette);
        return None;
      }
      result := result + [v.value];
    }
    pixels := Some(result);
  }

  lemma {:induction false} PixelsFail(data: seq<byte>, p: int, i: nat, n: nat, bps: nat, colorType: nat, palette: seq<Pixel>)
    requires p >= 1 && i <= n && PixelsAt(data, p, i, bps, colorType, palette) == None
    ensures PixelsAt(data, p, n, bps, colorType, palette) == None
  {
    hide PixelAt;
    if i < n { PixelsFail(data, p, i, n - 1, bps, colorType, palette); }
  }

  /** The loops over the pixels of a row of filter types 1 to 4. */
  method ScanFiltered(s: Stream, filterType: nat, depth: nat, colorType: nat, palette: seq<Pixel>, length: nat,
                      bpp: nat, bpl: nat, ghost d0: seq<byte>, ghost start: nat)
    returns (pixels: Option<seq<Pixel>>)
    requires BitFromColorType(colorType).Some? && 1 <= filterType <= 4
    requires bpp == depth / 8 * BitFromColorType(colorType).value && bpl == length * bpp
    requires start < |d0| && s.data == d0[start := 0] && s.position == start + 2
    modifies s
    ensures bpp == 0 ==>
              match PixelsAt(d0[start := 0], start + 2, length, depth / 8, colorType, palette)
              case None => pixels == None
              case Some((row, p)) => pixels == Some(row) && s.data == d0[start := 0] && s.position == p
    ensures bpp >= 1 && start + 1 + bpl > |d0| ==> pixels == None
    ensures bpp >= 1 && start + 1 + bpl <= |d0| ==>
              var raw := UnfilterRow(filterType, RowOf(d0, start, bpl), PriorRow(d0, start, bpl), bpp);
              && pixels == RowPixels(raw, length, depth / 8, colorType, palette)
              && (pixels.Some? ==> s.data == RowImage(d0, start, raw) && s.position == start + bpl + 2)
  {
    hide RowImage, PriorRow, RowOf, PixelAt, PixelsAt, PixelOf, Unfilter, RowPixels, BitFromColorType;
    if bpp == 0 {
      // the loop over the bytes of a pixel does nothing
      pixels := ScanPlain(s, depth, colorType, palette, length);
      return;
    }
    ghost var prior, filt := PriorRow(d0, start, bpl), RowOf(d0, start, bpl);
    StartOfRow(d0, start, filterType, filt, prior, bpp);
    var startLoc := s.position;
    var result: seq<Pixel> := [];
    NoPixels(Unfilter(filterType, filt, prior, bpp, 0), depth / 8, colorType, palette);
    ghost var k: nat := 0;
    var i := 1;
    while i <= length
      invariant 1 <= i <= length + 1 && k == (i - 1) * bpp <= bpl
      invariant AtByte(s, d0, start, Unfilter(filterType, filt, prior, bpp, k), bpl)
      invariant RowPixels(Unfilter(filterType, filt, prior, bpp, k), i - 1, depth / 8, colorType, palette) == Some(result)
    {
      PixelFits(i, length, bpp);
      var ok := RestorePixel(s, filterType, startLoc, bpp, bpl, d0, start, k);
      if !ok {
        return None;
      }
      PixelBytes(d0, start, Unfilter(filterType, filt, prior, bpp, k + bpp), k);
      WholePixel(s.data, s.position, depth / 8, colorType, palette);
      var p := ReadPixel(s, depth, colorType, palette);
      PixelAdded(filterType, filt, prior, bpp, i, depth / 8, colorType, palette, result, p);
      if p.None? {
        if start + 1 + bpl <= |d0| {
          RowPixelsFail(Unfilter(filterType, filt, prior, bpp, bpl), i, length, depth / 8, colorType, palette);
        }
        return None;
      }
      result := result + [p.value];
      k := k + bpp;
      i := i + 1;
    }
    pixels := Some(result);
  }

  lemma PlainBytes(d0: seq<byte>, start: nat, filt: seq<byte>, prior: seq<byte>, bpp: nat, k: nat, m: nat)
    requires bpp >= 1 && start + 1 + |filt| <= |d0| && filt == d0[start + 1..start + 1 + |filt|]
    requires |prior| == |filt| && k <= m <= |filt|
    ensures RowImage(d0, start, Unfilter(0, filt, prior, bpp, k)) == RowImage(d0, start, Unfilter(0, filt, prior, bpp, m))
  {
    hide Unfilter;
    UnfilterNone(filt, prior, bpp, k);
    UnfilterNone(filt, prior, bpp, m);
    forall i | 0 <= i < |d0| ensures RowImage(d0, start, filt[..k])[i] == RowImage(d0, start, filt[..m])[i] {
      RowBytes(d0, start, filt[..k], i);
      RowBytes(d0, start, filt[..m], i);
    }
  }

  lemma StartOfRow(d0: seq<byte>, start: nat, f: nat, filt: seq<byte>, prior: seq<byte>, bpp: nat)
    requires start < |d0| && f <= 4 && bpp >= 1 && |filt| == |prior|
    ensures d0[start := 0] == RowImage(d0, start, Unfilter(f, filt, prior, bpp, 0))
  {
  }

  lemma NoPixels(raw: seq<byte>, bps: nat, colorType: nat, palette: seq<Pixel>)
    requires BitFromColorType(colorType).Some?
    ensures RowPixels(raw, 0, bps, colorType, palette) == Some([])
  {
  }

  /** Pixel i, read from the buffer, is the next pixel of the row. */
  lemma PixelAdded(f: nat, filt: seq<byte>, prior: seq<byte>, bpp: nat, i: nat, bps: nat, colorType: nat,
                   palette: seq<Pixel>, before: seq<Pixel>, p: Option<Pixel>)
    requires f <= 4 && bpp >= 1 && |filt| == |prior| && i >= 1
    requires BitFromColorType(colorType).Some? && bpp == bps * BitFromColorType(colorType).value
    requires (i - 1) * bpp + bpp == i * bpp <= |filt| && 0 <= (i - 1) * bpp
    requires RowPixels(Unfilter(f, filt, prior, bpp, (i - 1) * bpp), i - 1, bps, colorType, palette) == Some(before)
    requires p == PixelOf(Unfilter(f, filt, prior, bpp, i * bpp)[(i - 1) * bpp..], bps, colorType, palette)
    ensures RowPixels(Unfilter(f, filt, prior, bpp, i * bpp), i, bps, colorType, palette)
         == match p case None => None case Some(v) => Some(before + [v])
    ensures p == None ==> RowPixels(Unfilter(f, filt, prior, bpp, |filt|), i, bps, colorType, palette) == None
  {
    hide PixelOf, Unfilter, BitFromColorType;
    var done, more, whole := Unfilter(f, filt, prior, bpp, (i - 1) * bpp), Unfilter(f, filt, prior, bpp, i * bpp), Unfilter(f, filt, prior, bpp, |filt|);
    UnfilterPrefix(f, filt, prior, bpp, (i - 1) * bpp, i * bpp);
    UnfilterPrefix(f, filt, prior, bpp, i * bpp, |filt|);
    RowPixelsPrefix(done, more, i - 1, bps, colorType, palette);
    RowPixelsPrefix(more, whole, i, bps, colorType, palette);
    assert more[(i - 1) * bpp..] == more[(i - 1) * bpp..i * bpp];
  }

  // ----- Rows behind the end of the buffer

  /** A pixel all of whose samples are 0; None where the palette is empty. */
  function ZeroPixel(colorType: nat, palette: seq<Pixel>): Option<Pixel>
    requires BitFromColorType(colorType).Some?
  {
    if colorType == 3 then (if palette == [] then None else Some(palette[0].(A := 255)))
    else Some(Pixel(0, 0, 0, if colorType == 0 || colorType == 2 then 255 else 0))
  }

  /** A row of n of them. */
  function ZeroRow(n: nat, colorType: nat, palette: seq<Pixel>): Option<seq<Pixel>>
    requires BitFromColorType(colorType).Some?
  {
    if n == 0 then Some([]) else
      match ZeroPixel(colorType, palette)
      case None => None
      case Some(v) => Some(Repeat(v, n))
  }

  /** How far the cursor moves over a missing pixel: one step for each sample that has bytes. */
  function MissedSteps(bps: nat, colorType: nat): nat
    requires BitFromColorType(colorType).Some?
  {
    if bps == 0 then 0 else BitFromColorType(colorType).value
  }

  lemma MissingPixel(data: seq<byte>, p: int, bps: nat, colorType: nat, palette: seq<Pixel>)
    requires BitFromColorType(colorType).Some? && p > |data|
    ensures PixelAt(data, p, bps, colorType, palette) == (ZeroPixel(colorType, palette), p + MissedSteps(bps, colorType))
  {
    hide BytesToNum;
    var step := if bps == 0 then 0 else 1;
    MissingInt(data, p, bps);
    MissingInt(data, p + step, bps);
    MissingInt(data, p + 2 * step, bps);
    MissingInt(data, p + 3 * step, bps);
    hide IntAt;
  }

  lemma MissingInt(data: seq<byte>, p: int, num: nat)
    requires p > |data|
    ensures IntAt(data, p, num) == (0, if num == 0 then p else p + 1)
  {
    assert data[|data|..] == [];
  }

  lemma {:induction false} MissingPixels(data: seq<byte>, p: int, n: nat, bps: nat, colorType: nat, palette: seq<Pixel>)
    requires BitFromColorType(colorType).Some? && p > |data|
    ensures PixelsAt(data, p, n, bps, colorType, palette)
         == match ZeroRow(n, colorType, palette)
            case None => None
            case Some(row) => Some((row, p + n * MissedSteps(bps, colorType)))
  {
    hide PixelAt, ZeroPixel, MissedSteps;
    if n != 0 {
      var z := ZeroPixel(colorType, palette);
      assert z.Some? ==> Repeat(z.value, n) == (if n == 1 then [] else Repeat(z.value, n - 1)) + [z.value];
      MissingPixels(data, p, n - 1, bps, colorType, palette);
      PixelPlace(n, MissedSteps(bps, colorType));
      MissingPixel(data, p + (n - 1) * MissedSteps(bps, colorType), bps, colorType, palette);
    }
  }

  /** A row that is missing altogether comes out as a row of zero samples, of full length. */
  lemma MissingRow(d: seq<byte>, p: int, depth: nat, colorType: nat, palette: seq<Pixel>, length: nat)
    requires BitFromColorType(colorType).Some? && p > |d|
    ensures RowOutcome(d, p, depth, colorType, palette, length)
         == match ZeroRow(length, colorType, palette)
            case None => None
            case Some(row) => Some((row, d + [0], p + 1 + length * MissedSteps(depth / 8, colorType)))
  {
    hide PixelsAt, ZeroRow, MissedSteps;
    MissingPixels(d + [0], p + 1, length, depth / 8, colorType, palette);
  }

  // ----- Whole rows

  /** The pixels read from bytes that are all in the buffer are the pixels of those bytes. */
  lemma {:induction false} WholePixels(data: seq<byte>, p: int, raw: seq<byte>, n: nat, bps: nat, colorType: nat, palette: seq<Pixel>)
    requires BitFromColorType(colorType).Some? && n * (bps * BitFromColorType(colorType).value) <= |raw|
    requires p >= 1 && p - 1 + |raw| <= |data| && data[p - 1..p - 1 + |raw|] == raw
    ensures PixelsAt(data, p, n, bps, colorType, palette)
         == match RowPixels(raw, n, bps, colorType, palette)
            case None => None
            case Some(pixels) => Some((pixels, p + n * (bps * BitFromColorType(colorType).value)))
  {
    hide PixelOf, PixelAt, BitFromColorType;
    if n != 0 {
      var bpp := bps * BitFromColorType(colorType).value;
      PixelPlace(n, bpp);
      WholePixels(data, p, raw, n - 1, bps, colorType, palette);
      var i := (n - 1) * bpp;
      WholePixel(data, p + i, bps, colorType, palette);
      SampleSlice(data, p - 1, |raw|, i, i + bpp);
    }
  }

  /** A row that lies wholly in the buffer: the pixels are those of the original row, nothing outside
      the row changes, the filter byte becomes 0, and the cursor moves to the next row. */
  lemma WholeRow(d: seq<byte>, p: int, depth: nat, colorType: nat, palette: seq<Pixel>, length: nat, bpp: nat)
    requires p >= 1 && BitFromColorType(colorType).Some? && bpp == depth / 8 * BitFromColorType(colorType).value
    requires bpp >= 1 && p + length * bpp <= |d| && 0 <= length * bpp && d[p - 1] <= 4
    ensures var start, bpl := p - 1, length * bpp;
            var raw := UnfilterRow(d[start], d[start + 1..start + 1 + bpl], PriorRow(d, start, bpl), bpp);
            RowOutcome(d, p, depth, colorType, palette, length)
              == match RowPixels(raw, length, depth / 8, colorType, palette)
                 case None => None
                 case Some(pixels) => Some((pixels, RowImage(d, start, raw), p + 1 + bpl))
  {
    hide PixelsAt, RowPixels, BitFromColorType, RowImage, PriorRow, Unfilter;
    if d[p - 1] == 0 {
      PlainRowOutcome(d, p, depth, colorType, palette, length, bpp);
    }
  }

  lemma PlainRowOutcome(d: seq<byte>, p: int, depth: nat, colorType: nat, palette: seq<Pixel>, length: nat, bpp: nat)
    requires p >= 1 && BitFromColorType(colorType).Some? && bpp == depth / 8 * BitFromColorType(colorType).value
    requires bpp >= 1 && p + length * bpp <= |d| && 0 <= length * bpp && d[p - 1] == 0
    ensures var start, bpl := p - 1, length * bpp;
            var filt := d[start + 1..start + 1 + bpl];
            var raw := UnfilterRow(0, filt, PriorRow(d, start, bpl), bpp);
            && RowImage(d, start, raw) == d[start := 0]
            && PixelsAt(d[start := 0], p + 1, length, depth / 8, colorType, palette)
                 == match RowPixels(raw, length, depth / 8, colorType, palette)
                    case None => None
                    case Some(pixels) => Some((pixels, p + 1 + bpl))
  {
    hide PixelsAt, RowPixels, BitFromColorType, RowImage, PriorRow, Unfilter;
    var start: nat, bpl := p - 1, length * bpp;
    var filt, prior := d[start + 1..start + 1 + bpl], PriorRow(d, start, bpl);
    StartOfRow(d, start, 0, filt, prior, bpp);
    PlainBytes(d, start, filt, prior, bpp, 0, bpl);
    UnfilterNone(filt, prior, bpp, bpl);
    assert filt[..bpl] == filt;
    assert d[start := 0][p..p + bpl] == filt;
    WholePixels(d[start := 0], p + 1, filt, length, depth / 8, colorType, palette);
  }
}
