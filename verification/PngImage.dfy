/** png.lua, the row loop of pngImage:__init, and the whole way from compressed image data to
    the original rows. */
module PngImage {
  import opened Bits
  import opened PngFilter
  import opened Png
  import opened Encoder
  import Zlib

  /** The pixels of an unfiltered image; None where the program raises an error. */
  function ImagePixels(d: seq<byte>, bpl: nat, height: nat, length: nat, bps: nat, colorType: nat, palette: seq<Pixel>)
    : Option<seq<seq<Pixel>>>
    requires BitFromColorType(colorType).Some? && length * (bps * BitFromColorType(colorType).value) == bpl
    requires ImageOk(d, bpl, height)
    decreases height
  {
    if height == 0 then Some([]) else
      match RowPixels(d[1..bpl + 1], length, bps, colorType, palette)
      case None => None
      case Some(row) =>
        match ImagePixels(d[bpl + 1..], bpl, height - 1, length, bps, colorType, palette)
        case None => None
        case Some(rows) => Some([row] + rows)
  }

  lemma {:induction false} UnfilteredOk(s: seq<byte>, prior: seq<byte>, bpp: nat, height: nat)
    requires bpp >= 1 && ImageOk(s, |prior|, height)
    ensures ImageOk(UnfilterImage(s, prior, bpp, height), |prior|, height)
    decreases height
  {
    DecodingIsIdempotent(s, prior, bpp, height);
  }

  /** What is left of the image loop: the rows not yet decoded, in front of them the decoded ones. */
  ghost predicate RowsLeft(data: seq<byte>, done: nat, bpl: nat, bpp: nat, height: nat, whole: seq<byte>)
  {
    && bpp >= 1 && done <= |data| && ImageOk(data[done..], bpl, height)
    && data[..done] + UnfilterImage(data[done..], PriorRow(data, done, bpl), bpp, height) == whole
  }

  /** One decoded row moves the boundary down by a line. */
  lemma RowDone(data: seq<byte>, done: nat, bpl: nat, bpp: nat, height: nat, whole: seq<byte>, next: seq<byte>)
    requires height >= 1 && RowsLeft(data, done, bpl, bpp, height, whole)
    requires done + 1 + bpl <= |data| && data[done] <= 4
    requires next == RowImage(data, done, UnfilterRow(data[done], data[done + 1..done + 1 + bpl], PriorRow(data, done, bpl), bpp))
    ensures RowsLeft(next, done + bpl + 1, bpl, bpp, height - 1, whole)
    ensures UnfilterImage(data[done..], PriorRow(data, done, bpl), bpp, height)
         == [0] + next[done + 1..done + 1 + bpl] + UnfilterImage(next[done + bpl + 1..], PriorRow(next, done + bpl + 1, bpl), bpp, height - 1)
  {
    hide UnfilterRow, ImageOk, UnfilterImage, RowImage, PriorRow;
    var prior, row, filt := PriorRow(data, done, bpl), data[done..], data[done + 1..done + 1 + bpl];
    FirstRowOf(row, bpl, height);
    var raw := UnfilterRow(data[done], filt, prior, bpp);
    var tail := data[done + bpl + 1..];
    RowParts(data, done, bpl);
    ImageStep(data[done], filt, tail, prior, bpp, height);
    NextLine(data, done, raw);
    Regroup(data[..done], [0] + raw, UnfilterImage(tail, raw, bpp, height - 1));
  }

  lemma RowParts(data: seq<byte>, done: nat, bpl: nat)
    requires done + 1 + bpl <= |data|
    ensures data[done..] == [data[done]] + data[done + 1..done + 1 + bpl] + data[done + bpl + 1..]
    ensures data[done..][bpl + 1..] == data[done + bpl + 1..]
  {
  }

  lemma NextLine(data: seq<byte>, done: nat, raw: seq<byte>)
    requires done + 1 + |raw| <= |data|
    ensures var next, n := RowImage(data, done, raw), done + |raw| + 1;
            && next[n..] == data[n..] && next[..n] == data[..done] + ([0] + raw)
            && next[done + 1..n] == raw && PriorRow(next, n, |raw|) == raw
  {
    var next, n := RowImage(data, done, raw), done + |raw| + 1;
    assert next[..n] == data[..done] + ([0] + raw);
    assert next[done + 1..n] == raw;
    forall k | 0 <= k < |raw| ensures PriorRow(next, n, |raw|)[k] == raw[k] {
      assert next[done + 1..n][k] == next[done + 1 + k];
    }
  }

  lemma FirstRowOf(row: seq<byte>, bpl: nat, height: nat)
    requires height >= 1 && ImageOk(row, bpl, height)
    ensures |row| > bpl && row[0] <= 4 && ImageOk(row[bpl + 1..], bpl, height - 1)
  {
  }

  /** What the row loop makes of the buffer from position p on: the rows, the buffer and the cursor. */
  function ImageOutcome(d: seq<byte>, p: int, height: nat, depth: nat, colorType: nat, palette: seq<Pixel>, width: nat)
    : (r: Option<(seq<seq<Pixel>>, seq<byte>, int)>)
    requires p >= 1
    ensures r.Some? ==> r.value.2 >= 1
    decreases height
  {
    if height == 0 then Some(([], d, p)) else
      match RowOutcome(d, p, depth, colorType, palette, width)
      case None => None
      case Some((row, d', p')) =>
        match ImageOutcome(d', p', height - 1, depth, colorType, palette, width)
        case None => None
        case Some((rows, d'', p'')) => Some(([row] + rows, d'', p''))
  }

  /** The image loop, on any buffer. */
  method DecodeImage(s: Stream, depth: nat, colorType: nat, palette: seq<Pixel>, width: nat, height: nat)
    returns (rows: Option<seq<seq<Pixel>>>)
    requires s.position >= 1
    modifies s
    ensures match ImageOutcome(old(s.data), old(s.position), height, depth, colorType, palette, width)
            case None => rows == None
            case Some((r, d, p)) => rows == Some(r) && s.data == d && s.position == p
  {
    hide RowOutcome;
    var result: seq<seq<Pixel>> := [];
    ghost var total := ImageOutcome(s.data, s.position, height, depth, colorType, palette, width);
    if total.Some? { assert [] + total.value.0 == total.value.0; }
    for i := 0 to height
      invariant s.position >= 1
      invariant match ImageOutcome(s.data, s.position, height - i, depth, colorType, palette, width)
                case None => total == None
                case Some((r, d, p)) => total == Some((result + r, d, p))
    {
      OneMoreRow(s.data, s.position, height - i, depth, colorType, palette, width, result);
      var row := ScanLine(s, depth, colorType, palette, width);
      if row.None? {
        return None;
      }
      result := result + [row.value];
    }
    assert result + [] == result;
    rows := Some(result);
  }

  lemma OneMoreRow(d: seq<byte>, p: int, left: nat, depth: nat, colorType: nat, palette: seq<Pixel>, width: nat, result: seq<seq<Pixel>>)
    requires p >= 1 && left >= 1
    ensures match RowOutcome(d, p, depth, colorType, palette, width)
            case None => ImageOutcome(d, p, left, depth, colorType, palette, width) == None
            case Some((row, d', p')) =>
              match ImageOutcome(d', p', left - 1, depth, colorType, palette, width)
              case None => ImageOutcome(d, p, left, depth, colorType, palette, width) == None
              case Some((rows, d'', p'')) =>
                ImageOutcome(d, p, left, depth, colorType, palette, width) == Some(([row] + rows, d'', p''))
                && result + ([row] + rows) == result + [row] + rows
  {
    hide RowOutcome;
  }

  /** A buffer of complete rows of known filter types: the whole buffer is unfiltered in place, the
      rows are the pixels of the original image, and the cursor is behind the last row. */
  lemma ImageDecoded(data: seq<byte>, depth: nat, colorType: nat, palette: seq<Pixel>, width: nat, height: nat, bpp: nat)
    requires BitFromColorType(colorType).Some? && bpp == depth / 8 * BitFromColorType(colorType).value
    requires bpp >= 1 && 0 <= width * bpp && ImageOk(data, width * bpp, height)
    ensures var bpl := width * bpp;
            var d := UnfilterImage(data, Repeat<byte>(0, bpl), bpp, height);
            && ImageOk(d, bpl, height)
            && match ImageOutcome(data, 1, height, depth, colorType, palette, width)
               case None => ImagePixels(d, bpl, height, width, depth / 8, colorType, palette) == None
               case Some((rows, d', p)) =>
                 ImagePixels(d, bpl, height, width, depth / 8, colorType, palette) == Some(rows)
                 && d' == d && p == 1 + height * (bpl + 1)
  {
    hide ImageOk, UnfilterImage, BitFromColorType, PixelsLeft, ImagePixels, ImageOutcome;
    var bpl: nat := width * bpp;
    var whole := UnfilterImage(data, Repeat<byte>(0, bpl), bpp, height);
    FirstLine(data, bpl, bpp, height, width, depth / 8, colorType, palette);
    RowsDecoded(data, 0, bpl, bpp, height, width, depth, colorType, palette, [], whole, height);
    var o := ImageOutcome(data, 1, height, depth, colorType, palette, width);
    if o.Some? { assert [] + o.value.0 == o.value.0; }
  }

  lemma {:induction false} RowsDecoded(data: seq<byte>, done: nat, bpl: nat, bpp: nat, left: nat, width: nat, depth: nat,
                                       colorType: nat, palette: seq<Pixel>, result: seq<seq<Pixel>>, whole: seq<byte>, height: nat)
    requires BitFromColorType(colorType).Some? && bpp == depth / 8 * BitFromColorType(colorType).value
    requires bpp >= 1 && width * bpp == bpl && ImageOk(whole, bpl, height)
    requires PixelsLeft(data, done, bpl, bpp, left, width, depth / 8, colorType, palette, result, whole, height)
    ensures match ImageOutcome(data, done + 1, left, depth, colorType, palette, width)
            case None => ImagePixels(whole, bpl, height, width, depth / 8, colorType, palette) == None
            case Some((rows, d, p)) =>
              ImagePixels(whole, bpl, height, width, depth / 8, colorType, palette) == Some(result + rows)
              && d == whole && p == done + 1 + left * (bpl + 1)
    decreases left
  {
    hide RowImage, UnfilterRow, ImageOk, RowPixels, BitFromColorType, PixelsLeft, ImagePixels, PriorRow, RowOutcome;
    if left == 0 {
      NoRowsLeft(data, done, bpl, bpp, width, depth / 8, colorType, palette, result, whole, height);
      assert result + [] == result;
    } else {
      PixelPlace(left, bpl + 1);
      RowReady(data, done, bpl, bpp, left, width, depth / 8, colorType, palette, result, whole, height);
      WholeRow(data, done + 1, depth, colorType, palette, width, bpp);
      var raw := UnfilterRow(data[done], data[done + 1..done + 1 + bpl], PriorRow(data, done, bpl), bpp);
      var next := RowImage(data, done, raw);
      RowStep(data, next, done, bpl, bpp, left, width, depth / 8, colorType, palette, result, whole, height);
      OneMoreRow(data, done + 1, left, depth, colorType, palette, width, result);
      var row := RowPixels(raw, width, depth / 8, colorType, palette);
      if row.Some? {
        RowsDecoded(next, done + bpl + 1, bpl, bpp, left - 1, width, depth, colorType, palette, result + [row.value], whole, height);
      }
    }
  }

  /** Decoding the decoded buffer again gives the same rows and changes nothing. */
  lemma DecodedAgain(data: seq<byte>, depth: nat, colorType: nat, palette: seq<Pixel>, width: nat, height: nat, bpp: nat)
    requires BitFromColorType(colorType).Some? && bpp == depth / 8 * BitFromColorType(colorType).value
    requires bpp >= 1 && 0 <= width * bpp && ImageOk(data, width * bpp, height)
    ensures var d := UnfilterImage(data, Repeat<byte>(0, width * bpp), bpp, height);
            ImageOutcome(d, 1, height, depth, colorType, palette, width)
              == ImageOutcome(data, 1, height, depth, colorType, palette, width)
  {
    hide ImageOk, UnfilterImage, BitFromColorType, ImagePixels, ImageOutcome;
    var zeros := Repeat<byte>(0, width * bpp);
    DecodingIsIdempotent(data, zeros, bpp, height);
    ImageDecoded(data, depth, colorType, palette, width, height, bpp);
    ImageDecoded(UnfilterImage(data, zeros, bpp, height), depth, colorType, palette, width, height, bpp);
  }

  // ----- Buffers that end too early

  /** Rows that are missing at the end come out as rows of zero samples, and each leaves a 0 at the end
      of the buffer. */
  lemma {:induction false} MissingRows(d: seq<byte>, p: int, n: nat, depth: nat, colorType: nat, palette: seq<Pixel>, width: nat)
    requires BitFromColorType(colorType).Some? && p > |d| && n >= 1
    ensures ImageOutcome(d, p, n, depth, colorType, palette, width)
         == match ZeroRow(width, colorType, palette)
            case None => None
            case Some(row) =>
              Some((Repeat(row, n), d + Repeat<byte>(0, n), p + n * (1 + width * MissedSteps(depth / 8, colorType))))
    decreases n
  {
    hide RowOutcome, ZeroRow, MissedSteps, BitFromColorType;
    var z, step := ZeroRow(width, colorType, palette), 1 + width * MissedSteps(depth / 8, colorType);
    MissingRow(d, p, depth, colorType, palette, width);
    RepeatOneMore<byte>(0, n);
    if z.Some? {
      RepeatOneMore(z.value, n);
      assert d + [0] + Repeat<byte>(0, n - 1) == d + Repeat<byte>(0, n);
      PixelPlace(n, step);
      if n == 1 {
        assert Repeat(z.value, 0) == [] && d + [0] == d + Repeat<byte>(0, 1);
      } else {
        MissingRows(d + [0], p + step, n - 1, depth, colorType, palette, width);
      }
    }
  }

  /** The loop over k + n rows is the loop over k rows and then the one over n. */
  lemma {:induction false} ImageSplit(d: seq<byte>, p: int, k: nat, n: nat, depth: nat, colorType: nat, palette: seq<Pixel>, width: nat)
    requires p >= 1
    ensures ImageOutcome(d, p, k + n, depth, colorType, palette, width)
         == match ImageOutcome(d, p, k, depth, colorType, palette, width)
            case None => None
            case Some((rows, d', p')) =>
              match ImageOutcome(d', p', n, depth, colorType, palette, width)
              case None => None
              case Some((more, d'', p'')) => Some((rows + more, d'', p''))
    decreases k
  {
    hide RowOutcome;
    if k == 0 {
      var o := ImageOutcome(d, p, n, depth, colorType, palette, width);
      assert o.Some? ==> [] + o.value.0 == o.value.0;
    } else {
      match RowOutcome(d, p, depth, colorType, palette, width)
      case None =>
      case Some((row, d', p')) =>
        ImageSplit(d', p', k - 1, n, depth, colorType, palette, width);
        match ImageOutcome(d', p', k - 1, depth, colorType, palette, width)
        case None =>
        case Some((rows, d'', p'')) =>
          match ImageOutcome(d'', p'', n, depth, colorType, palette, width)
          case None =>
          case Some((more, _, _)) => Regroup([row], rows, more);
    }
  }

  /** Image data that ends after k complete rows, n rows too early: the rows that are there are decoded as
      in the whole image, and the others are rows of zero samples. */
  lemma CutImage(data: seq<byte>, depth: nat, colorType: nat, palette: seq<Pixel>, width: nat, k: nat, n: nat, bpp: nat)
    requires BitFromColorType(colorType).Some? && bpp == depth / 8 * BitFromColorType(colorType).value
    requires bpp >= 1 && 0 <= width * bpp && ImageOk(data, width * bpp, k) && |data| == k * (width * bpp + 1) && n >= 1
    ensures var bpl := width * bpp;
            var d := UnfilterImage(data, Repeat<byte>(0, bpl), bpp, k);
            && ImageOk(d, bpl, k)
            && match ImageOutcome(data, 1, k + n, depth, colorType, palette, width)
               case None =>
                 ImagePixels(d, bpl, k, width, depth / 8, colorType, palette) == None || ZeroRow(width, colorType, palette) == None
               case Some((rows, d', _)) =>
                 var (there, missing) := (ImagePixels(d, bpl, k, width, depth / 8, colorType, palette), ZeroRow(width, colorType, palette));
                 && there.Some? && missing.Some?
                 && rows == there.value + Repeat(missing.value, n) && d' == d + Repeat<byte>(0, n)
  {
    hide ImageOk, UnfilterImage, BitFromColorType, ImagePixels, ImageOutcome, ZeroRow;
    ImageDecoded(data, depth, colorType, palette, width, k, bpp);
    ImageSplit(data, 1, k, n, depth, colorType, palette, width);
    match ImageOutcome(data, 1, k, depth, colorType, palette, width)
    case None =>
    case Some((_, d, p)) => MissingRows(d, p, n, depth, colorType, palette, width);
  }

  /** The pixels read so far and those of the rows left are the pixels of the whole image. */
  ghost predicate PixelsLeft(data: seq<byte>, done: nat, bpl: nat, bpp: nat, left: nat, length: nat, bps: nat,
                             colorType: nat, palette: seq<Pixel>, result: seq<seq<Pixel>>, whole: seq<byte>, height: nat)
  {
    && BitFromColorType(colorType).Some? && bpp == bps * BitFromColorType(colorType).value && length * bpp == bpl
    && RowsLeft(data, done, bpl, bpp, left, whole) && ImageOk(whole, bpl, height)
    && var d := UnfilterImage(data[done..], PriorRow(data, done, bpl), bpp, left);
       && ImageOk(d, bpl, left)
       && ImagePixels(whole, bpl, height, length, bps, colorType, palette)
            == match ImagePixels(d, bpl, left, length, bps, colorType, palette)
               case None => None
               case Some(rows) => Some(result + rows)
  }

  lemma FirstLine(data: seq<byte>, bpl: nat, bpp: nat, height: nat, length: nat, bps: nat, colorType: nat, palette: seq<Pixel>)
    requires BitFromColorType(colorType).Some? && bpp == bps * BitFromColorType(colorType).value && length * bpp == bpl
    requires bpp >= 1 && ImageOk(data, bpl, height)
    ensures ImageOk(UnfilterImage(data, Repeat<byte>(0, bpl), bpp, height), bpl, height)
    ensures PixelsLeft(data, 0, bpl, bpp, height, length, bps, colorType, palette, [],
                       UnfilterImage(data, Repeat<byte>(0, bpl), bpp, height), height)
  {
    hide ImageOk, UnfilterImage, ImagePixels, BitFromColorType;
    var whole := UnfilterImage(data, Repeat<byte>(0, bpl), bpp, height);
    UnfilteredOk(data, Repeat<byte>(0, bpl), bpp, height);
    assert data[0..] == data && data[..0] == [] && PriorRow(data, 0, bpl) == Repeat<byte>(0, bpl);
    assert [] + whole == whole;
    match ImagePixels(whole, bpl, height, length, bps, colorType, palette)
    case None =>
    case Some(rows) => assert [] + rows == rows;
  }

  lemma RowReady(data: seq<byte>, done: nat, bpl: nat, bpp: nat, left: nat, length: nat, bps: nat,
                 colorType: nat, palette: seq<Pixel>, result: seq<seq<Pixel>>, whole: seq<byte>, height: nat)
    requires left >= 1 && PixelsLeft(data, done, bpl, bpp, left, length, bps, colorType, palette, result, whole, height)
    ensures done + 1 + bpl <= |data| && data[done] <= 4 && bpp >= 1
  {
    hide UnfilterImage, ImagePixels, BitFromColorType, ImageOk;
    FirstRowOf(data[done..], bpl, left);
  }

  /** One decoded row: its pixels are added, or the image fails with it. */
  lemma RowStep(data: seq<byte>, next: seq<byte>, done: nat, bpl: nat, bpp: nat, left: nat, length: nat, bps: nat,
                colorType: nat, palette: seq<Pixel>, result: seq<seq<Pixel>>, whole: seq<byte>, height: nat)
    requires left >= 1 && PixelsLeft(data, done, bpl, bpp, left, length, bps, colorType, palette, result, whole, height)
    requires done + 1 + bpl <= |data| && data[done] <= 4 && bpp >= 1
    requires next == RowImage(data, done, UnfilterRow(data[done], data[done + 1..done + 1 + bpl], PriorRow(data, done, bpl), bpp))
    ensures BitFromColorType(colorType).Some? && length * (bps * BitFromColorType(colorType).value) == bpl
    ensures ImageOk(whole, bpl, height)
    ensures var raw := UnfilterRow(data[done], data[done + 1..done + 1 + bpl], PriorRow(data, done, bpl), bpp);
            var row := RowPixels(raw, length, bps, colorType, palette);
            if row == None then ImagePixels(whole, bpl, height, length, bps, colorType, palette) == None
            else PixelsLeft(next, done + bpl + 1, bpl, bpp, left - 1, length, bps, colorType, palette, result + [row.value], whole, height)
  {
    hide RowPixels, UnfilterImage, ImageOk, PriorRow, BitFromColorType, UnfilterRow, ImagePixels, RowsLeft;
    RowDone(data, done, bpl, bpp, left, whole, next);
    RowBytesRestored(data, done, UnfilterRow(data[done], data[done + 1..done + 1 + bpl], PriorRow(data, done, bpl), bpp));
    RowPixelsLeft(data, next, done, bpl, bpp, left, length, bps, colorType, palette, result, whole, height);
  }

  lemma RowBytesRestored(data: seq<byte>, done: nat, raw: seq<byte>)
    requires done + 1 + |raw| <= |data|
    ensures RowImage(data, done, raw)[done + 1..done + 1 + |raw|] == raw
  {
  }

  lemma RowPixelsLeft(data: seq<byte>, next: seq<byte>, done: nat, bpl: nat, bpp: nat, left: nat, length: nat, bps: nat,
                      colorType: nat, palette: seq<Pixel>, result: seq<seq<Pixel>>, whole: seq<byte>, height: nat)
    requires left >= 1 && PixelsLeft(data, done, bpl, bpp, left, length, bps, colorType, palette, result, whole, height)
    requires |next| == |data| && RowsLeft(next, done + bpl + 1, bpl, bpp, left - 1, whole)
    requires UnfilterImage(data[done..], PriorRow(data, done, bpl), bpp, left)
          == [0] + next[done + 1..done + 1 + bpl] + UnfilterImage(next[done + bpl + 1..], PriorRow(next, done + bpl + 1, bpl), bpp, left - 1)
    ensures var row := RowPixels(next[done + 1..done + 1 + bpl], length, bps, colorType, palette);
            if row == None then ImagePixels(whole, bpl, height, length, bps, colorType, palette) == None
            else PixelsLeft(next, done + bpl + 1, bpl, bpp, left - 1, length, bps, colorType, palette, result + [row.value], whole, height)
  {
    hide RowPixels, UnfilterImage, ImageOk, PriorRow, BitFromColorType;
    var raw := next[done + 1..done + 1 + bpl];
    var d1 := UnfilterImage(next[done + bpl + 1..], PriorRow(next, done + bpl + 1, bpl), bpp, left - 1);
    UnfilteredOk(next[done + bpl + 1..], PriorRow(next, done + bpl + 1, bpl), bpp, left - 1);
    var d := [0] + raw + d1;
    assert d[1..bpl + 1] == raw && d[bpl + 1..] == d1;
    var row := RowPixels(raw, length, bps, colorType, palette);
    if row.Some? {
      match ImagePixels(d1, bpl, left - 1, length, bps, colorType, palette)
      case None =>
      case Some(rows) => assert result + ([row.value] + rows) == result + [row.value] + rows;
    }
  }

  lemma NoRowsLeft(data: seq<byte>, done: nat, bpl: nat, bpp: nat, length: nat, bps: nat,
                   colorType: nat, palette: seq<Pixel>, result: seq<seq<Pixel>>, whole: seq<byte>, height: nat)
    requires PixelsLeft(data, done, bpl, bpp, 0, length, bps, colorType, palette, result, whole, height)
    ensures data == whole && ImagePixels(whole, bpl, height, length, bps, colorType, palette) == Some(result)
  {
    assert data == data[..done] + data[done..];
    assert result + [] == result;
  }

  /** From compressed data to pixels: the row loop on the inflated bytes gives the pixels of the
      original rows and leaves their bytes in the buffer. */
  lemma PngToPixels(rows: seq<Row>, width: nat, depth: nat, colorType: nat, palette: seq<Pixel>, bpp: nat, cmf: byte, flg: byte,
                    blocks: seq<Block>, pad: seq<bool>, a3: byte, a2: byte, a1: byte, a0: byte, extra: seq<byte>)
    requires BitFromColorType(colorType).Some? && bpp == depth / 8 * BitFromColorType(colorType).value
    requires bpp >= 1 && 0 <= width * bpp && RowsOk(rows, width * bpp)
    requires Zlib.HeaderBytesOk(cmf, flg) && BlocksOk(blocks, []) && |pad| == 7
    requires BlocksOutput(blocks, []) == FilterImage(rows, Repeat<byte>(0, width * bpp), bpp)
    ensures var stream := Zlib.ZlibStream(cmf, flg, blocks, pad, [a3, a2, a1, a0], extra);
            var s, plain := FilterImage(rows, Repeat<byte>(0, width * bpp), bpp), PlainImage(rows);
            && Zlib.RunZlib(BytesToBits(stream), false) == Zlib.ZlibOk(s, extra != [])
            && ImageOk(plain, width * bpp, |rows|)
            && match ImageOutcome(s, 1, |rows|, depth, colorType, palette, width)
               case None => ImagePixels(plain, width * bpp, |rows|, width, depth / 8, colorType, palette) == None
               case Some((pixels, d, _)) =>
                 ImagePixels(plain, width * bpp, |rows|, width, depth / 8, colorType, palette) == Some(pixels) && d == plain
  {
    hide Zlib.ZlibStream, Zlib.RunZlib, Zlib.HeaderBytesOk, BlocksOk, BlocksOutput, FilterImage, UnfilterImage, ImageOk,
         BytesToBits, PlainImage, ImageOutcome, ImagePixels, BitFromColorType;
    PngEndToEnd(rows, width * bpp, bpp, cmf, flg, blocks, pad, a3, a2, a1, a0, extra);
    ImageDecoded(FilterImage(rows, Repeat<byte>(0, width * bpp), bpp), depth, colorType, palette, width, |rows|, bpp);
  }

  /** From compressed data to rows: whatever filters, tokens and code lengths an encoder chose,
      inflating its stream and unfiltering the result in place leaves the original rows. */
  lemma PngEndToEnd(rows: seq<Row>, bpl: nat, bpp: nat, cmf: byte, flg: byte, blocks: seq<Block>, pad: seq<bool>,
                    a3: byte, a2: byte, a1: byte, a0: byte, extra: seq<byte>)
    requires bpp >= 1 && RowsOk(rows, bpl)
    requires Zlib.HeaderBytesOk(cmf, flg) && BlocksOk(blocks, []) && |pad| == 7
    requires BlocksOutput(blocks, []) == FilterImage(rows, Repeat<byte>(0, bpl), bpp)
    ensures var stream := Zlib.ZlibStream(cmf, flg, blocks, pad, [a3, a2, a1, a0], extra);
            var s := FilterImage(rows, Repeat<byte>(0, bpl), bpp);
            && Zlib.RunZlib(BytesToBits(stream), false) == Zlib.ZlibOk(s, extra != [])
            && ImageOk(s, bpl, |rows|)
            && UnfilterImage(s, Repeat<byte>(0, bpl), bpp, |rows|) == PlainImage(rows)
  {
    hide Zlib.ZlibStream, Zlib.RunZlib, Zlib.HeaderBytesOk, BlocksOk, BlocksOutput, FilterImage, UnfilterImage, ImageOk,
         BytesToBits, PlainImage;
    Zlib.ZlibRoundTrip(cmf, flg, blocks, pad, a3, a2, a1, a0, extra, false);
    ImageRoundTrip(rows, Repeat<byte>(0, bpl), bpp, []);
    var s := FilterImage(rows, Repeat<byte>(0, bpl), bpp);
    assert s + [] == s && PlainImage(rows) + [] == PlainImage(rows);
  }
}
