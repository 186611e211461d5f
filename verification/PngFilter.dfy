/** The row filters of sections 6.2 to 6.6 of RFC 2083 (PNG), and their inverses. */
module PngFilter {
  import opened Bits

  /** png.lua, ScanLine:_PaethPredict */
  function Paeth(a: int, b: int, c: int): int {
    var p := a + b - c;
    var pa, pb, pc := Abs(p - a), Abs(p - b), Abs(p - c);
    if pa <= pb && pa <= pc then a else if pb <= pc then b else c
  }

  /** The Paeth predictor is the neighbour nearest to a + b - c, ties going to a, then to b. */
  lemma PaethIsNearest(a: int, b: int, c: int)
    ensures var p := a + b - c;
            var r := Paeth(a, b, c);
            && r in [a, b, c]
            && forall v :: v in [a, b, c] ==>
                 Abs(p - r) <= Abs(p - v)
                 && (Abs(p - r) == Abs(p - v) && r != v ==> r == a || (r == b && v != a))
  {
    var p := a + b - c;
    var r := Paeth(a, b, c);
    assert r == a || r == b || r == c;
  }

  /** What a filter of type f predicts from the left, upper and upper left neighbours. */
  function Predict(f: nat, a: byte, b: byte, c: byte): (r: byte)
    requires f <= 4
  {
    if f == 0 then 0
    else if f == 1 then a
    else if f == 2 then b
    else if f == 3 then (a + b) / 2
    else Paeth(a, b, c)
  }

  /** A row's byte at place k, zero to the left of the row. */
  function At(row: seq<byte>, k: int): byte
    requires k < |row|
  {
    if k < 0 then 0 else row[k]
  }

  /** Byte k of the filtered row: the raw byte minus the prediction from raw bytes. */
  function FilterByte(f: nat, raw: seq<byte>, prior: seq<byte>, bpp: nat, k: nat): byte
    requires f <= 4 && bpp >= 1 && k < |raw| == |prior|
  {
    (raw[k] - Predict(f, At(raw, k - bpp), prior[k], At(prior, k - bpp))) % 256
  }

  function FilterRow(f: nat, raw: seq<byte>, prior: seq<byte>, bpp: nat): (filt: seq<byte>)
    requires f <= 4 && bpp >= 1 && |raw| == |prior|
    ensures |filt| == |raw|
  {
    seq(|raw|, k requires 0 <= k < |raw| => FilterByte(f, raw, prior, bpp, k))
  }

  /** The first n bytes restored, each from bytes restored before it. */
  function Unfilter(f: nat, filt: seq<byte>, prior: seq<byte>, bpp: nat, n: nat): (raw: seq<byte>)
    requires f <= 4 && bpp >= 1 && n <= |filt| == |prior|
    ensures |raw| == n
  {
    if n == 0 then [] else
      var done := Unfilter(f, filt, prior, bpp, n - 1);
      done + [RestoreByte(f, filt[n - 1], done, prior, bpp)]
  }

  /** The byte after those already restored. */
  function RestoreByte(f: nat, b: byte, done: seq<byte>, prior: seq<byte>, bpp: nat): byte
    requires f <= 4 && bpp >= 1 && |done| < |prior|
  {
    var k := |done|;
    (b + Predict(f, At(done, k - bpp), prior[k], At(prior, k - bpp))) % 256
  }

  function UnfilterRow(f: nat, filt: seq<byte>, prior: seq<byte>, bpp: nat): (raw: seq<byte>)
    requires f <= 4 && bpp >= 1 && |filt| == |prior|
    ensures |raw| == |filt|
  {
    Unfilter(f, filt, prior, bpp, |filt|)
  }

  lemma {:induction false} UnfilterPrefix(f: nat, filt: seq<byte>, prior: seq<byte>, bpp: nat, n: nat, m: nat)
    requires f <= 4 && bpp >= 1 && n <= m <= |filt| == |prior|
    ensures Unfilter(f, filt, prior, bpp, m)[..n] == Unfilter(f, filt, prior, bpp, n)
    decreases m
  {
    if n < m {
      UnfilterPrefix(f, filt, prior, bpp, n, m - 1);
    }
  }

  lemma WrapBack(raw: byte, p: byte)
    ensures ((raw - p) % 256 + p) % 256 == raw
    ensures ((raw + p) % 256 - p) % 256 == raw
  {
  }

  /** Unfiltering undoes filtering. */
  lemma {:induction false} UnfilterUndoesFilter(f: nat, raw: seq<byte>, prior: seq<byte>, bpp: nat, n: nat)
    requires f <= 4 && bpp >= 1 && n <= |raw| == |prior|
    ensures Unfilter(f, FilterRow(f, raw, prior, bpp), prior, bpp, n) == raw[..n]
  {
    if n != 0 {
      hide Predict;
      UnfilterUndoesFilter(f, raw, prior, bpp, n - 1);
      var k := n - 1;
      assert At(raw[..k], k - bpp) == At(raw, k - bpp);
      WrapBack(raw[k], Predict(f, At(raw, k - bpp), prior[k], At(prior, k - bpp)));
      assert raw[..n] == raw[..k] + [raw[k]];
    }
  }

  /** Filtering undoes unfiltering: each filter type is a bijection on rows. */
  lemma FilterUndoesUnfilter(f: nat, filt: seq<byte>, prior: seq<byte>, bpp: nat)
    requires f <= 4 && bpp >= 1 && |filt| == |prior|
    ensures FilterRow(f, UnfilterRow(f, filt, prior, bpp), prior, bpp) == filt
  {
    hide FilterByte, UnfilterRow;
    var raw := UnfilterRow(f, filt, prior, bpp);
    forall k | 0 <= k < |filt| ensures FilterByte(f, raw, prior, bpp, k) == filt[k] {
      FilteredAgain(f, filt, prior, bpp, k);
    }
    assert FilterRow(f, raw, prior, bpp) == filt;
  }

  lemma FilteredAgain(f: nat, filt: seq<byte>, prior: seq<byte>, bpp: nat, k: nat)
    requires f <= 4 && bpp >= 1 && k < |filt| == |prior|
    ensures FilterByte(f, UnfilterRow(f, filt, prior, bpp), prior, bpp, k) == filt[k]
  {
    var raw, done := UnfilterRow(f, filt, prior, bpp), Unfilter(f, filt, prior, bpp, k);
    UnfilterPrefix(f, filt, prior, bpp, k, |filt|);
    RestoredAt(f, filt, prior, bpp, k);
    hide Predict, Unfilter;
    assert k >= bpp ==> raw[k - bpp] == raw[..k][k - bpp];
    WrapBack(filt[k], Predict(f, At(done, k - bpp), prior[k], At(prior, k - bpp)));
  }

  lemma RestoredAt(f: nat, filt: seq<byte>, prior: seq<byte>, bpp: nat, k: nat)
    requires f <= 4 && bpp >= 1 && k < |filt| == |prior|
    ensures UnfilterRow(f, filt, prior, bpp)[k] == RestoreByte(f, filt[k], Unfilter(f, filt, prior, bpp, k), prior, bpp)
  {
    UnfilterPrefix(f, filt, prior, bpp, k + 1, |filt|);
    hide RestoreByte;
    assert UnfilterRow(f, filt, prior, bpp)[..k + 1][k] == UnfilterRow(f, filt, prior, bpp)[k];
  }

  /** A row of type 0 is stored as it is. */
  lemma {:induction false} UnfilterNone(filt: seq<byte>, prior: seq<byte>, bpp: nat, n: nat)
    requires bpp >= 1 && n <= |filt| == |prior|
    ensures Unfilter(0, filt, prior, bpp, n) == filt[..n]
  {
    if n != 0 {
      UnfilterNone(filt, prior, bpp, n - 1);
      assert filt[..n] == filt[..n - 1] + [filt[n - 1]];
    }
  }

  // ----- Whole images: rows of one filter byte and bpl data bytes

  datatype Row = Row(f: nat, raw: seq<byte>)

  ghost predicate RowsOk(rows: seq<Row>, bpl: nat) {
    forall i :: 0 <= i < |rows| ==> rows[i].f <= 4 && |rows[i].raw| == bpl
  }

  /** The filtered rows of an image, any filter type for each row. */
  function FilterImage(rows: seq<Row>, prior: seq<byte>, bpp: nat): (s: seq<byte>)
    requires bpp >= 1 && RowsOk(rows, |prior|)
    decreases |rows|
  {
    if rows == [] then [] else
      [rows[0].f] + FilterRow(rows[0].f, rows[0].raw, prior, bpp) + FilterImage(rows[1..], rows[0].raw, bpp)
  }

  /** The same rows unfiltered, their filter bytes set to 0. */
  function PlainImage(rows: seq<Row>): seq<byte>
    decreases |rows|
  {
    if rows == [] then [] else [0] + rows[0].raw + PlainImage(rows[1..])
  }

  /** A buffer that holds height rows with filter types 0 to 4. */
  ghost predicate ImageOk(s: seq<byte>, bpl: nat, height: nat)
    decreases height
  {
    height == 0 || (|s| > bpl && s[0] <= 4 && ImageOk(s[bpl + 1..], bpl, height - 1))
  }

  function UnfilterImage(s: seq<byte>, prior: seq<byte>, bpp: nat, height: nat): (r: seq<byte>)
    requires bpp >= 1 && ImageOk(s, |prior|, height)
    ensures |r| == |s|
    decreases height
  {
    if height == 0 then s else
      var n := |prior|;
      var raw := UnfilterRow(s[0], s[1..n + 1], prior, bpp);
      [0] + raw + UnfilterImage(s[n + 1..], raw, bpp, height - 1)
  }

  /** One row of an image and the rows after it. */
  lemma ImageStep(f: byte, filt: seq<byte>, tail: seq<byte>, prior: seq<byte>, bpp: nat, height: nat)
    requires bpp >= 1 && f <= 4 && |filt| == |prior| && height >= 1
    requires ImageOk(tail, |prior|, height - 1)
    ensures ImageOk([f] + filt + tail, |prior|, height)
    ensures var raw := UnfilterRow(f, filt, prior, bpp);
            UnfilterImage([f] + filt + tail, prior, bpp, height) == [0] + raw + UnfilterImage(tail, raw, bpp, height - 1)
  {
    hide UnfilterRow;
    var s, n := [f] + filt + tail, |prior|;
    assert s[0] == f && s[1..n + 1] == filt && s[n + 1..] == tail;
  }

  /** Decoding a filtered image leaves the original rows, whatever filters were chosen. */
  lemma {:induction false} ImageRoundTrip(rows: seq<Row>, prior: seq<byte>, bpp: nat, rest: seq<byte>)
    requires bpp >= 1 && RowsOk(rows, |prior|)
    ensures ImageOk(FilterImage(rows, prior, bpp) + rest, |prior|, |rows|)
    ensures UnfilterImage(FilterImage(rows, prior, bpp) + rest, prior, bpp, |rows|) == PlainImage(rows) + rest
    decreases |rows|
  {
    hide FilterRow, UnfilterRow, UnfilterImage, ImageOk, FilterImage, PlainImage;
    if rows == [] {
      NoRows(prior, bpp, rest);
    } else {
      var row := rows[0];
      FirstRow(rows, prior, bpp, rest);
      RowRoundTrip(row, prior, bpp);
      ImageRoundTrip(rows[1..], row.raw, bpp, rest);
      ImageStep(row.f, FilterRow(row.f, row.raw, prior, bpp), FilterImage(rows[1..], row.raw, bpp) + rest, prior, bpp, |rows|);
    }
  }

  lemma NoRows(prior: seq<byte>, bpp: nat, rest: seq<byte>)
    requires bpp >= 1
    ensures RowsOk([], |prior|) && ImageOk(FilterImage([], prior, bpp) + rest, |prior|, 0)
    ensures UnfilterImage(FilterImage([], prior, bpp) + rest, prior, bpp, 0) == PlainImage([]) + rest
  {
    assert [] + rest == rest;
  }

  lemma FirstRow(rows: seq<Row>, prior: seq<byte>, bpp: nat, rest: seq<byte>)
    requires bpp >= 1 && rows != [] && RowsOk(rows, |prior|)
    ensures var row := rows[0];
            && RowsOk(rows[1..], |row.raw|) && |row.raw| == |prior|
            && FilterImage(rows, prior, bpp) + rest
                 == [row.f] + FilterRow(row.f, row.raw, prior, bpp) + (FilterImage(rows[1..], row.raw, bpp) + rest)
            && PlainImage(rows) + rest == [0] + row.raw + (PlainImage(rows[1..]) + rest)
  {
    hide FilterRow;
    var row := rows[0];
    Regroup([row.f] + FilterRow(row.f, row.raw, prior, bpp), FilterImage(rows[1..], row.raw, bpp), rest);
    Regroup([0] + row.raw, PlainImage(rows[1..]), rest);
  }

  lemma RowRoundTrip(row: Row, prior: seq<byte>, bpp: nat)
    requires bpp >= 1 && row.f <= 4 && |row.raw| == |prior|
    ensures UnfilterRow(row.f, FilterRow(row.f, row.raw, prior, bpp), prior, bpp) == row.raw
  {
    UnfilterUndoesFilter(row.f, row.raw, prior, bpp, |prior|);
    assert row.raw[..|prior|] == row.raw;
  }

  /** Decoding an already decoded buffer changes nothing. */
  lemma {:induction false} DecodingIsIdempotent(s: seq<byte>, prior: seq<byte>, bpp: nat, height: nat)
    requires bpp >= 1 && ImageOk(s, |prior|, height)
    ensures ImageOk(UnfilterImage(s, prior, bpp, height), |prior|, height)
    ensures UnfilterImage(UnfilterImage(s, prior, bpp, height), prior, bpp, height) == UnfilterImage(s, prior, bpp, height)
    decreases height
  {
    if height != 0 {
      hide UnfilterRow;
      var n := |prior|;
      var raw := UnfilterRow(s[0], s[1..n + 1], prior, bpp);
      DecodingIsIdempotent(s[n + 1..], raw, bpp, height - 1);
      PlainRow(raw, prior, bpp);
      ImageStep(0, raw, UnfilterImage(s[n + 1..], raw, bpp, height - 1), prior, bpp, height);
    }
  }

  lemma PlainRow(raw: seq<byte>, prior: seq<byte>, bpp: nat)
    requires bpp >= 1 && |raw| == |prior|
    ensures UnfilterRow(0, raw, prior, bpp) == raw
  {
    UnfilterNone(raw, prior, bpp, |prior|);
    assert raw[..|prior|] == raw;
  }
}
