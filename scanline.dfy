/** Scanline defiltering (section 6 of RFC 2083): `FilterType::from`, the
    bytes-per-pixel table, `paeth_predictor` and `reverse_filter`.

    The decompressed buffer holds `height` rows of `width` bytes each, where
    `width` (the stride) is the buffer length divided by the height: a filter
    byte, then `width - 1` filtered bytes. Each filtered byte is turned back
    into a raw byte by adding, modulo 256, a prediction made from neighbours
    that are already raw: `left`, the byte `bpp` places earlier in the same row
    (0 in the first `bpp` columns); `above`, the byte in the same column of the
    previous row (0 in row 0); and `upLeft`, the byte `bpp` places before that
    (0 when either is missing). */
module Scanline {
  import opened PngTypes
  import opened Legality

  datatype FilterType = NoFilter | Sub | Up | Average | Paeth

  /** `FilterType::from`: only the bytes 0 to 4 name a filter. */
  function FilterTypeFrom(b: byte): (r: Result<FilterType>)
    ensures r.Ok? <==> b <= 4
    ensures r.Ok? ==> FilterTypeByte(r.value) == b
    ensures r.Err? ==> r == Err(InvalidFilterType)
  {
    match b
    case 0 => Ok(NoFilter)
    case 1 => Ok(Sub)
    case 2 => Ok(Up)
    case 3 => Ok(Average)
    case 4 => Ok(Paeth)
    case _ => Err(InvalidFilterType)
  }

  /** The byte that names a filter; the inverse of FilterTypeFrom. */
  function FilterTypeByte(ft: FilterType): byte {
    match ft
    case NoFilter => 0
    case Sub => 1
    case Up => 2
    case Average => 3
    case Paeth => 4
  }

  /** The number of channels of each colour type. */
  function Channels(ct: ColorType): nat {
    match ct
    case Greyscale => 1
    case Rgb => 3
    case PaletteIndex => 1
    case GreyscaleAlpha => 2
    case Rgba => 4
  }

  /** The `bpp` match of `reverse_filter`. */
  function BytesPerPixel(ct: ColorType, bitDepth: byte): (bpp: nat)
    ensures 1 <= bpp <= 8
  {
    match ct
    case Greyscale => if bitDepth == 16 then 2 else 1
    case Rgb => if bitDepth == 8 then 3 else 6
    case PaletteIndex => 1
    case GreyscaleAlpha => if bitDepth == 8 then 2 else 4
    case Rgba => if bitDepth == 8 then 4 else 8
  }

  /** For every legal colour type and bit depth, `bpp` is the size of a whole
      pixel in bytes, rounded up to 1 for pixels smaller than a byte. */
  lemma BytesPerPixelIsPixelSize(ct: ColorType, bitDepth: byte)
    requires ByteIn(bitDepth, AllowedBitDepths(ct))
    ensures BytesPerPixel(ct, bitDepth)
            == if Channels(ct) * bitDepth < 8 then 1 else Channels(ct) * bitDepth / 8
  {
  }

  // ---------------------------------------------------------------- arithmetic

  /** `u8::wrapping_add`. */
  function WrapAdd(a: byte, b: byte): byte {
    (a as int + b) % 0x100
  }

  /** Subtraction modulo 256, the filtering direction. */
  function WrapSub(a: byte, b: byte): byte {
    (a as int - b) % 0x100
  }


  lemma WrapAddSub(a: byte, b: byte)
    ensures WrapAdd(WrapSub(a, b), b) == a && WrapSub(WrapAdd(a, b), b) == a
  {
  }

  /** A signed 16-bit value (Rust `i16`). */
  type i16 = x: int | -0x8000 <= x < 0x8000

  function Abs(x: int): nat {
    if x < 0 then -x else x
  }

  /** How far the Paeth estimate `left + top - topLeft` lies from `x`. */
  function PaethDistance(left: byte, top: byte, topLeft: byte, x: byte): nat {
    Abs(left as int + top - topLeft - x)
  }

  /** `paeth_predictor`. The estimate and the three differences are held in
      `i16` variables, as in the source, so each of them is proved to fit. */
  function PaethPredictor(left: byte, top: byte, topLeft: byte): (r: byte)
    ensures r == left || r == top || r == topLeft
  {
    var p: i16 := left as int + top - topLeft;
    var dLeft: i16 := p - left;
    var dTop: i16 := p - top;
    var dTopLeft: i16 := p - topLeft;
    var pLeft := Abs(dLeft);
    var pTop := Abs(dTop);
    var pTopLeft := Abs(dTopLeft);
    if pLeft <= pTop && pLeft <= pTopLeft then left
    else if pTop <= pTopLeft then top
    else topLeft
  }

  /** The Paeth predictor picks the neighbour nearest the estimate
      `left + top - topLeft`; `left` wins every tie it is part of, and `top`
      wins a tie with `topLeft` (section 6.6 of RFC 2083). */
  lemma PaethPredictorNearest(left: byte, top: byte, topLeft: byte)
    ensures var r := PaethPredictor(left, top, topLeft);
            var d := (x: byte) => PaethDistance(left, top, topLeft, x);
            && (r == left || r == top || r == topLeft)
            && d(r) <= d(left) && d(r) <= d(top) && d(r) <= d(topLeft)
            && (d(left) <= d(top) && d(left) <= d(topLeft) ==> r == left)
            && (r != left && d(top) <= d(topLeft) ==> r == top)
  {
  }

  lemma PaethOfEqualNeighbours(x: byte)
    ensures PaethPredictor(x, x, x) == x
  {
  }

  // ---------------------------------------------------------------- one row

  /** The byte `bpp` places before position `i` of `s`, or 0 if there is none. */
  function Before(s: seq<byte>, i: nat, bpp: nat): byte
    requires bpp >= 1 && i <= |s|
  {
    if i >= bpp then s[i - bpp] else 0
  }

  /** The prediction each filter makes from the raw neighbours (section 6 of
      RFC 2083). Average takes the floor of the mean, computed without overflow. */
  function Predictor(ft: FilterType, left: byte, above: byte, upLeft: byte): byte {
    match ft
    case NoFilter => 0
    case Sub => left
    case Up => above
    case Average => (left as int + above) / 2
    case Paeth => PaethPredictor(left, above, upLeft)
  }

  /** One reconstructed byte: the filtered byte plus the prediction, modulo 256. */
  function Recon(ft: FilterType, x: byte, left: byte, above: byte, upLeft: byte): byte {
    WrapAdd(x, Predictor(ft, left, above, upLeft))
  }

  function Zeros(n: nat): (z: seq<byte>)
    ensures |z| == n && forall i :: 0 <= i < n ==> z[i] == 0
  {
    seq(n, _ => 0)
  }

  /** The first `n` raw bytes of a row with filtered bytes `cur`, given the
      raw previous row `prev` (all zeros for row 0). */
  function UnfilterPrefix(ft: FilterType, cur: seq<byte>, prev: seq<byte>, bpp: nat, n: nat)
    : (raw: seq<byte>)
    requires bpp >= 1 && n <= |cur| == |prev|
    ensures |raw| == n
    decreases n
  {
    if n == 0 then []
    else
      var front := UnfilterPrefix(ft, cur, prev, bpp, n - 1);
      front + [Recon(ft, cur[n - 1], Before(front, n - 1, bpp), prev[n - 1], Before(prev, n - 1, bpp))]
  }

  /** Every byte of a prefix obeys the reconstruction equation, with its left
      and upper-left neighbours taken from the raw bytes. */
  lemma {:induction false} UnfilterPrefixAt(ft: FilterType, cur: seq<byte>, prev: seq<byte>, bpp: nat,
                                          n: nat, i: nat)
    requires bpp >= 1 && n <= |cur| == |prev| && i < n
    ensures var raw := UnfilterPrefix(ft, cur, prev, bpp, n);
            raw[i] == Recon(ft, cur[i], Before(raw, i, bpp), prev[i], Before(prev, i, bpp))
    decreases n
  {
    var front := UnfilterPrefix(ft, cur, prev, bpp, n - 1);
    var raw := UnfilterPrefix(ft, cur, prev, bpp, n);
    assert Before(raw, i, bpp) == Before(front, i, bpp);
    if i < n - 1 {
      UnfilterPrefixAt(ft, cur, prev, bpp, n - 1, i);
    }
  }

  /** A whole row reconstructed. */
  function UnfilterRow(ft: FilterType, cur: seq<byte>, prev: seq<byte>, bpp: nat): (raw: seq<byte>)
    requires bpp >= 1 && |cur| == |prev|
    ensures |raw| == |cur|
  {
    UnfilterPrefix(ft, cur, prev, bpp, |cur|)
  }

  /** The reconstruction equation of section 6 of RFC 2083 for each byte of a
      row: the filtered byte plus the filter's prediction from the raw byte
      `bpp` places to the left, the raw byte above and the one before that. */
  lemma UnfilterRowAt(ft: FilterType, cur: seq<byte>, prev: seq<byte>, bpp: nat, i: nat)
    requires bpp >= 1 && |cur| == |prev| && i < |cur|
    ensures var raw := UnfilterRow(ft, cur, prev, bpp);
            raw[i] == Recon(ft, cur[i], Before(raw, i, bpp), prev[i], Before(prev, i, bpp))
  {
    UnfilterPrefixAt(ft, cur, prev, bpp, |cur|, i);
  }

  /** The encoder's side: the filtered bytes a writer stores for raw row `raw`. */
  function FilterRow(ft: FilterType, raw: seq<byte>, prev: seq<byte>, bpp: nat): (f: seq<byte>)
    requires bpp >= 1 && |raw| == |prev|
    ensures |f| == |raw|
  {
    seq(|raw|, i requires 0 <= i < |raw| =>
      WrapSub(raw[i], Predictor(ft, Before(raw, i, bpp), prev[i], Before(prev, i, bpp))))
  }

  /** One byte: reconstructing a filtered byte with the same neighbours
      gives the raw byte back. */
  lemma ReconOfFiltered(ft: FilterType, x: byte, left: byte, above: byte, upLeft: byte)
    ensures Recon(ft, WrapSub(x, Predictor(ft, left, above, upLeft)), left, above, upLeft) == x
  {
    WrapAddSub(x, Predictor(ft, left, above, upLeft));
  }

  lemma {:induction false} UnfilterPrefixOfFiltered(ft: FilterType, raw: seq<byte>, prev: seq<byte>,
                                                  bpp: nat, n: nat)
    requires bpp >= 1 && n <= |raw| == |prev|
    ensures UnfilterPrefix(ft, FilterRow(ft, raw, prev, bpp), prev, bpp, n) == raw[..n]
    decreases n
  {
    if n > 0 {
      var f := FilterRow(ft, raw, prev, bpp);
      UnfilterPrefixOfFiltered(ft, raw, prev, bpp, n - 1);
      var front := UnfilterPrefix(ft, f, prev, bpp, n - 1);
      assert Before(front, n - 1, bpp) == Before(raw, n - 1, bpp);
      ReconOfFiltered(ft, raw[n - 1], Before(raw, n - 1, bpp), prev[n - 1], Before(prev, n - 1, bpp));
      assert raw[..n] == raw[..n - 1] + [raw[n - 1]];
    }
  }

  /** Defiltering undoes filtering: a row filtered with any filter type is
      reconstructed exactly. */
  lemma UnfilterInvertsFilter(ft: FilterType, raw: seq<byte>, prev: seq<byte>, bpp: nat)
    requires bpp >= 1 && |raw| == |prev|
    ensures UnfilterRow(ft, FilterRow(ft, raw, prev, bpp), prev, bpp) == raw
  {
    UnfilterPrefixOfFiltered(ft, raw, prev, bpp, |raw|);
  }

  /** And filtering undoes defiltering, so every filtered row has exactly one
      reconstruction. */
  lemma FilterInvertsUnfilter(ft: FilterType, cur: seq<byte>, prev: seq<byte>, bpp: nat)
    requires bpp >= 1 && |cur| == |prev|
    ensures FilterRow(ft, UnfilterRow(ft, cur, prev, bpp), prev, bpp) == cur
  {
    var raw := UnfilterRow(ft, cur, prev, bpp);
    forall i | 0 <= i < |cur|
      ensures FilterRow(ft, raw, prev, bpp)[i] == cur[i]
    {
      UnfilterRowAt(ft, cur, prev, bpp, i);
      WrapAddSub(cur[i], Predictor(ft, Before(raw, i, bpp), prev[i], Before(prev, i, bpp)));
    }
  }

  /** None copies the row. */
  lemma NoneCopiesRow(cur: seq<byte>, prev: seq<byte>, bpp: nat)
    requires bpp >= 1 && |cur| == |prev|
    ensures UnfilterRow(NoFilter, cur, prev, bpp) == cur
  {
    forall i | 0 <= i < |cur|
      ensures UnfilterRow(NoFilter, cur, prev, bpp)[i] == cur[i]
    {
      UnfilterRowAt(NoFilter, cur, prev, bpp, i);
    }
  }

  /** Sub copies the first `bpp` bytes and adds the raw byte `bpp` places to
      the left to every later one. */
  lemma SubRow(cur: seq<byte>, prev: seq<byte>, bpp: nat, i: nat)
    requires bpp >= 1 && |cur| == |prev| && i < |cur|
    ensures var raw := UnfilterRow(Sub, cur, prev, bpp);
            raw[i] == if i < bpp then cur[i] else WrapAdd(cur[i], raw[i - bpp])
  {
    UnfilterRowAt(Sub, cur, prev, bpp, i);
  }

  // ---------------------------------------------------------------- the buffer

  /** `r` rows of `w` bytes, summed one row at a time so that row offsets stay
      additions. */
  function RowsSize(r: nat, w: nat): nat {
    if r == 0 then 0 else w + RowsSize(r - 1, w)
  }

  lemma {:induction false} RowsSizeIsProduct(r: nat, w: nat)
    ensures RowsSize(r, w) == r * w
  {
    if r > 0 {
      RowsSizeIsProduct(r - 1, w);
      assert r * w == w + (r - 1) * w;
    }
  }

  /** The buffer cut into `count` scanlines of `width` bytes: a filter byte
      and `width - 1` filtered bytes each. */
  function Scanlines(filtered: seq<byte>, width: nat, count: nat): (rows: seq<seq<byte>>)
    requires RowsSize(count, width) <= |filtered|
    ensures |rows| == count
    ensures forall r :: 0 <= r < count ==> |rows[r]| == width
    decreases count
  {
    if count == 0 then []
    else [filtered[..width]] + Scanlines(filtered[width..], width, count - 1)
  }

  /** Scanline `r` starts at byte `r * width`. */
  lemma {:induction false} ScanlineAt(filtered: seq<byte>, width: nat, count: nat, r: nat)
    requires RowsSize(count, width) <= |filtered| && r < count
    ensures RowsSize(r, width) + width <= |filtered|
    ensures Scanlines(filtered, width, count)[r] == filtered[RowsSize(r, width)..RowsSize(r, width) + width]
    decreases count
  {
    if r > 0 {
      ScanlineAt(filtered[width..], width, count - 1, r - 1);
    }
  }

  /** `res` with `d` in front of its bytes, if it has any. */
  function Prefixed(d: seq<byte>, res: Result<seq<byte>>): Result<seq<byte>> {
    match res
    case Ok(v) => Ok(d + v)
    case Err(e) => Err(e)
  }

  /** Scanlines reconstructed in order, each against the raw row before it,
      starting from `prev` (zeros above the first row). The only possible
      failure is a filter byte above 4. */
  function UnfilterRows(rows: seq<seq<byte>>, prev: seq<byte>, bpp: nat): (out: Result<seq<byte>>)
    requires bpp >= 1
    requires forall i :: 0 <= i < |rows| ==> |rows[i]| == |prev| + 1
    ensures out.Err? ==> out == Err(InvalidFilterType)
    decreases |rows|
  {
    if rows == [] then Ok([])
    else
      match FilterTypeFrom(rows[0][0])
      case Err(e) => Err(e)
      case Ok(ft) =>
        var raw := UnfilterRow(ft, rows[0][1..], prev, bpp);
        Prefixed(raw, UnfilterRows(rows[1..], raw, bpp))
  }

  /** The bytes each row contributes to the output. */
  function RowBytes(width: nat): nat {
    if width == 0 then 0 else width - 1
  }

  /** `reverse_filter` as a function of the decompressed buffer. A zero height
      is a division by zero in the source. A stride of 0 (fewer bytes than
      rows) makes every row read byte 0 as its filter byte: an empty buffer
      fails on that index, None fails on its empty-range slice, and the other
      filters append nothing. */
  function Defilter(filtered: seq<byte>, height: nat, bpp: nat): (out: Result<seq<byte>>)
    requires bpp >= 1
    ensures height == 0 ==> out == Err(ZeroHeight)
    ensures out.Err? ==> out.error == ZeroHeight || out.error == Truncated || out.error == InvalidFilterType
  {
    if height == 0 then Err(ZeroHeight)
    else
      var width := |filtered| / height;
      if width == 0 then
        if |filtered| == 0 then Err(Truncated)
        else
          match FilterTypeFrom(filtered[0])
          case Err(e) => Err(e)
          case Ok(ft) => if ft == NoFilter then Err(Truncated) else Ok([])
      else
        StrideFits(|filtered|, height);
        UnfilterRows(Scanlines(filtered, width, height), Zeros(width - 1), bpp)
  }

  /** `height` rows of the stride fit in the buffer. */
  lemma StrideFits(len: nat, height: nat)
    requires height > 0
    ensures RowsSize(height, len / height) <= len
  {
    RowsSizeIsProduct(height, len / height);
  }

  lemma {:induction false} UnfilterRowsLength(rows: seq<seq<byte>>, prev: seq<byte>, bpp: nat)
    requires bpp >= 1
    requires forall i :: 0 <= i < |rows| ==> |rows[i]| == |prev| + 1
    requires UnfilterRows(rows, prev, bpp).Ok?
    ensures |UnfilterRows(rows, prev, bpp).value| == RowsSize(|rows|, |prev|)
    decreases |rows|
  {
    if rows != [] {
      var ft := FilterTypeFrom(rows[0][0]).value;
      var raw := UnfilterRow(ft, rows[0][1..], prev, bpp);
      UnfilterRowsLength(rows[1..], raw, bpp);
    }
  }

  /** A decoded buffer holds `height` rows of `stride - 1` bytes. */
  lemma DefilterLength(filtered: seq<byte>, height: nat, bpp: nat)
    requires bpp >= 1 && Defilter(filtered, height, bpp).Ok?
    ensures |Defilter(filtered, height, bpp).value| == height * RowBytes(|filtered| / height)
  {
    var width := |filtered| / height;
    if width > 0 {
      StrideFits(|filtered|, height);
      UnfilterRowsLength(Scanlines(filtered, width, height), Zeros(width - 1), bpp);
      RowsSizeIsProduct(height, width - 1);
    }
  }

  lemma {:induction false} UnfilterRowsRejects(rows: seq<seq<byte>>, prev: seq<byte>, bpp: nat, r: nat)
    requires bpp >= 1
    requires forall i :: 0 <= i < |rows| ==> |rows[i]| == |prev| + 1
    requires r < |rows| && rows[r][0] > 4
    ensures UnfilterRows(rows, prev, bpp) == Err(InvalidFilterType)
    decreases r
  {
    if r > 0 && FilterTypeFrom(rows[0][0]).Ok? {
      var raw := UnfilterRow(FilterTypeFrom(rows[0][0]).value, rows[0][1..], prev, bpp);
      UnfilterRowsRejects(rows[1..], raw, bpp, r - 1);
    }
  }

  /** A row whose filter byte is above 4 makes the whole buffer fail, with
      the invalid-filter error, whatever the other rows hold. */
  lemma InvalidFilterByteRejected(filtered: seq<byte>, height: nat, bpp: nat, r: nat)
    requires bpp >= 1 && r < height
    requires r * (|filtered| / height) < |filtered| && filtered[r * (|filtered| / height)] > 4
    ensures Defilter(filtered, height, bpp) == Err(InvalidFilterType)
  {
    var width := |filtered| / height;
    if width > 0 {
      StrideFits(|filtered|, height);
      var rows := Scanlines(filtered, width, height);
      ScanlineAt(filtered, width, height, r);
      RowsSizeIsProduct(r, width);
      assert rows[r][0] == filtered[r * width];
      UnfilterRowsRejects(rows, Zeros(width - 1), bpp, r);
    }
  }

  // ---------------------------------------------------------------- the encoder's side

  /** The bytes of a sequence of rows, concatenated. */
  function Concat(rows: seq<seq<byte>>): seq<byte>
    decreases |rows|
  {
    if rows == [] then [] else rows[0] + Concat(rows[1..])
  }

  /** What a writer stores for raw rows `raws`, row `i` filtered with
      `fts[i]` against the raw row above it: a filter byte, then the filtered
      bytes. */
  function FilterRows(fts: seq<FilterType>, raws: seq<seq<byte>>, prev: seq<byte>, bpp: nat)
    : (rows: seq<seq<byte>>)
    requires bpp >= 1 && |fts| == |raws|
    requires forall i :: 0 <= i < |raws| ==> |raws[i]| == |prev|
    ensures |rows| == |raws|
    ensures forall i :: 0 <= i < |rows| ==> |rows[i]| == |prev| + 1
    decreases |raws|
  {
    if raws == [] then []
    else [[FilterTypeByte(fts[0])] + FilterRow(fts[0], raws[0], prev, bpp)]
         + FilterRows(fts[1..], raws[1..], raws[0], bpp)
  }

  /** Defiltering inverts filtering row by row, whatever filter each row was
      written with. */
  lemma {:induction false} UnfilterRowsInvertsFilterRows(fts: seq<FilterType>, raws: seq<seq<byte>>,
                                                       prev: seq<byte>, bpp: nat)
    requires bpp >= 1 && |fts| == |raws|
    requires forall i :: 0 <= i < |raws| ==> |raws[i]| == |prev|
    ensures UnfilterRows(FilterRows(fts, raws, prev, bpp), prev, bpp) == Ok(Concat(raws))
    decreases |raws|
  {
    if raws != [] {
      var rows := FilterRows(fts, raws, prev, bpp);
      assert rows[0] == [FilterTypeByte(fts[0])] + FilterRow(fts[0], raws[0], prev, bpp);
      assert rows[0][1..] == FilterRow(fts[0], raws[0], prev, bpp);
      UnfilterInvertsFilter(fts[0], raws[0], prev, bpp);
      assert rows[1..] == FilterRows(fts[1..], raws[1..], raws[0], bpp);
      UnfilterRowsInvertsFilterRows(fts[1..], raws[1..], raws[0], bpp);
    }
  }

  lemma {:induction false} ScanlinesOfConcat(rows: seq<seq<byte>>, w: nat)
    requires forall i :: 0 <= i < |rows| ==> |rows[i]| == w
    ensures |Concat(rows)| == RowsSize(|rows|, w)
    ensures Scanlines(Concat(rows), w, |rows|) == rows
    decreases |rows|
  {
    if rows != [] {
      ScanlinesOfConcat(rows[1..], w);
      var all := Concat(rows);
      assert all[..w] == rows[0];
      assert all[w..] == Concat(rows[1..]);
    }
  }

  lemma DivOfProduct(h: nat, w: nat)
    requires h > 0
    ensures (h * w) / h == w
  {
    var a := h * w;
    var q := a / h;
    var m := a % h;
    assert a == h * q + m && 0 <= m < h;
    var d := w - q;
    assert h * d == h * w - h * q;
    assert h * d == m;
  }

  /** The whole-buffer round trip: a buffer written as filtered scanlines
      (any filter per row, zeros above the first) defilters to the raw rows. */
  lemma DefilterInvertsFiltering(fts: seq<FilterType>, raws: seq<seq<byte>>, n: nat, bpp: nat)
    requires bpp >= 1 && |fts| == |raws| >= 1
    requires forall i :: 0 <= i < |raws| ==> |raws[i]| == n
    ensures Defilter(Concat(FilterRows(fts, raws, Zeros(n), bpp)), |raws|, bpp) == Ok(Concat(raws))
  {
    var rows := FilterRows(fts, raws, Zeros(n), bpp);
    var height := |raws|;
    var filtered := Concat(rows);
    ScanlinesOfConcat(rows, n + 1);
    RowsSizeIsProduct(height, n + 1);
    DivOfProduct(height, n + 1);
    UnfilterRowsInvertsFilterRows(fts, raws, Zeros(n), bpp);
  }

  // ---------------------------------------------------------------- the loops

  /** The raw row above row `r`: the last `n` bytes written, or zeros above
      the first row. */
  function LastRow(data: seq<byte>, n: nat, r: nat): (prev: seq<byte>)
    requires r == 0 || n <= |data|
    ensures |prev| == n
  {
    if r == 0 then Zeros(n) else data[|data| - n..]
  }

  /** The same reconstruction read straight off the buffer from offset
      `base`, `k` scanlines of `width` bytes: the form the row loop follows.
      `UnfilterScanline` handles the scanline at `base` and hands the rest
      back. */
  function UnfilterBuffer(filtered: seq<byte>, base: nat, width: nat, k: nat, prev: seq<byte>, bpp: nat)
    : (out: Result<seq<byte>>)
    requires width >= 1 && bpp >= 1 && base + RowsSize(k, width) <= |filtered| && |prev| == width - 1
    decreases k, 1
  {
    if k == 0 then Ok([]) else UnfilterScanline(filtered, base, width, k, prev, bpp)
  }

  function UnfilterScanline(filtered: seq<byte>, base: nat, width: nat, k: nat, prev: seq<byte>, bpp: nat)
    : (out: Result<seq<byte>>)
    requires width >= 1 && bpp >= 1 && k >= 1 && base + RowsSize(k, width) <= |filtered| && |prev| == width - 1
    decreases k, 0
  {
    match FilterTypeFrom(filtered[base])
    case Err(e) => Err(e)
    case Ok(ft) =>
      var raw := UnfilterRow(ft, filtered[base + 1..base + width], prev, bpp);
      Prefixed(raw, UnfilterBuffer(filtered, base + width, width, k - 1, raw, bpp))
  }

  /** One scanline of the buffer, then the rest against it. */
  lemma UnfilterBufferUnfold(filtered: seq<byte>, base: nat, width: nat, k: nat, prev: seq<byte>, bpp: nat)
    requires width >= 1 && bpp >= 1 && k >= 1 && base + RowsSize(k, width) <= |filtered| && |prev| == width - 1
    ensures UnfilterBuffer(filtered, base, width, k, prev, bpp)
            == match FilterTypeFrom(filtered[base])
               case Err(e) => Err(e)
               case Ok(ft) =>
                 var raw := UnfilterRow(ft, filtered[base + 1..base + width], prev, bpp);
                 Prefixed(raw, UnfilterBuffer(filtered, base + width, width, k - 1, raw, bpp))
  {
  }

  /** Reading the buffer in place agrees with cutting it into scanlines first. */
  lemma {:induction false} UnfilterBufferIsRows(filtered: seq<byte>, base: nat, width: nat, k: nat,
                                                prev: seq<byte>, bpp: nat)
    requires width >= 1 && bpp >= 1 && base + RowsSize(k, width) <= |filtered| && |prev| == width - 1
    ensures UnfilterBuffer(filtered, base, width, k, prev, bpp)
            == UnfilterRows(Scanlines(filtered[base..], width, k), prev, bpp)
    decreases k
  {
    if k > 0 {
      UnfilterBufferUnfold(filtered, base, width, k, prev, bpp);
      var rest := filtered[base..];
      var rows := Scanlines(rest, width, k);
      assert rows == [rest[..width]] + Scanlines(rest[width..], width, k - 1);
      assert rows[0][0] == filtered[base];
      assert rows[0][1..] == filtered[base + 1..base + width];
      assert rows[1..] == Scanlines(filtered[base + width..], width, k - 1) by {
        assert rest[width..] == filtered[base + width..];
      }
      match FilterTypeFrom(filtered[base])
      case Err(_) =>
      case Ok(ft) =>
        UnfilterBufferIsRows(filtered, base + width, width, k - 1,
                             UnfilterRow(ft, filtered[base + 1..base + width], prev, bpp), bpp);
    }
  }

  lemma PrefixedAppend(d: seq<byte>, raw: seq<byte>, res: Result<seq<byte>>)
    ensures Prefixed(d, Prefixed(raw, res)) == Prefixed(d + raw, res)
  {
    if res.Ok? {
      assert d + (raw + res.value) == d + raw + res.value;
    }
  }

  lemma PrefixedEmpty(res: Result<seq<byte>>)
    ensures Prefixed([], res) == res
  {
    if res.Ok? {
      assert [] + res.value == res.value;
    }
  }

  /** `reverse_filter`: the row loop; `DefilterRow` is one pass of it. */
  method ReverseFilter(filtered: seq<byte>, height: nat, bpp: nat) returns (out: Result<seq<byte>>)
    requires bpp >= 1
    ensures out == Defilter(filtered, height, bpp)
  {
    if height == 0 {
      return Err(ZeroHeight);
    }
    var width := |filtered| / height;
    if width == 0 {
      out := ZeroStrideRows(filtered, height);
      return;
    }
    StrideFits(|filtered|, height);
    out := DefilterRowsLoop(filtered, width, height, bpp);
    UnfilterBufferIsRows(filtered, 0, width, height, Zeros(width - 1), bpp);
    assert filtered[0..] == filtered;
  }

  /** The row loop of `reverse_filter` for a stride of at least 1. */
  method DefilterRowsLoop(filtered: seq<byte>, width: nat, height: nat, bpp: nat)
    returns (out: Result<seq<byte>>)
    requires width >= 1 && bpp >= 1 && RowsSize(height, width) <= |filtered|
    ensures out == UnfilterBuffer(filtered, 0, width, height, Zeros(width - 1), bpp)
  {
    ghost var n := width - 1;
    ghost var whole := UnfilterBuffer(filtered, 0, width, height, Zeros(n), bpp);
    PrefixedEmpty(whole);
    ghost var base := 0;
    ghost var k := height;
    ghost var prev := Zeros(n);
    var data: seq<byte> := [];
    for r := 0 to height
      invariant k == height - r && base == RowsSize(r, width) && |data| + r == base
      invariant r == 0 || n <= |data|
      invariant prev == LastRow(data, n, r)
      invariant base + RowsSize(k, width) <= |filtered|
      invariant whole == Prefixed(data, UnfilterBuffer(filtered, base, width, k, prev, bpp))
    {
      var row;
      row, base, k, prev := RowPass(filtered, width, height, bpp, r, base, k, prev, data);
      if row.Err? {
        return row;
      }
      data := row.value;
    }
    assert data + [] == data;
    return Ok(data);
  }

  /** One pass of the row loop, against what is still to come: the rows from
      `r` on either fail as the pass does, or are the pass's row followed by
      the rows after it. */
  method RowPass(filtered: seq<byte>, width: nat, height: nat, bpp: nat, r: nat, ghost base: nat,
                 ghost k: nat, ghost prev: seq<byte>, data: seq<byte>)
    returns (out: Result<seq<byte>>, ghost base': nat, ghost k': nat, ghost prev': seq<byte>)
    requires width >= 1 && bpp >= 1 && r < height && k == height - r
    requires base == RowsSize(r, width) && |data| + r == base && (r == 0 || width - 1 <= |data|)
    requires prev == LastRow(data, width - 1, r)
    requires base + RowsSize(k, width) <= |filtered|
    ensures out.Err? ==> out == Err(InvalidFilterType) && UnfilterBuffer(filtered, base, width, k, prev, bpp) == out
    ensures out.Ok? ==>
              && k' == height - (r + 1) && base' == base + width == RowsSize(r + 1, width)
              && |out.value| + r + 1 == base'
              && |out.value| == |data| + width - 1
              && prev' == LastRow(out.value, width - 1, r + 1)
              && base' + RowsSize(k', width) <= |filtered|
              && Prefixed(data, UnfilterBuffer(filtered, base, width, k, prev, bpp))
                 == Prefixed(out.value, UnfilterBuffer(filtered, base', width, k', prev', bpp))
  {
    var n := width - 1;
    out := DefilterRow(filtered, width, bpp, r, base, data);
    UnfilterBufferUnfold(filtered, base, width, k, prev, bpp);
    base', k', prev' := base + width, k - 1, prev;
    if out.Err? {
      return;
    }
    prev' := UnfilterRow(FilterTypeFrom(filtered[base]).value, filtered[base + 1..base + width], prev, bpp);
    PrefixedAppend(data, prev', UnfilterBuffer(filtered, base', width, k', prev', bpp));
    assert LastRow(data + prev', n, r + 1) == prev';
  }

  /** One pass of the row loop: the filter byte at `r * width` (which is
      `RowsSize(r, width)`), then the row's raw bytes appended, a copy for
      None and the column loop for the other filters. */
  method DefilterRow(filtered: seq<byte>, width: nat, bpp: nat, r: nat, ghost base: nat, data: seq<byte>)
    returns (out: Result<seq<byte>>)
    requires width >= 1 && bpp >= 1 && base == RowsSize(r, width) && base + width <= |filtered|
    requires |data| + r == base && (r == 0 || width - 1 <= |data|)
    ensures out.Ok? <==> FilterTypeFrom(filtered[base]).Ok?
    ensures out.Err? ==> out == Err(InvalidFilterType)
    ensures out.Ok? ==>
              out.value == data + UnfilterRow(FilterTypeFrom(filtered[base]).value, filtered[base + 1..base + width],
                                              LastRow(data, width - 1, r), bpp)
  {
    RowsSizeIsProduct(r, width);
    var ft :- FilterTypeFrom(filtered[r * width]);
    if ft == NoFilter {
      NoneCopiesRow(filtered[r * width + 1..r * width + width], LastRow(data, width - 1, r), bpp);
      return Ok(data + filtered[r * width + 1..r * width + width]);
    }
    var raw := UnfilterOneRow(filtered, width, bpp, r, ft, data);
    return Ok(raw);
  }


  /** The row loop of `reverse_filter` when the buffer is shorter than the
      height, so the stride is 0: every row reads byte 0 as its filter byte
      (an empty buffer fails on that index), None then fails on its slice
      `1..0`, and the column loop of the other filters runs over the empty
      range `1..0`. */
  method ZeroStrideRows(filtered: seq<byte>, height: nat) returns (out: Result<seq<byte>>)
    requires 0 < height && |filtered| / height == 0
    ensures forall bpp: nat :: bpp >= 1 ==> out == Defilter(filtered, height, bpp)
  {
    for r := 0 to height
      invariant r > 0 ==>
                  |filtered| > 0 && FilterTypeFrom(filtered[0]).Ok? && FilterTypeFrom(filtered[0]).value != NoFilter
    {
      if |filtered| == 0 {
        return Err(Truncated);
      }
      var ft := FilterTypeFrom(filtered[0]);
      if ft.Err? {
        return Err(ft.error);
      }
      if ft.value == NoFilter {
        return Err(Truncated);
      }
    }
    return Ok([]);
  }

  /** The column loop of one row of `reverse_filter`, appending the row's raw
      bytes to `data`. Neighbours are found by offsets from `x`, the row's
      position in the filtered buffer: `x - bpp - 1 - r` is the raw byte `bpp`
      places to the left (the Sub arm's own index), `x - width - r` the raw
      byte above and `x - width - r - bpp` the one before that. */
  method UnfilterOneRow(filtered: seq<byte>, width: nat, bpp: nat, r: nat, ft: FilterType,
                        data0: seq<byte>) returns (data: seq<byte>)
    requires width >= 1 && bpp >= 1 && r * width + width <= |filtered|
    requires |data0| + r == r * width && (r == 0 || width - 1 <= |data0|)
    ensures data == data0 + UnfilterRow(ft, filtered[r * width + 1..r * width + width],
                                        LastRow(data0, width - 1, r), bpp)
  {
    ghost var cur := filtered[r * width + 1..r * width + width];
    ghost var prev := LastRow(data0, width - 1, r);
    data := data0;
    var c := 1;
    while c < width
      invariant 1 <= c <= width
      invariant data == data0 + UnfilterPrefix(ft, cur, prev, bpp, c - 1)
    {
      ghost var done := UnfilterPrefix(ft, cur, prev, bpp, c - 1);
      var x := r * width + c;
      var left := if c < bpp + 1 then 0 else data[x - bpp - 1 - r];
      var above := if r == 0 then 0 else data[x - width - r];
      var upLeft := if r == 0 || c < bpp + 1 then 0 else data[x - width - r - bpp];
      assert left == Before(done, c - 1, bpp);
      assert above == prev[c - 1];
      assert upLeft == Before(prev, c - 1, bpp);
      assert filtered[x] == cur[c - 1];
      data := data + [Recon(ft, filtered[x], left, above, upLeft)];
      c := c + 1;
    }
  }

}
