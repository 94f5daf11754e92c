/** The row loop of `reverse_filter` exactly as the source writes it, byte by
    byte, so that its departures from section 6 of RFC 2083 can be shown on
    concrete inputs. The rest of the model uses `Scanline.Defilter`, which
    follows the RFC.

    `x` is the position of the filtered byte in the decompressed buffer and
    `x - r - 1` the position its raw byte gets in the output. The Sub arm reads
    its left neighbour from the output at `x - bpp - 1 - r`, which is right. The
    Up arm reads `filtered[x - (r * (width - 1) + c)]`, which is always
    `filtered[r]`. The Average and Paeth arms read their neighbours from the
    filtered buffer: the left one at the output position of the byte `bpp` to the
    left, the upper one at `r * (width - 1) + c`, which is the output position of
    the next byte in the same row. A read outside a buffer,
    or an index computed below zero, is a panic in the source and `Truncated` here. */
module AsWritten {
  import opened PngTypes
  import opened Scanline

  /** `s[i]`, or the panic when the index is out of range. */
  function ReadAt(s: seq<byte>, i: int): (r: Result<byte>)
    ensures r.Ok? <==> 0 <= i < |s|
    ensures r.Ok? ==> r.value == s[i]
    ensures r.Err? ==> r == Err(Truncated)
  {
    if 0 <= i < |s| then Ok(s[i]) else Err(Truncated)
  }

  /** The byte pushed for row `r`, column `c` (1 <= c < width), given the
      bytes `data` pushed before it. */
  function ArmByte(ft: FilterType, filtered: seq<byte>, data: seq<byte>, width: nat, bpp: nat,
                   r: nat, c: nat): (b: Result<byte>)
    ensures b.Err? ==> b == Err(Truncated)
    ensures b.Ok? ==> r * width + c < |filtered|
    ensures ft == NoFilter ==> b == ReadAt(filtered, r * width + c)
  {
    var x := r * width + c;
    match ft
    case NoFilter =>
      ReadAt(filtered, x)
    case Sub =>
      var fx :- ReadAt(filtered, x);
      if c < bpp + 1 then Ok(fx)
      else
        var left :- ReadAt(data, x - bpp - 1 - r);
        Ok(WrapAdd(fx, left))
    case Up =>
      var fx :- ReadAt(filtered, x);
      if r == 0 then Ok(fx)
      else
        var prior := r * (width - 1) + c;
        var above :- ReadAt(filtered, x - prior);
        Ok(WrapAdd(fx, above))
    case Average =>
      var left :- if c < bpp + 1 then Ok(0) else ReadAt(filtered, x - bpp - 1 - r);
      var prior :- if r == 0 then Ok(0) else ReadAt(filtered, r * (width - 1) + c);
      var fx :- ReadAt(filtered, x);
      Ok(WrapAdd(fx, (left as int + prior) / 2))
    case Paeth =>
      var topIdx := r * (width - 1) + c;
      var left :- if bpp > x then Ok(0) else ReadAt(filtered, x - bpp - 1 - r);
      var top :- if r == 0 then Ok(0) else ReadAt(filtered, topIdx);
      var topLeft :- if r == 0 || c < bpp + 1 then Ok(0) else ReadAt(filtered, topIdx - bpp);
      var fx :- ReadAt(filtered, x);
      Ok(WrapAdd(fx, PaethPredictor(left, top, topLeft)))
  }

  /** The column loop `for c in 1..width` of one row, from column `c` on. */
  function ColumnsAsWritten(ft: FilterType, filtered: seq<byte>, width: nat, bpp: nat, r: nat, c: nat,
                            data: seq<byte>): (out: Result<seq<byte>>)
    ensures out.Ok? ==> |out.value| == |data| + (if c < width then width - c else 0)
    ensures out.Ok? ==> data <= out.value
    ensures out.Err? ==> out == Err(Truncated)
    decreases width - c
  {
    if c >= width then Ok(data)
    else
      var b :- ArmByte(ft, filtered, data, width, bpp, r, c);
      ColumnsAsWritten(ft, filtered, width, bpp, r, c + 1, data + [b])
  }

  /** The row loop `for r in 0..height`, from row `r` on. The None arm copies the
      slice `r * width + 1 .. r * width + width`, which panics when the stride is 0. */
  function RowsAsWritten(filtered: seq<byte>, width: nat, height: nat, bpp: nat, r: nat,
                         data: seq<byte>): (out: Result<seq<byte>>)
    ensures out.Ok? ==> data <= out.value
    ensures out.Ok? && r <= height ==> |out.value| == |data| + (height - r) * RowBytes(width)
    ensures out.Err? ==> out == Err(Truncated) || out == Err(InvalidFilterType)
    decreases height - r
  {
    if r >= height then Ok(data)
    else
      var fb :- ReadAt(filtered, r * width);
      var ft :- FilterTypeFrom(fb);
      if ft == NoFilter && width == 0 then Err(Truncated)
      else
        var data' :- ColumnsAsWritten(ft, filtered, width, bpp, r, 1, data);
        RowsAsWritten(filtered, width, height, bpp, r + 1, data')
  }

  /** `reverse_filter` as written. */
  function ReverseFilterAsWritten(filtered: seq<byte>, height: nat, bpp: nat): (out: Result<seq<byte>>)
    ensures height == 0 ==> out == Err(ZeroHeight)
  {
    if height == 0 then Err(ZeroHeight)
    else RowsAsWritten(filtered, |filtered| / height, height, bpp, 0, [])
  }

  /** Whatever the stride and column, the Up arm as written adds `filtered[r]`
      to every byte of row `r` (r >= 1), not the raw byte above. */
  lemma UpArmAddsFilteredR(filtered: seq<byte>, data: seq<byte>, width: nat, bpp: nat, r: nat, c: nat)
    requires 1 <= r && 1 <= c < width && r * width + c < |filtered|
    ensures r < |filtered|
    ensures ArmByte(Up, filtered, data, width, bpp, r, c) == Ok(WrapAdd(filtered[r * width + c], filtered[r]))
  {
    assert r * (width - 1) == r * width - r;
  }

  lemma UpAsWritten()
    ensures ReverseFilterAsWritten([0, 10, 20, 2, 5, 5], 2, 1) == Ok([10, 20, 15, 15])
  {
    var f: seq<byte> := [0, 10, 20, 2, 5, 5];
    assert |f| / 2 == 3;
    assert ColumnsAsWritten(NoFilter, f, 3, 1, 0, 1, []) == Ok([10, 20]) by {
      assert ArmByte(NoFilter, f, [], 3, 1, 0, 1) == Ok(10);
      assert ArmByte(NoFilter, f, [10], 3, 1, 0, 2) == Ok(20);
      assert [] + [10] == [10] && [10] + [20] == [10, 20];
    }
    assert ColumnsAsWritten(Up, f, 3, 1, 1, 1, [10, 20]) == Ok([10, 20, 15, 15]) by {
      assert ArmByte(Up, f, [10, 20], 3, 1, 1, 1) == Ok(15);
      assert ArmByte(Up, f, [10, 20, 15], 3, 1, 1, 2) == Ok(15);
      assert [10, 20] + [15] == [10, 20, 15] && [10, 20, 15] + [15] == [10, 20, 15, 15];
    }
    assert RowsAsWritten(f, 3, 2, 1, 1, [10, 20]) == Ok([10, 20, 15, 15]);
  }

  lemma UpDefiltered()
    ensures Defilter([0, 10, 20, 2, 5, 5], 2, 1) == Ok([10, 20, 15, 25])
  {
    var f: seq<byte> := [0, 10, 20, 2, 5, 5];
    var rows: seq<seq<byte>> := [[0, 10, 20], [2, 5, 5]];
    assert |f| / 2 == 3;
    assert Scanlines(f, 3, 2) == rows by {
      var tail: seq<byte> := [2, 5, 5];
      assert f[..3] == rows[0] && f[3..] == tail;
      assert tail[..3] == tail && tail[3..] == [];
      assert Scanlines(tail, 3, 1) == [tail];
    }
    assert Zeros(2) == [0, 0];
    assert UnfilterRows([rows[1]], [10, 20], 1) == Ok([15, 25]) by {
      assert rows[1][1..] == [5, 5] && [rows[1]][1..] == rows[2..];
      assert UnfilterRow(Up, [5, 5], [10, 20], 1) == [15, 25];
      assert [15, 25] + [] == [15, 25];
    }
    assert rows[0][1..] == [10, 20] && rows[1..] == [rows[1]] && rows[0][0] == 0;
    assert UnfilterRow(NoFilter, [10, 20], [0, 0], 1) == [10, 20];
    assert FilterTypeFrom(rows[0][0]) == Ok(NoFilter);
    assert UnfilterRows(rows, [0, 0], 1) == Prefixed([10, 20], UnfilterRows([rows[1]], [10, 20], 1));
    assert [10, 20] + [15, 25] == [10, 20, 15, 25];
    assert UnfilterRows(rows, [0, 0], 1) == Ok([10, 20, 15, 25]);
  }

  /** Up: two rows of stride 3, bpp 1; row 0 unfiltered [10, 20], row 1 Up
      with [5, 5]. The raw row above is [10, 20], so row 1 is [15, 25]; the
      code adds `filtered[1]` = 10 to both bytes and gives [15, 15]. */
  lemma UpReadsWrongByte()
    ensures ReverseFilterAsWritten([0, 10, 20, 2, 5, 5], 2, 1) == Ok([10, 20, 15, 15])
    ensures Defilter([0, 10, 20, 2, 5, 5], 2, 1) == Ok([10, 20, 15, 25])
  {
    UpAsWritten();
    UpDefiltered();
  }

  lemma AverageAsWritten()
    ensures ReverseFilterAsWritten([3, 10, 20], 1, 1) == Ok([10, 21])
  {
    var f: seq<byte> := [3, 10, 20];
    assert |f| / 1 == 3;
    assert ArmByte(Average, f, [], 3, 1, 0, 1) == Ok(10);
    assert ArmByte(Average, f, [10], 3, 1, 0, 2) == Ok(21);
    assert [] + [10] == [10] && [10] + [21] == [10, 21];
    assert ColumnsAsWritten(Average, f, 3, 1, 0, 1, []) == Ok([10, 21]);
  }

  lemma AverageDefiltered()
    ensures Defilter([3, 10, 20], 1, 1) == Ok([10, 25])
  {
    var f: seq<byte> := [3, 10, 20];
    assert |f| / 1 == 3;
    assert Scanlines(f, 3, 1) == [f] by {
      assert f[..3] == f && f[3..] == [];
    }
    assert f[1..] == [10, 20] && Zeros(2) == [0, 0] && [f][1..] == [];
    assert UnfilterRow(Average, [10, 20], [0, 0], 1) == [10, 25];
    assert FilterTypeFrom(f[0]) == Ok(Average);
    assert UnfilterRows([f], [0, 0], 1) == Prefixed([10, 25], UnfilterRows([], [10, 25], 1));
    assert [10, 25] + [] == [10, 25];
    assert Defilter(f, 1, 1) == UnfilterRows([f], [0, 0], 1);
  }

  /** Average: one row of stride 3, bpp 1, filtered [10, 20] with Average. The
      raw left neighbour of the second byte is 10, so it is 20 + 5 = 25; the
      code takes `filtered[0]`, the filter byte 3, as that neighbour and gives
      20 + 1 = 21. */
  lemma AverageReadsFilteredBytes()
    ensures ReverseFilterAsWritten([3, 10, 20], 1, 1) == Ok([10, 21])
    ensures Defilter([3, 10, 20], 1, 1) == Ok([10, 25])
  {
    AverageAsWritten();
    AverageDefiltered();
  }

  /** In row 0 the Paeth guard `bpp > x` lets column `bpp` through, where the
      left index `x - bpp - 1 - r` is -1: some column up to `bpp` fails. */
  lemma {:induction false} PaethFirstRowColumnsFail(filtered: seq<byte>, width: nat, bpp: nat, c: nat,
                                                   data: seq<byte>)
    requires 1 <= c <= bpp < width
    ensures ColumnsAsWritten(Paeth, filtered, width, bpp, 0, c, data).Err?
    decreases bpp - c
  {
    if c < bpp {
      match ArmByte(Paeth, filtered, data, width, bpp, 0, c)
      case Err(_) =>
      case Ok(b) => PaethFirstRowColumnsFail(filtered, width, bpp, c + 1, data + [b]);
    }
  }

  /** As written, an image whose first row is Paeth-filtered is refused
      whenever the stride exceeds `bpp`, that is whenever the row holds a
      whole pixel. */
  lemma PaethFirstRowFails(filtered: seq<byte>, height: nat, bpp: nat)
    requires height >= 1 && bpp >= 1 && |filtered| / height > bpp && |filtered| > 0 && filtered[0] == 4
    ensures ReverseFilterAsWritten(filtered, height, bpp).Err?
  {
    var width := |filtered| / height;
    assert 0 * width == 0;
    PaethFirstRowColumnsFail(filtered, width, bpp, 1, []);
  }

  /** Paeth: one row of stride 2, bpp 1, filtered [7] with Paeth. The byte has
      no neighbours, so it is 7; the guard `bpp > x` lets column 1 through with
      `x` = 1, and the index `x - bpp - 1 - r` falls below zero: a panic. */
  lemma PaethGuardUnderflows()
    ensures ReverseFilterAsWritten([4, 7], 1, 1) == Err(Truncated)
    ensures Defilter([4, 7], 1, 1) == Ok([7])
  {
    var f: seq<byte> := [4, 7];
    assert |f| / 1 == 2;
    assert ArmByte(Paeth, f, [], 2, 1, 0, 1) == Err(Truncated);
    assert Scanlines(f, 2, 1) == [f] by {
      assert f[..2] == f && f[2..] == [];
    }
    assert f[1..] == [7] && Zeros(1) == [0] && [f][1..] == [];
    assert UnfilterRow(Paeth, [7], [0], 1) == [7];
    assert FilterTypeFrom(f[0]) == Ok(Paeth);
    assert UnfilterRows([f], [0], 1) == Prefixed([7], UnfilterRows([], [7], 1));
    assert [7] + [] == [7];
    assert Defilter(f, 1, 1) == UnfilterRows([f], [0], 1);
  }
}
