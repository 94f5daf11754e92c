/** The `Transparancy::for_*` constructors: a tRNS payload read against the
    colour type of the image (section 4.2.9 of RFC 2083). */
module Trns {
  import opened PngTypes
  import opened BigEndian

  /** A greyscale image's tRNS holds exactly one 16-bit grey key. */
  function ForGrayscale(d: seq<byte>): (r: Result<Transparency>)
    ensures r.Ok? <==> |d| == 2
    ensures r.Ok? ==> r.value.TrnsGreyscale? && Be16Bytes(r.value.greyKey) == d
    ensures !r.Ok? ==> r == Err(InvalidTrnsChunk)
  {
    if |d| != 2 then Err(InvalidTrnsChunk)
    else
      Be16Injective(d[0], d[1]);
      Ok(TrnsGreyscale(Be16(d[0], d[1])))
  }

  /** An RGB image's tRNS holds exactly three 16-bit keys: red, green, blue. */
  function ForRgb(d: seq<byte>): (r: Result<Transparency>)
    ensures r.Ok? <==> |d| == 6
    ensures r.Ok? ==>
              r.value.TrnsRgb?
              && Be16Bytes(r.value.redKey) + Be16Bytes(r.value.greenKey) + Be16Bytes(r.value.blueKey) == d
    ensures !r.Ok? ==> r == Err(InvalidTrnsChunk)
  {
    if |d| != 6 then Err(InvalidTrnsChunk)
    else
      Be16Injective(d[0], d[1]);
      Be16Injective(d[2], d[3]);
      Be16Injective(d[4], d[5]);
      Ok(TrnsRgb(Be16(d[0], d[1]), Be16(d[2], d[3]), Be16(d[4], d[5])))
  }

  /** An indexed image's tRNS gives one alpha per palette entry: it is refused
      when longer than the palette, and entries it leaves out are opaque (255). */
  function IndexedTransparency(d: seq<byte>, plteLen: nat): (r: Result<Transparency>)
    ensures r.Ok? <==> |d| <= plteLen
    ensures !r.Ok? ==> r == Err(TrnsTooLong)
    ensures r.Ok? ==>
              r.value.TrnsPaletteIndex? && |r.value.alphas| == plteLen
              && r.value.alphas[..|d|] == d
              && forall i :: |d| <= i < plteLen ==> r.value.alphas[i] == 255
  {
    if |d| > plteLen then Err(TrnsTooLong)
    else Ok(TrnsPaletteIndex(d + seq(plteLen - |d|, _ => 255)))
  }

  /** `Transparancy::for_indexed_color`, which appends 255 once per missing entry. */
  method ForIndexedColor(d: seq<byte>, plteLen: nat) returns (r: Result<Transparency>)
    ensures r == IndexedTransparency(d, plteLen)
  {
    if |d| > plteLen {
      return Err(TrnsTooLong);
    }
    var entries := d;
    for i := |d| to plteLen
      invariant |entries| == i
      invariant entries[..|d|] == d
      invariant forall k :: |d| <= k < i ==> entries[k] == 255
    {
      entries := entries + [255];
    }
    assert entries == d + seq(plteLen - |d|, _ => 255);
    return Ok(TrnsPaletteIndex(entries));
  }
}
