/** The check `Image::from` runs once every chunk has been read: which bit
    depths each colour type allows and whether it needs, allows or forbids a
    palette (sections 4.1.1 and 4.1.2 of RFC 2083). */
module Legality {
  import opened PngTypes

  function Pow2(k: nat): (p: nat)
    ensures p >= 1
  {
    if k == 0 then 1 else 2 * Pow2(k - 1)
  }

  /** The legal bit depths, colour type by colour type. */
  function AllowedBitDepths(ct: ColorType): set<int> {
    match ct
    case Greyscale => {1, 2, 4, 8, 16}
    case GreyscaleAlpha => {8, 16}
    case PaletteIndex => {1, 2, 4, 8}
    case Rgb => {8, 16}
    case Rgba => {8, 16}
  }

  /** Greyscale types must have no palette; an indexed image must have one
      with at most 2^bit depth entries; RGB types may have one of any size. */
  predicate PaletteRule(ct: ColorType, bitDepth: byte, plte: Option<seq<PlteEntry>>) {
    match ct
    case Greyscale => plte.None?
    case GreyscaleAlpha => plte.None?
    case PaletteIndex => plte.Some? && |plte.value| <= Pow2(bitDepth)
    case Rgb => true
    case Rgba => true
  }

  predicate ByteIn(b: byte, s: set<int>) { b as int in s }

  /** The final `match image.color_type` of `Image::from`. The bit depth is
      checked before the palette, so it is what an image failing both reports. */
  function CheckLegality(image: Image): (r: Result<()>)
    ensures r.Ok? <==> ByteIn(image.bitDepth, AllowedBitDepths(image.colorType))
                       && PaletteRule(image.colorType, image.bitDepth, image.plte)
    ensures !ByteIn(image.bitDepth, AllowedBitDepths(image.colorType)) ==> r == Err(IllegalBitDepth)
  {
    var bd := image.bitDepth;
    match image.colorType
    case Greyscale =>
      if !(bd == 1 || bd == 2 || bd == 4 || bd == 8 || bd == 16) then Err(IllegalBitDepth)
      else if image.plte.Some? then Err(PlteForbidden)
      else Ok(())
    case GreyscaleAlpha =>
      if !(bd == 8 || bd == 16) then Err(IllegalBitDepth)
      else if image.plte.Some? then Err(PlteForbidden)
      else Ok(())
    case PaletteIndex =>
      if !(bd == 1 || bd == 2 || bd == 4 || bd == 8) then Err(IllegalBitDepth)
      else if image.plte.None? then Err(PlteMissing)
      else if |image.plte.value| > Pow2(bd) then Err(PlteTooLong)
      else Ok(())
    case Rgb =>
      if !(bd == 8 || bd == 16) then Err(IllegalBitDepth) else Ok(())
    case Rgba =>
      if !(bd == 8 || bd == 16) then Err(IllegalBitDepth) else Ok(())
  }

  /** The palette bound of an indexed image for each of its legal depths:
      2, 4, 16 and 256 entries. */
  lemma PaletteBounds()
    ensures Pow2(1) == 2 && Pow2(2) == 4 && Pow2(4) == 16 && Pow2(8) == 256
  {
  }
}
