/** The body of the chunk loop of `Image::from`: how each chunk changes the
    image being built and the collected IDAT bytes, and which arrivals are
    refused. IHDR is neither required first nor unique: a later IHDR simply
    overwrites the header fields. */
module Assembler {
  import opened PngTypes
  import opened Trns
  import opened ChunkDecode

  /** The loop's state: the image so far and the IDAT bytes collected so far. */
  datatype Assembly = Assembly(image: Image, compressed: seq<byte>)

  const Initial: Assembly := Assembly(EmptyImage, [])

  /** The bKGD variant that suits each colour type: a palette index for
      indexed images, a grey level for the greyscale types, an RGB triple for
      the RGB types. So a suitable bKGD payload has 1, 2 or 6 bytes as the
      colour type is indexed, grey or RGB. */
  predicate BackgroundMatches(ct: ColorType, bg: Background): (b: bool)
    ensures b <==> || (bg.BgPaletteIndex? && ct == PaletteIndex)
                   || (bg.BgGreyscale? && (ct == Greyscale || ct == GreyscaleAlpha))
                   || (bg.BgRgb? && (ct == Rgb || ct == Rgba))
    ensures b ==> (bg.BgPaletteIndex? <==> ct == PaletteIndex)
    ensures b ==> (bg.BgGreyscale? <==> ct == Greyscale || ct == GreyscaleAlpha)
    ensures b ==> (bg.BgRgb? <==> ct == Rgb || ct == Rgba)
    ensures b ==> |BackgroundBytes(bg)|
                  == (if ct == PaletteIndex then 1 else if ct == Greyscale || ct == GreyscaleAlpha then 2 else 6)
  {
    match bg
    case BgPaletteIndex(_) => ct == PaletteIndex
    case BgGreyscale(_) => ct == Greyscale || ct == GreyscaleAlpha
    case BgRgb(_, _, _) => ct == Rgb || ct == Rgba
  }

  /** The tRNS arm: the payload is read against the colour type seen so far. An
      indexed image needs its PLTE first (the source's `expect` panics otherwise). */
  function TrnsFor(image: Image, d: seq<byte>): (r: Result<Transparency>)
    ensures image.colorType == GreyscaleAlpha || image.colorType == Rgba ==> r == Err(TrnsForbidden)
    ensures image.colorType == PaletteIndex && image.plte.None? ==> r == Err(MissingPlteForTrns)
    ensures image.colorType == PaletteIndex && image.plte.Some? ==>
              r == IndexedTransparency(d, |image.plte.value|)
    ensures image.colorType == Greyscale ==> r == ForGrayscale(d)
    ensures image.colorType == Rgb ==> r == ForRgb(d)
  {
    match image.colorType
    case PaletteIndex =>
      if image.plte.None? then Err(MissingPlteForTrns)
      else IndexedTransparency(d, |image.plte.value|)
    case Greyscale => ForGrayscale(d)
    case Rgb => ForRgb(d)
    case GreyscaleAlpha => Err(TrnsForbidden)
    case Rgba => Err(TrnsForbidden)
  }

  /** One pass of the chunk loop. IEND never reaches it (the reader stops
      there), so it is treated as changing nothing. */
  function Step(st: Assembly, c: Chunk): (r: Result<Assembly>)
    ensures r.Ok? ==> r.value.compressed == st.compressed + (if c.Idat? then c.compressed else [])
    ensures r.Ok? && st.image.plte.Some? ==> r.value.image.plte == st.image.plte
    ensures r.Ok? && st.image.background.Some? ==> r.value.image.background.Some?
    ensures r.Ok? ==> r.value.image.data == st.image.data
    ensures c.Plte? ==> (r.Ok? <==> st.image.plte.None? && st.image.background.None?)
    ensures c.Plte? && st.image.plte.Some? ==> r == Err(DuplicatePlte)
    ensures c.Plte? && r.Ok? ==> r.value == st.(image := st.image.(plte := Some(c.entries)))
    ensures c.Bkgd? ==>
              (r.Ok? <==> st.compressed == [] && BackgroundMatches(st.image.colorType, c.background))
    ensures c.Bkgd? && st.compressed != [] ==> r == Err(BkgdAfterIdat)
    ensures c.Bkgd? && r.Ok? ==> r.value == st.(image := st.image.(background := Some(c.background)))
    ensures c.Trns? ==> (r.Ok? <==> TrnsFor(st.image, c.trnsBytes).Ok?)
    ensures c.Trns? && r.Ok? ==>
              r.value == st.(image := st.image.(transparency := Some(TrnsFor(st.image, c.trnsBytes).value)))
    ensures c.Ihdr? ==>
              && r.Ok?
              && r.value.image.width == c.header.width && r.value.image.height == c.header.height
              && r.value.image.bitDepth == c.header.bitDepth
              && r.value.image.colorType == c.header.colorType
              && r.value.image.interlaced == c.header.interlaced
              && r.value.image.plte == st.image.plte
              && r.value.image.background == st.image.background
              && r.value.image.transparency == st.image.transparency
              && r.value.image.data == st.image.data
              && r.value.compressed == st.compressed
    ensures !(c.Ihdr? || c.Plte? || c.Bkgd? || c.Trns?) ==> r.Ok? && r.value.image == st.image
  {
    var image := st.image;
    match c
    case Iend => Ok(st)
    case Ihdr(h) =>
      Ok(st.(image := image.(width := h.width, height := h.height, bitDepth := h.bitDepth,
                             colorType := h.colorType, interlaced := h.interlaced)))
    case Plte(entries) =>
      if image.plte.Some? then Err(DuplicatePlte)
      else if image.background.Some? then Err(BkgdBeforePlte)
      else Ok(st.(image := image.(plte := Some(entries))))
    case Idat(d) => Ok(st.(compressed := st.compressed + d))
    case Bkgd(bg) =>
      if st.compressed != [] then Err(BkgdAfterIdat)
      else if !BackgroundMatches(image.colorType, bg) then Err(BkgdColorMismatch)
      else Ok(st.(image := image.(background := Some(bg))))
    case Trns(d) =>
      var t :- TrnsFor(image, d);
      Ok(st.(image := image.(transparency := Some(t))))
    case Chrm => Ok(st)
    case Gama => Ok(st)
    case Hist => Ok(st)
    case Phys => Ok(st)
    case Sbit => Ok(st)
    case Text => Ok(st)
    case Time => Ok(st)
    case Ztxt => Ok(st)
  }

  /** The IDAT payloads of a chunk sequence, concatenated in order. */
  function IdatBytes(cs: seq<Chunk>): seq<byte> {
    if cs == [] then []
    else (if cs[0].Idat? then cs[0].compressed else []) + IdatBytes(cs[1..])
  }

  /** The chunk loop over a sequence of chunks, stopping at the first refusal.
      The collected bytes are the IDAT payloads appended in stream order. */
  function Fold(st: Assembly, cs: seq<Chunk>): (r: Result<Assembly>)
    ensures r.Ok? ==> r.value.compressed == st.compressed + IdatBytes(cs)
    ensures r.Ok? ==> r.value.image.data == st.image.data
    decreases |cs|
  {
    if cs == [] then Ok(st)
    else
      match Step(st, cs[0])
      case Err(e) => Err(e)
      case Ok(next) => Fold(next, cs[1..])
  }

  /** Once a palette is stored, any later PLTE is refused. */
  lemma {:induction false} PlteSetRejectsPlte(st: Assembly, cs: seq<Chunk>, j: nat)
    requires st.image.plte.Some? && j < |cs| && cs[j].Plte?
    ensures Fold(st, cs).Err?
    decreases |cs|
  {
    if j > 0 {
      match Step(st, cs[0])
      case Err(_) =>
      case Ok(next) => PlteSetRejectsPlte(next, cs[1..], j - 1);
    }
  }

  /** Once a background is stored, any later PLTE is refused. */
  lemma {:induction false} BkgdSetRejectsPlte(st: Assembly, cs: seq<Chunk>, j: nat)
    requires st.image.background.Some? && j < |cs| && cs[j].Plte?
    ensures Fold(st, cs).Err?
    decreases |cs|
  {
    if j > 0 {
      match Step(st, cs[0])
      case Err(_) =>
      case Ok(next) => BkgdSetRejectsPlte(next, cs[1..], j - 1);
    }
  }

  /** Once some image data has been collected, any later bKGD is refused. */
  lemma {:induction false} DataRejectsBkgd(st: Assembly, cs: seq<Chunk>, j: nat)
    requires st.compressed != [] && j < |cs| && cs[j].Bkgd?
    ensures Fold(st, cs).Err?
    decreases |cs|
  {
    if j > 0 {
      match Step(st, cs[0])
      case Err(_) =>
      case Ok(next) => DataRejectsBkgd(next, cs[1..], j - 1);
    }
  }

  /** A second PLTE is refused. */
  lemma {:induction false} SecondPlteRejected(st: Assembly, cs: seq<Chunk>, i: nat, j: nat)
    requires i < j < |cs| && cs[i].Plte? && cs[j].Plte?
    ensures Fold(st, cs).Err?
    decreases |cs|
  {
    match Step(st, cs[0])
    case Err(_) =>
    case Ok(next) =>
      if i == 0 {
        PlteSetRejectsPlte(next, cs[1..], j - 1);
      } else {
        SecondPlteRejected(next, cs[1..], i - 1, j - 1);
      }
  }

  /** A PLTE after a bKGD is refused. */
  lemma {:induction false} PlteAfterBkgdRejected(st: Assembly, cs: seq<Chunk>, i: nat, j: nat)
    requires i < j < |cs| && cs[i].Bkgd? && cs[j].Plte?
    ensures Fold(st, cs).Err?
    decreases |cs|
  {
    match Step(st, cs[0])
    case Err(_) =>
    case Ok(next) =>
      if i == 0 {
        BkgdSetRejectsPlte(next, cs[1..], j - 1);
      } else {
        PlteAfterBkgdRejected(next, cs[1..], i - 1, j - 1);
      }
  }

  /** A bKGD after an IDAT that carried bytes is refused. */
  lemma {:induction false} BkgdAfterDataRejected(st: Assembly, cs: seq<Chunk>, i: nat, j: nat)
    requires i < j < |cs| && cs[i].Idat? && cs[i].compressed != [] && cs[j].Bkgd?
    ensures Fold(st, cs).Err?
    decreases |cs|
  {
    match Step(st, cs[0])
    case Err(_) =>
    case Ok(next) =>
      if i == 0 {
        DataRejectsBkgd(next, cs[1..], j - 1);
      } else {
        BkgdAfterDataRejected(next, cs[1..], i - 1, j - 1);
      }
  }

  /** What blocks a bKGD is collected data, not an IDAT as such: after an
      empty IDAT a suitable bKGD is still accepted. */
  lemma EmptyIdatAllowsBkgd(st: Assembly, bg: Background)
    requires st.compressed == [] && BackgroundMatches(st.image.colorType, bg)
    ensures Fold(st, [Idat([]), Bkgd(bg)]).Ok?
  {
    var mid := Step(st, Idat([])).value;
    assert [Idat([]), Bkgd(bg)][1..] == [Bkgd(bg)];
    assert Fold(mid, [Bkgd(bg)]) == Step(mid, Bkgd(bg));
  }
}
