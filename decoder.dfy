/** `Image::from`: read the chunks until IEND while building the image and
    collecting the IDAT bytes, check the colour type against the bit depth and
    the palette, inflate the collected bytes and undo the scanline filters.

    Reading the file from disk is left out (the decoder starts from its bytes),
    and so is zlib: `inflate` stands for the zlib decoder and yields None when
    the stream cannot be inflated. */
module Decoder {
  import opened PngTypes
  import opened ChunkReader
  import opened Assembler
  import opened Legality
  import opened Scanline
  import opened Trns

  /** The outcome of the chunk loop from the outcome of folding the chunks it
      read and the way the reading ended. A chunk is applied as soon as it is
      read, so a refused chunk is reported even when a later chunk is malformed;
      a reading error is reported only when every chunk before it was accepted. */
  function Finish(fold: Result<Assembly>, end: Result<nat>): (r: Result<Assembly>)
    ensures fold.Err? ==> r == fold
    ensures fold.Ok? ==> (r.Ok? <==> end.Ok?)
    ensures r.Ok? ==> r == fold
  {
    match fold
    case Err(e) => Err(e)
    case Ok(st) =>
      match end
      case Err(e) => Err(e)
      case Ok(_) => Ok(st)
  }

  /** The chunk loop of `Image::from` over a file that starts with the signature. */
  function Assemble(file: seq<byte>): (r: Result<Assembly>)
    requires HasSignature(file)
    ensures r.Ok? ==> Stream(file, 8).end.Ok? && Fold(Initial, Stream(file, 8).chunks) == r
    ensures r.Ok? ==> r.value.compressed == IdatBytes(Stream(file, 8).chunks) && r.value.image.data == []
  {
    var s := Stream(file, 8);
    Finish(Fold(Initial, s.chunks), s.end)
  }

  /** `Image::from` as a function of the file bytes. */
  function Decode(file: seq<byte>, inflate: seq<byte> -> Option<seq<byte>>): (r: Result<Image>)
    ensures |file| < 8 ==> r == Err(Truncated)
    ensures |file| >= 8 && !HasSignature(file) ==> r == Err(SignatureMismatch)
    ensures r.Ok? ==> HasSignature(file) && Assemble(file).Ok?
    ensures r.Ok? ==> ByteIn(r.value.bitDepth, AllowedBitDepths(r.value.colorType))
                      && PaletteRule(r.value.colorType, r.value.bitDepth, r.value.plte)
    ensures r.Ok? ==> r.value == Assemble(file).value.image.(data := r.value.data)
  {
    if |file| < 8 then Err(Truncated)
    else if file[..8] != PngSignature then Err(SignatureMismatch)
    else
      var st :- Assemble(file);
      var image := st.image;
      var legal := CheckLegality(image);
      if legal.Err? then Err(legal.error)
      else
        match inflate(st.compressed)
        case None => Err(DecompressionFailed)
        case Some(filtered) =>
          var pixels :- Defilter(filtered, image.height, BytesPerPixel(image.colorType, image.bitDepth));
          Ok(image.(data := pixels))
  }

  /** The body of the chunk loop, one `match chunk` arm per chunk kind. */
  method ApplyChunk(image: Image, compressed: seq<byte>, chunk: Chunk) returns (r: Result<Assembly>)
    ensures r == Step(Assembly(image, compressed), chunk)
  {
    var image := image;
    var compressed := compressed;
    match chunk {
      case Iend =>
      case Ihdr(h) =>
        image := image.(width := h.width, height := h.height, bitDepth := h.bitDepth,
                        colorType := h.colorType, interlaced := h.interlaced);
      case Plte(entries) =>
        if image.plte.Some? {
          return Err(DuplicatePlte);
        }
        if image.background.Some? {
          return Err(BkgdBeforePlte);
        }
        image := image.(plte := Some(entries));
      case Idat(d) =>
        compressed := compressed + d;
      case Bkgd(bg) =>
        if compressed != [] {
          return Err(BkgdAfterIdat);
        }
        if !BackgroundMatches(image.colorType, bg) {
          return Err(BkgdColorMismatch);
        }
        image := image.(background := Some(bg));
      case Trns(d) =>
        var t: Result<Transparency>;
        match image.colorType {
          case PaletteIndex =>
            if image.plte.None? {
              return Err(MissingPlteForTrns);
            }
            t := ForIndexedColor(d, |image.plte.value|);
          case Greyscale =>
            t := ForGrayscale(d);
          case Rgb =>
            t := ForRgb(d);
          case GreyscaleAlpha =>
            return Err(TrnsForbidden);
          case Rgba =>
            return Err(TrnsForbidden);
        }
        if t.Err? {
          return Err(t.error);
        }
        image := image.(transparency := Some(t.value));
      case Chrm =>
      case Gama =>
      case Hist =>
      case Phys =>
      case Sbit =>
      case Text =>
      case Time =>
      case Ztxt =>
    }
    return Ok(Assembly(image, compressed));
  }

  /** Reading one more chunk (not IEND) and applying it takes the loop from one
      state of `Finish(Fold(...), ...)` to the next. */
  lemma StreamStep(file: seq<byte>, offset: nat, st: Assembly)
    requires offset <= |file| && ParseChunkAt(file, offset).Ok?
    requires !ParseChunkAt(file, offset).value.0.Iend?
    requires Step(st, ParseChunkAt(file, offset).value.0).Ok?
    ensures var (c, next) := ParseChunkAt(file, offset).value;
            var s := Stream(file, offset);
            var s' := Stream(file, next);
            Finish(Fold(st, s.chunks), s.end) == Finish(Fold(Step(st, c).value, s'.chunks), s'.end)
  {
    var (c, next) := ParseChunkAt(file, offset).value;
    var s' := Stream(file, next);
    assert Stream(file, offset).chunks == [c] + s'.chunks;
    assert ([c] + s'.chunks)[1..] == s'.chunks;
  }

  /** `Image::from`: the chunk loop, the legality check, inflation and
      `reverse_filter`, in the source's order. */
  method ImageFrom(file: seq<byte>, inflate: seq<byte> -> Option<seq<byte>>) returns (r: Result<Image>)
    ensures r == Decode(file, inflate)
  {
    var helper := ImageHelper.From(file);
    if helper.Err? {
      return Err(helper.error);
    }
    var chunks := helper.value;
    var image := EmptyImage;
    var compressed: seq<byte> := [];
    while true
      invariant chunks.data == file && 8 <= chunks.offset <= |file|
      invariant HasSignature(file)
      invariant Finish(Fold(Assembly(image, compressed), Stream(file, chunks.offset).chunks),
                       Stream(file, chunks.offset).end)
                == Assemble(file)
      decreases |file| - chunks.offset
    {
      ghost var offset := chunks.offset;
      var next := chunks.Next();
      if next.Err? {
        return Err(next.error);
      }
      if next.value.None? {
        break;
      }
      var chunk := next.value.value;
      var st := ApplyChunk(image, compressed, chunk);
      if st.Err? {
        assert Stream(file, offset).chunks[0] == chunk;
        return Err(st.error);
      }
      StreamStep(file, offset, Assembly(image, compressed));
      image, compressed := st.value.image, st.value.compressed;
    }
    assert Assemble(file) == Ok(Assembly(image, compressed));
    var legal := CheckLegality(image);
    if legal.Err? {
      return Err(legal.error);
    }
    var filtered := inflate(compressed);
    if filtered.None? {
      return Err(DecompressionFailed);
    }
    var pixels := ReverseFilter(filtered.value, image.height, BytesPerPixel(image.colorType, image.bitDepth));
    if pixels.Err? {
      return Err(pixels.error);
    }
    image := image.(data := image.data + pixels.value);
    assert image.data == pixels.value;
    return Ok(image);
  }

  /** The pixels of a decoded image are the IDAT payloads of the stream,
      concatenated, inflated and defiltered; there are `height` rows of one
      byte less than the stride each. */
  lemma DecodedPixels(file: seq<byte>, inflate: seq<byte> -> Option<seq<byte>>)
    requires Decode(file, inflate).Ok?
    ensures var image := Decode(file, inflate).value;
            var filtered := inflate(IdatBytes(Stream(file, 8).chunks));
            && filtered.Some?
            && Defilter(filtered.value, image.height, BytesPerPixel(image.colorType, image.bitDepth))
               == Ok(image.data)
            && |image.data| == image.height * RowBytes(|filtered.value| / image.height)
  {
    var image := Decode(file, inflate).value;
    var st := Assemble(file).value;
    var filtered := inflate(st.compressed);
    DefilterLength(filtered.value, image.height, BytesPerPixel(image.colorType, image.bitDepth));
  }

  /** A well-formed file is decoded: when the chunk loop and the legality check
      accept it and the IDAT bytes inflate to a writer's filtering of `height`
      equally long raw rows, the image is the assembled image holding exactly
      those rows. */
  lemma DecodeOfFilteredRows(file: seq<byte>, inflate: seq<byte> -> Option<seq<byte>>,
                             fts: seq<FilterType>, raws: seq<seq<byte>>, n: nat)
    requires HasSignature(file) && Assemble(file).Ok?
    requires var img := Assemble(file).value.image;
             && CheckLegality(img).Ok?
             && |fts| == |raws| == img.height as int >= 1
             && (forall i :: 0 <= i < |raws| ==> |raws[i]| == n)
             && inflate(Assemble(file).value.compressed)
                == Some(Concat(FilterRows(fts, raws, Zeros(n), BytesPerPixel(img.colorType, img.bitDepth))))
    ensures Decode(file, inflate) == Ok(Assemble(file).value.image.(data := Concat(raws)))
  {
    var img := Assemble(file).value.image;
    DefilterInvertsFiltering(fts, raws, n, BytesPerPixel(img.colorType, img.bitDepth));
  }

  /** A file whose chunk stream holds two PLTE chunks is refused. */
  lemma TwoPaletteFileRejected(file: seq<byte>, inflate: seq<byte> -> Option<seq<byte>>, i: nat, j: nat)
    requires HasSignature(file)
    requires i < j < |Stream(file, 8).chunks|
    requires Stream(file, 8).chunks[i].Plte? && Stream(file, 8).chunks[j].Plte?
    ensures Decode(file, inflate).Err?
  {
    SecondPlteRejected(Initial, Stream(file, 8).chunks, i, j);
  }

  /** A file whose chunk stream has a PLTE after a bKGD is refused. */
  lemma PaletteAfterBackgroundFileRejected(file: seq<byte>, inflate: seq<byte> -> Option<seq<byte>>,
                                           i: nat, j: nat)
    requires HasSignature(file)
    requires i < j < |Stream(file, 8).chunks|
    requires Stream(file, 8).chunks[i].Bkgd? && Stream(file, 8).chunks[j].Plte?
    ensures Decode(file, inflate).Err?
  {
    PlteAfterBkgdRejected(Initial, Stream(file, 8).chunks, i, j);
  }

  /** A file whose chunk stream has a bKGD after an IDAT with data is refused. */
  lemma BackgroundAfterDataFileRejected(file: seq<byte>, inflate: seq<byte> -> Option<seq<byte>>,
                                        i: nat, j: nat)
    requires HasSignature(file)
    requires i < j < |Stream(file, 8).chunks|
    requires Stream(file, 8).chunks[i].Idat? && Stream(file, 8).chunks[i].compressed != []
    requires Stream(file, 8).chunks[j].Bkgd?
    ensures Decode(file, inflate).Err?
  {
    BkgdAfterDataRejected(Initial, Stream(file, 8).chunks, i, j);
  }

  /** Past the signature, the decoder sees the file only through the chunk loop. */
  lemma DecodeThroughAssemble(file: seq<byte>, file': seq<byte>, inflate: seq<byte> -> Option<seq<byte>>)
    requires HasSignature(file) && HasSignature(file') && Assemble(file) == Assemble(file')
    ensures Decode(file, inflate) == Decode(file', inflate)
  {
  }

  /** The decoder never looks past the IEND chunk: whatever follows it, the
      result is the same. */
  lemma TrailingBytesIgnored(file: seq<byte>, inflate: seq<byte> -> Option<seq<byte>>, junk: seq<byte>)
    requires HasSignature(file) && Stream(file, 8).end.Ok?
    ensures Decode(file[..Stream(file, 8).end.value] + junk, inflate) == Decode(file, inflate)
  {
    var e := Stream(file, 8).end.value;
    var file' := file[..e] + junk;
    assert file'[..8] == file[..8];
    StreamStopsAtIend(file, 8, junk);
    DecodeThroughAssemble(file', file, inflate);
  }
}
