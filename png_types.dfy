/** Values shared by every stage of the PNG decoder: machine integers, the
    error kinds the decoder can report, and the records that chunks decode to. */
module PngTypes {

  /** An unsigned 8-bit value (Rust `u8`). */
  type byte = x: int | 0 <= x < 0x100

  /** An unsigned 16-bit value (Rust `u16`). */
  type u16 = x: int | 0 <= x < 0x1_0000

  /** An unsigned 32-bit value (Rust `u32`). */
  type u32 = x: int | 0 <= x < 0x1_0000_0000

  /** Why a decode stopped. Every `pngerr!` message of the source has its own
      constructor; the source's panics (slice or index past the end of a buffer,
      the signature assertion, the `expect` on a missing palette, the division
      by a zero height) are reported as errors too. */
  datatype Error =
    | Truncated                         // a slice or index past the end of a buffer
    | SignatureMismatch                 // the first 8 bytes are not the PNG signature
    | InvalidChunk(payload: seq<byte>)  // tag outside the allow-list; the message shows the payload
    | InvalidPlteChunk                  // PLTE length not a multiple of 3
    | IendNotEmpty                      // IEND with a payload
    | InvalidBkgdChunk                  // bKGD length not 1, 2 or 6
    | InvalidColorType                  // IHDR colour byte not 0, 2, 3, 4 or 6
    | DuplicatePlte                     // a second PLTE chunk
    | BkgdBeforePlte                    // a PLTE chunk after a bKGD chunk
    | BkgdAfterIdat                     // a bKGD chunk once image data has been collected
    | BkgdColorMismatch                 // bKGD variant does not suit the colour type
    | MissingPlteForTrns                // tRNS on an indexed image before any PLTE
    | TrnsTooLong                       // tRNS with more entries than the palette
    | InvalidTrnsChunk                  // tRNS of the wrong length for grey or RGB
    | TrnsForbidden                     // tRNS on an image with an alpha channel
    | IllegalBitDepth                   // bit depth not allowed for the colour type
    | PlteForbidden                     // PLTE on a greyscale image
    | PlteMissing                       // no PLTE on an indexed image
    | PlteTooLong                       // more palette entries than 2^bit depth
    | DecompressionFailed               // the zlib stream could not be inflated
    | InvalidFilterType                 // scanline filter byte above 4
    | ZeroHeight                        // height 0: the stride computation divides by it

  datatype Result<T> = Ok(value: T) | Err(error: Error) {
    predicate IsFailure() { Err? }
    function PropagateFailure<U>(): Result<U> requires Err? { Err(error) }
    function Extract(): T requires Ok? { value }
  }

  datatype Option<T> = None | Some(value: T)

  /** The five colour types of section 4.1.1 of RFC 2083. */
  datatype ColorType = Greyscale | Rgb | PaletteIndex | GreyscaleAlpha | Rgba

  /** One palette entry (section 4.1.2 of RFC 2083). */
  datatype PlteEntry = PlteEntry(red: byte, green: byte, blue: byte)

  /** The background colour of a bKGD chunk (section 4.2.1 of RFC 2083). */
  datatype Background =
    | BgPaletteIndex(index: byte)
    | BgGreyscale(grey: u16)
    | BgRgb(red: u16, green: u16, blue: u16)

  /** Simple transparency from a tRNS chunk (section 4.2.9 of RFC 2083). */
  datatype Transparency =
    | TrnsPaletteIndex(alphas: seq<byte>)
    | TrnsGreyscale(greyKey: u16)
    | TrnsRgb(redKey: u16, greenKey: u16, blueKey: u16)

  /** The fields of an IHDR chunk that the decoder keeps. */
  datatype IhdrData = IhdrData(width: u32, height: u32, bitDepth: byte,
                               colorType: ColorType, interlaced: bool)

  /** One decoded chunk: a constructor per tag of the allow-list. */
  datatype Chunk =
    | Ihdr(header: IhdrData)
    | Plte(entries: seq<PlteEntry>)
    | Idat(compressed: seq<byte>)
    | Iend
    | Bkgd(background: Background)
    | Chrm
    | Gama
    | Hist
    | Phys
    | Sbit
    | Text
    | Time
    | Trns(trnsBytes: seq<byte>)
    | Ztxt

  /** The decoded image. */
  datatype Image = Image(
    width: u32,
    height: u32,
    bitDepth: byte,
    colorType: ColorType,
    interlaced: bool,
    data: seq<byte>,
    plte: Option<seq<PlteEntry>>,
    background: Option<Background>,
    transparency: Option<Transparency>)

  /** The image the assembler starts from before any chunk is read. */
  const EmptyImage: Image :=
    Image(0, 0, 0, Greyscale, false, [], None, None, None)
}
