/** The per-chunk decoders: the tag allow-list, IHDR (section 4.1.1 of RFC 2083),
    PLTE (4.1.2), IEND (4.1.4) and bKGD (4.2.1). Every other allowed chunk is
    either passed on as bytes (IDAT, tRNS) or recognised and dropped. */
module ChunkDecode {
  import opened PngTypes
  import opened BigEndian

  /** A four-character chunk tag. */
  type TagChars = (char, char, char, char)

  /** One byte of a tag as `String::from_utf8_lossy` turns it into text. Only
      the ASCII bytes of a tag can match an allowed tag, so every byte from 0x80
      up stands for a replacement character. */
  function Lossy(b: byte): char {
    if b < 0x80 then b as char else '\U{FFFD}'
  }

  /** The tags of the allow-list. */
  const TagIHDR: TagChars := ('I', 'H', 'D', 'R')
  const TagPLTE: TagChars := ('P', 'L', 'T', 'E')
  const TagIDAT: TagChars := ('I', 'D', 'A', 'T')
  const TagIEND: TagChars := ('I', 'E', 'N', 'D')
  const TagbKGD: TagChars := ('b', 'K', 'G', 'D')
  const TagcHRM: TagChars := ('c', 'H', 'R', 'M')
  const TaggAMA: TagChars := ('g', 'A', 'M', 'A')
  const TaghIST: TagChars := ('h', 'I', 'S', 'T')
  const TagpHYs: TagChars := ('p', 'H', 'Y', 's')
  const TagsBIT: TagChars := ('s', 'B', 'I', 'T')
  const TagtEXt: TagChars := ('t', 'E', 'X', 't')
  const TagtIME: TagChars := ('t', 'I', 'M', 'E')
  const TagtRNS: TagChars := ('t', 'R', 'N', 'S')
  const TagzTXT: TagChars := ('z', 'T', 'X', 'T')

  /** The tag as the source compares it against the allowed names. */
  function TagName(tag: seq<byte>): TagChars
    requires |tag| == 4
  {
    (Lossy(tag[0]), Lossy(tag[1]), Lossy(tag[2]), Lossy(tag[3]))
  }

  /** The fourteen tags the reader accepts. The compressed-text tag is spelled
      "zTXT" here exactly as the source spells it. */
  const ChunkTags: set<TagChars> :=
    {TagIHDR, TagPLTE, TagIDAT, TagIEND, TagbKGD, TagcHRM, TaggAMA,
     TaghIST, TagpHYs, TagsBIT, TagtEXt, TagtIME, TagtRNS, TagzTXT}

  /** The tag that each kind of chunk is read from. */
  function ChunkTag(c: Chunk): TagChars {
    match c
    case Ihdr(_) => TagIHDR
    case Plte(_) => TagPLTE
    case Idat(_) => TagIDAT
    case Iend => TagIEND
    case Bkgd(_) => TagbKGD
    case Chrm => TagcHRM
    case Gama => TaggAMA
    case Hist => TaghIST
    case Phys => TagpHYs
    case Sbit => TagsBIT
    case Text => TagtEXt
    case Time => TagtIME
    case Trns(_) => TagtRNS
    case Ztxt => TagzTXT
  }

  // ---------------------------------------------------------------- IHDR

  /** The colour type stored in IHDR byte 9. */
  function ColorTypeFrom(b: byte): (r: Option<ColorType>)
    ensures r.Some? <==> b == 0 || b == 2 || b == 3 || b == 4 || b == 6
    ensures r.Some? ==> ColorTypeCode(r.value) == b
  {
    match b
    case 0 => Some(Greyscale)
    case 2 => Some(Rgb)
    case 3 => Some(PaletteIndex)
    case 4 => Some(GreyscaleAlpha)
    case 6 => Some(Rgba)
    case _ => None
  }

  /** The byte that stores a colour type; the inverse of ColorTypeFrom. */
  function ColorTypeCode(ct: ColorType): byte {
    match ct
    case Greyscale => 0
    case Rgb => 2
    case PaletteIndex => 3
    case GreyscaleAlpha => 4
    case Rgba => 6
  }

  lemma ColorTypeCodeInverse(b: byte, ct: ColorType)
    ensures ColorTypeFrom(b) == Some(ct) <==> ColorTypeCode(ct) == b
  {
  }

  /** `IHDRData::from`: the fields are read in order, so a payload too short for
      bytes 0..9 fails first, then an unknown colour byte, then a payload too
      short for byte 12. Bytes 10 and 11 (compression and filter method) are
      not looked at, nor is anything past byte 12. */
  function DecodeIhdr(p: seq<byte>): (r: Result<IhdrData>)
    ensures r.Ok? <==> |p| >= 13 && ColorTypeFrom(p[9]).Some?
    ensures |p| < 10 ==> r == Err(Truncated)
    ensures |p| >= 10 && ColorTypeFrom(p[9]).None? ==> r == Err(InvalidColorType)
  {
    if |p| < 10 then Err(Truncated)
    else
      match ColorTypeFrom(p[9])
      case None => Err(InvalidColorType)
      case Some(ct) =>
        if |p| < 13 then Err(Truncated)
        else Ok(IhdrData(Be32(p[0..4]), Be32(p[4..8]), p[8], ct, p[12] == 1))
  }

  /** A 13-byte IHDR payload describing `h`, with compression, filter and
      interlace method bytes as a writer would store them. */
  function IhdrBytes(h: IhdrData): (p: seq<byte>)
    ensures |p| == 13
  {
    Be32Bytes(h.width) + Be32Bytes(h.height)
      + [h.bitDepth, ColorTypeCode(h.colorType), 0, 0, if h.interlaced then 1 else 0]
  }

  lemma IhdrRoundTrip(h: IhdrData)
    ensures DecodeIhdr(IhdrBytes(h)) == Ok(h)
  {
    var p := IhdrBytes(h);
    assert p[0..4] == Be32Bytes(h.width);
    assert p[4..8] == Be32Bytes(h.height);
    Be32RoundTrip(h.width);
    Be32RoundTrip(h.height);
  }

  /** What a decoded header says about its payload: width and height are the
      big-endian words at offsets 0 and 4, the bit depth is byte 8, the colour
      type is coded by byte 9, and the image is interlaced exactly when byte
      12 is 1. */
  lemma IhdrFields(p: seq<byte>, h: IhdrData)
    requires DecodeIhdr(p) == Ok(h)
    ensures Be32Bytes(h.width) == p[0..4] && Be32Bytes(h.height) == p[4..8]
    ensures h.bitDepth == p[8] && ColorTypeCode(h.colorType) == p[9]
    ensures h.interlaced <==> p[12] == 1
  {
    Be32Injective(p[0..4]);
    Be32Injective(p[4..8]);
  }

  // ---------------------------------------------------------------- PLTE

  /** The palette held by a PLTE payload: entry i is bytes 3i, 3i+1, 3i+2. */
  function PaletteEntries(p: seq<byte>): (entries: seq<PlteEntry>)
    requires |p| % 3 == 0
    ensures |entries| == |p| / 3
    ensures forall i {:trigger entries[i]} :: 0 <= i < |entries| ==>
              entries[i] == PlteEntry(p[3 * i], p[3 * i + 1], p[3 * i + 2])
    decreases |p|
  {
    if |p| == 0 then []
    else
      var front := PaletteEntries(p[..|p| - 3]);
      front + [PlteEntry(p[|p| - 3], p[|p| - 2], p[|p| - 1])]
  }

  /** The PLTE payload that stores `entries`. */
  function PaletteBytes(entries: seq<PlteEntry>): (p: seq<byte>)
    ensures |p| == 3 * |entries|
    ensures forall i {:trigger entries[i]} :: 0 <= i < |entries| ==>
              p[3 * i] == entries[i].red && p[3 * i + 1] == entries[i].green
              && p[3 * i + 2] == entries[i].blue
  {
    if entries == [] then []
    else
      var last := entries[|entries| - 1];
      PaletteBytes(entries[..|entries| - 1]) + [last.red, last.green, last.blue]
  }

  lemma PaletteRoundTrip(entries: seq<PlteEntry>)
    ensures PaletteEntries(PaletteBytes(entries)) == entries
  {
    var q := PaletteEntries(PaletteBytes(entries));
    assert |q| == |entries|;
    forall i | 0 <= i < |entries| ensures q[i] == entries[i] {
    }
  }

  /** The `idx += 3` loop of the PLTE arm of `Chunk::new`, run after the
      length has been found to be a multiple of 3. */
  method ReadPalette(data: seq<byte>) returns (entries: seq<PlteEntry>)
    requires |data| % 3 == 0
    ensures entries == PaletteEntries(data)
  {
    entries := [];
    var idx := 0;
    while true
      invariant idx <= |data| && idx % 3 == 0 && |entries| == idx / 3
      invariant forall i :: 0 <= i < |entries| ==>
                  entries[i] == PlteEntry(data[3 * i], data[3 * i + 1], data[3 * i + 2])
      decreases |data| - idx
    {
      if idx == |data| {
        break;
      }
      entries := entries + [PlteEntry(data[idx], data[idx + 1], data[idx + 2])];
      idx := idx + 3;
    }
  }

  // ---------------------------------------------------------------- bKGD

  /** The bKGD arm of `Chunk::new`: the payload length alone selects the variant. */
  function DecodeBackground(p: seq<byte>): (r: Result<Background>)
    ensures r.Ok? <==> |p| == 1 || |p| == 2 || |p| == 6
    ensures r.Ok? ==> BackgroundBytes(r.value) == p
  {
    match |p|
    case 1 => Ok(BgPaletteIndex(p[0]))
    case 2 =>
      Be16Injective(p[0], p[1]);
      Ok(BgGreyscale(Be16(p[0], p[1])))
    case 6 =>
      Be16Injective(p[0], p[1]);
      Be16Injective(p[2], p[3]);
      Be16Injective(p[4], p[5]);
      Ok(BgRgb(Be16(p[0], p[1]), Be16(p[2], p[3]), Be16(p[4], p[5])))
    case _ => Err(InvalidBkgdChunk)
  }

  /** The bKGD payload that stores a background colour. */
  function BackgroundBytes(bg: Background): seq<byte> {
    match bg
    case BgPaletteIndex(i) => [i]
    case BgGreyscale(g) => Be16Bytes(g)
    case BgRgb(r, g, b) => Be16Bytes(r) + Be16Bytes(g) + Be16Bytes(b)
  }

  lemma BackgroundRoundTrip(bg: Background)
    ensures DecodeBackground(BackgroundBytes(bg)) == Ok(bg)
  {
    match bg
    case BgPaletteIndex(_) =>
    case BgGreyscale(g) => Be16RoundTrip(g);
    case BgRgb(r, g, b) => Be16RoundTrip(r); Be16RoundTrip(g); Be16RoundTrip(b);
  }

  // ---------------------------------------------------------------- dispatch

  /** The tag dispatch of `Chunk::new`, applied to the tag bytes and the payload. */
  function DecodeChunk(tag: seq<byte>, payload: seq<byte>): (r: Result<Chunk>)
    requires |tag| == 4
    ensures TagName(tag) !in ChunkTags ==> r == Err(InvalidChunk(payload))
    ensures r.Ok? ==> ChunkTag(r.value) == TagName(tag)
    ensures TagName(tag) == TagIHDR ==>
              (r.Ok? <==> DecodeIhdr(payload).Ok?) && (r.Ok? ==> r.value == Ihdr(DecodeIhdr(payload).value))
    ensures TagName(tag) in ChunkTags - {TagIHDR, TagPLTE, TagIEND, TagbKGD} ==> r.Ok?
    ensures TagName(tag) == TagIEND ==> (r.Ok? <==> payload == [])
    ensures TagName(tag) == TagPLTE ==> (r.Ok? <==> |payload| % 3 == 0)
    ensures TagName(tag) == TagbKGD ==> (r.Ok? <==> |payload| == 1 || |payload| == 2 || |payload| == 6)
    ensures r.Ok? && r.value.Plte? ==> PaletteBytes(r.value.entries) == payload
    ensures r.Ok? && r.value.Bkgd? ==> BackgroundBytes(r.value.background) == payload
    ensures r.Ok? && r.value.Idat? ==> r.value.compressed == payload
    ensures r.Ok? && r.value.Trns? ==> r.value.trnsBytes == payload
  {
    DecodeNamed(TagName(tag), payload)
  }

  /** The `match` on the tag's text. */
  function DecodeNamed(name: TagChars, payload: seq<byte>): (r: Result<Chunk>)
    ensures name !in ChunkTags ==> r == Err(InvalidChunk(payload))
    ensures r.Ok? ==> ChunkTag(r.value) == name
    ensures name == TagIHDR ==>
              (r.Ok? <==> DecodeIhdr(payload).Ok?) && (r.Ok? ==> r.value == Ihdr(DecodeIhdr(payload).value))
    ensures name in ChunkTags - {TagIHDR, TagPLTE, TagIEND, TagbKGD} ==> r.Ok?
    ensures name == TagIEND ==> (r.Ok? <==> payload == [])
    ensures name == TagPLTE ==> (r.Ok? <==> |payload| % 3 == 0)
    ensures name == TagbKGD ==> (r.Ok? <==> |payload| == 1 || |payload| == 2 || |payload| == 6)
    ensures r.Ok? && r.value.Plte? ==> PaletteBytes(r.value.entries) == payload
    ensures r.Ok? && r.value.Bkgd? ==> BackgroundBytes(r.value.background) == payload
    ensures r.Ok? && r.value.Idat? ==> r.value.compressed == payload
    ensures r.Ok? && r.value.Trns? ==> r.value.trnsBytes == payload
  {
    if name == TagIHDR then
      var h :- DecodeIhdr(payload);
      Ok(Ihdr(h))
    else if name == TagPLTE then
      if |payload| % 3 != 0 then Err(InvalidPlteChunk)
      else
        var entries := PaletteEntries(payload);
        PaletteBytesOfEntries(payload);
        Ok(Plte(entries))
    else if name == TagIDAT then Ok(Idat(payload))
    else if name == TagIEND then
      if |payload| != 0 then Err(IendNotEmpty) else Ok(Iend)
    else if name == TagbKGD then
      var bg :- DecodeBackground(payload);
      Ok(Bkgd(bg))
    else if name == TagcHRM then Ok(Chrm)
    else if name == TaggAMA then Ok(Gama)
    else if name == TaghIST then Ok(Hist)
    else if name == TagpHYs then Ok(Phys)
    else if name == TagsBIT then Ok(Sbit)
    else if name == TagtEXt then Ok(Text)
    else if name == TagtIME then Ok(Time)
    else if name == TagtRNS then Ok(Trns(payload))
    else if name == TagzTXT then Ok(Ztxt)
    else Err(InvalidChunk(payload))
  }

  /** The PLTE arm of the dispatch: a payload whose length is a multiple of 3
      is read as a palette, anything else is refused. */
  lemma DecodePlte(tag: seq<byte>, payload: seq<byte>)
    requires |tag| == 4 && TagName(tag) == TagPLTE
    ensures DecodeChunk(tag, payload)
            == if |payload| % 3 != 0 then Err(InvalidPlteChunk) else Ok(Plte(PaletteEntries(payload)))
  {
  }

  /** Decoding a PLTE payload loses nothing. */
  lemma {:induction false} PaletteBytesOfEntries(p: seq<byte>)
    requires |p| % 3 == 0
    ensures PaletteBytes(PaletteEntries(p)) == p
    decreases |p|
  {
    if |p| > 0 {
      var front := p[..|p| - 3];
      var x := PlteEntry(p[|p| - 3], p[|p| - 2], p[|p| - 1]);
      var e := PaletteEntries(p);
      assert e == PaletteEntries(front) + [x];
      assert e[..|e| - 1] == PaletteEntries(front);
      PaletteBytesOfEntries(front);
      assert PaletteBytes(e) == front + [x.red, x.green, x.blue];
      assert front + [x.red, x.green, x.blue] == p;
    }
  }

  /** The compressed-text chunk under its standard name "zTXt" is not on the
      allow-list, so a file that carries one is rejected. */
  lemma StandardZtxtRejected(payload: seq<byte>)
    ensures DecodeChunk([0x7A, 0x54, 0x58, 0x74], payload) == Err(InvalidChunk(payload))
  {
    assert TagName([0x7A, 0x54, 0x58, 0x74]) == ('z', 'T', 'X', 't');
  }
}
