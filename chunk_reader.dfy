/** The chunk-stream reader: the 8-byte signature, then chunks of a 4-byte
    big-endian length, a 4-byte tag, `length` payload bytes and a 4-byte CRC
    that is skipped unchecked (sections 3.1 and 3.2 of RFC 2083). */
module ChunkReader {
  import opened PngTypes
  import opened BigEndian
  import opened ChunkDecode

  /** `PNG_HDR`, the signature every PNG file starts with. */
  const PngSignature: seq<byte> := [137, 80, 78, 71, 13, 10, 26, 10]

  /** The file starts with `PNG_HDR`: the byte 0x89, the letters "PNG", CR LF,
      end-of-file (0x1A) and LF. */
  predicate HasSignature(file: seq<byte>): (b: bool)
    ensures b ==> |file| >= 8 && file[0] == 0x89 && file[1..4] == [80, 78, 71]
    ensures b ==> file[4..8] == [13, 10, 26, 10]
  {
    |file| >= 8 && file[..8] == PngSignature
  }

  /** The declared payload length of the chunk at `offset`. */
  function ChunkLength(data: seq<byte>, offset: nat): u32
    requires offset + 4 <= |data|
  {
    Be32(data[offset..offset + 4])
  }

  /** `Chunk::new` as a function of the buffer and the cursor: the chunk read
      there and the cursor after it. The reads happen in the source's order:
      the length word, the payload slice (which also covers the tag), the
      decoding of the payload, and last the CRC slice. */
  function ParseChunkAt(data: seq<byte>, offset: nat): (r: Result<(Chunk, nat)>)
    ensures offset + 4 > |data| ==> r == Err(Truncated)
    ensures offset + 4 <= |data| && offset + 12 + ChunkLength(data, offset) > |data| ==> r.Err?
    ensures r.Ok? ==>
              var len := ChunkLength(data, offset);
              && r.value.1 == offset + len + 12 <= |data|
              && DecodeChunk(data[offset + 4..offset + 8], data[offset + 8..offset + 8 + len])
                 == Ok(r.value.0)
  {
    if offset + 4 > |data| then Err(Truncated)
    else
      var len := ChunkLength(data, offset);
      if offset + 8 + len > |data| then Err(Truncated)
      else
        var chunk :- DecodeChunk(data[offset + 4..offset + 8], data[offset + 8..offset + 8 + len]);
        if offset + 8 + len + 4 > |data| then Err(Truncated)
        else Ok((chunk, offset + len + 12))
  }

  /** `ParseChunkAt` once the length word, the tag and the payload are in hand. */
  lemma ParseChunkAtParts(data: seq<byte>, offset: nat, len: nat, tag: seq<byte>, payload: seq<byte>)
    requires offset + 8 + len <= |data| && len == ChunkLength(data, offset)
    requires tag == data[offset + 4..offset + 8] && payload == data[offset + 8..offset + 8 + len]
    ensures ParseChunkAt(data, offset)
            == match DecodeChunk(tag, payload)
               case Err(e) => Err(e)
               case Ok(c) => if offset + 8 + len + 4 > |data| then Err(Truncated) else Ok((c, offset + len + 12))
  {
  }

  /** The bytes of a whole chunk with tag `tag`, payload `payload` and CRC `crc`. */
  function ChunkBytes(tag: seq<byte>, payload: seq<byte>, crc: seq<byte>): (b: seq<byte>)
    requires |tag| == 4 && |payload| < 0x1_0000_0000 && |crc| == 4
    ensures |b| == |payload| + 12
  {
    Be32Bytes(|payload|) + tag + payload + crc
  }

  /** Framing read backwards: whatever follows it, a chunk written as length,
      tag, payload and CRC is read back as the decoding of exactly that tag and
      payload, whatever the CRC holds, and the cursor moves past all of it. */
  lemma ParseChunkBytes(tag: seq<byte>, payload: seq<byte>, crc: seq<byte>, before: seq<byte>, after: seq<byte>)
    requires |tag| == 4 && |payload| < 0x1_0000_0000 && |crc| == 4
    ensures var data := before + ChunkBytes(tag, payload, crc) + after;
            ParseChunkAt(data, |before|)
            == (match DecodeChunk(tag, payload)
                case Ok(c) => Ok((c, |before| + |payload| + 12))
                case Err(e) => Err(e))
  {
    var data := before + ChunkBytes(tag, payload, crc) + after;
    var o := |before|;
    assert data[o..o + 4] == Be32Bytes(|payload|);
    Be32RoundTrip(|payload|);
    assert data[o + 4..o + 8] == tag;
    assert data[o + 8..o + 8 + |payload|] == payload;
  }

  /** Reading a chunk looks at no byte past its CRC. */
  lemma ParseChunkLocal(data: seq<byte>, offset: nat, junk: seq<byte>)
    requires ParseChunkAt(data, offset).Ok?
    ensures var next := ParseChunkAt(data, offset).value.1;
            ParseChunkAt(data[..next] + junk, offset) == ParseChunkAt(data, offset)
  {
    var next := ParseChunkAt(data, offset).value.1;
    var d2 := data[..next] + junk;
    var len := ChunkLength(data, offset);
    assert d2[offset..offset + 4] == data[offset..offset + 4];
    assert d2[offset + 4..offset + 8] == data[offset + 4..offset + 8];
    assert d2[offset + 8..offset + 8 + len] == data[offset + 8..offset + 8 + len];
  }

  /** What the reader yields from `offset` on: the chunks before the first IEND,
      and then either the cursor just past that IEND or the error that stopped
      the reading. */
  datatype ChunkStream = ChunkStream(chunks: seq<Chunk>, end: Result<nat>)

  function Stream(data: seq<byte>, offset: nat): (s: ChunkStream)
    requires offset <= |data|
    ensures forall i :: 0 <= i < |s.chunks| ==> !s.chunks[i].Iend?
    ensures s.end.Ok? ==> offset + 12 <= s.end.value <= |data|
    decreases |data| - offset
  {
    match ParseChunkAt(data, offset)
    case Err(e) => ChunkStream([], Err(e))
    case Ok((c, next)) =>
      if c.Iend? then ChunkStream([], Ok(next))
      else
        var rest := Stream(data, next);
        ChunkStream([c] + rest.chunks, rest.end)
  }

  /** A stream that ends well ends where an IEND chunk, read at or after its
      start, ends. */
  lemma {:induction false} StreamEndsAtIend(data: seq<byte>, offset: nat)
    requires offset <= |data| && Stream(data, offset).end.Ok?
    ensures exists o :: offset <= o <= |data| && ParseChunkAt(data, o) == Ok((Iend, Stream(data, offset).end.value))
    decreases |data| - offset
  {
    var (c, next) := ParseChunkAt(data, offset).value;
    if c.Iend? {
      assert ParseChunkAt(data, offset) == Ok((Iend, Stream(data, offset).end.value));
    } else {
      StreamEndsAtIend(data, next);
    }
  }

  /** Reading stops at the first IEND: the bytes after that chunk are never
      looked at, so replacing them changes nothing. */
  lemma {:induction false} StreamStopsAtIend(data: seq<byte>, offset: nat, junk: seq<byte>)
    requires offset <= |data|
    requires Stream(data, offset).end.Ok?
    ensures var e := Stream(data, offset).end.value;
            Stream(data[..e] + junk, offset) == Stream(data, offset)
    decreases |data| - offset
  {
    var e := Stream(data, offset).end.value;
    var next := ParseChunkAt(data, offset).value.1;
    var c := ParseChunkAt(data, offset).value.0;
    assert data[..e] + junk == data[..next] + (data[next..e] + junk);
    ParseChunkLocal(data, offset, data[next..e] + junk);
    if !c.Iend? {
      StreamStopsAtIend(data, next, junk);
    }
  }

  /** `ImageHelper`: the file bytes and a cursor that `Chunk::new` advances. */
  class ImageHelper {
    const data: seq<byte>
    var offset: nat

    constructor (file: seq<byte>)
      ensures data == file && offset == 8
    {
      data := file;
      offset := 8;
    }

    /** `ImageHelper::from` after the file has been read: the first eight bytes
        must be the signature. A file shorter than that fails on the slice. */
    static method From(file: seq<byte>) returns (r: Result<ImageHelper>)
      ensures r.Ok? <==> HasSignature(file)
      ensures r.Ok? ==> fresh(r.value) && r.value.data == file && r.value.offset == 8
      ensures |file| < 8 ==> r == Err(Truncated)
      ensures |file| >= 8 && !HasSignature(file) ==> r == Err(SignatureMismatch)
    {
      if |file| < 8 {
        return Err(Truncated);
      }
      if file[..8] != PngSignature {
        return Err(SignatureMismatch);
      }
      var helper := new ImageHelper(file);
      return Ok(helper);
    }

    /** `Chunk::new`: reads one chunk at the cursor and moves the cursor past it. */
    method NewChunk() returns (r: Result<Chunk>)
      modifies this
      ensures ParseChunkAt(data, old(offset)).Err? ==> r == Err(ParseChunkAt(data, old(offset)).error)
      ensures ParseChunkAt(data, old(offset)).Ok? ==>
                r == Ok(ParseChunkAt(data, old(offset)).value.0)
                && offset == ParseChunkAt(data, old(offset)).value.1
    {
      ghost var start := offset;
      if offset + 4 > |data| {
        return Err(Truncated);
      }
      var len := Be32(data[offset..offset + 4]);
      offset := offset + 4;
      // the type tag
      offset := offset + 4;
      if offset + len > |data| {
        assert ParseChunkAt(data, start) == Err(Truncated);
        return Err(Truncated);
      }
      var payload := data[offset..offset + len];
      var tag := data[offset - 4..offset];
      ParseChunkAtParts(data, start, len, tag, payload);
      var chunk;
      if TagName(tag) == TagPLTE {
        DecodePlte(tag, payload);
        if len % 3 != 0 {
          return Err(InvalidPlteChunk);
        }
        var entries := ReadPalette(payload);
        chunk := Plte(entries);
      } else {
        var decoded := DecodeChunk(tag, payload);
        if decoded.Err? {
          return Err(decoded.error);
        }
        chunk := decoded.value;
      }
      assert DecodeChunk(tag, payload) == Ok(chunk);
      offset := offset + len;
      // the CRC, skipped without being checked
      if offset + 4 > |data| {
        return Err(Truncated);
      }
      offset := offset + 4;
      return Ok(chunk);
    }

    /** `ImageHelper::next`: the next chunk, or None once IEND has been read. */
    method Next() returns (r: Result<Option<Chunk>>)
      modifies this
      ensures ParseChunkAt(data, old(offset)).Err? ==> r == Err(ParseChunkAt(data, old(offset)).error)
      ensures ParseChunkAt(data, old(offset)).Ok? ==>
                var (c, next) := ParseChunkAt(data, old(offset)).value;
                && offset == next
                && r == Ok(if c.Iend? then None else Some(c))
    {
      var chunk := NewChunk();
      if chunk.Err? {
        return Err(chunk.error);
      }
      if chunk.value.Iend? {
        return Ok(None);
      }
      return Ok(Some(chunk.value));
    }
  }
}
