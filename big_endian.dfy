/** Big-endian (network order) integers, as every multi-byte field of a PNG
    file is stored (section 2.1 of RFC 2083). */
module BigEndian {
  import opened PngTypes

  /** `u16::from_be_bytes([hi, lo])`. */
  function Be16(hi: byte, lo: byte): u16 {
    hi as int * 0x100 + lo
  }

  /** Four bytes, most significant first, shifted into a `u32`. */
  function Be32(b: seq<byte>): u32
    requires |b| == 4
  {
    ((b[0] as int * 0x100 + b[1]) * 0x100 + b[2]) * 0x100 + b[3]
  }

  /** The two bytes that store `v`, most significant first. */
  function Be16Bytes(v: u16): (b: seq<byte>)
    ensures |b| == 2
  {
    [v / 0x100, v % 0x100]
  }

  /** The four bytes that store `v`, most significant first. */
  function Be32Bytes(v: u32): (b: seq<byte>)
    ensures |b| == 4
  {
    [v / 0x100 / 0x100 / 0x100, v / 0x100 / 0x100 % 0x100, v / 0x100 % 0x100, v % 0x100]
  }

  lemma Be16RoundTrip(v: u16)
    ensures Be16(Be16Bytes(v)[0], Be16Bytes(v)[1]) == v
  {
  }

  lemma Be16Injective(hi: byte, lo: byte)
    ensures Be16Bytes(Be16(hi, lo)) == [hi, lo]
  {
  }

  lemma Be32RoundTrip(v: u32)
    ensures Be32(Be32Bytes(v)) == v
  {
  }

  /** Reading four bytes loses nothing: they are exactly the bytes that store the value. */
  lemma Be32Injective(b: seq<byte>)
    requires |b| == 4
    ensures Be32Bytes(Be32(b)) == b
  {
    var hi2 := b[0] as int * 0x100 + b[1];
    var hi3 := hi2 * 0x100 + b[2];
    ShiftByte(hi3, b[3]);
    ShiftByte(hi2, b[2]);
    ShiftByte(b[0], b[1]);
  }

  /** Appending one byte below `q` and shifting it back out gives `q` and that byte. */
  lemma ShiftByte(q: nat, r: byte)
    ensures (q * 0x100 + r) / 0x100 == q && (q * 0x100 + r) % 0x100 == r
  {
  }
}
