/** Packing of the colour word into one pixel of the device's native
    encoding: a 16-bit RGB565 value for 16 bits per pixel, a packed 3-byte
    `rgb888_t` record (blue, green, red) for 24 bits per pixel, and the
    bytes each occupies in the mapped buffer. */
module Pack {
  import opened Channels

  /** Byte order of the host, which decides how a 16-bit store lands in memory. */
  datatype Endian = LittleEndian | BigEndian

  /** The red, green and blue masks of the RGB565 layout. */
  const Rgb565RedMask: bv32 := 0xF800
  const Rgb565GreenMask: bv32 := 0x07E0
  const Rgb565BlueMask: bv32 := 0x001F

  /** The three RGB565 masks are pairwise disjoint and together cover exactly bits 0-15. */
  lemma Rgb565MasksPartition()
    ensures Rgb565RedMask & Rgb565GreenMask == 0
    ensures Rgb565RedMask & Rgb565BlueMask == 0
    ensures Rgb565GreenMask & Rgb565BlueMask == 0
    ensures Rgb565RedMask | Rgb565GreenMask | Rgb565BlueMask == 0xFFFF
  {
  }

  /** The 16-bit pixel: the colour word masked with each RGB565 mask and the
      parts joined. Since the masks partition the low half-word, this is just
      the low 16 bits of the colour word; the channel lengths the device
      reports play no part. */
  function Rgb565(color: bv32): (pixel: bv16)
    ensures pixel as bv32 == color & 0xFFFF
  {
    ((color & Rgb565RedMask) | (color & Rgb565GreenMask) | (color & Rgb565BlueMask)) as bv16
  }

  function LowByte(v: bv16): bv8 {
    (v & 0xFF) as bv8
  }

  function HighByte(v: bv16): bv8 {
    (v >> 8) as bv8
  }

  /** The half-word whose high byte is `hi` and whose low byte is `lo`. */
  function Halfword(hi: bv8, lo: bv8): bv16 {
    ((hi as bv16) << 8) | lo as bv16
  }

  /** A half-word is its high byte followed by its low byte. */
  lemma HalfwordOfBytes(v: bv16)
    ensures Halfword(HighByte(v), LowByte(v)) == v
  {
    assert LowByte(v) as bv16 == v & 0xFF;
    assert HighByte(v) as bv16 == v >> 8;
  }

  /** The two bytes of a half-word built from two bytes are those bytes. */
  lemma BytesOfHalfword(hi: bv8, lo: bv8)
    ensures HighByte(Halfword(hi, lo)) == hi && LowByte(Halfword(hi, lo)) == lo
  {
    var w := Halfword(hi, lo);
    assert w & 0xFF == lo as bv16;
    assert w >> 8 == hi as bv16;
  }

  /** The two bytes a 16-bit store writes, in address order. */
  function HalfwordBytes(v: bv16, e: Endian): (b: seq<bv8>)
    ensures |b| == 2
  {
    match e
    case LittleEndian => [LowByte(v), HighByte(v)]
    case BigEndian => [HighByte(v), LowByte(v)]
  }

  /** The 16-bit value a load reads from two bytes in address order. */
  function HalfwordOf(b: seq<bv8>, e: Endian): bv16
    requires |b| == 2
  {
    match e
    case LittleEndian => Halfword(b[1], b[0])
    case BigEndian => Halfword(b[0], b[1])
  }

  /** Loading what a store wrote gives back the stored value. */
  lemma HalfwordRoundTrip(v: bv16, e: Endian)
    ensures HalfwordOf(HalfwordBytes(v, e), e) == v
  {
    HalfwordOfBytes(v);
  }

  /** Storing what a load read gives back the same two bytes. */
  lemma HalfwordBytesRoundTrip(b: seq<bv8>, e: Endian)
    requires |b| == 2
    ensures HalfwordBytes(HalfwordOf(b, e), e) == b
  {
    match e
    case LittleEndian => BytesOfHalfword(b[1], b[0]);
    case BigEndian => BytesOfHalfword(b[0], b[1]);
  }

  /** The `rgb888_t` record, field by field in declaration order. */
  datatype Rgb888 = Rgb888(blue: bv8, green: bv8, red: bv8)

  /** The record's bytes in memory: blue, green, red, with no padding. */
  function RecordBytes(rec: Rgb888): (b: seq<bv8>)
    ensures |b| == 3
  {
    [rec.blue, rec.green, rec.red]
  }

  /** The record held by three consecutive bytes. */
  function RecordOf(b: seq<bv8>): Rgb888
    requires |b| == 3
  {
    Rgb888(b[0], b[1], b[2])
  }

  lemma RecordRoundTrip(rec: Rgb888)
    ensures RecordOf(RecordBytes(rec)) == rec
  {
  }

  lemma RecordBytesRoundTrip(b: seq<bv8>)
    requires |b| == 3
    ensures RecordBytes(RecordOf(b)) == b
  {
  }

  /** The 24-bit record as the filler builds it: blue is the low byte of the
      colour word, while green and red are masked with 0xff AFTER shifting
      the word left by 8 and 16 bits, which leaves nothing of it. Green and
      red are therefore 0 for every colour word. */
  function Rgb888Of(color: bv32): (rec: Rgb888)
    ensures rec.blue as bv32 == color & 0xFF
    ensures rec.green == 0 && rec.red == 0
  {
    Rgb888((color & 0xFF) as bv8, ((color << 8) & 0xFF) as bv8, ((color << 16) & 0xFF) as bv8)
  }

  /** Red 0x12, green 0x34, blue 0x56 composed at offsets 16/8/0 give the
      record (0x56, 0, 0) instead of (0x56, 0x34, 0x12). */
  lemma Rgb888DropsGreenAndRed()
    ensures Rgb888Of(Compose(ColorRequest(0x12, 0x34, 0x56), 16, 8, 0)) == Rgb888(0x56, 0, 0)
    ensures Rgb888Of(Compose(ColorRequest(0x12, 0x34, 0x56), 16, 8, 0)) != Rgb888(0x56, 0x34, 0x12)
  {
  }

  /** The record with green and red taken from bits 8-15 and 16-23 of the
      colour word, by shifting right before masking. */
  function Rgb888Intended(color: bv32): (rec: Rgb888)
    ensures rec.blue as bv32 == color & 0xFF
  {
    Rgb888((color & 0xFF) as bv8, ((color >> 8) & 0xFF) as bv8, ((color >> 16) & 0xFF) as bv8)
  }

  /** With the 8-8-8 offsets 16/8/0 the corrected record gives back every
      requested channel, for every request. */
  lemma Rgb888IntendedRecoversChannels(req: ColorRequest)
    ensures Rgb888Intended(Compose(req, 16, 8, 0)) == Rgb888(req.blue, req.green, req.red)
  {
    ComposeSeparatesFields(req, 16, 8, 0);
  }
}
