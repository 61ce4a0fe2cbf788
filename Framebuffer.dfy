/** The frame filler: the device's geometry and pixel format, the mapped
    buffer as a byte array, and the loops that write one packed pixel into
    each of the `width * height` slots at the start of the buffer. */
module Framebuffer {
  import opened Channels
  import opened Pack

  /** A 32-bit signed C `int`. */
  newtype int32 = x: int | -0x8000_0000 <= x < 0x8000_0000

  /** Position and width of one channel inside a pixel, as the device reports them. */
  datatype Bitfield = Bitfield(offset: int32, length: int32)

  /** The device's geometry and pixel format, read once at start-up. The
      filler uses only width, height and bits per pixel; the line stride and
      the channel lengths are carried but ignored. */
  datatype FbConfig = FbConfig(
    width: int32, height: int32, heightVirtual: int32, bpp: int32, stride: int32,
    red: Bitfield, green: Bitfield, blue: Bitfield, transp: Bitfield)

  /** What the filler reports: pixels written, or a depth it cannot handle. */
  datatype Outcome = Painted | UnsupportedDepth(bpp: int32)

  /** `height * width` does not overflow a C `int`. */
  predicate SizeFitsInt(fb: FbConfig) {
    -0x8000_0000 <= fb.height as int * fb.width as int < 0x8000_0000
  }

  /** The pixel count `size` the filler computes. */
  function PixelCount(fb: FbConfig): int32
    requires SizeFitsInt(fb)
  {
    (fb.height as int * fb.width as int) as int32
  }

  /** How many slots `for (j = 0; j < size; j++)` visits: none when size is not positive. */
  function SlotsWritten(size: int32): nat {
    if size > 0 then size as nat else 0
  }

  /** Bytes one slot occupies at each depth; 0 where nothing is written. */
  function BytesPerPixel(bpp: int32): nat {
    if bpp == 16 then 2 else if bpp == 24 then 3 else 0
  }

  /** The buffer is long enough for every slot the filler writes; the
      filler itself never compares this with the mapped length. */
  predicate BufferHolds(fb: FbConfig, len: nat) {
    SizeFitsInt(fb) && BytesPerPixel(fb.bpp) * SlotsWritten(PixelCount(fb)) <= len
  }

  /** `k` copies of `unit`, one after the other. */
  function Repeat(unit: seq<bv8>, k: nat): (r: seq<bv8>)
    ensures |r| == k * |unit|
  {
    if k == 0 then [] else Repeat(unit, k - 1) + unit
  }

  /** The buffer `s` after slots 0 .. k-1, each |unit| bytes wide and
      without gaps, have been overwritten with `unit`. */
  function Filled(s: seq<bv8>, k: nat, unit: seq<bv8>): (r: seq<bv8>)
    requires k * |unit| <= |s|
    ensures |r| == |s|
  {
    Repeat(unit, k) + s[k * |unit|..]
  }

  lemma MulMonotone(a: nat, b: nat, w: nat)
    requires a <= b
    ensures a * w <= b * w
  {
  }

  /** Slot `j` of `k` repeated units holds the unit. */
  lemma {:induction false} RepeatSlot(unit: seq<bv8>, k: nat, j: nat)
    requires j < k
    ensures (j + 1) * |unit| <= k * |unit|
    ensures Repeat(unit, k)[j * |unit|..(j + 1) * |unit|] == unit
  {
    var w := |unit|;
    MulMonotone(j + 1, k, w);
    var prev := Repeat(unit, k - 1);
    assert Repeat(unit, k) == prev + unit;
    if j < k - 1 {
      RepeatSlot(unit, k - 1, j);
      assert Repeat(unit, k)[j * w..(j + 1) * w] == prev[j * w..(j + 1) * w];
    } else {
      assert j * w == |prev|;
    }
  }

  /** After the fill, slot `j < k` holds the unit. */
  lemma FilledSlot(s: seq<bv8>, k: nat, unit: seq<bv8>, j: nat)
    requires k * |unit| <= |s| && j < k
    ensures (j + 1) * |unit| <= |s|
    ensures Filled(s, k, unit)[j * |unit|..(j + 1) * |unit|] == unit
  {
    RepeatSlot(unit, k, j);
    var r := Filled(s, k, unit);
    assert r[j * |unit|..(j + 1) * |unit|] == Repeat(unit, k)[j * |unit|..(j + 1) * |unit|];
  }

  /** Every byte past the first `k` slots keeps its old value. */
  lemma FilledBeyond(s: seq<bv8>, k: nat, unit: seq<bv8>, i: nat)
    requires k * |unit| <= i < |s|
    ensures Filled(s, k, unit)[i] == s[i]
  {
  }

  /** Filling the same slots with the same unit a second time changes nothing. */
  lemma FilledIdempotent(s: seq<bv8>, k: nat, unit: seq<bv8>)
    requires k * |unit| <= |s|
    ensures Filled(Filled(s, k, unit), k, unit) == Filled(s, k, unit)
  {
    var once := Filled(s, k, unit);
    assert once[k * |unit|..] == s[k * |unit|..];
  }

  /** Filling one more slot overwrites exactly the bytes of slot `k`. */
  lemma FilledNext(s: seq<bv8>, k: nat, unit: seq<bv8>)
    requires (k + 1) * |unit| <= |s|
    ensures k * |unit| <= |s|
    ensures Filled(s, k + 1, unit)
         == Filled(s, k, unit)[..k * |unit|] + unit + Filled(s, k, unit)[(k + 1) * |unit|..]
  {
    MulMonotone(k, k + 1, |unit|);
    var w := |unit|;
    var prev := Filled(s, k, unit);
    assert prev[..k * w] == Repeat(unit, k);
    assert prev[(k + 1) * w..] == s[(k + 1) * w..];
  }

  /** A buffer that differs from `before` only in the |unit| bytes from
      `at` on, where it holds `unit`, is `before` with those bytes replaced. */
  lemma SlotReplaced(before: seq<bv8>, after: seq<bv8>, at: nat, unit: seq<bv8>)
    requires |after| == |before| && at + |unit| <= |before|
    requires forall i :: 0 <= i < at ==> after[i] == before[i]
    requires forall i :: at + |unit| <= i < |before| ==> after[i] == before[i]
    requires forall t :: 0 <= t < |unit| ==> after[at + t] == unit[t]
    ensures after == before[..at] + unit + before[at + |unit|..]
  {
    var spliced := before[..at] + unit + before[at + |unit|..];
    forall i | 0 <= i < |after|
      ensures after[i] == spliced[i]
    {
      if at <= i < at + |unit| {
        assert after[at + (i - at)] == unit[i - at];
      }
    }
  }

  /** One more slot written: the bytes of slot `k` replaced by `unit`, all
      else as after `k` slots, is the buffer after `k + 1` slots. */
  lemma FilledStore(s: seq<bv8>, k: nat, unit: seq<bv8>, at: nat, after: seq<bv8>)
    requires at == k * |unit| && at + |unit| <= |s| && |after| == |s|
    requires forall i :: 0 <= i < at ==> after[i] == Filled(s, k, unit)[i]
    requires forall i :: at + |unit| <= i < |s| ==> after[i] == s[i]
    requires forall t :: 0 <= t < |unit| ==> after[at + t] == unit[t]
    ensures (k + 1) * |unit| <= |s|
    ensures after == Filled(s, k + 1, unit)
  {
    var before := Filled(s, k, unit);
    FilledNext(s, k, unit);
    forall i | at + |unit| <= i < |s|
      ensures after[i] == before[i]
    {
      FilledBeyond(s, k, unit, i);
    }
    SlotReplaced(before, after, at, unit);
  }

  /** A 16-bit store into slot `k` after `k` slots gives the buffer after `k + 1` slots. */
  lemma FilledStoreHalfword(s: seq<bv8>, k: nat, unit: seq<bv8>)
    requires |unit| == 2 && 2 * k + 2 <= |s|
    ensures Filled(s, k, unit)[2 * k := unit[0]][2 * k + 1 := unit[1]] == Filled(s, k + 1, unit)
  {
    FilledStore(s, k, unit, 2 * k, Filled(s, k, unit)[2 * k := unit[0]][2 * k + 1 := unit[1]]);
  }

  /** A 3-byte record store into slot `k` after `k` slots gives the buffer after `k + 1` slots. */
  lemma FilledStoreRecord(s: seq<bv8>, k: nat, unit: seq<bv8>)
    requires |unit| == 3 && 3 * k + 3 <= |s|
    ensures Filled(s, k, unit)[3 * k := unit[0]][3 * k + 1 := unit[1]][3 * k + 2 := unit[2]] == Filled(s, k + 1, unit)
  {
    FilledStore(s, k, unit, 3 * k, Filled(s, k, unit)[3 * k := unit[0]][3 * k + 1 := unit[1]][3 * k + 2 := unit[2]]);
  }

  /** The 16 bits-per-pixel loop: the half-word `pixel` is stored into each
      of the first `size` 16-bit slots, in increasing index order. */
  method Fill16(buf: array<bv8>, size: int32, pixel: bv16, e: Endian)
    requires 2 * SlotsWritten(size) <= buf.Length
    modifies buf
    ensures buf[..] == Filled(old(buf[..]), SlotsWritten(size), HalfwordBytes(pixel, e))
  {
    var bytes := HalfwordBytes(pixel, e);
    var j: int32 := 0;
    while j < size
      invariant 0 <= j as int <= SlotsWritten(size)
      invariant buf[..] == Filled(old(buf[..]), j as nat, bytes)
    {
      var k := j as int;
      FilledStoreHalfword(old(buf[..]), k, bytes);
      buf[2 * k], buf[2 * k + 1] := bytes[0], bytes[1];
      j := j + 1;
    }
  }

  /** The 24 bits-per-pixel loop: the 3-byte record is stored into each of
      the first `size` record slots, in increasing index order. */
  method Fill24(buf: array<bv8>, size: int32, rec: Rgb888)
    requires 3 * SlotsWritten(size) <= buf.Length
    modifies buf
    ensures buf[..] == Filled(old(buf[..]), SlotsWritten(size), RecordBytes(rec))
  {
    var bytes := RecordBytes(rec);
    var j: int32 := 0;
    while j < size
      invariant 0 <= j as int <= SlotsWritten(size)
      invariant buf[..] == Filled(old(buf[..]), j as nat, bytes)
    {
      var k := j as int;
      FilledStoreRecord(old(buf[..]), k, bytes);
      buf[3 * k], buf[3 * k + 1], buf[3 * k + 2] := rec.blue, rec.green, rec.red;
      j := j + 1;
    }
  }

  /** The buffer after the filler ran on `s`: for 16 and 24 bits per pixel
      the first `width * height` slots hold the packed pixel, for any other
      depth the buffer is as it was. */
  function Background(fb: FbConfig, color: bv32, e: Endian, s: seq<bv8>): seq<bv8>
    requires BufferHolds(fb, |s|)
  {
    var n := SlotsWritten(PixelCount(fb));
    if fb.bpp == 16 then Filled(s, n, HalfwordBytes(Rgb565(color), e))
    else if fb.bpp == 24 then Filled(s, n, RecordBytes(Rgb888Of(color)))
    else s
  }

  /** The filler: pick the encoding by bits per pixel, pack the colour word
      once, and write it to every pixel slot; any other depth is reported
      and nothing is written. */
  method SetBackgroundColor(fb: FbConfig, color: bv32, e: Endian, buf: array<bv8>) returns (outcome: Outcome)
    requires BufferHolds(fb, buf.Length)
    modifies buf
    ensures buf[..] == Background(fb, color, e, old(buf[..]))
    ensures outcome.UnsupportedDepth? <==> fb.bpp != 16 && fb.bpp != 24
    ensures outcome.UnsupportedDepth? ==> outcome.bpp == fb.bpp && buf[..] == old(buf[..])
  {
    var size := PixelCount(fb);
    var bpp := fb.bpp;
    if bpp == 16 {
      var rgb565 := Rgb565(color);
      Fill16(buf, size, rgb565, e);
      outcome := Painted;
    } else if bpp == 24 {
      var rgb888 := Rgb888Of(color);
      Fill24(buf, size, rgb888);
      outcome := Painted;
    } else {
      outcome := UnsupportedDepth(bpp);
    }
  }

  /** At 16 bits per pixel every slot written reads back as the low 16 bits of the colour word. */
  lemma Background16Slot(fb: FbConfig, color: bv32, e: Endian, s: seq<bv8>, j: nat)
    requires BufferHolds(fb, |s|) && fb.bpp == 16 && j < SlotsWritten(PixelCount(fb))
    ensures 2 * j + 2 <= |s|
    ensures HalfwordOf(Background(fb, color, e, s)[2 * j..2 * j + 2], e) as bv32 == color & 0xFFFF
  {
    var pixel := Rgb565(color);
    FilledSlot(s, SlotsWritten(PixelCount(fb)), HalfwordBytes(pixel, e), j);
    HalfwordRoundTrip(pixel, e);
  }

  /** At 24 bits per pixel every slot written reads back as the packed
      record, whose bytes are blue = the low byte of the colour word and
      green = red = 0, in the order blue, green, red. */
  lemma Background24Slot(fb: FbConfig, color: bv32, e: Endian, s: seq<bv8>, j: nat)
    requires BufferHolds(fb, |s|) && fb.bpp == 24 && j < SlotsWritten(PixelCount(fb))
    ensures 3 * j + 3 <= |s|
    ensures RecordOf(Background(fb, color, e, s)[3 * j..3 * j + 3]) == Rgb888Of(color)
    ensures Background(fb, color, e, s)[3 * j..3 * j + 3] == [(color & 0xFF) as bv8, 0, 0]
  {
    var rec := Rgb888Of(color);
    FilledSlot(s, SlotsWritten(PixelCount(fb)), RecordBytes(rec), j);
    RecordRoundTrip(rec);
  }

  /** No byte past the written slots changes; at an unsupported depth that is every byte. */
  lemma BackgroundBeyond(fb: FbConfig, color: bv32, e: Endian, s: seq<bv8>, i: nat)
    requires BufferHolds(fb, |s|)
    requires BytesPerPixel(fb.bpp) * SlotsWritten(PixelCount(fb)) <= i < |s|
    ensures Background(fb, color, e, s)[i] == s[i]
  {
  }

  /** A depth other than 16 or 24 leaves the whole buffer unmodified. */
  lemma BackgroundUnsupported(fb: FbConfig, color: bv32, e: Endian, s: seq<bv8>)
    requires BufferHolds(fb, |s|) && fb.bpp != 16 && fb.bpp != 24
    ensures Background(fb, color, e, s) == s
  {
  }

  /** A screen with no pixels (width or height 0, or a negative pixel count) is not written at all. */
  lemma BackgroundEmptyScreen(fb: FbConfig, color: bv32, e: Endian, s: seq<bv8>)
    requires BufferHolds(fb, |s|) && PixelCount(fb) <= 0
    ensures Background(fb, color, e, s) == s
  {
    assert s[0..] == s;
  }

  /** Filling twice with the same format and colour gives the buffer a single fill gives. */
  lemma BackgroundIdempotent(fb: FbConfig, color: bv32, e: Endian, s: seq<bv8>)
    requires BufferHolds(fb, |s|)
    ensures Background(fb, color, e, Background(fb, color, e, s)) == Background(fb, color, e, s)
  {
    var n := SlotsWritten(PixelCount(fb));
    if fb.bpp == 16 {
      FilledIdempotent(s, n, HalfwordBytes(Rgb565(color), e));
    } else if fb.bpp == 24 {
      FilledIdempotent(s, n, RecordBytes(Rgb888Of(color)));
    }
  }

  /** Every reported channel offset is one at which an 8-bit channel fits in a non-negative C `int`. */
  predicate OffsetsInRange(fb: FbConfig) {
    0 <= fb.red.offset <= 23 && 0 <= fb.green.offset <= 23 && 0 <= fb.blue.offset <= 23
  }

  /** The colour word the entry point hands to the filler. */
  function ColorWord(req: ColorRequest, fb: FbConfig): bv32
    requires OffsetsInRange(fb)
  {
    Compose(req, fb.red.offset as nat, fb.green.offset as nat, fb.blue.offset as nat)
  }

  /** RGB565 offsets 11/5/0 and the default request: every 16-bit slot holds 0xFFFF. */
  lemma WhiteRgb565Screen(fb: FbConfig, e: Endian, s: seq<bv8>, j: nat)
    requires BufferHolds(fb, |s|) && fb.bpp == 16 && j < SlotsWritten(PixelCount(fb))
    requires fb.red.offset == 11 && fb.green.offset == 5 && fb.blue.offset == 0
    ensures 2 * j + 2 <= |s|
    ensures HalfwordOf(Background(fb, ColorWord(DefaultRequest, fb), e, s)[2 * j..2 * j + 2], e) == 0xFFFF
  {
    WhiteAtRgb565Offsets();
    Background16Slot(fb, ColorWord(DefaultRequest, fb), e, s, j);
  }

  /** Offsets 16/8/0 and red 0x12, green 0x34, blue 0x56 at 24 bits per
      pixel: every record is written as 0x56, 0x00, 0x00. */
  lemma Rgb888Screen(fb: FbConfig, e: Endian, s: seq<bv8>, j: nat)
    requires BufferHolds(fb, |s|) && fb.bpp == 24 && j < SlotsWritten(PixelCount(fb))
    requires fb.red.offset == 16 && fb.green.offset == 8 && fb.blue.offset == 0
    ensures 3 * j + 3 <= |s|
    ensures Background(fb, ColorWord(ColorRequest(0x12, 0x34, 0x56), fb), e, s)[3 * j..3 * j + 3] == [0x56, 0x00, 0x00]
  {
    Rgb888DropsGreenAndRed();
    Background24Slot(fb, ColorWord(ColorRequest(0x12, 0x34, 0x56), fb), e, s, j);
  }

  /** The same screen filled with the corrected record: every record is 0x56, 0x34, 0x12. */
  lemma Rgb888IntendedScreen(fb: FbConfig, s: seq<bv8>, j: nat)
    requires BufferHolds(fb, |s|) && fb.bpp == 24 && j < SlotsWritten(PixelCount(fb))
    requires fb.red.offset == 16 && fb.green.offset == 8 && fb.blue.offset == 0
    ensures 3 * j + 3 <= |s|
    ensures Filled(s, SlotsWritten(PixelCount(fb)), RecordBytes(Rgb888Intended(ColorWord(ColorRequest(0x12, 0x34, 0x56), fb))))[3 * j..3 * j + 3]
         == [0x56, 0x34, 0x12]
  {
    var req := ColorRequest(0x12, 0x34, 0x56);
    Rgb888IntendedRecoversChannels(req);
    FilledSlot(s, SlotsWritten(PixelCount(fb)), RecordBytes(Rgb888Intended(ColorWord(req, fb))), j);
  }

  /** What the program needs of the device before it fills the buffer: a
      buffer holding every slot written, offsets that keep the shifted
      channels inside an `int`, and a height it can divide by. It divides by
      the height when it prints the screen information and when it computes
      `height_virtual / height`, so the height is not 0 and the quotient
      `INT_MIN / -1` does not arise. */
  predicate DeviceFits(fb: FbConfig, len: nat) {
    BufferHolds(fb, len) && OffsetsInRange(fb)
    && fb.height != 0 && !(fb.height == -1 && fb.heightVirtual == -0x8000_0000)
  }

  /** The entry point: read the options, then, on the device opened and
      mapped, compose the colour word from the reported offsets and fill the
      buffer. An unknown option ends with status 1 before the device is
      opened, so nothing is demanded of the device then; otherwise the
      status is 0, whatever the filler reported. */
  method PaintScreen(opts: seq<CliOption>, fb: FbConfig, e: Endian, buf: array<bv8>) returns (status: int)
    requires (forall i :: 0 <= i < |opts| ==> !opts[i].Unrecognized?) ==> DeviceFits(fb, buf.Length)
    modifies buf
    ensures status == 1 <==> exists i :: 0 <= i < |opts| && opts[i].Unrecognized?
    ensures status == 1 ==> buf[..] == old(buf[..])
    ensures status == 0 ==> DeviceFits(fb, buf.Length)
    ensures status == 0 ==> buf[..] == Background(fb, ColorWord(ChannelsAfter(opts), fb), e, old(buf[..]))
    ensures status == 0 || status == 1
  {
    var parsed := ReadOptions(opts);
    if parsed.Usage? {
      return 1;
    }
    var color := ColorWord(parsed.request, fb);
    var _ := SetBackgroundColor(fb, color, e, buf);
    status := 0;
  }
}
