# fbtest: framebuffer colour fill, modelled in Dafny

`fbtest` is a small Linux framebuffer test tool. It reads one red, one green
and one blue value from the command line (each masked to 8 bits and
defaulting to 0xff), composes them into one colour word at the channel
offsets the device reports, and fills the first width × height pixel slots
of the mapped buffer with that colour.

This project models the colour handling and the frame filler
`set_background_color`:

- `Channels` (Channels.dfy) covers the option loop of `main` over
  already-converted option values. The last value given for a channel wins.
  Each value is masked to 8 bits, and an unknown flag leads to the usage
  exit. It also covers composing the colour word
  `red << red_offset | green << green_offset | blue << blue_offset`.
- `Pack` (Pack.dfy) covers the two pixel encodings. One is the RGB565
  half-word, built from three disjoint masks that together cover bits 0-15.
  The other is the packed `rgb888_t` record, whose bytes are blue, green, red
  with no padding. `Pack` also gives the bytes each encoding occupies in
  memory, with round-trip lemmas.
- `Framebuffer` (Framebuffer.dfy) covers the device configuration and the
  mapped buffer, modelled as one `array<bv8>`. It has the two fill loops
  (`Fill16`, `Fill24`), the filler `SetBackgroundColor`, and `main` from the
  option loop to the fill, with the device calls in between left out
  (`PaintScreen`).
  - Each fill method is proved against `Filled`. `Filled(s, k, unit)` is the
    buffer `s` after slots 0 to k-1 were overwritten with `unit`, one after
    the other.
  - `Background` is the filler's whole effect, by bits per pixel.
  - The lemmas state slot by slot what the buffer holds after the fill. They
    also show that nothing past the written slots changes, that an
    unsupported depth or an empty screen writes nothing, and that a second
    fill changes nothing.

The model follows the code. At 24 bits per pixel the code shifts the colour
word left before masking with 0xff. So the green and red bytes of every
record are 0, and only blue survives (see "## Findings"). At 16 bits per
pixel the packed value is the low half of the colour word. Neither path
looks at the channel lengths the device reports, and neither looks at the
line stride. The filler writes `width * height` slots contiguously from the
start of the buffer.

The host's byte order decides how a 16-bit store lands in the byte buffer.
The model takes it as a parameter (`Pack.Endian`).

## Model

| member | source | states |
|---|---|---|
| `Channels.MaskChannel` | main.c:187-198 | `0xff & value` keeps exactly the low eight bits of the converted argument, and an argument in 0..255 is kept unchanged |
| `Channels.ReadOptions` | main.c:180-206 | the option loop ends in the usage exit exactly when some flag is unrecognised; otherwise the channels are the defaults overwritten by the options in order |
| `Channels.UnsetChannelIsDefault` | main.c:180-182 | a channel that no option names stays 0xff |
| `Channels.LastOptionWins` | main.c:185-200 | when a channel is given several times, its value is the masked argument of the last option for it |
| `Channels.Compose` | main.c:260 | the colour word fits a non-negative `int` under the offset bound, and every bit of each shifted channel is set in it (no masking by channel length) |
| `Channels.ComposeStaysInFields` | main.c:260 | the colour word sets no bit outside the three 8-bit fields at the reported offsets |
| `Channels.ComposeSeparatesFields` | main.c:260 | when the three fields do not overlap, each channel reads back from its own field |
| `Channels.WhiteAtRgb565Offsets` | main.c:260 | the default white request at offsets 11/5/0 overlaps its fields and composes to 0x7FFFF |
| `Pack.Rgb565MasksPartition` | main.c:144-146 | the masks 0xF800, 0x07E0 and 0x001F are pairwise disjoint and together cover exactly bits 0-15 |
| `Pack.Rgb565` | main.c:144-146 | the packed 16-bit pixel equals `color & 0xFFFF` |
| `Pack.HalfwordRoundTrip` | main.c:143-150 | reading back the two bytes a 16-bit store wrote gives the stored value, in either byte order |
| `Pack.HalfwordBytesRoundTrip` | main.c:143-150 | storing the half-word read from two bytes writes the same two bytes |
| `Pack.RecordRoundTrip` | main.c:122-126 | the packed record's three bytes (blue, green, red) read back as the same record |
| `Pack.RecordBytesRoundTrip` | main.c:122-126 | any three bytes are the layout of exactly one record |
| `Pack.Rgb888Of` | main.c:158-162 | the record's blue byte is `color & 0xFF`, and its green and red bytes are 0 for every colour word |
| `Pack.Rgb888DropsGreenAndRed` | main.c:158-162 | red 0x12, green 0x34, blue 0x56 at offsets 16/8/0 give the record (0x56, 0, 0), not (0x56, 0x34, 0x12) |
| `Pack.Rgb888IntendedRecoversChannels` | main.c:158-162 | with right shifts before the mask, every request composed at 16/8/0 is recovered channel for channel |
| `Framebuffer.FilledSlot` | main.c:149-150 | after `k` slots are filled, each slot `j < k` holds exactly the unit written |
| `Framebuffer.FilledBeyond` | main.c:149-165 | bytes past the first `k` slots keep their old values |
| `Framebuffer.FilledNext` | main.c:149-150 | each iteration of the loop rewrites exactly the bytes of the next slot |
| `Framebuffer.FilledIdempotent` | main.c:149-165 | writing the same slots with the same unit twice gives the buffer one pass gives |
| `Framebuffer.Fill16` | main.c:149-150 | the buffer after the 16-bit loop is the old buffer with its first `size` half-word slots overwritten, in index order, by the pixel (none when `size <= 0`) |
| `Framebuffer.Fill24` | main.c:164-165 | the buffer after the 24-bit loop is the old buffer with its first `size` 3-byte slots overwritten, in index order, by the record (none when `size <= 0`) |
| `Framebuffer.SetBackgroundColor` | main.c:134-173 | the new buffer is `Background` of the old one; the outcome is an unsupported-depth report exactly when bpp is neither 16 nor 24, and then the buffer is unchanged |
| `Framebuffer.Background16Slot` | main.c:141-150 | at 16 bpp every slot `j < width*height` reads back as `color & 0xFFFF` |
| `Framebuffer.Background24Slot` | main.c:155-165 | at 24 bpp every 3-byte slot `j < width*height` reads back as the packed record, whose bytes are `color & 0xFF`, 0, 0 in that order |
| `Framebuffer.BackgroundBeyond` | main.c:134-173 | no byte past `width*height` slots of the depth's size changes |
| `Framebuffer.BackgroundUnsupported` | main.c:169-171 | for any depth other than 16 and 24 the buffer is left completely unmodified |
| `Framebuffer.BackgroundEmptyScreen` | main.c:135 | with no pixels (width or height 0, or a negative product) nothing is written |
| `Framebuffer.BackgroundIdempotent` | main.c:140-167 | filling twice with the same format and colour gives the buffer one fill gives |
| `Framebuffer.WhiteRgb565Screen` | main.c:141-150 | offsets 11/5/0 with every channel 0xff: every 16-bit slot holds 0xFFFF |
| `Framebuffer.Rgb888Screen` | main.c:155-165 | offsets 16/8/0 with red 0x12, green 0x34, blue 0x56: every record is written as 0x56, 0x00, 0x00 |
| `Framebuffer.Rgb888IntendedScreen` | main.c:158-162 | the same screen filled with the corrected record holds 0x56, 0x34, 0x12 in every slot |
| `Framebuffer.PaintScreen` | main.c:185-263 | an unknown flag ends with status 1 and an untouched buffer, whatever the device reports; otherwise, on a device of non-zero height (`DeviceFits`), the status is 0 and the buffer is filled with the colour word composed from the options at the reported offsets |

## Left out

- Device access is not modelled: opening `/dev/fb0`, the two screen-info ioctls, `mmap`, `munmap` and `close` (main.c:210-254, 266-269). The format fields and the mapped buffer are inputs, and the failure exits of these calls are not modelled.
- `fbdev_blank` (main.c:72-78) is a display-power ioctl with no logic. The blank/unblank pair around the fill (main.c:257, 263) is left out.
- `dump_vscreeninfo`, `dump_fscreeninfo`, `usage` and every `printf`/`fprintf` are output only. This includes "bpp 16 color." and the unsupported-depth message; the model keeps only the outcome (`Outcome.UnsupportedDepth`).
- `getopt` and the number syntax of `strtol` are library calls. Options arrive already split and converted to a 64-bit `long` (`CliOption`). Only the `0xff &` masking, the defaults and the last-one-wins order are modelled.
- `buffer_num = height_virtual / height` (main.c:245) is not used by the fill. The virtual height, the transparency field, the channel lengths and the stride are carried in `FbConfig` but ignored, as in the code.
- Host byte order is a parameter (`Endian`), not a property of the machine.
- C undefined behaviour is excluded by preconditions instead of being modelled:
  - `height * width` must fit an `int` (`SizeFitsInt`).
  - Every channel offset must lie in 0..23 (`OffsetsInRange`), so that `channel << offset` stays a non-negative `int`.
  - When every flag is known, the height must not be 0 for `PaintScreen` (`DeviceFits`). Before the fill, the program divides by the height: in `dump_vscreeninfo` at main.c:85, called at main.c:221, and in `height_virtual / height` at main.c:245. For the same reason the height -1 with the virtual height `INT_MIN` is excluded, since that quotient overflows.
- PaintScreen: when every flag is known, it requires a non-zero height, so it says nothing about a screen of height 0 (or of height -1 with virtual height `INT_MIN`) in that case. The program divides by the height before the fill, and that crash is not modelled as an outcome. An unknown flag exits before the device is opened, and then nothing is required of the device.
- The filler never checks the buffer length. `BufferHolds` requires the buffer to hold every slot written, where the real program relies on the device's mapped length.
- The 24-bit packer follows the code. The `rgb888_t` field names and the RGB888 comment at main.c:156 show that green and red were meant to come from bits 8-15 and 16-23 of the colour word, but the code makes them 0. The intended behaviour is modelled only as the corrected packer in the finding below.

## Findings

| source | as written | input that shows it | evidently intended | confidence | as-written member | corrected member |
|---|---|---|---|---|---|---|
| main.c:160-161 | `.green = (color << 8) & 0xFF` and `.red = (color << 16) & 0xFF`: the left shift moves the colour's bits away from the mask, so green and red are always 0 | red 0x12, green 0x34, blue 0x56 at offsets 16/8/0 (colour word 0x123456) fills every record with 0x56, 0x00, 0x00 | shift right: `(color >> 8) & 0xFF` and `(color >> 16) & 0xFF`, giving 0x56, 0x34, 0x12 | high; not executed | `Pack.Rgb888DropsGreenAndRed` | `Pack.Rgb888IntendedRecoversChannels` |

`Pack.Rgb888Of` is the packer as written. It is what `SetBackgroundColor`
uses, because the filler here models the program's actual behaviour.
`Pack.Rgb888Intended` is the corrected packer. `Framebuffer.Rgb888IntendedScreen`
fills a screen with its record through the same `Filled` specification and
shows the intended bytes in every slot.
