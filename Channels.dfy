/** The colour request of the framebuffer test tool: one 8-bit value per
    channel, read from the -r, -g and -b options (each defaulting to 0xff),
    and the single colour word the entry point composes from them by
    shifting each channel to the offset the device reports. */
module Channels {

  /** The three channels selectable on the command line. */
  datatype Channel = Red | Green | Blue

  /** The requested colour: every channel already masked to 8 bits. */
  datatype ColorRequest = ColorRequest(red: bv8, green: bv8, blue: bv8)
  {
    function Get(ch: Channel): bv8 {
      match ch
      case Red => red
      case Green => green
      case Blue => blue
    }

    /** The request with channel `ch` replaced by `v`, the others kept. */
    function With(ch: Channel, v: bv8): (r: ColorRequest)
      ensures r.Get(ch) == v
      ensures forall other: Channel :: other != ch ==> r.Get(other) == Get(other)
    {
      match ch
      case Red => this.(red := v)
      case Green => this.(green := v)
      case Blue => this.(blue := v)
    }
  }

  /** A channel that no option sets stays at full intensity. */
  const DefaultChannel: bv8 := 0xFF
  const DefaultRequest := ColorRequest(DefaultChannel, DefaultChannel, DefaultChannel)

  /** One command-line option as the option loop sees it: a channel flag
      together with the value its argument converts to as a C `long`
      (its two's-complement bits), or a flag the tool does not know. */
  datatype CliOption = SetChannel(ch: Channel, arg: bv64) | Unrecognized

  /** Either the channels to paint with, or the usage text followed by exit status 1. */
  datatype ParsedColor = Color(request: ColorRequest) | Usage

  /** `0xff & value`: the channel keeps the low eight bits of the converted
      argument, so an argument in 0..255 is kept as it is and any other
      value wraps (negative values through their two's-complement bits). */
  function MaskChannel(arg: bv64): (c: bv8)
    ensures (arg ^ c as bv64) & 0xFF == 0
    ensures arg <= 0xFF ==> c as bv64 == arg
  {
    (arg & 0xFF) as bv8
  }

  /** The channels after one option; an unrecognised flag changes none. */
  function Apply(req: ColorRequest, o: CliOption): ColorRequest {
    match o
    case SetChannel(ch, arg) => req.With(ch, MaskChannel(arg))
    case Unrecognized => req
  }

  /** The channels after the options, applied in command-line order from the defaults. */
  function ChannelsAfter(opts: seq<CliOption>): ColorRequest {
    if |opts| == 0 then DefaultRequest
    else Apply(ChannelsAfter(opts[..|opts| - 1]), opts[|opts| - 1])
  }

  predicate SetsChannel(o: CliOption, ch: Channel) {
    o.SetChannel? && o.ch == ch
  }

  /** The option loop of the entry point: each channel flag overwrites its
      channel with the masked argument; an unknown flag ends the program
      with the usage text. */
  method ReadOptions(opts: seq<CliOption>) returns (parsed: ParsedColor)
    ensures parsed.Usage? <==> exists i :: 0 <= i < |opts| && opts[i].Unrecognized?
    ensures parsed.Color? ==> parsed.request == ChannelsAfter(opts)
  {
    var red, green, blue := DefaultChannel, DefaultChannel, DefaultChannel;
    var i := 0;
    while i < |opts|
      invariant 0 <= i <= |opts|
      invariant forall k :: 0 <= k < i ==> !opts[k].Unrecognized?
      invariant ColorRequest(red, green, blue) == ChannelsAfter(opts[..i])
    {
      assert opts[..i + 1][..i] == opts[..i];
      match opts[i] {
        case SetChannel(Red, arg) =>
          red := MaskChannel(arg);
        case SetChannel(Green, arg) =>
          green := MaskChannel(arg);
        case SetChannel(Blue, arg) =>
          blue := MaskChannel(arg);
        case Unrecognized =>
          return Usage;
      }
      i := i + 1;
    }
    assert opts[..i] == opts;
    parsed := Color(ColorRequest(red, green, blue));
  }

  /** A channel that no option names keeps its default of 0xff. */
  lemma {:induction false} UnsetChannelIsDefault(opts: seq<CliOption>, ch: Channel)
    requires forall k :: 0 <= k < |opts| ==> !SetsChannel(opts[k], ch)
    ensures ChannelsAfter(opts).Get(ch) == DefaultChannel
  {
    if |opts| > 0 {
      UnsetChannelIsDefault(opts[..|opts| - 1], ch);
    }
  }

  /** When the same channel is given several times, the last option wins. */
  lemma {:induction false} LastOptionWins(opts: seq<CliOption>, ch: Channel, i: nat)
    requires i < |opts| && SetsChannel(opts[i], ch)
    requires forall k :: i < k < |opts| ==> !SetsChannel(opts[k], ch)
    ensures ChannelsAfter(opts).Get(ch) == MaskChannel(opts[i].arg)
  {
    if i < |opts| - 1 {
      LastOptionWins(opts[..|opts| - 1], ch, i);
    }
  }

  /** `value << offset` for a masked channel; offsets up to 23 keep the
      shifted channel inside a non-negative C `int`. */
  function Shifted(v: bv8, offset: nat): bv32
    requires offset <= 23
  {
    (v as bv32) << offset
  }

  /** The eight bit positions a channel at `offset` may occupy. */
  function Field(offset: nat): bv32
    requires offset <= 23
  {
    (0xFF as bv32) << offset
  }

  /** The colour word `red << red_offset | green << green_offset |
      blue << blue_offset`, converted to `unsigned int`. No channel is cut
      to the length the device reports, so channels may overlap: every bit
      of every shifted channel is set in the word. */
  function Compose(req: ColorRequest, redOffset: nat, greenOffset: nat, blueOffset: nat): (color: bv32)
    requires redOffset <= 23 && greenOffset <= 23 && blueOffset <= 23
    ensures color < 0x8000_0000
    ensures color & Shifted(req.red, redOffset) == Shifted(req.red, redOffset)
    ensures color & Shifted(req.green, greenOffset) == Shifted(req.green, greenOffset)
    ensures color & Shifted(req.blue, blueOffset) == Shifted(req.blue, blueOffset)
  {
    Shifted(req.red, redOffset) | Shifted(req.green, greenOffset) | Shifted(req.blue, blueOffset)
  }

  /** The colour word sets no bit outside the three 8-bit channel fields. */
  lemma ComposeStaysInFields(req: ColorRequest, redOffset: nat, greenOffset: nat, blueOffset: nat)
    requires redOffset <= 23 && greenOffset <= 23 && blueOffset <= 23
    ensures Compose(req, redOffset, greenOffset, blueOffset) & !(Field(redOffset) | Field(greenOffset) | Field(blueOffset)) == 0
  {
  }

  /** When the three 8-bit fields do not overlap, each channel can be read
      back from its own field of the colour word. */
  lemma ComposeSeparatesFields(req: ColorRequest, redOffset: nat, greenOffset: nat, blueOffset: nat)
    requires redOffset <= 23 && greenOffset <= 23 && blueOffset <= 23
    requires Field(redOffset) & Field(greenOffset) == 0
    requires Field(redOffset) & Field(blueOffset) == 0
    requires Field(greenOffset) & Field(blueOffset) == 0
    ensures (Compose(req, redOffset, greenOffset, blueOffset) >> redOffset) & 0xFF == req.red as bv32
    ensures (Compose(req, redOffset, greenOffset, blueOffset) >> greenOffset) & 0xFF == req.green as bv32
    ensures (Compose(req, redOffset, greenOffset, blueOffset) >> blueOffset) & 0xFF == req.blue as bv32
  {
  }

  /** With the typical RGB565 offsets 11/5/0 the default white request
      overlaps its fields and composes to 0x7FFFF. */
  lemma WhiteAtRgb565Offsets()
    ensures Compose(DefaultRequest, 11, 5, 0) == 0x7FFFF
  {
  }
}
