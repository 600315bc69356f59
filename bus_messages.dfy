/** The messages the USLP server exchanges with the ground bus
    (server-uslp/src/bus_messages.hpp): three inbound kinds, three outbound
    kinds, each tagged with its kind by its constructor. */
module BusMessages {
  import opened Wrappers
  import opened Ints

  /** Global MAP channel identifier of the USLP library (gmapid_t): spacecraft,
      virtual channel and MAP channel, as the ints the bus code reads and
      writes. */
  datatype ChannelId = ChannelId(sc: int32, vc: int32, mapId: int32)

  /** Quality of service of an SDU (qos_t). */
  datatype Qos = Expedited | SequenceControlled

  /** One part of a segmented payload (payload_part_cookie_t). */
  datatype PartCookie = PartCookie(cookie: uint64, partNo: uint64, final: bool)

  /** The flag word of a received MAP SDU (acceptor_event_map_sdu::flags). */
  type Flags = bv64

  // The six flag masks of the USLP library, as distinct single bits.
  const INCOMPLETE: Flags := 1
  const IDLE: Flags := 2
  const CORRUPTED: Flags := 4
  const MAPA: Flags := 8
  const MAPP: Flags := 16
  const STRAY: Flags := 32

  /** bus_input_message::kind_t */
  datatype InputKind = SduUplinkRequestKind | RadioFrameDownlinkKind | RadioUplinkStateKind

  /** The inbound messages: a client's request to send an SDU, a frame the radio
      received, and the state of the radio's transmit buffer (four independently
      optional frame cookies). */
  datatype InputMessage =
    | SduUplinkRequest(gmapid: ChannelId, qos: Qos, cookie: uint64, data: seq<byte>)
    | RadioDownlinkFrame(checksumValid: bool, frameCookie: uint64, frameNo: uint16, data: seq<byte>)
    | RadioUplinkState(cookieInWait: Option<uint64>, cookieInProgress: Option<uint64>,
                       cookieDone: Option<uint64>, cookieFailed: Option<uint64>)

  /** The tag each concrete inbound class passes to its base constructor. */
  function InputKindOf(m: InputMessage): (k: InputKind)
    ensures k == SduUplinkRequestKind <==> m.SduUplinkRequest?
    ensures k == RadioFrameDownlinkKind <==> m.RadioDownlinkFrame?
    ensures k == RadioUplinkStateKind <==> m.RadioUplinkState?
  {
    match m
    case SduUplinkRequest(_, _, _, _) => SduUplinkRequestKind
    case RadioDownlinkFrame(_, _, _, _) => RadioFrameDownlinkKind
    case RadioUplinkState(_, _, _, _) => RadioUplinkStateKind
  }

  /** sdu_uplink_event::event_kind_t: exactly five kinds. */
  datatype EventKind = SduAccepted | SduRejected | SduSentToRadio | SduRadiated | SduRadiationFailed

  /** bus_output_message::kind_t */
  datatype OutputKind = SduUplinkEventKind | SduDownlinkArrivedKind | RadioUplinkFrameKind

  /** The outbound messages: an event that happened to an uplink SDU part, an
      SDU the input stack accepted, and a frame for the radio to transmit. */
  datatype OutputMessage =
    | SduUplinkEvent(gmapid: ChannelId, partCookie: PartCookie, eventKind: EventKind, comment: string)
    | SduDownlink(gmapid: ChannelId, qos: Qos, flags: Flags, data: seq<byte>)
    | RadioUplinkFrame(frameCookie: uint64, data: seq<byte>)

  /** The tag each concrete outbound class passes to its base constructor. */
  function OutputKindOf(m: OutputMessage): (k: OutputKind)
    ensures k == SduUplinkEventKind <==> m.SduUplinkEvent?
    ensures k == SduDownlinkArrivedKind <==> m.SduDownlink?
    ensures k == RadioUplinkFrameKind <==> m.RadioUplinkFrame?
  {
    match m
    case SduUplinkEvent(_, _, _, _) => SduUplinkEventKind
    case SduDownlink(_, _, _, _) => SduDownlinkArrivedKind
    case RadioUplinkFrame(_, _) => RadioUplinkFrameKind
  }

  /** A freshly constructed sdu_uplink_request: expedited and no data. Its
      channel id and cookie are left uninitialised by the constructor, so
      they are parameters here. */
  function DefaultSduUplinkRequest(gmapid: ChannelId, cookie: uint64): (m: InputMessage)
    ensures InputKindOf(m) == SduUplinkRequestKind
    ensures m.qos == Expedited && m.data == []
    ensures m.gmapid == gmapid && m.cookie == cookie
  {
    SduUplinkRequest(gmapid, Expedited, cookie, [])
  }

  /** A freshly constructed radio_downlink_frame, before the parser fills it. */
  function DefaultRadioDownlinkFrame(): (m: InputMessage)
    ensures InputKindOf(m) == RadioFrameDownlinkKind
    ensures !m.checksumValid && m.frameCookie == 0 && m.frameNo == 0 && m.data == []
  {
    RadioDownlinkFrame(false, 0, 0, [])
  }

  /** A freshly constructed sdu_downlink: expedited, no flags, no data. */
  function DefaultSduDownlink(gmapid: ChannelId): (m: OutputMessage)
    ensures OutputKindOf(m) == SduDownlinkArrivedKind
    ensures m.qos == Expedited && m.flags == 0 && m.data == []
  {
    SduDownlink(gmapid, Expedited, 0, [])
  }
}
