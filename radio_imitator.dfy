/** The radio server imitator (src/zmq/imitator_radio.py): it stands in for
    the radio on the bus, takes uplink frame requests into a one-frame buffer,
    transmits the buffered frame as a UDP datagram while reporting its cookie
    as in wait, in progress and sent, and turns received datagrams into
    downlink frames with a cookie that is never zero. Sockets, the clock and
    the periodic reports are left out; what the imitator publishes on the bus
    and sends on the uplink socket are lists the methods append to. */
module RadioImitator {
  import opened Wrappers
  import opened Ints

  /** Both frame counters count modulo 0xFFFF. */
  const FRAME_NO_MODULUS: int := 0xFFFF

  /** The metadata of radio.downlink_frame and radio.rssi_packet, without
      the time stamp. */
  datatype FrameMeta = FrameMeta(
    checksumValid: bool, cookie: int, frameNo: int,
    rssiPkt: int, snrPkt: int, rssiSignal: int)

  /** What the imitator publishes on the bus. */
  datatype RadioOutput =
    | UplinkState(cookieInWait: Option<int>, cookieInProgress: Option<int>,
                  cookieSent: Option<int>, cookieDropped: Option<int>)
    | DownlinkFrame(meta: FrameMeta, payload: seq<byte>)
    | RssiPacket(meta: FrameMeta)

  /** A message read from the bus: its topic and, for an uplink frame
      request, the metadata's cookie and the payload part. */
  datatype RadioInput =
    | PaPowerRequest(paPower: int)
    | UplinkFrameRequest(cookie: int, payload: seq<byte>)
    | OtherTopic(topic: string)

  /** The exceptions the imitator raises. */
  datatype ImitatorError =
    | ShortDatagram   // struct.error: fewer than two octets to unpack
    | UndefinedName   // NameError: process_power_request reads `message`

  /** A frame number after one more frame. */
  function NextFrameNo(n: int): (r: int)
    ensures 0 <= r < FRAME_NO_MODULUS
    ensures 0 <= n < FRAME_NO_MODULUS - 1 ==> r == n + 1
    ensures n == FRAME_NO_MODULUS - 1 ==> r == 0
  {
    (n + 1) % FRAME_NO_MODULUS
  }

  /** The downlink cookie after one more frame: `(c + 1) or 1`. */
  function NextDownlinkCookie(c: int): (r: int)
    ensures r != 0
    ensures c >= 1 ==> r == c + 1
  {
    if c + 1 == 0 then 1 else c + 1
  }

  /** struct.pack("<H", n). */
  function LittleEndian16(n: uint16): (r: seq<byte>)
    ensures |r| == 2 && r[0] as int + (r[1] as int) * 256 == n
  {
    [n % 256, n / 256]
  }

  /** How do_recv_iteration takes a datagram apart: the frame number from
      the first two octets, little-endian, and the payload after them. */
  function SplitDatagram(data: seq<byte>): (r: Result<(uint16, seq<byte>), ImitatorError>)
    ensures r.Failure? <==> |data| < 2
  {
    if |data| < 2 then Failure(ShortDatagram)
    else Success((data[0] as int + (data[1] as int) * 256, data[2..]))
  }

  /** The datagram do_transmit_iteration sends is split back into its frame
      number and payload. */
  lemma DatagramRoundTrip(n: uint16, payload: seq<byte>)
    ensures SplitDatagram(LittleEndian16(n) + payload) == Success((n, payload))
  {
    var d := LittleEndian16(n) + payload;
    assert d[2..] == payload;
  }

  /** And every datagram of two octets or more is one that could be sent. */
  lemma DatagramsAreFrames(data: seq<byte>)
    requires |data| >= 2
    ensures var (n, payload) := SplitDatagram(data).value;
      LittleEndian16(n) + payload == data
  {
    var (n, payload) := SplitDatagram(data).value;
    assert LittleEndian16(n) == data[..2];
  }

  /** The metadata of a downlink frame, with the rssi values
      _get_frame_rssi makes up. */
  function DownlinkMeta(cookie: int, frameNo: int, checksumValid: bool): FrameMeta
  {
    FrameMeta(checksumValid, cookie, frameNo, 0, 11, 0)
  }

  /** The uplink states that processing `arrivals` publishes, while the
      in-progress, sent and dropped slots hold the given values. */
  function ArrivalStates(arrivals: seq<(int, seq<byte>)>, inProgress: Option<int>,
                         done: Option<int>, failed: Option<int>): (r: seq<RadioOutput>)
    ensures |r| == |arrivals|
    ensures forall i :: 0 <= i < |arrivals| ==>
      r[i] == UplinkState(Some(arrivals[i].0), inProgress, done, failed)
  {
    if arrivals == [] then []
    else ArrivalStates(arrivals[..|arrivals| - 1], inProgress, done, failed)
         + [UplinkState(Some(arrivals[|arrivals| - 1].0), inProgress, done, failed)]
  }

  class Radio {
    var downlinkCookie: int
    var downlinkFrameNo: int
    var uplinkFrameNo: int
    var uplinkInWait: Option<int>
    var uplinkInProgress: Option<int>
    var uplinkDone: Option<int>
    var uplinkFailed: Option<int>
    var uplinkBuffer: seq<byte>
    /** stats.srv_rx_frames and stats.pkt_received. */
    var srvRxFrames: nat
    var pktReceived: nat
    /** stats.requested_pa_power. */
    var requestedPaPower: Option<int>
    /** Messages published on the bus, oldest first. */
    var published: seq<RadioOutput>
    /** Datagrams sent on the uplink socket, oldest first. */
    var datagrams: seq<seq<byte>>

    /** The downlink cookie is never zero, both frame numbers are below the
        modulus, and no uplink frame is ever reported dropped. */
    ghost predicate Valid()
      reads this
    {
      && downlinkCookie >= 1
      && 0 <= downlinkFrameNo < FRAME_NO_MODULUS
      && 0 <= uplinkFrameNo < FRAME_NO_MODULUS
      && uplinkFailed.None?
    }

    /** The radio.uplink_state report: the done slot is reported as sent. */
    function State(): (r: RadioOutput)
      reads this
      ensures r.UplinkState? && r.cookieInWait == uplinkInWait && r.cookieInProgress == uplinkInProgress
      ensures r.cookieSent == uplinkDone
      ensures Valid() ==> r.cookieDropped.None?
    {
      UplinkState(uplinkInWait, uplinkInProgress, uplinkDone, uplinkFailed)
    }

    constructor()
      ensures Valid()
      ensures downlinkCookie == 1 && downlinkFrameNo == 0 && uplinkFrameNo == 0
      ensures uplinkInWait.None? && uplinkInProgress.None? && uplinkDone.None? && uplinkBuffer == []
      ensures srvRxFrames == 0 && pktReceived == 0 && requestedPaPower.None?
      ensures published == [] && datagrams == []
    {
      downlinkCookie := 1;
      downlinkFrameNo := 0;
      uplinkFrameNo := 0;
      uplinkInWait := None;
      uplinkInProgress := None;
      uplinkDone := None;
      uplinkFailed := None;
      uplinkBuffer := [];
      srvRxFrames := 0;
      pktReceived := 0;
      requestedPaPower := None;
      published := [];
      datagrams := [];
    }

    /** send_uplink_state. */
    method SendUplinkState()
      modifies this`published
      ensures published == old(published) + [State()]
    {
      published := published + [State()];
    }

    /** process_uplink_frame: the request's cookie goes in wait and its
        payload into the buffer, replacing a frame not yet transmitted. */
    method ProcessUplinkFrame(cookie: int, payload: seq<byte>)
      modifies this`uplinkInWait, this`uplinkBuffer, this`published
      ensures uplinkInWait == Some(cookie) && uplinkBuffer == payload
      ensures published == old(published) + [UplinkState(Some(cookie), uplinkInProgress, uplinkDone, uplinkFailed)]
    {
      uplinkInWait := Some(cookie);
      uplinkBuffer := payload;
      SendUplinkState();
    }

    /** The uplink frame requests active_sleep takes from the bus, in order;
        the last one is what stays in wait. */
    method ActiveSleep(arrivals: seq<(int, seq<byte>)>)
      modifies this`uplinkInWait, this`uplinkBuffer, this`published
      ensures arrivals == [] ==> uplinkInWait == old(uplinkInWait) && uplinkBuffer == old(uplinkBuffer)
      ensures arrivals != [] ==>
        uplinkInWait == Some(arrivals[|arrivals| - 1].0) && uplinkBuffer == arrivals[|arrivals| - 1].1
      ensures published == old(published) + ArrivalStates(arrivals, uplinkInProgress, uplinkDone, uplinkFailed)
    {
      var i := 0;
      while i < |arrivals|
        invariant 0 <= i <= |arrivals|
        invariant i == 0 ==> uplinkInWait == old(uplinkInWait) && uplinkBuffer == old(uplinkBuffer)
        invariant i > 0 ==> uplinkInWait == Some(arrivals[i - 1].0) && uplinkBuffer == arrivals[i - 1].1
        invariant published == old(published) + ArrivalStates(arrivals[..i], uplinkInProgress, uplinkDone, uplinkFailed)
      {
        ProcessUplinkFrame(arrivals[i].0, arrivals[i].1);
        assert arrivals[..i + 1][..i] == arrivals[..i];
        i := i + 1;
      }
      assert arrivals[..|arrivals|] == arrivals;
    }

    /** do_transmit_iteration: with an empty buffer nothing happens.
        Otherwise the buffered frame, behind the little-endian uplink frame
        number, is sent as one datagram; its cookie goes from in wait to in
        progress, and once the datagram is sent, to done. Requests arriving
        while it is on the air fill the buffer and the in-wait slot again. */
    method DoTransmitIteration(arrivals: seq<(int, seq<byte>)>) returns (transmitted: bool)
      requires Valid()
      modifies this`uplinkBuffer, this`uplinkFrameNo, this`uplinkInProgress, this`uplinkInWait
      modifies this`uplinkDone, this`published, this`datagrams
      ensures Valid()
      ensures transmitted <==> old(uplinkBuffer) != []
      ensures !transmitted ==>
        && uplinkBuffer == old(uplinkBuffer) && uplinkFrameNo == old(uplinkFrameNo)
        && uplinkInProgress == old(uplinkInProgress) && uplinkInWait == old(uplinkInWait)
        && uplinkDone == old(uplinkDone) && published == old(published) && datagrams == old(datagrams)
      ensures transmitted ==>
        && datagrams == old(datagrams) + [LittleEndian16(old(uplinkFrameNo)) + old(uplinkBuffer)]
        && uplinkFrameNo == NextFrameNo(old(uplinkFrameNo))
        && uplinkDone == old(uplinkInWait) && uplinkInProgress.None?
        && (arrivals == [] ==> uplinkInWait.None? && uplinkBuffer == [])
        && (arrivals != [] ==>
              uplinkInWait == Some(arrivals[|arrivals| - 1].0) && uplinkBuffer == arrivals[|arrivals| - 1].1)
        && published == old(published)
             + [UplinkState(None, old(uplinkInWait), old(uplinkDone), None)]
             + ArrivalStates(arrivals, old(uplinkInWait), old(uplinkDone), None)
             + [UplinkState(uplinkInWait, None, old(uplinkInWait), None)]
    {
      if |uplinkBuffer| == 0 {
        return false;
      }
      Transmit(arrivals);
      transmitted := true;
    }

    /** The part of do_transmit_iteration after it found a frame to send. */
    method Transmit(arrivals: seq<(int, seq<byte>)>)
      requires uplinkFailed.None? && 0 <= uplinkFrameNo < FRAME_NO_MODULUS && uplinkBuffer != []
      modifies this`uplinkBuffer, this`uplinkFrameNo, this`uplinkInProgress, this`uplinkInWait
      modifies this`uplinkDone, this`published, this`datagrams
      ensures datagrams == old(datagrams) + [LittleEndian16(old(uplinkFrameNo)) + old(uplinkBuffer)]
      ensures uplinkFrameNo == NextFrameNo(old(uplinkFrameNo))
      ensures uplinkDone == old(uplinkInWait) && uplinkInProgress.None?
      ensures arrivals == [] ==> uplinkInWait.None? && uplinkBuffer == []
      ensures arrivals != [] ==>
        uplinkInWait == Some(arrivals[|arrivals| - 1].0) && uplinkBuffer == arrivals[|arrivals| - 1].1
      ensures published == old(published)
        + [UplinkState(None, old(uplinkInWait), old(uplinkDone), None)]
        + ArrivalStates(arrivals, old(uplinkInWait), old(uplinkDone), None)
        + [UplinkState(uplinkInWait, None, old(uplinkInWait), None)]
    {
      var data := uplinkBuffer;
      uplinkBuffer := [];
      data := LittleEndian16(uplinkFrameNo) + data;
      uplinkFrameNo := NextFrameNo(uplinkFrameNo);
      uplinkInProgress := uplinkInWait;
      uplinkInWait := None;
      SendUplinkState();
      ActiveSleep(arrivals);
      datagrams := datagrams + [data];
      uplinkDone := uplinkInProgress;
      uplinkInProgress := None;
      SendUplinkState();
    }

    /** send_downlink_frame: the frame number given, or the stored one, is
        published with the current downlink cookie; the stored number and
        the cookie move on and the frame counters grow by one. */
    method SendDownlinkFrame(payload: seq<byte>, checksumValid: bool, frameNo: Option<int>)
      requires Valid()
      modifies this`downlinkFrameNo, this`downlinkCookie, this`published, this`srvRxFrames, this`pktReceived
      ensures Valid()
      ensures var n := if frameNo.Some? then frameNo.value else old(downlinkFrameNo);
        var meta := DownlinkMeta(old(downlinkCookie), n, checksumValid);
        && downlinkFrameNo == NextFrameNo(n)
        && published == old(published) + [DownlinkFrame(meta, payload), RssiPacket(meta)]
      ensures downlinkCookie == old(downlinkCookie) + 1
      ensures srvRxFrames == old(srvRxFrames) + 1 && pktReceived == old(pktReceived) + 1
    {
      var n := if frameNo.Some? then frameNo.value else downlinkFrameNo;
      downlinkFrameNo := NextFrameNo(n);
      var cookie := downlinkCookie;
      downlinkCookie := NextDownlinkCookie(downlinkCookie);
      var meta := DownlinkMeta(cookie, n, checksumValid);
      published := published + [DownlinkFrame(meta, payload)];
      published := published + [RssiPacket(meta)];
      srvRxFrames := srvRxFrames + 1;
      pktReceived := pktReceived + 1;
    }

    /** do_recv_iteration after its sleep: a datagram waiting on the uplink
        socket is published as a downlink frame with a valid checksum and
        the frame number it carries. */
    method DoRecvIteration(datagram: Option<seq<byte>>) returns (r: Result<bool, ImitatorError>)
      requires Valid()
      modifies this`downlinkFrameNo, this`downlinkCookie, this`published, this`srvRxFrames, this`pktReceived
      ensures Valid()
      ensures datagram.None? ==> r == Success(false) && published == old(published)
      ensures datagram.Some? && |datagram.value| < 2 ==> r == Failure(ShortDatagram) && published == old(published)
      ensures datagram.Some? && |datagram.value| >= 2 ==>
        var (n, payload) := SplitDatagram(datagram.value).value;
        && r == Success(true)
        && published == old(published)
             + [DownlinkFrame(DownlinkMeta(old(downlinkCookie), n, true), payload),
                RssiPacket(DownlinkMeta(old(downlinkCookie), n, true))]
        && downlinkFrameNo == NextFrameNo(n)
    {
      if datagram.None? {
        return Success(false);
      }
      var data := datagram.value;
      if |data| < 2 {
        return Failure(ShortDatagram);
      }
      var frameNo := data[0] as int + (data[1] as int) * 256;
      var payload := data[2..];
      SendDownlinkFrame(payload, true, Some(frameNo));
      r := Success(true);
    }

    /** process_power_request, as written: its body reads `message`, a name
        that is not defined there, so it raises before changing anything. */
    method ProcessPowerRequest(paPower: int) returns (r: Result<(), ImitatorError>)
      ensures r == Failure(UndefinedName)
    {
      r := Failure(UndefinedName);
    }

    /** process_power_request reading its own parameter: the requested
        power is recorded in the statistics. */
    method ProcessPowerRequestCorrected(paPower: int) returns (r: Result<(), ImitatorError>)
      modifies this`requestedPaPower
      ensures r.Success? && requestedPaPower == Some(paPower)
    {
      requestedPaPower := Some(paPower);
      r := Success(());
    }

    /** process_input_message: a power request or an uplink frame request by
        its topic; any other topic is only logged. */
    method ProcessInputMessage(m: RadioInput) returns (r: Result<(), ImitatorError>)
      modifies this`uplinkInWait, this`uplinkBuffer, this`published
      ensures m.PaPowerRequest? ==> r == Failure(UndefinedName)
      ensures !m.PaPowerRequest? ==> r.Success?
      ensures m.UplinkFrameRequest? ==>
        && uplinkInWait == Some(m.cookie) && uplinkBuffer == m.payload
        && published == old(published) + [UplinkState(Some(m.cookie), uplinkInProgress, uplinkDone, uplinkFailed)]
      ensures !m.UplinkFrameRequest? ==>
        uplinkInWait == old(uplinkInWait) && uplinkBuffer == old(uplinkBuffer) && published == old(published)
    {
      match m {
        case PaPowerRequest(p) =>
          r := ProcessPowerRequest(p);
        case UplinkFrameRequest(cookie, payload) =>
          ProcessUplinkFrame(cookie, payload);
          r := Success(());
        case OtherTopic(_) =>
          r := Success(());
      }
    }
  }
}
