/** The socket side of the bus (server-uslp/src/bus_io.cpp): the server
    publishes the parts of its outbound messages one send at a time and reads
    the parts of an inbound message one recv at a time, draining whatever
    follows the payload. The sockets are two queues of parts. */
module BusIo {
  import opened Wrappers
  import opened Ints
  import opened BusMessages
  import opened BusCodec

  /** _downlink_sdu_flags_to_string: walks the six-entry table in order and
      appends the name of each flag whose bit is set. */
  method DownlinkSduFlagsToStrings(flags: Flags) returns (names: seq<string>)
    ensures names == FlagNames(flags)
  {
    names := [];
    var i := 0;
    while i < |FLAG_ORDER|
      invariant 0 <= i <= |FLAG_ORDER|
      invariant names == NamesOf(SetBitsIn(FLAG_ORDER[..i], flags))
    {
      var b := FLAG_ORDER[i];
      assert FLAG_ORDER[..i + 1][..i] == FLAG_ORDER[..i];
      var before := SetBitsIn(FLAG_ORDER[..i], flags);
      if IsSet(flags, b) {
        NamesOfSnoc(before, b);
        names := names + [FlagName(b)];
      } else {
        assert before + [] == before;
      }
      i := i + 1;
    }
    assert FLAG_ORDER[..|FLAG_ORDER|] == FLAG_ORDER;
  }

  lemma NamesOfSnoc(bits: seq<FlagBit>, b: FlagBit)
    ensures NamesOf(bits + [b]) == NamesOf(bits) + [FlagName(b)]
  {
    assert (bits + [b])[..|bits|] == bits;
  }

  /** The publishing and the subscribing socket of bus_io. */
  class Bus {
    /** Parts delivered to the subscribing socket and not yet read. */
    var inbox: seq<InPart>
    /** Parts written to the publishing socket, oldest first. */
    var published: seq<OutPart>
    /** The messages sent, oldest first. Each send appends the message's
        parts to published, so published stays EncodeAll(sent)
        (EncodeAllAppend). */
    ghost var sent: seq<OutputMessage>
    /** json::parse; None where it throws. */
    const parse: seq<byte> -> Option<Json>

    /** The subscribing socket holds whole messages. */
    ghost predicate Valid()
      reads this
    {
      WholeMessages(inbox)
    }

    constructor(parse: seq<byte> -> Option<Json>, pending: seq<InPart>)
      requires WholeMessages(pending)
      ensures Valid()
      ensures this.parse == parse && inbox == pending && published == [] && sent == []
      ensures published == EncodeAll(sent)
    {
      this.parse := parse;
      inbox := pending;
      published := [];
      sent := [];
    }

    /** One send on the publishing socket. */
    method Publish(p: OutPart)
      modifies this
      ensures published == old(published) + [p]
      ensures inbox == old(inbox) && sent == old(sent)
    {
      published := published + [p];
    }

    /** send_message(sdu_downlink): topic, metadata with the flag names,
        data. */
    method SendSduDownlink(id: ChannelId, qos: Qos, flags: Flags, data: seq<byte>)
      modifies this
      ensures published == old(published) + Encode(SduDownlink(id, qos, flags, data))
      ensures inbox == old(inbox) && sent == old(sent)
    {
      var names := DownlinkSduFlagsToStrings(flags);
      var topic := ChannelIdToTopic(TOPIC_DOWNLINK_SDU, id);
      var metadata := ChannelFields(id)["qos" := JString(QosToString(qos))]["flags" := FlagsJson(names)];
      Publish(OutPart(Text(topic), true));
      Publish(OutPart(Meta(JObject(metadata)), true));
      Publish(OutPart(Bytes(data), false));
    }

    /** send_message(sdu_uplink_event): topic and metadata, no data part. */
    method SendSduUplinkEvent(id: ChannelId, c: PartCookie, kind: EventKind, comment: string)
      modifies this
      ensures published == old(published) + Encode(SduUplinkEvent(id, c, kind, comment))
      ensures inbox == old(inbox) && sent == old(sent)
    {
      var topic := ChannelIdToTopic(TOPIC_UPLINK_SDU_EVENT, id);
      Publish(OutPart(Text(topic), true));
      Publish(OutPart(Meta(UplinkEventMetadata(id, c, kind, comment)), false));
    }

    /** send_message(radio_uplink_frame): the fixed topic, the cookie, data. */
    method SendRadioUplinkFrame(cookie: uint64, data: seq<byte>)
      modifies this
      ensures published == old(published) + Encode(RadioUplinkFrame(cookie, data))
      ensures inbox == old(inbox) && sent == old(sent)
    {
      Publish(OutPart(Text(TOPIC_UPLINK_FRAME), true));
      Publish(OutPart(Meta(RadioFrameMetadata(cookie)), true));
      Publish(OutPart(Bytes(data), false));
    }

    /** The send_message overload for m's kind. */
    method SendMessage(m: OutputMessage)
      modifies this
      ensures sent == old(sent) + [m]
      ensures published == old(published) + Encode(m)
      ensures inbox == old(inbox)
    {
      match m {
        case SduDownlink(id, qos, flags, data) => SendSduDownlink(id, qos, flags, data);
        case SduUplinkEvent(id, c, kind, comment) => SendSduUplinkEvent(id, c, kind, comment);
        case RadioUplinkFrame(cookie, data) => SendRadioUplinkFrame(cookie, data);
      }
      sent := sent + [m];
    }

    /** One recv on the subscribing socket. */
    method Take() returns (p: InPart)
      requires inbox != []
      modifies this
      ensures p == old(inbox)[0] && inbox == old(inbox)[1..]
      ensures published == old(published) && sent == old(sent)
    {
      p := inbox[0];
      inbox := inbox[1..];
    }

    /** The drain loop of recv_message: while the last part read says more
        parts follow, one more is read, up to the end of the message. */
    method Drain(last: InPart, ghost parts: seq<InPart>, ghost c: nat)
      requires WholeMessages(parts) && 1 <= c <= |parts| && inbox == parts[c..] && parts[c - 1] == last
      modifies this
      ensures inbox == parts[MessageEnd(parts, c - 1)..]
      ensures published == old(published) && sent == old(sent)
    {
      var l := last;
      ghost var d := c;
      while l.more
        invariant 1 <= d <= |parts| && inbox == parts[d..] && parts[d - 1] == l
        invariant MessageEnd(parts, c - 1) == MessageEnd(parts, d - 1)
        invariant published == old(published) && sent == old(sent)
        decreases |inbox|
      {
        l := Take();
        d := d + 1;
      }
    }

    /** recv_message: reads the topic part, then the metadata part, then the
        payload part if the metadata says more follow, then drains parts
        while the last one read says more follow. */
    method RecvMessage() returns (outcome: RecvOutcome)
      requires Valid() && inbox != []
      modifies this
      ensures Valid()
      ensures var r := Receive(old(inbox), parse);
        outcome == r.outcome && inbox == old(inbox)[r.consumed..]
      ensures published == old(published) && sent == old(sent)
    {
      ghost var parts := inbox;
      var topic := Take();
      if |topic.data| == 0 {
        return NoMessage;
      }
      if !topic.more {
        return Raised;
      }
      var metadataPart := Take();
      if |metadataPart.data| == 0 {
        return NoMessage;
      }
      var parsed := parse(metadataPart.data);
      if parsed.None? {
        return Raised;
      }
      var metadata := parsed.value;
      var payload := [];
      if metadataPart.more {
        var payloadPart := Take();
        payload := payloadPart.data;
        Drain(payloadPart, parts, 3);
      }
      outcome := match Classify(BytesToString(topic.data), metadata, payload)
        case Some(m) => Received(m)
        case None => NoMessage;
    }
  }
}
