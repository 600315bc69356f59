/** The dispatcher of the USLP server (server-uslp/src/dispatcher.cpp): it
    reads one bus message per poll, feeds uplink SDUs and downlink frames to
    the USLP stack, relays the SDUs the stack delivers, and hands uplink
    frames to the radio one at a time, tracking each frame until the radio
    reports it radiated, failed, or it times out.

    The USLP stack is outside the model. What the dispatcher asks of it is
    answered by parameters: which MAP channels the output stack has (fixed
    at construction), whether push_sdu fails and with what text, what
    peek_frame reports and what pop_frame writes, and which SDU events
    push_frame raises. */
module Dispatcher {
  import opened Wrappers
  import opened Ints
  import opened BusMessages
  import opened BusCodec
  import opened BusIo
  import opened FrameQueue

  /** acceptor_event_map_sdu: an SDU the input stack delivers. */
  datatype MapSduEvent = MapSduEvent(channelId: ChannelId, qos: Qos, flags: Flags, data: seq<byte>)

  /** The stack's answers to the calls one bus message can cause. */
  datatype StackAnswers = StackAnswers(
    pushSduError: Option<string>,
    peeked: Option<FrameParams>,
    popped: RadioFrame,
    downlinkEvents: seq<MapSduEvent>)

  /** A push_sdu call into the output stack. */
  datatype SduPush = SduPush(channel: ChannelId, cookie: uint64, data: seq<byte>, qos: Qos)

  /** The message _on_map_sdu_event relays for an SDU event: every field
      copied. */
  function SduDownlinkOf(e: MapSduEvent): OutputMessage {
    SduDownlink(e.channelId, e.qos, e.flags, e.data)
  }

  function SduDownlinks(events: seq<MapSduEvent>): seq<OutputMessage> {
    if events == [] then [] else SduDownlinks(events[..|events| - 1]) + [SduDownlinkOf(events[|events| - 1])]
  }

  /** One downlink SDU message per SDU event, in order, with channel, qos,
      flags and data unchanged. */
  lemma {:induction false} SduDownlinksRelay(events: seq<MapSduEvent>)
    ensures |SduDownlinks(events)| == |events|
    ensures forall i :: 0 <= i < |events| ==>
      SduDownlinks(events)[i] == SduDownlink(events[i].channelId, events[i].qos, events[i].flags, events[i].data)
  {
    if events != [] {
      SduDownlinksRelay(events[..|events| - 1]);
    }
  }

  /** The one event that answers an uplink SDU request, for part (cookie, 0,
      final): accepted when the output stack has the channel and push_sdu
      succeeds, otherwise rejected with the exception's text.
      channelText is how the library prints a channel id. */
  function RequestReply(req: InputMessage, known: bool, pushError: Option<string>,
                        channelText: ChannelId -> string): (r: OutputMessage)
    requires req.SduUplinkRequest?
    ensures r.SduUplinkEvent? && r.gmapid == req.gmapid && r.partCookie == PartCookie(req.cookie, 0, true)
    ensures r.eventKind == SduAccepted <==> known && pushError.None?
    ensures r.eventKind == SduAccepted || r.eventKind == SduRejected
    ensures r.eventKind == SduAccepted ==> r.comment == ""
    ensures known && pushError.Some? ==> r.comment == pushError.value
    ensures !known ==> r.comment == "there is no map channel " + channelText(req.gmapid) + " registered in output stack"
  {
    if !known then
      SduUplinkEvent(req.gmapid, PartCookie(req.cookie, 0, true), SduRejected,
                     "there is no map channel " + channelText(req.gmapid) + " registered in output stack")
    else if pushError.Some? then
      SduUplinkEvent(req.gmapid, PartCookie(req.cookie, 0, true), SduRejected, pushError.value)
    else
      SduUplinkEvent(req.gmapid, PartCookie(req.cookie, 0, true), SduAccepted, "")
  }

  /** What one bus message does to the dispatcher's queue and cookie, and the
      messages it sends. */
  function Dispatch(q: seq<FrameQueueEntry>, cookie: uint64, m: InputMessage, a: StackAnswers, now: int, timeout: int,
                    channels: set<ChannelId>, channelText: ChannelId -> string): Step
  {
    match m
    case SduUplinkRequest(_, _, _, _) =>
      Step(q, cookie, [RequestReply(m, m.gmapid in channels, a.pushSduError, channelText)])
    case RadioDownlinkFrame(_, _, _, _) => Step(q, cookie, SduDownlinks(a.downlinkEvents))
    case RadioUplinkState(_, _, _, _) => ReportStep(q, cookie, m, now, timeout, a.peeked, a.popped)
  }

  /** The timeout sweep that ends every poll, after s. */
  function Sweep(s: Step, timeout: int, now: int): Step {
    Step(Survivors(s.frames, timeout, now), s.nextCookie, s.events + TimeoutEvents(s.frames, timeout, now))
  }

  /** poll, given what recv_message returned (None when no message was
      waiting): a raised recv leaves everything as it was; otherwise the
      message, if any, is dispatched and then the sweep runs. */
  function PollStep(q: seq<FrameQueueEntry>, cookie: uint64, received: Option<RecvOutcome>, a: StackAnswers,
                    now: int, timeout: int, channels: set<ChannelId>, channelText: ChannelId -> string): Step
  {
    match received
    case None => Sweep(Step(q, cookie, []), timeout, now)
    case Some(Raised) => Step(q, cookie, [])
    case Some(NoMessage) => Sweep(Step(q, cookie, []), timeout, now)
    case Some(Received(m)) => Sweep(Dispatch(q, cookie, m, a, now, timeout, channels, channelText), timeout, now)
  }

  /** After a poll that did not raise, no tracked frame has timed out. */
  lemma PollLeavesNoTimedOut(q: seq<FrameQueueEntry>, cookie: uint64, received: Option<RecvOutcome>, a: StackAnswers,
                             now: int, timeout: int, channels: set<ChannelId>, channelText: ChannelId -> string)
    requires received != Some(Raised)
    ensures forall e :: e in PollStep(q, cookie, received, a, now, timeout, channels, channelText).frames ==>
      !TimedOut(e, timeout, now)
  {
    match received
    case None => SurvivorsExact(q, timeout, now);
    case Some(NoMessage) => SurvivorsExact(q, timeout, now);
    case Some(Received(m)) =>
      SurvivorsExact(Dispatch(q, cookie, m, a, now, timeout, channels, channelText).frames, timeout, now);
  }

  /** Only a radio state report can change the queue other than by the
      sweep, and only by it is a frame sent to the radio. */
  lemma OnlyReportsSendFrames(q: seq<FrameQueueEntry>, cookie: uint64, m: InputMessage, a: StackAnswers,
                              now: int, timeout: int, channels: set<ChannelId>, channelText: ChannelId -> string)
    requires !m.RadioUplinkState?
    ensures var d := Dispatch(q, cookie, m, a, now, timeout, channels, channelText);
      d.frames == q && d.nextCookie == cookie &&
      forall i :: 0 <= i < |d.events| ==> !d.events[i].RadioUplinkFrame?
  {
    if m.RadioDownlinkFrame? {
      SduDownlinksRelay(a.downlinkEvents);
    }
  }

  /** An uplink SDU request is answered by exactly one event. */
  lemma RequestAnsweredOnce(q: seq<FrameQueueEntry>, cookie: uint64, m: InputMessage, a: StackAnswers,
                            now: int, timeout: int, channels: set<ChannelId>, channelText: ChannelId -> string)
    requires m.SduUplinkRequest?
    ensures var d := Dispatch(q, cookie, m, a, now, timeout, channels, channelText);
      |d.events| == 1 && d.events[0].SduUplinkEvent? &&
      d.events[0].partCookie == PartCookie(m.cookie, 0, true) &&
      (d.events[0].eventKind == SduAccepted <==> m.gmapid in channels && a.pushSduError.None?)
  {
  }

  /** The dispatcher never announces that an SDU went to the radio. */
  lemma NeverSentToRadio(q: seq<FrameQueueEntry>, cookie: uint64, received: Option<RecvOutcome>, a: StackAnswers,
                         now: int, timeout: int, channels: set<ChannelId>, channelText: ChannelId -> string)
    ensures var p := PollStep(q, cookie, received, a, now, timeout, channels, channelText);
      forall i :: 0 <= i < |p.events| ==> !(p.events[i].SduUplinkEvent? && p.events[i].eventKind == SduSentToRadio)
  {
    match received
    case None => TimeoutEventsAreFailures(q, timeout, now);
    case Some(Raised) =>
    case Some(NoMessage) => TimeoutEventsAreFailures(q, timeout, now);
    case Some(Received(m)) =>
      var d := Dispatch(q, cookie, m, a, now, timeout, channels, channelText);
      TimeoutEventsAreFailures(d.frames, timeout, now);
      assert forall i :: 0 <= i < |d.events| ==> !(d.events[i].SduUplinkEvent? && d.events[i].eventKind == SduSentToRadio) by {
        match m
        case SduUplinkRequest(_, _, _, _) =>
        case RadioDownlinkFrame(_, _, _, _) => SduDownlinksRelay(a.downlinkEvents);
        case RadioUplinkState(_, _, _, _) =>
          var swept := Survivors(q, timeout, now);
          TimeoutEventsAreFailures(q, timeout, now);
          UpdateEventsAreSduEvents(swept, m);
      }
  }

  /** One step of the update loop: the entry at i is q[k]; it is replaced by
      its update or erased, and the split between updated and pending entries
      moves past it. */
  lemma UpdateLoopStep(q: seq<FrameQueueEntry>, k: nat, before: seq<FrameQueueEntry>,
                       after: seq<FrameQueueEntry>, i: nat, erased: bool, st: InputMessage)
    requires st.RadioUplinkState? && k < |q| && i < |before|
    requires before[..i] == UpdatedQueue(q[..k], st) && before[i..] == q[k..]
    requires var u := ApplyReport(before[i], st);
      erased == Finished(u) && after == before[..i] + (if erased then [] else [u]) + before[i + 1..]
    ensures before[i] == q[k]
    ensures var i' := if erased then i else i + 1;
      i' <= |after| && after[..i'] == UpdatedQueue(q[..k + 1], st) && after[i'..] == q[k + 1..]
  {
    assert before[i] == q[k] && before[i + 1..] == q[k + 1..] by {
      assert before[i..][0] == q[k..][0] && before[i..][1..] == q[k..][1..];
    }
    UpdateStep(q, k, st);
    var u := ApplyReport(q[k], st);
    if erased {
      assert after == before[..i] + before[i + 1..];
    } else {
      assert after[..i + 1] == before[..i] + [u];
      assert after[i + 1..] == before[i + 1..];
    }
  }

  /** One step of the sweep loop: the entry at i is q[k]; it is kept or
      dropped, and the split between swept and pending entries moves past it. */
  lemma ClearLoopStep(q: seq<FrameQueueEntry>, k: nat, before: seq<FrameQueueEntry>,
                      after: seq<FrameQueueEntry>, i: nat, timeout: int, now: int)
    requires k < |q| && i < |before|
    requires before[..i] == Survivors(q[..k], timeout, now) && before[i..] == q[k..]
    requires after == if TimedOut(before[i], timeout, now) then before[..i] + before[i + 1..] else before
    ensures var i' := if TimedOut(q[k], timeout, now) then i else i + 1;
      i' <= |after| && after[..i'] == Survivors(q[..k + 1], timeout, now) && after[i'..] == q[k + 1..]
  {
    assert before[i] == q[k] && before[i + 1..] == q[k + 1..] by {
      assert before[i..][0] == q[k..][0] && before[i..][1..] == q[k..][1..];
    }
    SurvivorsStep(q, k, timeout, now);
    if TimedOut(q[k], timeout, now) {
      assert after[..i] == before[..i] && after[i..] == before[i + 1..];
    } else {
      assert after[..i + 1] == before[..i] + [q[k]];
    }
  }

  /** The dispatcher (class dispatcher). */
  class Dispatcher {
    /** _frames_in_wait: the frames handed to the radio, oldest first. */
    var frames: seq<FrameQueueEntry>
    /** _next_rf_uplink_frame_cookie */
    var nextCookie: uint64
    /** The SDUs pushed into the output stack, oldest first. */
    ghost var sduPushes: seq<SduPush>
    /** The frames pushed into the input stack, oldest first. */
    ghost var framesPushed: seq<seq<byte>>

    /** _io */
    const io: Bus
    /** The MAP channels get_map_channel finds in the output stack. */
    const channels: set<ChannelId>
    /** _frame_done_timeout */
    const frameDoneTimeout: int
    /** How the USLP library prints a channel id into a message. */
    const channelText: ChannelId -> string

    /** The frame cookie is never zero, and no tracked frame is radiated or
        failed: such a frame is erased by the update that finishes it. */
    ghost predicate Valid()
      reads this
    {
      nextCookie != 0 && AllOpen(frames)
    }

    constructor(io: Bus, channels: set<ChannelId>, frameDoneTimeout: int, channelText: ChannelId -> string)
      ensures Valid()
      ensures this.io == io && this.channels == channels && this.frameDoneTimeout == frameDoneTimeout
      ensures this.channelText == channelText
      ensures frames == [] && nextCookie == FIRST_FRAME_COOKIE && sduPushes == [] && framesPushed == []
    {
      this.io := io;
      this.channels := channels;
      this.frameDoneTimeout := frameDoneTimeout;
      this.channelText := channelText;
      frames := [];
      nextCookie := FIRST_FRAME_COOKIE;
      sduPushes := [];
      framesPushed := [];
    }

    /** One _io.send_message call, as the dispatcher sees it: the message
        joins the bus's log of sent messages. What goes on the wire is
        Bus.SendMessage's business. */
    method Send(m: OutputMessage)
      modifies io
      ensures io.sent == old(io.sent) + [m] && io.inbox == old(io.inbox)
    {
      io.SendMessage(m);
    }

    /** The loop over a frame's part cookies that sends one event per part. */
    method EmitPartEvents(id: ChannelId, cookies: seq<PartCookie>, kind: EventKind)
      modifies io
      ensures io.sent == old(io.sent) + PartEvents(id, cookies, kind) && io.inbox == old(io.inbox)
    {
      var j := 0;
      while j < |cookies|
        invariant 0 <= j <= |cookies|
        invariant io.inbox == old(io.inbox)
        invariant io.sent == old(io.sent) + PartEvents(id, cookies[..j], kind)
      {
        assert cookies[..j + 1][..j] == cookies[..j];
        Send(SduUplinkEvent(id, cookies[j], kind, ""));
        j := j + 1;
      }
      assert cookies[..|cookies|] == cookies;
    }

    /** Sends one event of the given kind per part of the i-th tracked frame,
        then erases the frame from the queue. */
    method DropFrame(i: nat, kind: EventKind)
      requires Valid() && i < |frames|
      modifies this`frames, io
      ensures Valid()
      ensures frames == old(frames)[..i] + old(frames)[i + 1..]
      ensures io.sent == old(io.sent) + FrameEvents(old(frames)[i], kind)
      ensures io.inbox == old(io.inbox)
    {
      EmitPartEvents(frames[i].sduMapId, frames[i].sduCookies, kind);
      OpenSplice(frames, i, []);
      assert frames[..i] + [] == frames[..i];
      frames := frames[..i] + frames[i + 1..];
    }

    /** _clear_frames_queue: erases every timed-out frame, reporting its parts
        as failed. */
    method ClearFramesQueue(now: int)
      requires Valid()
      modifies this`frames, io
      ensures Valid()
      ensures frames == Survivors(old(frames), frameDoneTimeout, now)
      ensures io.sent == old(io.sent) + TimeoutEvents(old(frames), frameDoneTimeout, now)
      ensures io.inbox == old(io.inbox)
    {
      ghost var q := frames;
      ghost var k := 0;
      var i := 0;
      while i < |frames|
        invariant 0 <= k <= |q|
        invariant i <= |frames| && frames[..i] == Survivors(q[..k], frameDoneTimeout, now) && frames[i..] == q[k..]
        invariant io.sent == old(io.sent) + TimeoutEvents(q[..k], frameDoneTimeout, now)
        invariant Valid() && io.inbox == old(io.inbox)
        decreases |frames| - i
      {
        ghost var before := frames;
        var finfo := frames[i];
        if finfo.sendTime + frameDoneTimeout <= now {
          DropFrame(i, SduRadiationFailed);
        }
        ClearLoopStep(q, k, before, frames, i, frameDoneTimeout, now);
        assert io.sent == old(io.sent) + TimeoutEvents(q[..k + 1], frameDoneTimeout, now) by {
          assert before[i] == q[k] by { assert before[i..][0] == q[k..][0]; }
          SurvivorsStep(q, k, frameDoneTimeout, now);
        }
        if finfo.sendTime + frameDoneTimeout > now {
          i := i + 1;
        }
        k := k + 1;
      }
      assert k == |q| && frames == frames[..i];
      assert q[..|q|] == q;
    }

    /** The four checks _update_frames_queue makes of one entry, in order,
        with the events of the parts of a radiated or failed frame. */
    method ApplyReportTo(finfo: FrameQueueEntry, st: InputMessage) returns (updated: FrameQueueEntry)
      requires st.RadioUplinkState?
      modifies io
      ensures updated == ApplyReport(finfo, st)
      ensures io.sent == old(io.sent) + ReportEvents(finfo, st) && io.inbox == old(io.inbox)
    {
      var state := finfo.state;
      if Names(st.cookieInWait, finfo) {
        state := InWait;
      }
      if Names(st.cookieInProgress, finfo) {
        state := InProgress;
      }
      ghost var radiated := if Names(st.cookieDone, finfo) then FrameEvents(finfo, SduRadiated) else [];
      ghost var failed := if Names(st.cookieFailed, finfo) then FrameEvents(finfo, SduRadiationFailed) else [];
      if Names(st.cookieDone, finfo) {
        state := Radiated;
        EmitPartEvents(finfo.sduMapId, finfo.sduCookies, SduRadiated);
      }
      assert io.sent == old(io.sent) + radiated;
      ghost var sentDone := io.sent;
      if Names(st.cookieFailed, finfo) {
        state := Failed;
        EmitPartEvents(finfo.sduMapId, finfo.sduCookies, SduRadiationFailed);
      }
      assert io.sent == sentDone + failed;
      updated := finfo.(state := state);
    }

    /** One step of the loop of _update_frames_queue: the i-th tracked frame
        is updated by the report and erased if it is now radiated or failed. */
    method UpdateFrameAt(i: nat, st: InputMessage) returns (erased: bool)
      requires Valid() && st.RadioUplinkState? && i < |frames|
      modifies this`frames, io
      ensures Valid()
      ensures var u := ApplyReport(old(frames)[i], st);
        erased == Finished(u) &&
        frames == old(frames)[..i] + (if erased then [] else [u]) + old(frames)[i + 1..]
      ensures io.sent == old(io.sent) + ReportEvents(old(frames)[i], st) && io.inbox == old(io.inbox)
    {
      var updated := ApplyReportTo(frames[i], st);
      erased := updated.state == Failed || updated.state == Radiated;
      if erased {
        OpenSplice(frames, i, []);
        frames := frames[..i] + [] + frames[i + 1..];
      } else {
        OpenSplice(frames, i, [updated]);
        frames := frames[..i] + [updated] + frames[i + 1..];
      }
    }

    /** The body of the loop of _update_frames_queue, against the queue q
        it started from: the entry at i is q[k], and the split between
        updated and pending entries moves past it. */
    method UpdateLoopBody(ghost q: seq<FrameQueueEntry>, ghost k: nat, i: nat, st: InputMessage) returns (erased: bool)
      requires Valid() && st.RadioUplinkState? && k < |q| && i < |frames|
      requires frames[..i] == UpdatedQueue(q[..k], st) && frames[i..] == q[k..]
      modifies this`frames, io
      ensures Valid() && io.inbox == old(io.inbox)
      ensures var i' := if erased then i else i + 1;
        i' <= |frames| && frames[..i'] == UpdatedQueue(q[..k + 1], st) && frames[i'..] == q[k + 1..]
      ensures io.sent == old(io.sent) + ReportEvents(q[k], st)
    {
      ghost var before := frames;
      erased := UpdateFrameAt(i, st);
      UpdateLoopStep(q, k, before, frames, i, erased, st);
    }

    /** _update_frames_queue: applies the report to every frame, reporting the
        parts of the radiated and failed ones and erasing those. */
    method UpdateFramesQueue(st: InputMessage)
      requires Valid() && st.RadioUplinkState?
      modifies this`frames, io
      ensures Valid()
      ensures frames == UpdatedQueue(old(frames), st)
      ensures io.sent == old(io.sent) + UpdateEvents(old(frames), st)
      ensures io.inbox == old(io.inbox)
    {
      ghost var q := frames;
      ghost var k := 0;
      var i := 0;
      while i < |frames|
        invariant 0 <= k <= |q|
        invariant i <= |frames| && frames[..i] == UpdatedQueue(q[..k], st) && frames[i..] == q[k..]
        invariant io.sent == old(io.sent) + UpdateEvents(q[..k], st)
        invariant Valid() && io.inbox == old(io.inbox)
        decreases |frames| - i
      {
        var erased := UpdateLoopBody(q, k, i, st);
        assert io.sent == old(io.sent) + UpdateEvents(q[..k + 1], st) by {
          UpdateStep(q, k, st);
          AppendAssoc(old(io.sent), UpdateEvents(q[..k], st), ReportEvents(q[k], st));
        }
        if !erased {
          i := i + 1;
        }
        k := k + 1;
      }
      assert k == |q| && frames == frames[..i];
      assert q[..|q|] == q;
    }

    /** The loop of _decide_next_uplink_frame that looks for a frame that
        holds, or is on its way to, the radio's input slot. */
    method CanSend() returns (can: bool)
      ensures can <==> !HasBlocking(frames)
    {
      can := true;
      var i := 0;
      while i < |frames|
        invariant 0 <= i <= |frames|
        invariant forall j :: 0 <= j < i ==> !Blocking(frames[j])
      {
        if frames[i].state == SentToRadio || frames[i].state == InWait {
          can := false;
          return;
        }
        i := i + 1;
      }
    }

    /** _decide_next_uplink_frame, with the stack's peek_frame and pop_frame
        answers. */
    method DecideNextUplinkFrame(st: InputMessage, now: int, peeked: Option<FrameParams>, popped: RadioFrame)
      requires Valid() && st.RadioUplinkState?
      modifies this`frames, this`nextCookie, io
      ensures Valid()
      ensures var r := ReportStep(old(frames), old(nextCookie), st, now, frameDoneTimeout, peeked, popped);
        frames == r.frames && nextCookie == r.nextCookie && io.sent == old(io.sent) + r.events
      ensures io.inbox == old(io.inbox)
    {
      ghost var q, cookie, sent := frames, nextCookie, io.sent;
      ClearFramesQueue(now);
      ghost var swept := frames;
      UpdateFramesQueue(st);
      AdmitNextFrame(st, now, peeked, popped);
      ghost var te, ue := TimeoutEvents(q, frameDoneTimeout, now), UpdateEvents(swept, st);
      ghost var a := Admission(UpdatedQueue(swept, st), cookie, st, now, peeked, popped);
      AppendAssoc(sent, te, ue);
      AppendAssoc(sent, te + ue, a.events);
    }

    /** The decision of _decide_next_uplink_frame after the update: a frame
        goes to the radio only when the report has no frame in wait, none of
        ours holds or is on its way to the radio's slot, and the stack has a
        frame ready. The frame carries the current cookie and is tracked at
        the back of the queue. */
    method AdmitNextFrame(st: InputMessage, now: int, peeked: Option<FrameParams>, popped: RadioFrame)
      requires Valid() && st.RadioUplinkState?
      modifies this`frames, this`nextCookie, io
      ensures Valid()
      ensures var a := Admission(old(frames), old(nextCookie), st, now, peeked, popped);
        frames == a.frames && nextCookie == a.nextCookie && io.sent == old(io.sent) + a.events
      ensures io.inbox == old(io.inbox)
    {
      if st.cookieInWait.Some? {
        return;
      }
      var can := CanSend();
      if !can {
        return;
      }
      if peeked.None? {
        return;
      }
      var cookie := nextCookie;
      Send(RadioUplinkFrame(cookie, popped));
      var c := if nextCookie == TWO_TO_THE_64 - 1 then 0 else nextCookie + 1;
      if c == 0 {
        c := 1;
      }
      nextCookie := c;
      frames := frames + [FrameQueueEntry(cookie, peeked.value.channelId, peeked.value.payloadCookies, now, SentToRadio)];
    }

    /** _on_map_sdu_event: relays an SDU the input stack delivered. */
    method OnMapSduEvent(e: MapSduEvent)
      modifies io
      ensures io.sent == old(io.sent) + [SduDownlinkOf(e)] && io.inbox == old(io.inbox)
    {
      Send(SduDownlink(e.channelId, e.qos, e.flags, e.data));
    }

    /** _on_radio_downlink_frame: pushes the frame's bytes into the input
        stack whatever its checksum flag says; the stack raises the SDU
        events, which are relayed in order. */
    method OnRadioDownlinkFrame(frame: InputMessage, events: seq<MapSduEvent>)
      requires Valid() && frame.RadioDownlinkFrame?
      modifies this, io
      ensures Valid()
      ensures framesPushed == old(framesPushed) + [frame.data]
      ensures io.sent == old(io.sent) + SduDownlinks(events)
      ensures frames == old(frames) && nextCookie == old(nextCookie) && sduPushes == old(sduPushes)
      ensures io.inbox == old(io.inbox)
    {
      framesPushed := framesPushed + [frame.data];
      var j := 0;
      while j < |events|
        invariant 0 <= j <= |events|
        invariant Valid() && io.inbox == old(io.inbox)
        invariant io.sent == old(io.sent) + SduDownlinks(events[..j])
        invariant frames == old(frames) && nextCookie == old(nextCookie) && sduPushes == old(sduPushes)
        invariant framesPushed == old(framesPushed) + [frame.data]
      {
        assert events[..j + 1][..j] == events[..j];
        OnMapSduEvent(events[j]);
        j := j + 1;
      }
      assert events[..|events|] == events;
    }

    /** _on_sdu_uplink_request: an unknown channel is rejected before the
        stack is asked; otherwise the SDU is pushed, and the answer is
        accepted or, if push_sdu raised, rejected with its text. */
    method OnSduUplinkRequest(req: InputMessage, pushError: Option<string>)
      requires Valid() && req.SduUplinkRequest?
      modifies this, io
      ensures Valid()
      ensures io.sent == old(io.sent) + [RequestReply(req, req.gmapid in channels, pushError, channelText)]
      ensures sduPushes == old(sduPushes) +
        (if req.gmapid in channels then [SduPush(req.gmapid, req.cookie, req.data, req.qos)] else [])
      ensures frames == old(frames) && nextCookie == old(nextCookie) && framesPushed == old(framesPushed)
      ensures io.inbox == old(io.inbox)
    {
      var reply: OutputMessage;
      if req.gmapid !in channels {
        reply := SduUplinkEvent(req.gmapid, PartCookie(req.cookie, 0, true), SduRejected,
                                "there is no map channel " + channelText(req.gmapid) + " registered in output stack");
      } else {
        sduPushes := sduPushes + [SduPush(req.gmapid, req.cookie, req.data, req.qos)];
        if pushError.Some? {
          reply := SduUplinkEvent(req.gmapid, PartCookie(req.cookie, 0, true), SduRejected, pushError.value);
        } else {
          reply := SduUplinkEvent(req.gmapid, PartCookie(req.cookie, 0, true), SduAccepted, "");
        }
      }
      Send(reply);
    }

    /** _dispatch_bus_message: by the message's kind tag. */
    method DispatchBusMessage(m: InputMessage, a: StackAnswers, now: int)
      requires Valid()
      modifies this, io
      ensures Valid()
      ensures var d := Dispatch(old(frames), old(nextCookie), m, a, now, frameDoneTimeout, channels, channelText);
        frames == d.frames && nextCookie == d.nextCookie && io.sent == old(io.sent) + d.events
      ensures sduPushes == old(sduPushes) +
        (if m.SduUplinkRequest? && m.gmapid in channels then [SduPush(m.gmapid, m.cookie, m.data, m.qos)] else [])
      ensures framesPushed == old(framesPushed) + (if m.RadioDownlinkFrame? then [m.data] else [])
      ensures io.inbox == old(io.inbox)
    {
      match InputKindOf(m) {
        case SduUplinkRequestKind => OnSduUplinkRequest(m, a.pushSduError);
        case RadioFrameDownlinkKind => OnRadioDownlinkFrame(m, a.downlinkEvents);
        case RadioUplinkStateKind => DecideNextUplinkFrame(m, now, a.peeked, a.popped);
      }
    }

    /** What poll does after recv_message returned: a message is
        dispatched, and then the timeout sweep runs. */
    method HandleReceived(outcome: RecvOutcome, now: int, a: StackAnswers)
      requires Valid() && !outcome.Raised?
      modifies this, io
      ensures Valid()
      ensures var p := PollStep(old(frames), old(nextCookie), Some(outcome), a, now, frameDoneTimeout, channels, channelText);
        frames == p.frames && nextCookie == p.nextCookie && io.sent == old(io.sent) + p.events
      ensures io.inbox == old(io.inbox)
    {
      if outcome.Received? {
        DispatchBusMessage(outcome.message, a, now);
      }
      ClearFramesQueue(now);
    }

    /** poll: at most one bus message is read and dispatched, then the
        timeout sweep runs. A recv that raises ends the poll at once and is
        reported by raised. */
    method Poll(now: int, a: StackAnswers) returns (raised: bool)
      requires Valid() && io.Valid()
      modifies this, io
      ensures Valid() && io.Valid()
      ensures var received := if old(io.inbox) == [] then None else Some(Receive(old(io.inbox), io.parse).outcome);
        var p := PollStep(old(frames), old(nextCookie), received, a, now, frameDoneTimeout, channels, channelText);
        frames == p.frames && nextCookie == p.nextCookie && io.sent == old(io.sent) + p.events &&
        raised == (received == Some(Raised))
      ensures io.inbox == if old(io.inbox) == [] then [] else old(io.inbox)[Receive(old(io.inbox), io.parse).consumed..]
    {
      raised := false;
      if io.inbox == [] {
        ClearFramesQueue(now);
        return;
      }
      var outcome := io.RecvMessage();
      if outcome.Raised? {
        return true;
      }
      HandleReceived(outcome, now, a);
    }
  }
}
