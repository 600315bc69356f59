/** What the dispatcher of server-uslp (server-uslp/src/dispatcher.cpp) does
    to its queue of frames handed to the radio, as functions of the queue:
    the timeout sweep, the update by a radio state report and the admission
    of the next frame, each with the bus messages it emits. The class in
    the Dispatcher module performs these steps in place and is proved to
    agree with them. */
module FrameQueue {
  import opened Wrappers
  import opened Ints
  import opened BusMessages

  /** RADIO_FRAME_SIZE: the size of every uplink frame the radio takes. */
  const RADIO_FRAME_SIZE: nat := 200

  /** The frame cookie the dispatcher starts with. */
  const FIRST_FRAME_COOKIE: uint64 := 1

  /** The bytes pop_frame writes into a frame-sized buffer. */
  type RadioFrame = s: seq<byte> | |s| == RADIO_FRAME_SIZE witness seq(RADIO_FRAME_SIZE, _ => 0 as byte)

  /** frame_queue_entry_t::frame_state_t */
  datatype FrameState = SentToRadio | InWait | InProgress | Radiated | Failed

  /** frame_queue_entry_t: a frame handed to the radio and the SDU parts it
      carries. */
  datatype FrameQueueEntry = FrameQueueEntry(
    frameCookie: uint64,
    sduMapId: ChannelId,
    sduCookies: seq<PartCookie>,
    sendTime: int,
    state: FrameState)

  /** What peek_frame reports about the next frame of the output stack. */
  datatype FrameParams = FrameParams(channelId: ChannelId, payloadCookies: seq<PartCookie>)

  // ---------------------------------------------------------------------
  // Sequence regrouping, proved once for any element type so that the
  // lemmas about queues and events do not reprove it on their own types
  // ---------------------------------------------------------------------

  /** A non-empty sequence is its front followed by its last element. */
  lemma SplitLast<T>(q: seq<T>)
    requires q != []
    ensures q[..|q| - 1] + [q[|q| - 1]] == q
  {
  }

  /** Concatenation is associative. */
  lemma AppendAssoc<T>(u: seq<T>, v: seq<T>, l: seq<T>)
    ensures u + (v + l) == (u + v) + l
  {
  }

  /** Concatenation regrouped: if e = e0 + l, e0 = u + v and f = v + l,
      then e = u + f. */
  lemma RegroupAppend<T>(e: seq<T>, e0: seq<T>, u: seq<T>, v: seq<T>, f: seq<T>, l: seq<T>)
    requires e == e0 + l && e0 == u + v && f == v + l
    ensures e == u + f
  {
    AppendAssoc(u, v, l);
  }

  // ---------------------------------------------------------------------
  // Cookies
  // ---------------------------------------------------------------------

  /** The frame cookie after one is sent: incremented in 64 bits, and 0,
      which is forbidden, replaced by 1. */
  function NextCookie(c: uint64): (r: uint64)
    ensures r != 0
    ensures c + 1 < TWO_TO_THE_64 ==> r == c + 1
    ensures c + 1 == TWO_TO_THE_64 ==> r == 1
  {
    var n := (c + 1) % TWO_TO_THE_64;
    if n == 0 then 1 else n
  }

  // ---------------------------------------------------------------------
  // Events of the parts of a frame
  // ---------------------------------------------------------------------

  /** One uplink SDU event of the given kind per part cookie, in order, on
      the frame's channel, with the default empty comment. */
  function PartEvents(id: ChannelId, cookies: seq<PartCookie>, kind: EventKind): seq<OutputMessage> {
    if cookies == [] then []
    else PartEvents(id, cookies[..|cookies| - 1], kind) + [SduUplinkEvent(id, cookies[|cookies| - 1], kind, "")]
  }

  lemma {:induction false} PartEventsShape(id: ChannelId, cookies: seq<PartCookie>, kind: EventKind)
    ensures |PartEvents(id, cookies, kind)| == |cookies|
    ensures forall i :: 0 <= i < |cookies| ==>
      PartEvents(id, cookies, kind)[i] == SduUplinkEvent(id, cookies[i], kind, "")
  {
    if cookies != [] {
      PartEventsShape(id, cookies[..|cookies| - 1], kind);
    }
  }

  /** Events of a frame that is done with. */
  function FrameEvents(e: FrameQueueEntry, kind: EventKind): seq<OutputMessage> {
    PartEvents(e.sduMapId, e.sduCookies, kind)
  }

  // ---------------------------------------------------------------------
  // The timeout sweep (_clear_frames_queue)
  // ---------------------------------------------------------------------

  /** A frame has timed out once its send time plus the timeout is not after
      now. */
  predicate TimedOut(e: FrameQueueEntry, timeout: int, now: int) {
    e.sendTime + timeout <= now
  }

  /** The entries the sweep keeps, in order. */
  function Survivors(q: seq<FrameQueueEntry>, timeout: int, now: int): seq<FrameQueueEntry> {
    if q == [] then []
    else
      var last := q[|q| - 1];
      Survivors(q[..|q| - 1], timeout, now) + (if TimedOut(last, timeout, now) then [] else [last])
  }

  /** The events the sweep emits: a radiation failure per part of every
      timed-out entry, entry by entry. */
  function TimeoutEvents(q: seq<FrameQueueEntry>, timeout: int, now: int): seq<OutputMessage> {
    if q == [] then []
    else
      var last := q[|q| - 1];
      TimeoutEvents(q[..|q| - 1], timeout, now) +
        (if TimedOut(last, timeout, now) then FrameEvents(last, SduRadiationFailed) else [])
  }

  /** An entry survives the sweep exactly when it has not timed out. */
  lemma {:induction false} SurvivorsExact(q: seq<FrameQueueEntry>, timeout: int, now: int)
    ensures forall e :: e in Survivors(q, timeout, now) <==> e in q && !TimedOut(e, timeout, now)
    ensures |Survivors(q, timeout, now)| <= |q|
  {
    if q != [] {
      SurvivorsExact(q[..|q| - 1], timeout, now);
      assert q == q[..|q| - 1] + [q[|q| - 1]];
    }
  }

  /** The sweep works entry by entry: surviving entries keep their relative
      order, whatever surrounds them. */
  lemma SurvivorsAppend(a: seq<FrameQueueEntry>, b: seq<FrameQueueEntry>, timeout: int, now: int)
    ensures Survivors(a + b, timeout, now) == Survivors(a, timeout, now) + Survivors(b, timeout, now)
    ensures TimeoutEvents(a + b, timeout, now) == TimeoutEvents(a, timeout, now) + TimeoutEvents(b, timeout, now)
  {
    SurvivorsOfAppend(a, b, timeout, now);
    TimeoutEventsOfAppend(a, b, timeout, now);
  }

  lemma {:induction false} SurvivorsOfAppend(a: seq<FrameQueueEntry>, b: seq<FrameQueueEntry>, timeout: int, now: int)
    ensures Survivors(a + b, timeout, now) == Survivors(a, timeout, now) + Survivors(b, timeout, now)
    decreases |b|
  {
    if b == [] {
      assert a + b == a;
    } else {
      var b0, last := b[..|b| - 1], b[|b| - 1];
      assert (a + b)[..|a + b| - 1] == a + b0 && (a + b)[|a + b| - 1] == last;
      SurvivorsOfAppend(a, b0, timeout, now);
      var tail := if TimedOut(last, timeout, now) then [] else [last];
      calc {
        Survivors(a + b, timeout, now);
        Survivors(a + b0, timeout, now) + tail;
        Survivors(a, timeout, now) + Survivors(b0, timeout, now) + tail;
        Survivors(a, timeout, now) + (Survivors(b0, timeout, now) + tail);
      }
    }
  }

  lemma {:induction false} TimeoutEventsOfAppend(a: seq<FrameQueueEntry>, b: seq<FrameQueueEntry>, timeout: int, now: int)
    ensures TimeoutEvents(a + b, timeout, now) == TimeoutEvents(a, timeout, now) + TimeoutEvents(b, timeout, now)
    decreases |b|
  {
    if b == [] {
      assert a + b == a;
    } else {
      var b0, last := b[..|b| - 1], b[|b| - 1];
      assert (a + b)[..|a + b| - 1] == a + b0 && (a + b)[|a + b| - 1] == last;
      TimeoutEventsOfAppend(a, b0, timeout, now);
      var tail := if TimedOut(last, timeout, now) then FrameEvents(last, SduRadiationFailed) else [];
      calc {
        TimeoutEvents(a + b, timeout, now);
        TimeoutEvents(a + b0, timeout, now) + tail;
        TimeoutEvents(a, timeout, now) + TimeoutEvents(b0, timeout, now) + tail;
        TimeoutEvents(a, timeout, now) + (TimeoutEvents(b0, timeout, now) + tail);
      }
    }
  }

  /** One more entry of the queue through the sweep. */
  lemma SurvivorsStep(q: seq<FrameQueueEntry>, k: nat, timeout: int, now: int)
    requires k < |q|
    ensures Survivors(q[..k + 1], timeout, now) ==
      Survivors(q[..k], timeout, now) + (if TimedOut(q[k], timeout, now) then [] else [q[k]])
    ensures TimeoutEvents(q[..k + 1], timeout, now) ==
      TimeoutEvents(q[..k], timeout, now) + (if TimedOut(q[k], timeout, now) then FrameEvents(q[k], SduRadiationFailed) else [])
  {
    assert q[..k + 1][..k] == q[..k];
  }

  /** A queue in which nothing has timed out is left as it is, silently. */
  lemma {:induction false} SurvivorsNoTimeout(q: seq<FrameQueueEntry>, timeout: int, now: int)
    requires forall i :: 0 <= i < |q| ==> !TimedOut(q[i], timeout, now)
    ensures Survivors(q, timeout, now) == q && TimeoutEvents(q, timeout, now) == []
  {
    if q != [] {
      SurvivorsNoTimeout(q[..|q| - 1], timeout, now);
    }
  }

  // ---------------------------------------------------------------------
  // The update by a radio state report (_update_frames_queue)
  // ---------------------------------------------------------------------

  /** Whether an optional report cookie names the entry. */
  predicate Names(c: Option<uint64>, e: FrameQueueEntry) {
    c.Some? && c.value == e.frameCookie
  }

  /** The entry after the report's four checks, made in the order in_wait,
      in_progress, done, failed; each check that names the entry sets its
      state, whatever the state was. */
  function ApplyReport(e: FrameQueueEntry, st: InputMessage): FrameQueueEntry
    requires st.RadioUplinkState?
  {
    var s1 := if Names(st.cookieInWait, e) then InWait else e.state;
    var s2 := if Names(st.cookieInProgress, e) then InProgress else s1;
    var s3 := if Names(st.cookieDone, e) then Radiated else s2;
    var s4 := if Names(st.cookieFailed, e) then Failed else s3;
    e.(state := s4)
  }

  /** The events of one entry: radiated parts if done names it, then failed
      parts if failed names it. */
  function ReportEvents(e: FrameQueueEntry, st: InputMessage): seq<OutputMessage>
    requires st.RadioUplinkState?
  {
    (if Names(st.cookieDone, e) then FrameEvents(e, SduRadiated) else []) +
    (if Names(st.cookieFailed, e) then FrameEvents(e, SduRadiationFailed) else [])
  }

  /** Entries that are radiated or failed leave the queue. */
  predicate Finished(e: FrameQueueEntry) {
    e.state == Radiated || e.state == Failed
  }

  /** A queue that holds no finished entry: what the dispatcher's queue is
      between two messages, since finished entries are erased as soon as a
      report finishes them. */
  predicate AllOpen(q: seq<FrameQueueEntry>) {
    forall n :: 0 <= n < |q| ==> !Finished(q[n])
  }

  /** AllOpen, stated on membership. */
  lemma OpenMembers(q: seq<FrameQueueEntry>)
    ensures AllOpen(q) <==> forall e :: e in q ==> !Finished(e)
  {
    if AllOpen(q) {
      forall e | e in q
        ensures !Finished(e)
      {
        var n :| 0 <= n < |q| && q[n] == e;
      }
    }
  }

  /** Replacing one entry of an open queue by open entries keeps it open. */
  lemma OpenSplice(q: seq<FrameQueueEntry>, i: nat, mid: seq<FrameQueueEntry>)
    requires i < |q| && AllOpen(q) && AllOpen(mid)
    ensures AllOpen(q[..i] + mid + q[i + 1..])
  {
    var r := q[..i] + mid + q[i + 1..];
    forall n | 0 <= n < |r|
      ensures !Finished(r[n])
    {
      if n < i {
        assert r[n] == q[n];
      } else if n < i + |mid| {
        assert r[n] == mid[n - i];
      } else {
        assert r[n] == q[n - |mid| + 1];
      }
    }
  }

  /** The queue after the update: each entry updated, finished ones erased. */
  function UpdatedQueue(q: seq<FrameQueueEntry>, st: InputMessage): seq<FrameQueueEntry>
    requires st.RadioUplinkState?
  {
    if q == [] then []
    else
      var u := ApplyReport(q[|q| - 1], st);
      UpdatedQueue(q[..|q| - 1], st) + (if Finished(u) then [] else [u])
  }

  /** The events of the update, entry by entry. */
  function UpdateEvents(q: seq<FrameQueueEntry>, st: InputMessage): seq<OutputMessage>
    requires st.RadioUplinkState?
  {
    if q == [] then [] else UpdateEvents(q[..|q| - 1], st) + ReportEvents(q[|q| - 1], st)
  }

  /** The report changes nothing but the state; an entry no field names
      keeps its state; in_progress wins over in_wait and is itself overridden
      by done, and failed wins over everything. */
  lemma ApplyReportFacts(e: FrameQueueEntry, st: InputMessage)
    requires st.RadioUplinkState?
    ensures var u := ApplyReport(e, st);
      u.frameCookie == e.frameCookie && u.sduMapId == e.sduMapId &&
      u.sduCookies == e.sduCookies && u.sendTime == e.sendTime &&
      ((!Names(st.cookieInWait, e) && !Names(st.cookieInProgress, e) &&
        !Names(st.cookieDone, e) && !Names(st.cookieFailed, e)) ==> u == e) &&
      (Names(st.cookieFailed, e) ==> u.state == Failed) &&
      ((Names(st.cookieDone, e) && !Names(st.cookieFailed, e)) ==> u.state == Radiated) &&
      ((Names(st.cookieInProgress, e) && !Names(st.cookieDone, e) && !Names(st.cookieFailed, e)) ==>
        u.state == InProgress) &&
      ((Names(st.cookieInWait, e) && !Names(st.cookieInProgress, e) && !Names(st.cookieDone, e) &&
        !Names(st.cookieFailed, e)) ==> u.state == InWait)
  {
  }

  /** An entry is erased by the update exactly when done or failed names it,
      provided no finished entry was in the queue. */
  lemma FinishedIff(e: FrameQueueEntry, st: InputMessage)
    requires st.RadioUplinkState? && !Finished(e)
    ensures Finished(ApplyReport(e, st)) <==> Names(st.cookieDone, e) || Names(st.cookieFailed, e)
  {
  }

  /** The update works entry by entry: the queue order of the entries it
      keeps is preserved. */
  lemma {:induction false} UpdatedQueueAppend(a: seq<FrameQueueEntry>, b: seq<FrameQueueEntry>, st: InputMessage)
    requires st.RadioUplinkState?
    ensures UpdatedQueue(a + b, st) == UpdatedQueue(a, st) + UpdatedQueue(b, st)
    decreases |b|
  {
    if b == [] {
      assert a + b == a;
    } else {
      var b0 := b[..|b| - 1];
      var u := ApplyReport(b[|b| - 1], st);
      var tail := if Finished(u) then [] else [u];
      assert (a + b)[..|a + b| - 1] == a + b0;
      assert (a + b)[|a + b| - 1] == b[|b| - 1];
      assert UpdatedQueue(a + b, st) == UpdatedQueue(a + b0, st) + tail;
      assert UpdatedQueue(b, st) == UpdatedQueue(b0, st) + tail;
      UpdatedQueueAppend(a, b0, st);
    }
  }

  lemma UpdateEventsSnoc(q: seq<FrameQueueEntry>, x: FrameQueueEntry, st: InputMessage)
    requires st.RadioUplinkState?
    ensures UpdateEvents(q + [x], st) == UpdateEvents(q, st) + ReportEvents(x, st)
  {
    assert (q + [x])[..|q|] == q;
  }

  /** The step of UpdateEventsAppend: one more entry at the back. */
  lemma UpdateEventsSnocAppend(a: seq<FrameQueueEntry>, b0: seq<FrameQueueEntry>, x: FrameQueueEntry, st: InputMessage)
    requires st.RadioUplinkState?
    requires UpdateEvents(a + b0, st) == UpdateEvents(a, st) + UpdateEvents(b0, st)
    ensures UpdateEvents(a + (b0 + [x]), st) == UpdateEvents(a, st) + UpdateEvents(b0 + [x], st)
  {
    AppendAssoc(a, b0, [x]);
    UpdateEventsSnoc(a + b0, x, st);
    UpdateEventsSnoc(b0, x, st);
    RegroupAppend(UpdateEvents(a + (b0 + [x]), st), UpdateEvents(a + b0, st), UpdateEvents(a, st),
                  UpdateEvents(b0, st), UpdateEvents(b0 + [x], st), ReportEvents(x, st));
  }

  /** The events of the update come entry by entry. */
  lemma {:induction false} UpdateEventsAppend(a: seq<FrameQueueEntry>, b: seq<FrameQueueEntry>, st: InputMessage)
    requires st.RadioUplinkState?
    ensures UpdateEvents(a + b, st) == UpdateEvents(a, st) + UpdateEvents(b, st)
    decreases |b|
  {
    if b == [] {
      assert a + b == a;
    } else {
      var b0, x := b[..|b| - 1], b[|b| - 1];
      UpdateEventsAppend(a, b0, st);
      UpdateEventsSnocAppend(a, b0, x, st);
      assert b == b0 + [x];
    }
  }

  /** One more entry of the queue through the update. */
  lemma UpdateStep(q: seq<FrameQueueEntry>, k: nat, st: InputMessage)
    requires st.RadioUplinkState? && k < |q|
    ensures var u := ApplyReport(q[k], st);
      UpdatedQueue(q[..k + 1], st) == UpdatedQueue(q[..k], st) + (if Finished(u) then [] else [u])
    ensures UpdateEvents(q[..k + 1], st) == UpdateEvents(q[..k], st) + ReportEvents(q[k], st)
  {
    assert q[..k + 1][..k] == q[..k];
  }

  /** A report that names none of the queue's frames changes no entry and
      emits nothing, provided no finished entry was in the queue. */
  lemma {:induction false} UpdateUnnamed(q: seq<FrameQueueEntry>, st: InputMessage)
    requires st.RadioUplinkState?
    requires forall i :: 0 <= i < |q| ==>
      (!Finished(q[i]) &&
       !Names(st.cookieInWait, q[i]) && !Names(st.cookieInProgress, q[i]) &&
       !Names(st.cookieDone, q[i]) && !Names(st.cookieFailed, q[i]))
    ensures UpdatedQueue(q, st) == q && UpdateEvents(q, st) == []
  {
    if q != [] {
      var init, x := q[..|q| - 1], q[|q| - 1];
      UpdateUnnamed(init, st);
      assert ApplyReport(x, st) == x;
      SplitLast(q);
    }
  }

  /** Every entry the update keeps is an updated entry of the queue that is
      not finished. */
  lemma {:induction false} UpdatedQueueMembers(q: seq<FrameQueueEntry>, st: InputMessage)
    requires st.RadioUplinkState?
    ensures forall u :: u in UpdatedQueue(q, st) ==>
      !Finished(u) && exists e :: e in q && u == ApplyReport(e, st)
  {
    if q != [] {
      var init := q[..|q| - 1];
      UpdatedQueueMembers(init, st);
      forall u | u in UpdatedQueue(q, st)
        ensures !Finished(u) && exists e :: e in q && u == ApplyReport(e, st)
      {
        if u in UpdatedQueue(init, st) {
          var e :| e in init && u == ApplyReport(e, st);
          assert e in q;
        } else {
          assert q[|q| - 1] in q;
        }
      }
    }
  }

  // ---------------------------------------------------------------------
  // Admission of the next frame (_decide_next_uplink_frame)
  // ---------------------------------------------------------------------

  /** An entry that holds, or is on its way to, the radio's input slot. */
  predicate Blocking(e: FrameQueueEntry) {
    e.state == SentToRadio || e.state == InWait
  }

  predicate HasBlocking(q: seq<FrameQueueEntry>) {
    exists i :: 0 <= i < |q| && Blocking(q[i])
  }

  function CountBlocking(q: seq<FrameQueueEntry>): nat {
    if q == [] then 0 else CountBlocking(q[..|q| - 1]) + (if Blocking(q[|q| - 1]) then 1 else 0)
  }

  lemma {:induction false} NoBlockingCount(q: seq<FrameQueueEntry>)
    requires !HasBlocking(q)
    ensures CountBlocking(q) == 0
  {
    if q != [] {
      NoBlockingCount(q[..|q| - 1]);
    }
  }

  /** The effect of one step of the dispatcher on its state: the new queue,
      the next frame cookie and the bus messages sent, in order. */
  datatype Step = Step(frames: seq<FrameQueueEntry>, nextCookie: uint64, events: seq<OutputMessage>)

  /** The entry a frame sent with this cookie at this time is tracked by. */
  function NewEntry(cookie: uint64, p: FrameParams, now: int): FrameQueueEntry {
    FrameQueueEntry(cookie, p.channelId, p.payloadCookies, now, SentToRadio)
  }

  /** Whether the admission test lets a frame go: the radio's slot is free by
      the report, none of our frames holds it or is on its way, and the stack
      has a frame ready. */
  predicate Admits(q: seq<FrameQueueEntry>, st: InputMessage, peeked: Option<FrameParams>)
    requires st.RadioUplinkState?
  {
    st.cookieInWait.None? && !HasBlocking(q) && peeked.Some?
  }

  /** The admission after the update. */
  function Admission(q: seq<FrameQueueEntry>, cookie: uint64, st: InputMessage, now: int,
                     peeked: Option<FrameParams>, popped: RadioFrame): Step
    requires st.RadioUplinkState?
  {
    if Admits(q, st, peeked) then
      Step(q + [NewEntry(cookie, peeked.value, now)], NextCookie(cookie), [RadioUplinkFrame(cookie, popped)])
    else Step(q, cookie, [])
  }

  /** _decide_next_uplink_frame: the sweep, then the update, then admission. */
  function ReportStep(q: seq<FrameQueueEntry>, cookie: uint64, st: InputMessage, now: int, timeout: int,
                      peeked: Option<FrameParams>, popped: RadioFrame): Step
    requires st.RadioUplinkState?
  {
    var swept := Survivors(q, timeout, now);
    var updated := UpdatedQueue(swept, st);
    var a := Admission(updated, cookie, st, now, peeked, popped);
    Step(a.frames, a.nextCookie, TimeoutEvents(q, timeout, now) + UpdateEvents(swept, st) + a.events)
  }

  /** Without admission the queue is only swept and updated, the cookie stays
      and no frame goes to the radio. */
  lemma ReportWithoutAdmission(q: seq<FrameQueueEntry>, cookie: uint64, st: InputMessage, now: int, timeout: int,
                               peeked: Option<FrameParams>, popped: RadioFrame)
    requires st.RadioUplinkState?
    requires st.cookieInWait.Some? || HasBlocking(UpdatedQueue(Survivors(q, timeout, now), st)) || peeked.None?
    ensures var r := ReportStep(q, cookie, st, now, timeout, peeked, popped);
      r.frames == UpdatedQueue(Survivors(q, timeout, now), st) && r.nextCookie == cookie &&
      (forall i :: 0 <= i < |r.events| ==> !r.events[i].RadioUplinkFrame?)
  {
    var swept := Survivors(q, timeout, now);
    TimeoutEventsAreFailures(q, timeout, now);
    UpdateEventsAreSduEvents(swept, st);
  }

  /** With admission exactly one frame of RADIO_FRAME_SIZE bytes goes to the
      radio, with the current cookie; exactly one entry is appended at the
      back, carrying the peeked channel and parts; afterwards exactly one
      tracked entry holds or is on its way to the radio's slot. */
  lemma ReportWithAdmission(q: seq<FrameQueueEntry>, cookie: uint64, st: InputMessage, now: int, timeout: int,
                            peeked: Option<FrameParams>, popped: RadioFrame)
    requires st.RadioUplinkState?
    requires Admits(UpdatedQueue(Survivors(q, timeout, now), st), st, peeked)
    ensures var r := ReportStep(q, cookie, st, now, timeout, peeked, popped);
      var updated := UpdatedQueue(Survivors(q, timeout, now), st);
      r.frames == updated + [FrameQueueEntry(cookie, peeked.value.channelId, peeked.value.payloadCookies, now, SentToRadio)] &&
      r.nextCookie == NextCookie(cookie) &&
      r.events[|r.events| - 1] == RadioUplinkFrame(cookie, popped) && |popped| == RADIO_FRAME_SIZE &&
      (forall i :: 0 <= i < |r.events| - 1 ==> !r.events[i].RadioUplinkFrame?) &&
      CountBlocking(r.frames) == 1
  {
    var swept := Survivors(q, timeout, now);
    var updated := UpdatedQueue(swept, st);
    var e := NewEntry(cookie, peeked.value, now);
    var r := ReportStep(q, cookie, st, now, timeout, peeked, popped);
    var pre := TimeoutEvents(q, timeout, now) + UpdateEvents(swept, st);
    assert r.frames == updated + [e] && r.events == pre + [RadioUplinkFrame(cookie, popped)];
    SweepAndUpdateSendNoFrame(q, timeout, now, st);
    forall i | 0 <= i < |r.events| - 1
      ensures !r.events[i].RadioUplinkFrame?
    {
      assert r.events[i] == pre[i] && pre[i] in pre;
    }
    assert CountBlocking(r.frames) == 1 by {
      NoBlockingCount(updated);
      assert (updated + [e])[..|updated + [e]| - 1] == updated;
    }
  }

  /** Neither the sweep nor the update sends a frame to the radio. */
  lemma SweepAndUpdateSendNoFrame(q: seq<FrameQueueEntry>, timeout: int, now: int, st: InputMessage)
    requires st.RadioUplinkState?
    ensures forall e :: e in TimeoutEvents(q, timeout, now) + UpdateEvents(Survivors(q, timeout, now), st) ==>
      !e.RadioUplinkFrame?
  {
    TimeoutEventsAreFailures(q, timeout, now);
    UpdateEventsAreSduEvents(Survivors(q, timeout, now), st);
  }

  /** Whatever the queue held, no entry of the queue a report leaves behind
      is finished: the update erases every entry it finishes and admission
      appends a frame just sent. */
  lemma {:induction false} ReportLeavesNoFinished(q: seq<FrameQueueEntry>, cookie: uint64, st: InputMessage, now: int,
                                                  timeout: int, peeked: Option<FrameParams>, popped: RadioFrame)
    requires st.RadioUplinkState?
    ensures AllOpen(ReportStep(q, cookie, st, now, timeout, peeked, popped).frames)
  {
    UpdatedQueueMembers(Survivors(q, timeout, now), st);
    OpenMembers(UpdatedQueue(Survivors(q, timeout, now), st));
  }

  /** The timeout sweep keeps an open queue open. */
  lemma SweepKeepsOpen(q: seq<FrameQueueEntry>, timeout: int, now: int)
    requires AllOpen(q)
    ensures AllOpen(Survivors(q, timeout, now))
  {
    SurvivorsExact(q, timeout, now);
    OpenMembers(q);
    OpenMembers(Survivors(q, timeout, now));
  }

  /** A cookie that is not zero stays non-zero across any report. */
  lemma ReportKeepsCookieNonZero(q: seq<FrameQueueEntry>, cookie: uint64, st: InputMessage, now: int, timeout: int,
                                 peeked: Option<FrameParams>, popped: RadioFrame)
    requires st.RadioUplinkState? && cookie != 0
    ensures ReportStep(q, cookie, st, now, timeout, peeked, popped).nextCookie != 0
  {
  }

  /** Every event of the parts of a frame is an uplink SDU event of that kind. */
  lemma PartEventsKind(id: ChannelId, cookies: seq<PartCookie>, kind: EventKind)
    ensures forall i :: 0 <= i < |PartEvents(id, cookies, kind)| ==>
      PartEvents(id, cookies, kind)[i].SduUplinkEvent? &&
      PartEvents(id, cookies, kind)[i].eventKind == kind
  {
    PartEventsShape(id, cookies, kind);
  }

  /** The sweep emits only radiation failures. */
  lemma {:induction false} TimeoutEventsAreFailures(q: seq<FrameQueueEntry>, timeout: int, now: int)
    ensures forall i :: 0 <= i < |TimeoutEvents(q, timeout, now)| ==>
      TimeoutEvents(q, timeout, now)[i].SduUplinkEvent? &&
      TimeoutEvents(q, timeout, now)[i].eventKind == SduRadiationFailed
  {
    if q != [] {
      var last := q[|q| - 1];
      TimeoutEventsAreFailures(q[..|q| - 1], timeout, now);
      PartEventsKind(last.sduMapId, last.sduCookies, SduRadiationFailed);
    }
  }

  /** The update emits only radiated and radiation-failed events. */
  lemma {:induction false} UpdateEventsAreSduEvents(q: seq<FrameQueueEntry>, st: InputMessage)
    requires st.RadioUplinkState?
    ensures forall i :: 0 <= i < |UpdateEvents(q, st)| ==>
      UpdateEvents(q, st)[i].SduUplinkEvent? &&
      (UpdateEvents(q, st)[i].eventKind == SduRadiated || UpdateEvents(q, st)[i].eventKind == SduRadiationFailed)
  {
    if q != [] {
      var last := q[|q| - 1];
      UpdateEventsAreSduEvents(q[..|q| - 1], st);
      PartEventsKind(last.sduMapId, last.sduCookies, SduRadiated);
      PartEventsKind(last.sduMapId, last.sduCookies, SduRadiationFailed);
    }
  }
}
