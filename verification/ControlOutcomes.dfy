/** How a control request ends: which phase each packet reaches, what the payload holds then, and a whole OUT
    request from the SETUP packet to the end-of-request callback. */
module ControlOutcomes {
  import opened Usb
  import opened Control
  import opened ControlRuns

  // ---------------------------------------------------------------- stalls

  predicate Stalled(s: Ctrl) {
    s.phase == StallReq && s.forcestall && !s.inPending
  }

  /** The IN zero-length packet that acknowledges the request is outstanding. */
  predicate Acknowledging(s: Ctrl) {
    s.phase == WaitInZlp && s.inPending && !s.forcestall
  }

  /** A SETUP packet releases a stall, and asserts one if and only if it is cut or not understood. */
  lemma SetupStalls(s: Ctrl, eight: bool, d: Decision, out: bool, supply: Option<seq<Byte>>)
    requires Wf(s) && |d.payload| < 65536 && SupplyOk(supply)
    ensures var r := SetupReceived(s, eight, d, out, supply);
            && (Stalled(r) <==> !eight || !d.known)
            && (!Stalled(r) ==> !r.forcestall)
            && (eight && d.known && !d.isIn && d.wLength == 0 ==> Acknowledging(r))
  {
    if eight && d.known && d.isIn {
      InStageKeeps(AtStart(s, d), out, supply);
      KeepsStall(AtStart(s, d), out, supply);
    }
  }

  lemma KeepsStall(s: Ctrl, out: bool, supply: Option<seq<Byte>>)
    requires Wf(s) && SupplyOk(supply) && s.phase == DataIn
    ensures CtrlInSent(s, out, supply).forcestall == s.forcestall
  {
  }

  /** An OUT packet that no stage expects is a protocol error: it stalls the endpoint, without the callback. A
      stall lasts until the next SETUP packet. */
  lemma ProtocolErrorStalls(s: Ctrl, e: Event)
    requires Wf(s) && Possible(s, e) && !e.Setup?
    ensures var r := Step(s, e);
            && (s.forcestall ==> r.forcestall)
            && (e.OutReceived? && (s.phase == SetupWait || s.phase == WaitInZlp || s.phase == StallReq) ==>
                  r.forcestall && r.phase == SetupWait && !r.inPending && r.obs == s.obs)
  {
  }

  // ---------------------------------------------------------------- IN packets

  /** The host has ended the data stage early: nothing more is sent. */
  lemma AbortedByHost(s: Ctrl, supply: Option<seq<Byte>>)
    requires InStage(s) && SupplyOk(supply)
    ensures var r := CtrlInSent(s, true, supply);
            r.phase == WaitOutZlp && !r.inPending && r.obs.sent == s.obs.sent
  {
    assert U16(s.req.payloadSize - s.cur) == s.req.payloadSize - s.cur;
  }

  /** The first packet of a buffer. */
  function First(buf: seq<Byte>): Packet {
    if |buf| < CTRL_SIZE then buf else buf[..CTRL_SIZE]
  }

  /** In the middle of a buffer a completion sends the next part of it. */
  lemma CompletionContinues(s: Ctrl, supply: Option<seq<Byte>>)
    requires InStage(s) && SupplyOk(supply) && s.cur < s.req.payloadSize
    ensures var r := CtrlInSent(s, false, supply);
            && r.phase == DataIn && r.inPending && r.obs.given == s.obs.given && r.req == s.req
            && r.obs.sent == s.obs.sent + [First(s.req.payload[s.cur..])]
  {
    InServes(s, supply);
    FirstOfRest(s);
    SendDataFields(s, s.req.payloadSize - s.cur);
  }

  /** At the end of a buffer, when data is due, a completion sends the first part of the buffer that the callback
      supplies, which joins the buffers of the request; or, if it supplies none, a zero-length packet. */
  lemma CompletionSupplies(s: Ctrl, supply: Option<seq<Byte>>)
    requires InStage(s) && SupplyOk(supply) && s.cur == s.req.payloadSize
    requires !LastShort(s.obs.sent) && |SentBytes(s)| != s.req.wLength
    ensures var r := CtrlInSent(s, false, supply);
            && r.phase == DataIn && r.inPending
            && if s.req.overUnderRun && supply.Some? then
                 && r.obs.given == s.obs.given + [supply.value] && r.req.payload == supply.value
                 && r.obs.sent == s.obs.sent + [First(supply.value)]
               else r.obs.given == s.obs.given && r.obs.sent == s.obs.sent + [[]]
  {
    InServes(s, supply);
    BufferSentTotals(s);
    var s1 := s.(prev := U16(s.prev + s.cur));
    if s.req.overUnderRun && supply.Some? {
      assert supply.value[..|supply.value|] == supply.value;
      SendDataFields(Supplied(s1, supply.value), |supply.value|);
    } else {
      SendDataFields(s1, 0);
    }
  }

  lemma FirstOfRest(s: Ctrl)
    requires Wf(s) && s.cur <= s.req.payloadSize == |s.req.payload|
    ensures NextPacket(s, s.req.payloadSize - s.cur) == First(s.req.payload[s.cur..])
  {
  }

  // ---------------------------------------------------------------- OUT packets

  /** Room for the rest of the request in the present buffer. */
  function SpaceLeft(s: Ctrl): int {
    s.req.payloadSize - s.cur
  }

  /** What of a packet fits. */
  function Fitting(s: Ctrl, p: Packet): Packet
    requires Wf(s) && s.phase == DataOut
  {
    if |p| <= SpaceLeft(s) then p else p[..SpaceLeft(s)]
  }

  /** The packet ends the data stage: fewer than 64 bytes of it could be stored, or the request is complete. */
  predicate Final(s: Ctrl, p: Packet)
    requires Wf(s) && s.phase == DataOut
  {
    |Fitting(s, p)| != CTRL_SIZE || |s.obs.stored| + |Fitting(s, p)| >= s.req.wLength
  }

  /** The callback for a missing or surplus buffer does not object. */
  predicate Agrees(s: Ctrl, supply: Option<seq<Byte>>) {
    !s.req.overUnderRun || supply.Some?
  }

  lemma ServesFinal(s: Ctrl, p: Packet, supply: Option<seq<Byte>>)
    requires OutStage(s) && |p| <= CTRL_SIZE && SupplyOk(supply)
    ensures Room(s, p) == |Fitting(s, p)| && p[..Room(s, p)] == Fitting(s, p)
    ensures var s1 := StoreOut(s, p);
            && s1.cur == s.cur + |Fitting(s, p)|
            && (Final(s, p) <==> LastOut(s1, Room(s, p)))
  {
    StoreOutCounted(s, p);
  }

  /** Main result on one OUT packet. A final packet is acknowledged if and only if there is no over/underrun
      callback or it accepts, and is stalled otherwise. Any other packet that fills the buffer goes on if and only
      if the callback supplies the next buffer, which is then filled from its start, and is stalled otherwise;
      and one that leaves room goes on. */
  lemma OutcomeOfPacket(s: Ctrl, p: Packet, supply: Option<seq<Byte>>)
    requires OutStage(s) && !s.forcestall && |p| <= CTRL_SIZE && SupplyOk(supply)
    ensures var r := CtrlOutReceived(s, p, supply);
            if Final(s, p) then
              && (Acknowledging(r) <==> Agrees(s, supply)) && (Stalled(r) <==> !Agrees(s, supply))
              && r.req.payloadSize == s.cur + |Fitting(s, p)|
            else if |p| == SpaceLeft(s) then
              && (r.phase == DataOut <==> s.req.overUnderRun && supply.Some?)
              && (r.phase == DataOut ==>
                    && r.req.payload == supply.value && r.req.payloadSize == |supply.value| && r.cur == 0
                    && r.obs.given == s.obs.given + [supply.value])
              && (r.phase != DataOut ==> Stalled(r))
            else
              r.phase == DataOut && r.cur == s.cur + |p| && r.req.payloadSize == s.req.payloadSize
  {
    ServesFinal(s, p, supply);
    OutServes(s, p, supply);
  }

  /** A packet that is longer than the room left is cut and ends the stage: the request is acknowledged, although
      bytes are lost, unless there is a callback and it objects. */
  lemma OverrunOutcome(s: Ctrl, p: Packet, supply: Option<seq<Byte>>)
    requires OutStage(s) && !s.forcestall && |p| <= CTRL_SIZE && SupplyOk(supply) && |p| > SpaceLeft(s)
    ensures var r := CtrlOutReceived(s, p, supply);
            && r.obs.stored == s.obs.stored + p[..SpaceLeft(s)]
            && (if Agrees(s, supply) then Acknowledging(r) else Stalled(r))
  {
    OutcomeOfPacket(s, p, supply);
    OutStageStep(s, p, supply);
  }

  // ---------------------------------------------------------------- a whole OUT data stage

  /** Packets, with what the callback would answer to each. */
  function With(ps: seq<Packet>, supply: Option<seq<Byte>>): (r: seq<(Packet, Option<seq<Byte>>)>)
    requires SupplyOk(supply)
    ensures |r| == |ps| && forall x :: x in r ==> SupplyOk(x.1)
  {
    if ps == [] then [] else [(ps[0], supply)] + With(ps[1..], supply)
  }

  /** The payload buffer holds `done` from its start, and is otherwise as it was. */
  predicate Holds(s: Ctrl, done: seq<Byte>, original: seq<Byte>) {
    |done| <= |original| && s.req.payload == done + original[|done|..]
  }

  /** In the middle of a stage whose bytes all fit into the first buffer. */
  predicate Filling(s: Ctrl, done: seq<Byte>, original: seq<Byte>) {
    && OutStage(s) && !s.forcestall && s.prev == 0 && s.cur == |done|
    && s.req.payloadSize == |original| && s.req.wLength <= |original|
    && Holds(s, done, original)
  }

  lemma FillingStep(s: Ctrl, p: Packet, supply: Option<seq<Byte>>, done: seq<Byte>, original: seq<Byte>)
    requires Filling(s, done, original) && SupplyOk(supply) && |p| <= CTRL_SIZE && |done| + |p| <= s.req.wLength
    ensures var r := CtrlOutReceived(s, p, supply);
            && Holds(r, done + p, original) && r.req.wLength == s.req.wLength
            && r.req.overUnderRun == s.req.overUnderRun
            && if |p| == CTRL_SIZE && |done| + |p| < s.req.wLength then Filling(r, done + p, original)
               else if Agrees(s, supply) then Acknowledging(r) && r.req.payloadSize == |done| + |p|
               else Stalled(r)
  {
    OutcomeOfPacket(s, p, supply);
    OutStageStep(s, p, supply);
    OutServes(s, p, supply);
    ServesFinal(s, p, supply);
    StoresAt(s, p, done, original);
  }

  lemma StoresAt(s: Ctrl, p: Packet, done: seq<Byte>, original: seq<Byte>)
    requires Filling(s, done, original) && |done| + |p| <= |original|
    ensures Holds(StoreOut(s, p), done + p, original)
  {
    assert s.req.payload[..|done|] == done;
    assert s.req.payload[|done| + |p|..] == original[|done| + |p|..];
    assert (done + p) + original[|done| + |p|..] == done + p + original[|done| + |p|..];
  }

  /** The stage is over: acknowledged with all the data in the buffer, or stalled because the callback objects. */
  predicate StageOver(s: Ctrl, data: seq<Byte>, original: seq<Byte>, agreed: bool) {
    && Holds(s, data, original)
    && if agreed then Acknowledging(s) && s.req.payloadSize == |data| else Stalled(s)
  }

  lemma ServesFirst(s: Ctrl, p: Packet, later: seq<Packet>, supply: Option<seq<Byte>>)
    requires Wf(s) && SupplyOk(supply) && s.phase == DataOut
    ensures ServeOut(s, With([p] + later, supply)) == ServeOut(CtrlOutReceived(s, p, supply), With(later, supply))
  {
    assert ([p] + later)[1..] == later;
    assert With([p] + later, supply)[1..] == With(later, supply);
  }

  lemma LastOfStage(rest: seq<Byte>, short: bool)
    requires |rest| <= CTRL_SIZE && (short ==> |rest| < CTRL_SIZE) && (rest != [] || short)
    ensures Packets(rest, CTRL_SIZE, short) == [rest]
  {
    if |rest| == CTRL_SIZE {
      assert rest[..CTRL_SIZE] == rest && Packets(rest[CTRL_SIZE..], CTRL_SIZE, short) == [];
    }
  }

  lemma {:induction false} StageFills(s: Ctrl, rest: seq<Byte>, supply: Option<seq<Byte>>,
                                      done: seq<Byte>, original: seq<Byte>)
    requires Filling(s, done, original) && SupplyOk(supply) && |done| + |rest| <= s.req.wLength
    ensures var ps := Packets(rest, CTRL_SIZE, |done| + |rest| < s.req.wLength);
            StageOver(ServeOut(s, With(ps, supply)), done + rest, original, Agrees(s, supply))
    decreases |rest|
  {
    var p := First(rest);
    var later := Packets(rest[|p|..], CTRL_SIZE, |done| + |rest| < s.req.wLength);
    FillingStep(s, p, supply, done, original);
    var r := CtrlOutReceived(s, p, supply);
    if |p| == CTRL_SIZE && |done| + |p| < s.req.wLength {
      StageFills(r, rest[CTRL_SIZE..], supply, done + p, original);
      assert (done + p) + rest[CTRL_SIZE..] == done + rest;
      ServesFirst(s, p, later, supply);
    } else {
      LastOfStage(rest, |done| + |rest| < s.req.wLength);
      ServesFirst(s, rest, [], supply);
      assert p == rest;
    }
  }

  /** Main result for an OUT data stage whose request fits the buffer: whatever data the host sends, up to
      `wLength` bytes and ended by a short packet if it is less, the buffer holds exactly these bytes, its end as
      it was, and the request is acknowledged, unless there is an over/underrun callback and it objects. */
  lemma OutStageFills(s: Ctrl, d: Decision, data: seq<Byte>, supply: Option<seq<Byte>>, out: bool)
    requires Wf(s) && SupplyOk(supply) && d.known && !d.isIn
    requires 0 < d.wLength <= |d.payload| < 65536 && |data| <= d.wLength
    ensures var ps := Packets(data, CTRL_SIZE, |data| < d.wLength);
            var r := ServeOut(SetupReceived(s, true, d, out, None), With(ps, supply));
            StageOver(r, data, d.payload, !d.overUnderRun || supply.Some?)
  {
    var s1 := SetupReceived(s, true, d, out, None);
    OutStageStarts(s, d, out, None);
    assert d.payload[0..] == d.payload && [] + d.payload == d.payload;
    assert Filling(s1, [], d.payload);
    StageFills(s1, data, supply, [], d.payload);
    assert [] + data == data;
  }

  /** The end of an acknowledged request: when its packet has been sent the endpoint waits for the next SETUP packet,
      and the callback, if there is one, has run for this request. */
  lemma AcknowledgedEnds(s: Ctrl)
    requires Wf(s) && Acknowledging(s)
    ensures Possible(s, InSent(false, None))
    ensures var r := Step(s, InSent(false, None));
            && r.phase == SetupWait && !r.inPending && !r.forcestall
            && r.req == s.req.(payloadSize := 0, callback := false, overUnderRun := false)
            && r.obs.ran == s.obs.ran + if s.req.callback then [s.obs.requests] else []
  {
  }

  lemma {:induction false} ServeOutKeeps(s: Ctrl, ps: seq<(Packet, Option<seq<Byte>>)>)
    requires Wf(s)
    requires forall x :: x in ps ==> SupplyOk(x.1)
    ensures SameRequest(s, ServeOut(s, ps))
    decreases |ps|
  {
    if ps != [] && s.phase == DataOut {
      assert ps[0] in ps;
      OutStageKeeps(s, ps[0].0, ps[0].1);
      ServeOutKeeps(CtrlOutReceived(s, ps[0].0, ps[0].1), ps[1..]);
    }
  }

  /** The states of a whole OUT request: after the SETUP packet, and after the data. */
  function Begun(s: Ctrl, d: Decision): (r: Ctrl)
    requires Wf(s) && |d.payload| < 65536
    ensures Wf(r)
  {
    SetupReceived(s, true, d, false, None)
  }

  function Received(s: Ctrl, d: Decision, data: seq<Byte>, supply: Option<seq<Byte>>): (r: Ctrl)
    requires Wf(s) && |d.payload| < 65536 && SupplyOk(supply)
    ensures Wf(r)
  {
    ServeOut(Begun(s, d), With(Packets(data, CTRL_SIZE, |data| < d.wLength), supply))
  }

  /** A whole OUT request. When its data has come the buffer holds it; and when the host has fetched the
      acknowledgement the callback has run for this request, the number of which is the next one, and the endpoint
      waits for the next SETUP packet. */
  lemma OutRequest(s: Ctrl, d: Decision, data: seq<Byte>, supply: Option<seq<Byte>>)
    requires Wf(s) && RanOnce(s) && SupplyOk(supply) && d.known && !d.isIn && d.callback
    requires 0 < d.wLength <= |d.payload| < 65536 && |data| <= d.wLength
    requires !d.overUnderRun || supply.Some?
    ensures var r := Received(s, d, data, supply);
            && Acknowledging(r) && Holds(r, data, d.payload) && r.req.payloadSize == |data|
            && var e := Step(r, InSent(false, None));
               && e.phase == SetupWait && !e.forcestall
               && e.obs.ran == Begun(s, d).obs.ran + [s.obs.requests + 1]
  {
    OutStageFills(s, d, data, supply, false);
    ServeOutKeeps(Begun(s, d), With(Packets(data, CTRL_SIZE, |data| < d.wLength), supply));
    BegunRegisters(s, d);
    AcknowledgedEnds(Received(s, d, data, supply));
  }

  lemma BegunRegisters(s: Ctrl, d: Decision)
    requires Wf(s) && RanOnce(s) && d.known && !d.isIn && |d.payload| < 65536
    ensures Begun(s, d).req.callback == d.callback && Begun(s, d).obs.requests == s.obs.requests + 1
  {
    NewRequestRuns(s);
  }
}
