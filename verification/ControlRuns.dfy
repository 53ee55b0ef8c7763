/** What the control endpoint guarantees over runs: the protocol, the IN and the OUT data stage. */
module ControlRuns {
  import opened Usb
  import opened Control

  // ---------------------------------------------------------------- protocol

  /** The end-of-request callback ran at most once for each request, and has not run yet for the
      current one while it is still registered. */
  predicate RanOnce(s: Ctrl) {
    && (forall i, j :: 0 <= i < j < |s.obs.ran| ==> s.obs.ran[i] < s.obs.ran[j])
    && (forall i :: 0 <= i < |s.obs.ran| ==>
          s.obs.ran[i] <= s.obs.requests && (s.req.callback ==> s.obs.ran[i] < s.obs.requests))
    && (s.phase == SetupWait ==> !s.req.callback)
  }

  /** The events that end a request: its status stage (for an IN request any OUT packet, which also
      aborts the data stage), or the next SETUP packet. */
  predicate EndsRequest(s: Ctrl, e: Event) {
    match e
    case Setup(_, _, _, _) => s.phase != SetupWait
    case InSent(_, _) => s.phase == WaitInZlp
    case OutReceived(_, _) => s.phase == DataIn || s.phase == WaitOutZlp
  }

  lemma SendDataKeeps(s: Ctrl, remain: nat, out: bool)
    requires Wf(s) && s.phase == DataIn && s.cur + remain <= s.req.payloadSize
    ensures var r := SendData(s, remain, out);
            && r.req == s.req && r.obs == s.obs.(sent := r.obs.sent)
            && r.phase == (if out then WaitOutZlp else DataIn)
  {
  }

  predicate SameRequest(s: Ctrl, r: Ctrl) {
    r.req.callback == s.req.callback && r.obs.ran == s.obs.ran && r.obs.requests == s.obs.requests
  }

  lemma InStageKeeps(s: Ctrl, out: bool, supply: Option<seq<Byte>>)
    requires Wf(s) && SupplyOk(supply) && s.phase == DataIn
    ensures var r := CtrlInSent(s, out, supply);
            (r.phase == DataIn || r.phase == WaitOutZlp) && SameRequest(s, r)
  {
    var remain := U16(s.req.payloadSize - s.cur);
    if remain != 0 {
      SendDataKeeps(s, remain, out);
    } else {
      BufferSentKeeps(s, out, supply);
    }
  }

  lemma BufferSentKeeps(s: Ctrl, out: bool, supply: Option<seq<Byte>>)
    requires Wf(s) && SupplyOk(supply) && s.phase == DataIn
    ensures var r := BufferSent(s, out, supply);
            (r.phase == DataIn || r.phase == WaitOutZlp) && SameRequest(s, r)
  {
    var s1 := s.(prev := U16(s.prev + s.cur));
    if !(s1.req.wLength == s1.prev || s1.shortPacket) {
      if s.req.overUnderRun && supply.Some? {
        SendDataKeeps(Supplied(s1, supply.value), |supply.value|, out);
      } else {
        SendDataKeeps(s1, 0, out);
      }
    }
  }

  lemma OutStageKeeps(s: Ctrl, p: Packet, supply: Option<seq<Byte>>)
    requires Wf(s) && SupplyOk(supply) && s.phase == DataOut
    ensures var r := CtrlOutReceived(s, p, supply);
            (r.phase == DataOut || r.phase == WaitInZlp || r.phase == StallReq) && SameRequest(s, r)
  {
    var s1 := StoreOut(s.(inPending := false), p);
    assert SameRequest(s, s1);
  }

  lemma NewRequestRuns(s: Ctrl)
    requires Wf(s) && RanOnce(s)
    ensures var r := NewRequest(s);
            && RanOnce(r) && !r.req.callback && r.obs.requests == s.obs.requests + 1
            && r.obs.ran == s.obs.ran + (if s.phase != SetupWait && s.req.callback then [s.obs.requests] else [])
  {
  }

  /** The runs of the callback in one step: once, if the event ends a request that registered it. */
  predicate RunsRight(s: Ctrl, e: Event, r: Ctrl) {
    && RanOnce(r)
    && r.obs.ran == s.obs.ran + (if EndsRequest(s, e) && s.req.callback then [s.obs.requests] else [])
    && r.obs.requests == s.obs.requests + (if e.Setup? then 1 else 0)
  }

  lemma SetupProtocol(s: Ctrl, e: Event)
    requires Wf(s) && RanOnce(s) && Possible(s, e) && e.Setup?
    ensures RunsRight(s, e, Step(s, e))
  {
    NewRequestRuns(s);
    if e.eightBytes && e.d.known && e.d.isIn {
      InStageKeeps(Decide(NewRequest(s), e.d).(prev := 0, cur := 0, phase := DataIn), e.outReceived, e.supply);
    }
  }

  lemma EndOfRequestRuns(s: Ctrl)
    requires RanOnce(s)
    ensures var r := CtrlInit(EndOfRequest(s));
            && RanOnce(r) && r.phase == SetupWait && r.obs.requests == s.obs.requests
            && r.obs.ran == s.obs.ran + (if s.req.callback then [s.obs.requests] else [])
  {
  }

  lemma InProtocol(s: Ctrl, e: Event)
    requires Wf(s) && RanOnce(s) && Possible(s, e) && e.InSent?
    ensures var r := Step(s, e);
            && RunsRight(s, e, r)
            && (s.phase == DataIn ==> r.phase == DataIn || r.phase == WaitOutZlp)
            && (s.phase == WaitInZlp ==> r.phase == SetupWait)
  {
    if s.phase == DataIn {
      InStageKeeps(s, e.outReceived, e.supply);
    } else {
      EndOfRequestRuns(s.(inPending := false));
    }
  }

  lemma OutProtocol(s: Ctrl, e: Event)
    requires Wf(s) && RanOnce(s) && Possible(s, e) && e.OutReceived?
    ensures var r := Step(s, e);
            && RunsRight(s, e, r)
            && (s.phase == DataOut ==> r.phase == DataOut || r.phase == WaitInZlp || r.phase == StallReq)
            && (s.phase != DataOut ==> r.phase == SetupWait)
  {
    if s.phase == DataOut {
      OutStageKeeps(s, e.p, e.supply);
    } else if s.phase == DataIn || s.phase == WaitOutZlp {
      EndOfRequestRuns(s.(inPending := false));
    }
  }

  /** Main step of the protocol: the callback runs exactly at the end of a request that registered one,
      the IN-ZLP status stage is entered only from an OUT data stage (or by a SETUP packet), and the
      OUT-ZLP status stage only from an IN data stage. */
  lemma ProtocolStep(s: Ctrl, e: Event)
    requires Wf(s) && RanOnce(s) && Possible(s, e)
    ensures var r := Step(s, e);
            && RunsRight(s, e, r)
            && (!e.Setup? && r.phase == WaitInZlp && s.phase != WaitInZlp ==> s.phase == DataOut)
            && (!e.Setup? && r.phase == WaitOutZlp && s.phase != WaitOutZlp ==> s.phase == DataIn)
            && (e.Setup? && r.phase == WaitInZlp ==> !e.d.isIn && e.d.wLength == 0)
            && (e.Setup? && r.phase == WaitOutZlp ==> e.d.isIn)
  {
    match e
    case Setup(eight, d, out, supply) =>
      SetupProtocol(s, e);
      if eight && d.known && d.isIn {
        InStageKeeps(Decide(NewRequest(s), d).(prev := 0, cur := 0, phase := DataIn), out, supply);
      }
    case InSent(_, _) => InProtocol(s, e);
    case OutReceived(_, _) => OutProtocol(s, e);
  }

  /** A request without a data stage (section 8.5.3: wLength zero, then an IN status stage) gets its IN status
      stage if and only if its direction bit is OUT. With the bit IN and nothing to send, the driver waits
      for an OUT-ZLP instead, having sent nothing. */
  lemma NoDataStatus(s: Ctrl, d: Decision, out: bool, supply: Option<seq<Byte>>)
    requires Wf(s) && |d.payload| < 65536 && SupplyOk(supply) && d.known && d.wLength == 0
    ensures var r := SetupReceived(s, true, d, out, supply);
            && (r.phase == WaitInZlp && r.inPending <==> !d.isIn)
            && (d.isIn && d.payload == [] ==> r.phase == WaitOutZlp && !r.inPending && r.obs.sent == [])
  {
    if d.isIn {
      InStageKeeps(Decide(NewRequest(s), d).(prev := 0, cur := 0, phase := DataIn), out, supply);
    }
  }

  /** Main result: over every possible run the end-of-request callback runs at most once per SETUP. */
  lemma {:induction false} CallbackAtMostOnce(s: Ctrl, es: seq<Event>)
    requires Wf(s) && RanOnce(s) && PossibleRun(s, es)
    ensures RanOnce(Exec(s, es))
    decreases |es|
  {
    if es != [] {
      ProtocolStep(s, es[0]);
      CallbackAtMostOnce(Step(s, es[0]), es[1..]);
    }
  }

  // ---------------------------------------------------------------- IN data stage

  predicate AllFull(ps: seq<Packet>) {
    forall k :: 0 <= k < |ps| ==> |ps[k]| == CTRL_SIZE
  }

  /** Section 5.5.3: every packet but the last is full. */
  predicate Chunked(ps: seq<Packet>) {
    ps != [] ==> AllFull(ps[..|ps| - 1]) && |ps[|ps| - 1]| <= CTRL_SIZE
  }

  predicate LastShort(ps: seq<Packet>) {
    ps != [] && |ps[|ps| - 1]| < CTRL_SIZE
  }

  /** The buffers before the present one. */
  function Earlier(s: Ctrl): seq<seq<Byte>> {
    if s.obs.given == [] then [] else s.obs.given[..|s.obs.given| - 1]
  }

  function SentBytes(s: Ctrl): seq<Byte> {
    Flatten(s.obs.sent)
  }

  /** What has been sent is the earlier buffers and a prefix of the present one. */
  predicate InData(s: Ctrl) {
    && Wf(s) && s.phase == DataIn
    && s.obs.given != [] && s.req.payload == s.obs.given[|s.obs.given| - 1] && s.req.payloadSize == |s.req.payload|
    && s.req.wLength < 65536
    && |Flatten(s.obs.given)| <= s.req.wLength
    && SentBytes(s) == Flatten(Earlier(s)) + s.req.payload[..s.cur]
    && Chunked(s.obs.sent)
    && (LastShort(s.obs.sent) ==> s.cur == s.req.payloadSize)
  }

  /** The IN data stage between two events: a packet is outstanding and the flag knows whether it was short. */
  predicate InStage(s: Ctrl) {
    && Wf(s) && InData(s)
    && s.inPending && s.obs.sent != []
    && (s.shortPacket <==> LastShort(s.obs.sent))
    && (!s.shortPacket ==> s.prev == |Flatten(Earlier(s))|)
  }

  lemma GivenSplit(s: Ctrl)
    requires s.obs.given != []
    ensures Flatten(s.obs.given) == Flatten(Earlier(s)) + s.obs.given[|s.obs.given| - 1]
  {
    var n := |s.obs.given| - 1;
    FlattenSnoc(Earlier(s), s.obs.given[n]);
    assert s.obs.given == Earlier(s) + [s.obs.given[n]];
  }

  /** What one packet more does to the log of packets. */
  lemma ChunkedSnoc(ps: seq<Packet>, p: Packet)
    requires Chunked(ps) && !LastShort(ps) && |p| <= CTRL_SIZE
    ensures Chunked(ps + [p]) && (LastShort(ps + [p]) <==> |p| < CTRL_SIZE)
    ensures Flatten(ps + [p]) == Flatten(ps) + p
  {
    FlattenSnoc(ps, p);
    assert (ps + [p])[..|ps|] == ps;
    if ps != [] {
      assert ps == ps[..|ps| - 1] + [ps[|ps| - 1]];
    }
  }

  /** The packet that is sent next. */
  function NextPacket(s: Ctrl, remain: nat): Packet
    requires Wf(s) && s.cur + remain <= s.req.payloadSize
  {
    s.req.payload[s.cur..s.cur + if remain >= CTRL_SIZE then CTRL_SIZE else remain]
  }

  lemma SendDataFields(s: Ctrl, remain: nat)
    requires Wf(s) && s.phase == DataIn && s.cur + remain <= s.req.payloadSize
    ensures var p, r := NextPacket(s, remain), SendData(s, remain, false);
            && r == s.(cur := s.cur + |p|, shortPacket := |p| < CTRL_SIZE, inPending := true,
                       obs := s.obs.(sent := s.obs.sent + [p]))
            && s.req.payload[..r.cur] == s.req.payload[..s.cur] + p
  {
    var n := if remain >= CTRL_SIZE then CTRL_SIZE else remain;
    assert U16(s.cur + n) == s.cur + n;
  }

  lemma SendDataIn(s: Ctrl, remain: nat)
    requires InData(s) && remain == s.req.payloadSize - s.cur && !LastShort(s.obs.sent)
    requires remain != 0 ==> s.prev == |Flatten(Earlier(s))|
    ensures InStage(SendData(s, remain, false))
  {
    var p, r := NextPacket(s, remain), SendData(s, remain, false);
    SendDataFields(s, remain);
    ChunkedSnoc(s.obs.sent, p);
    assert SentBytes(r) == Flatten(Earlier(r)) + r.req.payload[..r.cur];
  }

  /** A new buffer from the over/underrun callback. */
  lemma SupplyIn(s: Ctrl, buf: seq<Byte>)
    requires InData(s) && s.cur == s.req.payloadSize && !LastShort(s.obs.sent)
    requires s.prev == |Flatten(s.obs.given)|
    requires |Flatten(s.obs.given)| + |buf| <= s.req.wLength
    ensures InStage(SendData(Supplied(s, buf), |buf|, false))
  {
    var r := Supplied(s, buf);
    GivenSplit(s);
    assert Earlier(r) == s.obs.given;
    FlattenSnoc(s.obs.given, buf);
    assert s.req.payload[..s.cur] == s.req.payload;
    assert SentBytes(r) == Flatten(Earlier(r)) + r.req.payload[..r.cur];
    SendDataIn(r, |buf|);
  }

  /** The present buffer is sent: every buffer given so far has been sent, and the counter says so. */
  lemma BufferSentTotals(s: Ctrl)
    requires InStage(s) && s.cur == s.req.payloadSize
    ensures SentBytes(s) == Flatten(s.obs.given)
    ensures !s.shortPacket ==> U16(s.prev + s.cur) == |SentBytes(s)|
  {
    GivenSplit(s);
    assert s.req.payload[..s.cur] == s.req.payload;
  }

  /** What the driver does with TXCOMP in the data stage, in terms of what has been sent: it goes to the
      OUT-ZLP status exactly when `wLength` bytes or a short packet have been sent, having
      sent all buffers it was given; otherwise it sends the next packet. */
  predicate InServed(s: Ctrl, r: Ctrl) {
    && (r.phase == WaitOutZlp <==> |SentBytes(s)| == s.req.wLength || LastShort(s.obs.sent))
    && (r.phase == WaitOutZlp ==> r.obs == s.obs && !r.inPending && SentBytes(r) == Flatten(r.obs.given))
    && (r.phase != WaitOutZlp ==> InStage(r))
  }

  lemma MidBufferStep(s: Ctrl)
    requires InStage(s) && s.cur < s.req.payloadSize
    ensures InServed(s, SendData(s, s.req.payloadSize - s.cur, false))
  {
    GivenSplit(s);
    SendDataIn(s, s.req.payloadSize - s.cur);
  }

  lemma EndOfBufferStep(s: Ctrl, supply: Option<seq<Byte>>)
    requires InStage(s) && s.cur == s.req.payloadSize
    requires supply.Some? ==> |Flatten(s.obs.given)| + |supply.value| <= s.req.wLength
    ensures InServed(s, BufferSent(s, false, supply))
  {
    BufferSentTotals(s);
    if !s.shortPacket && s.req.wLength != |SentBytes(s)| {
      NextBuffer(s, supply);
    }
  }

  lemma InServes(s: Ctrl, supply: Option<seq<Byte>>)
    requires Wf(s) && SupplyOk(supply) && s.phase == DataIn
    ensures CtrlInSent(s, false, supply) ==
            if s.cur < s.req.payloadSize then SendData(s, s.req.payloadSize - s.cur, false) else BufferSent(s, false, supply)
  {
    var remain := s.req.payloadSize - s.cur;
    assert U16(remain) == remain;
  }

  lemma InStageStep(s: Ctrl, supply: Option<seq<Byte>>)
    requires InStage(s)
    requires supply.Some? ==> |Flatten(s.obs.given)| + |supply.value| <= s.req.wLength
    ensures InServed(s, CtrlInSent(s, false, supply))
  {
    InServes(s, supply);
    if s.cur < s.req.payloadSize {
      MidBufferStep(s);
    } else {
      EndOfBufferStep(s, supply);
    }
  }

  /** At the end of a buffer: the driver's total is the number of bytes given, and it fits 16 bits. */
  lemma TotalsMoveOn(s: Ctrl)
    requires InStage(s) && s.cur == s.req.payloadSize && !s.shortPacket
    ensures var s1 := s.(prev := U16(s.prev + s.cur));
            InData(s1) && s1.prev == |Flatten(s1.obs.given)| && !LastShort(s1.obs.sent)
  {
    BufferSentTotals(s);
  }

  lemma NextBuffer(s: Ctrl, supply: Option<seq<Byte>>)
    requires InStage(s) && s.cur == s.req.payloadSize && !s.shortPacket && s.req.wLength != |SentBytes(s)|
    requires supply.Some? ==> |Flatten(s.obs.given)| + |supply.value| <= s.req.wLength
    ensures InStage(BufferSent(s, false, supply))
  {
    BufferSentTotals(s);
    TotalsMoveOn(s);
    var s1 := s.(prev := U16(s.prev + s.cur));
    if s.req.overUnderRun && supply.Some? {
      assert BufferSent(s, false, supply) == SendData(Supplied(s1, supply.value), |supply.value|, false);
      SupplyIn(s1, supply.value);
    } else {
      assert BufferSent(s, false, supply) == SendData(s1, 0, false);
      SendDataIn(s1, 0);
    }
  }

  /** The state in which the SETUP routine starts an IN data stage. */
  function AtStart(s: Ctrl, d: Decision): Ctrl
    requires Wf(s)
  {
    Decide(NewRequest(s), d).(prev := 0, cur := 0, phase := DataIn)
  }

  lemma StartsInData(s: Ctrl, d: Decision)
    requires Wf(s) && |d.payload| <= d.wLength < 65536
    ensures var r := AtStart(s, d); InData(r) && Earlier(r) == [] && r.obs.sent == []
  {
    var r := AtStart(s, d);
    assert r.obs.given == [d.payload] && Earlier(r) == [];
    FlattenSnoc([], d.payload);
    assert Flatten([] + [d.payload]) == Flatten(r.obs.given);
    assert SentBytes(r) == [];
  }

  /** The first packet is sent with the SETUP packet, from a first buffer that is not empty. */
  lemma InStageStarts(s: Ctrl, d: Decision, supply: Option<seq<Byte>>)
    requires Wf(s) && SupplyOk(supply)
    requires d.known && d.isIn && d.payload != [] && |d.payload| <= d.wLength < 65536
    ensures InStage(SetupReceived(s, true, d, false, supply))
  {
    StartsInData(s, d);
    InServes(AtStart(s, d), supply);
    SendDataIn(AtStart(s, d), |d.payload|);
  }

  /** Why the first buffer must not be empty: the short-packet flag is left over from the previous request.
      With an empty first buffer the driver owes the host a packet (of the buffer the callback supplies, or
      a zero-length one), and sends it if and only if that flag happens to be clear. */
  lemma EmptyFirstBuffer(s: Ctrl, d: Decision, supply: Option<seq<Byte>>)
    requires Wf(s) && SupplyOk(supply)
    requires d.known && d.isIn && d.payload == [] && 0 < d.wLength < 65536
    ensures var r := SetupReceived(s, true, d, false, supply);
            && (r.phase == WaitOutZlp && r.obs.sent == [] <==> s.shortPacket)
            && (r.phase == DataIn && |r.obs.sent| == 1 <==> !s.shortPacket)
            && (!s.shortPacket && !(d.overUnderRun && supply.Some?) ==> r.obs.sent == [[]])
  {
    var s1 := AtStart(s, d);
    assert s1.shortPacket == s.shortPacket;
    assert CtrlInSent(s1, false, supply) == BufferSent(s1, false, supply);
  }

  /** The flag is set by any request whose answer ends in a short packet: a request for one byte, followed
      by a request whose first buffer is empty, leaves the second without any packet. */
  lemma ShortThenEmpty(one: Decision, d: Decision)
    requires one.known && one.isIn && |one.payload| == 1 && one.wLength == 1
    requires d.known && d.isIn && d.payload == [] && 0 < d.wLength < 65536
    ensures var es := [Setup(true, one, false, None), Setup(true, d, false, None)];
            && PossibleRun(Init(), es)
            && Exec(Init(), es).phase == WaitOutZlp && Exec(Init(), es).obs.sent == []
  {
    var es := [Setup(true, one, false, None), Setup(true, d, false, None)];
    assert es[1..] == [Setup(true, d, false, None)] && es[1..][1..] == [];
    var s := Step(Init(), es[0]);
    InServes(AtStart(Init(), one), None);
    assert s.shortPacket;
    EmptyFirstBuffer(s, d, None);
    assert PossibleRun(s, es[1..]);
    assert Exec(s, es[1..]) == Exec(Step(s, es[1]), []);
  }

  /** At most one packet more than full packets fit into `wLength`. */
  lemma InPacketBound(s: Ctrl)
    requires InStage(s)
    ensures |s.obs.sent| <= s.req.wLength / CTRL_SIZE + 1
  {
    GivenSplit(s);
    var n := |s.obs.sent| - 1;
    assert s.obs.sent == s.obs.sent[..n] + [s.obs.sent[n]];
    FlattenSnoc(s.obs.sent[..n], s.obs.sent[n]);
    FullLength(s.obs.sent[..n]);
  }

  lemma {:induction false} FullLength(ps: seq<Packet>)
    requires AllFull(ps)
    ensures |Flatten(ps)| == CTRL_SIZE * |ps|
  {
    if ps != [] {
      FullLength(ps[1..]);
    }
  }

  /** The events of an IN data stage: completions, with buffers that keep the total within `wLength`. */
  predicate WithinLength(s: Ctrl, supplies: seq<Option<seq<Byte>>>)
    requires Wf(s) && s.phase == DataIn
    decreases |supplies|
  {
    supplies == [] ||
    var supply := supplies[0];
    && SupplyOk(supply)
    && (supply.Some? ==> |Flatten(s.obs.given)| + |supply.value| <= s.req.wLength)
    && var r := CtrlInSent(s, false, supply);
       (r.phase == DataIn ==> WithinLength(r, supplies[1..]))
  }

  /** The state after serving completions until the data stage ends or the list does. */
  function ServeIn(s: Ctrl, supplies: seq<Option<seq<Byte>>>): Ctrl
    requires Wf(s) && s.phase == DataIn && WithinLength(s, supplies)
    decreases |supplies|
  {
    if supplies == [] then s
    else
      var r := CtrlInSent(s, false, supplies[0]);
      if r.phase == DataIn then ServeIn(r, supplies[1..]) else r
  }

  /** Main result for the IN data stage: whatever the callback supplies within `wLength`, the stage sends
      the concatenation of the buffers in 64-byte packets, at most `wLength / 64 + 1` of them; it has
      ended exactly when `wLength` bytes or a short packet were sent and acknowledged, and it
      ends within one completion more than that bound. */
  lemma {:induction false} InDataStage(s: Ctrl, supplies: seq<Option<seq<Byte>>>)
    requires InStage(s) && WithinLength(s, supplies)
    ensures var r := ServeIn(s, supplies);
            && (r.phase == DataIn || r.phase == WaitOutZlp)
            && r.req.wLength == s.req.wLength
            && Chunked(r.obs.sent) && |r.obs.sent| <= r.req.wLength / CTRL_SIZE + 1
            && (r.phase == DataIn ==> InStage(r) && |r.obs.sent| == |s.obs.sent| + |supplies|)
            && (r.phase == WaitOutZlp ==>
                  SentBytes(r) == Flatten(r.obs.given) && (|SentBytes(r)| == r.req.wLength || LastShort(r.obs.sent)))
    ensures |s.obs.sent| + |supplies| > s.req.wLength / CTRL_SIZE + 1 ==> ServeIn(s, supplies).phase == WaitOutZlp
    decreases |supplies|
  {
    InPacketBound(s);
    if supplies != [] {
      InStageStep(s, supplies[0]);
      InSentGrows(s, supplies[0]);
      var r := CtrlInSent(s, false, supplies[0]);
      if r.phase == DataIn {
        InDataStage(r, supplies[1..]);
      }
    }
  }

  lemma InSentGrows(s: Ctrl, supply: Option<seq<Byte>>)
    requires InStage(s) && SupplyOk(supply)
    ensures var r := CtrlInSent(s, false, supply);
            r.req.wLength == s.req.wLength && (r.phase == DataIn ==> |r.obs.sent| == |s.obs.sent| + 1)
  {
  }

  // ---------------------------------------------------------------- OUT data stage

  /** In every state of an OUT data stage the two counters add up to the bytes stored for the request. */
  predicate OutCounted(s: Ctrl) {
    && Wf(s) && s.req.wLength < 65536
    && s.prev + s.cur == |s.obs.stored|
    && s.cur <= s.req.payloadSize
    && s.req.payload[..s.cur] == s.obs.stored[s.prev..]
  }

  /** Between two packets: each packet so far was full and wholly stored, and data is still due. */
  predicate OutStage(s: Ctrl) {
    && OutCounted(s) && s.phase == DataOut && !s.inPending
    && AllFull(s.obs.outs) && s.obs.stored == Flatten(s.obs.outs)
    && |s.obs.stored| < s.req.wLength
  }

  lemma OutStageStarts(s: Ctrl, d: Decision, out: bool, supply: Option<seq<Byte>>)
    requires Wf(s) && SupplyOk(supply)
    requires d.known && !d.isIn && |d.payload| < 65536 && 0 < d.wLength < 65536
    ensures var r := SetupReceived(s, true, d, out, supply);
            OutStage(r) && r.req.wLength == d.wLength && r.obs.outs == []
  {
  }

  /** The number of bytes an OUT data stage may still take. */
  function OutDue(s: Ctrl): int {
    s.req.wLength - |s.obs.stored|
  }

  lemma StoreOutCounted(s: Ctrl, p: Packet)
    requires OutStage(s) && |p| <= CTRL_SIZE
    ensures var r := StoreOut(s, p);
            && OutCounted(r) && r.phase == DataOut && r.prev == s.prev && !r.inPending
            && r.obs.outs == s.obs.outs + [p]
            && r.obs.stored == s.obs.stored + p[..Room(s, p)]
            && r.req == s.req.(payload := r.req.payload)
  {
    var n := Room(s, p);
    var r := StoreOut(s, p);
    assert r.req.payload[..r.cur] == s.req.payload[..s.cur] + p[..n];
    assert r.obs.stored[s.prev..] == s.obs.stored[s.prev..] + p[..n];
  }

  lemma LastOutStep(s: Ctrl, supply: Option<seq<Byte>>)
    requires OutCounted(s) && s.phase == DataOut && !s.inPending
    ensures var r := OutComplete(s, supply);
            && (r.phase == WaitInZlp || r.phase == StallReq)
            && (r.phase == WaitInZlp ==> OutCounted(r) && r.req.payloadSize == r.cur)
            && r.req.wLength == s.req.wLength && r.obs.stored == s.obs.stored
  {
  }

  lemma OverrunStep(s: Ctrl, supply: Option<seq<Byte>>)
    requires OutStage(s) && SupplyOk(supply) && s.cur == s.req.payloadSize
    ensures var r := OutOverrun(s, supply);
            && (r.phase == DataOut ==> OutStage(r))
            && (r.phase != DataOut ==> r.phase == StallReq)
            && r.req.wLength == s.req.wLength && r.obs.stored == s.obs.stored && r.obs.outs == s.obs.outs
  {
    assert s.obs.stored[|s.obs.stored|..] == [];
  }

  lemma OutServes(s: Ctrl, p: Packet, supply: Option<seq<Byte>>)
    requires OutStage(s) && SupplyOk(supply)
    ensures var s1 := StoreOut(s, p);
            CtrlOutReceived(s, p, supply) ==
            if LastOut(s1, Room(s, p)) then OutComplete(s1, supply)
            else if s1.req.payloadSize == s1.cur then OutOverrun(s1, supply)
            else s1
  {
    assert s.(inPending := false) == s;
  }

  /** One OUT packet: the counters stay exact without wrapping; if the stage goes on, the packet was full,
      all of it was stored and the bytes due went down by 64; otherwise the stage has ended. */
  lemma OutStageStep(s: Ctrl, p: Packet, supply: Option<seq<Byte>>)
    requires OutStage(s) && |p| <= CTRL_SIZE && SupplyOk(supply)
    ensures var r := CtrlOutReceived(s, p, supply);
            && (r.phase == DataOut ==>
                  OutStage(r) && r.obs.outs == s.obs.outs + [p] && OutDue(r) == OutDue(s) - CTRL_SIZE)
            && (r.phase != DataOut ==> r.phase == WaitInZlp || r.phase == StallReq)
            && (r.phase == WaitInZlp ==> OutCounted(r) && r.req.payloadSize == r.cur)
            && r.req.wLength == s.req.wLength
            && r.obs.stored == s.obs.stored + p[..Room(s, p)]
  {
    StoreOutCounted(s, p);
    OutServes(s, p, supply);
    var s1 := StoreOut(s, p);
    if LastOut(s1, Room(s, p)) {
      LastOutStep(s1, supply);
    } else {
      assert p[..Room(s, p)] == p;
      FlattenSnoc(s.obs.outs, p);
      assert OutStage(s1);
      if s1.req.payloadSize == s1.cur {
        OverrunStep(s1, supply);
      }
    }
  }

  /** The OUT data stage over a list of packets, with the payload buffers supplied meanwhile. */
  function ServeOut(s: Ctrl, ps: seq<(Packet, Option<seq<Byte>>)>): (r: Ctrl)
    requires Wf(s)
    requires forall x :: x in ps ==> SupplyOk(x.1)
    ensures Wf(r)
    decreases |ps|
  {
    if ps == [] || s.phase != DataOut then s
    else
      assert ps[0] in ps;
      ServeOut(CtrlOutReceived(s, ps[0].0, ps[0].1), ps[1..])
  }

  /** Main result for the OUT data stage: it takes at most the packets that `wLength` bytes need, all
      packets but the last are stored whole, and it ends with that many packets at the latest. */
  lemma {:induction false} OutDataStage(s: Ctrl, ps: seq<(Packet, Option<seq<Byte>>)>)
    requires OutStage(s)
    requires forall x :: x in ps ==> SupplyOk(x.1) && |x.0| <= CTRL_SIZE
    ensures var r := ServeOut(s, ps);
            && r.req.wLength == s.req.wLength
            && (r.phase == DataOut ==> OutStage(r) && |r.obs.outs| == |s.obs.outs| + |ps|)
            && (r.phase == WaitInZlp ==> OutCounted(r))
    ensures |s.obs.outs| + |ps| >= (s.req.wLength + CTRL_SIZE - 1) / CTRL_SIZE ==> ServeOut(s, ps).phase != DataOut
    decreases |ps|
  {
    FullLength(s.obs.outs);
    if ps != [] {
      assert ps[0] in ps;
      OutStageStep(s, ps[0].0, ps[0].1);
      var r := CtrlOutReceived(s, ps[0].0, ps[0].1);
      if r.phase == DataOut {
        OutDataStage(r, ps[1..]);
      }
    }
  }
}
