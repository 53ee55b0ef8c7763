/** Packetisation over runs: what an IN endpoint puts on the bus is the packets of the accepted
    transfers, in order, although completions overlap the transmission and chain new transfers. */
module BulkInStream {
  import opened Usb
  import opened BulkIn
  import opened BulkInBanks

  /** The packets of one transfer; an empty buffer is sent as a zero-length packet. */
  function TransferPackets(t: Transfer, size: nat): seq<Packet>
    requires size > 0
  {
    Packets(t.buf, size, t.askShort || |t.buf| == 0)
  }

  function Stream(ts: seq<Transfer>, size: nat): seq<Packet>
    requires size > 0
  {
    if ts == [] then [] else TransferPackets(ts[0], size) + Stream(ts[1..], size)
  }

  function Logged(log: seq<Completion>): (ts: seq<Transfer>)
    ensures |ts| == |log|
  {
    seq(|log|, i requires 0 <= i < |log| => log[i].transfer)
  }

  /** The packets of the current transfer that are not in the FIFO yet. */
  function Todo(s: Endpoint): seq<Packet>
    requires Wf(s)
  {
    Packets(s.job.transfer.buf[s.job.bufCnt..s.job.bufSize], s.size, s.job.shortPacket)
  }

  /** Conservation: packets written plus packets still to write are the packets accepted. */
  predicate Conserved(s: Endpoint)
    requires Wf(s)
  {
    var finished := Stream(Logged(s.log), s.size);
    if s.job.busy then Written(s.hw) + Todo(s) == finished + TransferPackets(s.job.transfer, s.size)
    else Written(s.hw) == finished
  }

  /** Every completion so far was regular and reported the whole buffer. */
  predicate Reported(log: seq<Completion>) {
    forall k :: 0 <= k < |log| ==> log[k].ok && log[k].reported == |log[k].transfer.buf|
  }

  /** Holds inside driver calls as well. */
  predicate StreamCore(s: Endpoint) {
    && Counted(s) && s.hw.enabled
    && !s.job.stallRequested && !s.hw.forcestall
    && Conserved(s) && Reported(s.log)
    && (s.job.busy ==> s.job.bufSize == |s.job.transfer.buf|)
    && (s.job.busy ==> (s.job.bufEnd <==> Drained(s.job)))
    && (!s.job.busy ==> Drained(s.job) && !s.job.bufEnd)
  }

  /** Holds between events. A busy endpoint always has a packet in flight. */
  predicate StreamInv(s: Endpoint) {
    && BankOk(s) && s.hw.enabled
    && !s.job.stallRequested && !s.hw.forcestall
    && Conserved(s) && Reported(s.log)
    && (s.job.busy ==> s.job.bufSize == |s.job.transfer.buf| && s.job.bank > 0)
    && (s.job.busy ==> (s.job.bufEnd <==> Drained(s.job)))
    && (!s.job.busy ==> Drained(s.job) && !s.job.bufEnd)
  }

  lemma {:induction false} StreamConcat(ts: seq<Transfer>, us: seq<Transfer>, size: nat)
    requires size > 0
    ensures Stream(ts + us, size) == Stream(ts, size) + Stream(us, size)
  {
    if ts == [] {
      assert ts + us == us;
    } else {
      assert (ts + us)[1..] == ts[1..] + us;
      StreamConcat(ts[1..], us, size);
    }
  }

  lemma StreamSnoc(log: seq<Completion>, c: Completion, size: nat)
    requires size > 0
    ensures Stream(Logged(log + [c]), size) == Stream(Logged(log), size) + TransferPackets(c.transfer, size)
  {
    assert Logged(log + [c]) == Logged(log) + [c.transfer];
    StreamConcat(Logged(log), [c.transfer], size);
    assert Stream([c.transfer], size) == TransferPackets(c.transfer, size) + Stream([c.transfer][1..], size);
  }

  lemma PacketsSlice(buf: seq<Byte>, lo: nat, hi: nat, size: nat, short: bool)
    requires size > 0 && lo <= hi <= |buf| && (lo < hi || short)
    ensures var n := if hi - lo < size then hi - lo else size;
            Packets(buf[lo..hi], size, short)
            == [buf[lo..lo + n]] + Packets(buf[lo + n..hi], size, short && hi - lo >= size)
  {
    if hi - lo >= size {
      assert buf[lo..hi][..size] == buf[lo..lo + size];
      assert buf[lo..hi][size..] == buf[lo + size..hi];
    }
  }

  /** Writing the FIFO moves one packet from what is left to what is written. */
  lemma LoadMovesPacket(s: Endpoint, tx: bool)
    requires Counted(s) && s.hw.staged == [] && s.job.bank < BankMax(s.ep) && !Drained(s.job)
    requires tx ==> s.hw.line == []
    ensures var r := Load(s, tx);
            exists p :: Todo(s) == [p] + Todo(r) && Written(r.hw) == Written(s.hw) + [p]
  {
    PacketsSlice(s.job.transfer.buf, s.job.bufCnt, s.job.bufSize, s.size, s.job.shortPacket);
    var w := WriteFifo(s);
    var p := w.hw.staged[0];
    assert w.hw.staged == [p];
    if tx {
      ValidateKeepsPackets(w.hw);
    }
    var r := Load(s, tx);
    assert Todo(s) == [p] + Todo(r);
    assert Written(r.hw) == Written(s.hw) + [p];
  }

  lemma InSentStream(s: Endpoint, tx: bool)
    requires StreamCore(s) && s.hw.staged == []
    requires tx ==> s.hw.line == []
    ensures var r := InSent(s, tx).0;
            && StreamCore(r)
            && (tx ==> r.hw.staged == [] && (r.hw.line != [] <==> !Drained(s.job)))
            && (!tx ==> r.hw.line == s.hw.line)
            && SameButLoad(s, r)
            && (!InSent(s, tx).1 && !Drained(s.job) ==> r.job.bufEnd)
  {
    InSentCounted(s, tx);
    if s.job.bank < BankMax(s.ep) && !Drained(s.job) {
      LoadMovesPacket(s, tx);
      var r := Load(s, tx);
      var p :| Todo(s) == [p] + Todo(r) && Written(r.hw) == Written(s.hw) + [p];
      assert Written(r.hw) + Todo(r) == Written(s.hw) + ([p] + Todo(r));
    }
  }

  lemma RegisterStream(s: Endpoint, t: Transfer)
    requires StreamCore(s) && !s.job.busy
    ensures var r := Register(s, t);
            StreamCore(r) && r.job.busy && !Drained(r.job) && r.hw == s.hw.(irq := true) && r.job.bank == s.job.bank
  {
    var r := Register(s, t);
    assert r.job.transfer.buf[r.job.bufCnt..r.job.bufSize] == t.buf;
    assert Todo(r) == TransferPackets(t, s.size);
  }

  lemma RunStream(s: Endpoint, t: Transfer)
    requires StreamInv(s)
    ensures StreamInv(Run(s, t))
    ensures !s.job.busy ==> Run(s, t).job.busy && Run(s, t).job.transfer == t
  {
    RunBanks(s, t);
    if !s.job.busy {
      if InPending(s.hw) {
        var r := Register(s, t);
        assert r.job.transfer.buf[r.job.bufCnt..r.job.bufSize] == t.buf;
      } else {
        RegisterStream(s, t);
        var r0 := Register(s, t);
        InSentStream(r0, true);
        var r1 := InSent(r0, true);
        if r1.1 {
          InSentStream(r1.0, false);
        }
      }
    }
  }

  /** A completion moves the finished transfer to the log; the callback may chain the next one. */
  lemma FinishStream(s: Endpoint, cb: Option<Transfer>)
    requires StreamCore(s) && s.job.bufEnd && InPending(s.hw)
    ensures var r := FinishBuffer(s, cb);
            && StreamCore(r) && r.ep == s.ep && r.job.bank == s.job.bank && !r.job.bufEnd
            && r.hw == s.hw.(irq := r.hw.irq) && (s.hw.irq ==> r.hw.irq)
            && r.job.busy == cb.Some? && (cb.Some? ==> r.job.transfer == cb.value)
            && r.log == s.log + [Completion(s.job.transfer, true, |s.job.transfer.buf|)]
  {
    var s0 := s.(job := s.job.(bufEnd := false, bufSize := s.job.bufCnt));
    var s1 := s0.(job := s0.job.(busy := false),
                  log := s0.log + [Completion(s0.job.transfer, true, s0.job.bufSize)]);
    assert Todo(s) == [];
    StreamSnoc(s.log, Completion(s0.job.transfer, true, s0.job.bufSize), s.size);
    if cb.Some? {
      RegisterStream(s1, cb.value);
    }
  }

  lemma LoadBothStream(s: Endpoint, cb: Option<Transfer>)
    requires StreamCore(s) && Held(s.hw) == 0 && s.hw.txcomp && s.hw.irq && BankMax(s.ep) > 1
    requires !Drained(s.job)
    ensures var r := LoadBoth(s, cb);
            StreamInv(r) && r.hw.line != [] && !r.hw.txcomp
  {
    InSentStream(s, true);
    var r := InSent(s, true);
    if !r.1 {
      FinishStream(r.0, cb);
    }
    var s1 := if r.1 then r.0 else FinishBuffer(r.0, cb);
    InSentStream(Ack(s1), false);
  }

  lemma LoadBehindStream(s: Endpoint)
    requires StreamCore(s) && s.hw.line == [] && |s.hw.staged| == 1 && s.hw.irq && BankMax(s.ep) > 1
    ensures var r := InSent(Ack(s.(hw := Validate(s.hw))), false).0;
            StreamInv(r) && Accepted(r) == Accepted(s)
  {
    ValidateKeepsPackets(s.hw);
    var v := Ack(s.(hw := Validate(s.hw)));
    assert Written(v.hw) == Written(s.hw);
    InSentStream(v, false);
  }

  lemma RefillStream(s: Endpoint, cb: Option<Transfer>)
    requires StreamCore(s) && s.hw.line == [] && s.hw.txcomp && s.hw.irq && Held(s.hw) < BankMax(s.ep)
    requires !s.job.bufEnd
    ensures StreamInv(Refill(s, cb))
  {
    if Drained(s.job) && s.job.bank == 0 {
    } else if BankMax(s.ep) > 1 && s.job.bank > 0 {
      LoadBehindStream(s);
    } else if BankMax(s.ep) > 1 {
      LoadBothStream(s, cb);
    } else {
      InSentStream(s, true);
    }
  }

  lemma InterruptStream(s: Endpoint, cb1: Option<Transfer>, cb2: Option<Transfer>)
    requires StreamInv(s)
    ensures StreamInv(Interrupt(s, cb1, cb2))
  {
    if s.hw.txcomp && s.hw.irq {
      var s0 := s.(job := s.job.(bank := (s.job.bank + 3) % 4));
      assert s0.job.bank == s.job.bank - 1;
      if s0.job.bufEnd {
        FinishStream(s0, cb1);
        RefillStream(FinishBuffer(s0, cb1), cb2);
      } else {
        RefillStream(s0, cb2);
      }
    }
  }

  predicate Plain(e: Event) {
    e.RunJob? || e.HostRead? || e.TxInterrupt?
  }

  lemma StepStream(s: Endpoint, e: Event)
    requires StreamInv(s) && Plain(e)
    ensures StreamInv(Step(s, e))
  {
    match e
    case RunJob(t) => RunStream(s, t);
    case HostRead => assert Written(HostReads(s.hw)) == Written(s.hw);
    case TxInterrupt(cb1, cb2) => InterruptStream(s, cb1, cb2);
  }

  lemma {:induction false} ExecStream(s: Endpoint, es: seq<Event>)
    requires StreamInv(s)
    requires forall e :: e in es ==> Plain(e)
    ensures StreamInv(Exec(s, es))
    decreases |es|
  {
    if es != [] {
      StepStream(s, es[0]);
      ExecStream(Step(s, es[0]), es[1..]);
    }
  }

  // ---------------------------------------------------------------- accepted transfers

  /** All transfers accepted so far: the completed ones, then the current one. */
  function Accepted(s: Endpoint): seq<Transfer> {
    Logged(s.log) + (if s.job.busy then [s.job.transfer] else [])
  }

  lemma LoggedSnoc(log: seq<Completion>, c: Completion)
    ensures Logged(log + [c]) == Logged(log) + [c.transfer]
  {
  }

  lemma FinishAccepted(s: Endpoint, cb: Option<Transfer>)
    requires StreamCore(s) && s.job.bufEnd && InPending(s.hw)
    ensures Accepted(FinishBuffer(s, cb)) == Accepted(s) + (if cb.Some? then [cb.value] else [])
  {
    FinishStream(s, cb);
    LoggedSnoc(s.log, Completion(s.job.transfer, true, |s.job.transfer.buf|));
  }

  function Optional(cb: Option<Transfer>): seq<Transfer> {
    if cb.Some? then [cb.value] else []
  }

  /** With both banks free the refill may itself load the end of a buffer, and then completes it. */
  predicate RefillFinishes(s: Endpoint)
    requires Wf(s)
  {
    !Drained(s.job) && s.job.bank == 0 && BankMax(s.ep) > 1 && !InSent(s, true).1
  }

  lemma RefillAccepted(s: Endpoint, cb: Option<Transfer>)
    requires StreamCore(s) && s.hw.line == [] && s.hw.txcomp && s.hw.irq && Held(s.hw) < BankMax(s.ep)
    requires !s.job.bufEnd
    ensures Accepted(Refill(s, cb)) == Accepted(s) + if RefillFinishes(s) then Optional(cb) else []
  {
    assert Accepted(s) + [] == Accepted(s);
    if Drained(s.job) && s.job.bank == 0 {
    } else if BankMax(s.ep) > 1 && s.job.bank > 0 {
      LoadBehindStream(s);
    } else if BankMax(s.ep) > 1 {
      InSentStream(s, true);
      var r := InSent(s, true);
      if !r.1 {
        FinishAccepted(r.0, cb);
        FinishStream(r.0, cb);
      }
      var s1 := if r.1 then r.0 else FinishBuffer(r.0, cb);
      InSentStream(Ack(s1), false);
      assert Accepted(Refill(s, cb)) == Accepted(s1);
    } else {
      InSentStream(s, true);
    }
  }

  /** The transfers that the callbacks of one interrupt pass start: one callback at the end of a buffer
      that was reached before, another if the refill reaches the end of a buffer. */
  function Started(s: Endpoint, cb1: Option<Transfer>, cb2: Option<Transfer>): seq<Transfer>
    requires Wf(s)
  {
    if !s.hw.txcomp || !s.hw.irq then []
    else
      var s0 := s.(job := s.job.(bank := (s.job.bank + 3) % 4));
      if s0.job.bufEnd then Optional(cb1) + (if RefillFinishes(FinishBuffer(s0, cb1)) then Optional(cb2) else [])
      else if RefillFinishes(s0) then Optional(cb2) else []
  }

  /** No accepted transfer is dropped or reordered, and exactly those that the callbacks start are added. */
  lemma InterruptAccepted(s: Endpoint, cb1: Option<Transfer>, cb2: Option<Transfer>)
    requires StreamInv(s)
    ensures Accepted(Interrupt(s, cb1, cb2)) == Accepted(s) + Started(s, cb1, cb2)
  {
    if s.hw.txcomp && s.hw.irq {
      var s0 := s.(job := s.job.(bank := (s.job.bank + 3) % 4));
      assert s0.job.bank == s.job.bank - 1;
      assert Accepted(s0) == Accepted(s);
      if s0.job.bufEnd {
        var f := FinishBuffer(s0, cb1);
        FinishStream(s0, cb1);
        FinishAccepted(s0, cb1);
        RefillAccepted(f, cb2);
        Regroup(Accepted(s), Optional(cb1), if RefillFinishes(f) then Optional(cb2) else []);
      } else {
        RefillAccepted(s0, cb2);
      }
    }
  }

  lemma Regroup(a: seq<Transfer>, b: seq<Transfer>, c: seq<Transfer>)
    ensures a + b + c == a + (b + c)
  {
  }

  /** The transfers that one event hands over: a call on an idle endpoint, and the callbacks. */
  function HandedOver(s: Endpoint, e: Event): seq<Transfer>
    requires Wf(s)
  {
    match e
    case RunJob(t) => if s.job.busy then [] else [t]
    case TxInterrupt(cb1, cb2) => Started(s, cb1, cb2)
    case _ => []
  }

  function HandedOverIn(s: Endpoint, es: seq<Event>): seq<Transfer>
    requires Wf(s)
    decreases |es|
  {
    if es == [] then [] else HandedOver(s, es[0]) + HandedOverIn(Step(s, es[0]), es[1..])
  }

  lemma RunAccepted(s: Endpoint, t: Transfer)
    requires StreamInv(s)
    ensures Accepted(Run(s, t)) == Accepted(s) + if s.job.busy then [] else [t]
  {
    if !s.job.busy && !InPending(s.hw) {
      StartCounted(Register(s, t));
    }
  }

  lemma StepAccepted(s: Endpoint, e: Event)
    requires StreamInv(s) && Plain(e)
    ensures Accepted(Step(s, e)) == Accepted(s) + HandedOver(s, e)
  {
    match e
    case RunJob(t) => RunAccepted(s, t);
    case HostRead => assert Accepted(s) + [] == Accepted(s);
    case TxInterrupt(cb1, cb2) => InterruptAccepted(s, cb1, cb2);
  }

  /** Over a run the accepted transfers grow by exactly those handed over, in order. */
  lemma {:induction false} ExecAccepted(s: Endpoint, es: seq<Event>)
    requires StreamInv(s)
    requires forall e :: e in es ==> Plain(e)
    ensures Accepted(Exec(s, es)) == Accepted(s) + HandedOverIn(s, es)
    decreases |es|
  {
    if es == [] {
      assert Accepted(s) + [] == Accepted(s);
    } else {
      StepStream(s, es[0]);
      StepAccepted(s, es[0]);
      ExecAccepted(Step(s, es[0]), es[1..]);
      Regroup(Accepted(s), HandedOver(s, es[0]), HandedOverIn(Step(s, es[0]), es[1..]));
    }
  }

  lemma ConservedAccepted(s: Endpoint)
    requires StreamInv(s)
    ensures Written(s.hw) + Todo(s) == Stream(Accepted(s), s.size)
    ensures !s.job.busy ==> Todo(s) == [] && Accepted(s) == Logged(s.log)
  {
    if s.job.busy {
      StreamConcat(Logged(s.log), [s.job.transfer], s.size);
      assert Stream([s.job.transfer], s.size)
          == TransferPackets(s.job.transfer, s.size) + Stream([s.job.transfer][1..], s.size);
    } else {
      assert Accepted(s) == Logged(s.log);
      assert Written(s.hw) + Todo(s) == Written(s.hw);
    }
  }

  lemma SentIsPrefix(s: Endpoint)
    requires StreamInv(s)
    ensures s.hw.sent <= Stream(Accepted(s), s.size)
  {
    ConservedAccepted(s);
    assert Written(s.hw) + Todo(s) == s.hw.sent + (s.hw.line + s.hw.staged + Todo(s));
  }

  lemma InitStream(ep: nat, size: nat)
    requires size > 0
    ensures StreamInv(Init(ep, size))
  {
    assert Written(Init(ep, size).hw) == [];
  }

  /** Main result: over every run of transfers, host reads and TXCOMP interrupts with arbitrary callbacks,
      the accepted transfers are those handed over by calls on the idle endpoint and by callbacks, in
      order; the host has received a prefix of their packets; every completion was regular and reported
      its whole buffer; and an endpoint with empty banks has sent exactly the packets of the completed
      transfers. */
  lemma Packetisation(ep: nat, size: nat, es: seq<Event>)
    requires size > 0
    requires forall e :: e in es ==> Plain(e)
    ensures var s := Exec(Init(ep, size), es);
            && StreamInv(s)
            && Accepted(s) == HandedOverIn(Init(ep, size), es)
            && s.hw.sent <= Stream(Accepted(s), size)
            && Reported(s.log)
            && (s.job.bank == 0 ==> s.hw.sent == Stream(Logged(s.log), size))
  {
    InitStream(ep, size);
    ExecStream(Init(ep, size), es);
    ExecAccepted(Init(ep, size), es);
    assert Accepted(Init(ep, size)) == [];
    assert [] + HandedOverIn(Init(ep, size), es) == HandedOverIn(Init(ep, size), es);
    var s := Exec(Init(ep, size), es);
    SentIsPrefix(s);
    EmptyBanksMeanIdle(s);
  }

  // ---------------------------------------------------------------- progress

  /** The host reads, then the driver serves the completion; the callback starts nothing. */
  function Round(s: Endpoint): Endpoint
    requires Wf(s)
  {
    Interrupt(s.(hw := HostReads(s.hw)), None, None)
  }

  /** Packets that are accepted and not acknowledged and served yet. */
  function Outstanding(s: Endpoint): nat
    requires Wf(s)
  {
    |Todo(s)| + s.job.bank
  }

  lemma RoundProgress(s: Endpoint)
    requires StreamInv(s) && s.job.bank > 0
    ensures var r := Round(s);
            && StreamInv(r) && r.size == s.size && Accepted(r) == Accepted(s)
            && Outstanding(r) == Outstanding(s) - 1
  {
    var h := s.(hw := HostReads(s.hw));
    StepStream(s, HostRead);
    InterruptStream(h, None, None);
    InterruptAccepted(h, None, None);
    ConservedAccepted(s);
    ConservedAccepted(Round(s));
    SizeKept(h);
  }

  lemma SizeKept(s: Endpoint)
    requires StreamInv(s) && s.hw.txcomp && s.hw.irq
    ensures var r := Interrupt(s, None, None);
            r.size == s.size && r.hw.sent == s.hw.sent && !r.hw.txcomp
  {
    var s0 := s.(job := s.job.(bank := (s.job.bank + 3) % 4));
    assert s0.job.bank == s.job.bank - 1;
    var s1 := if s0.job.bufEnd then FinishBuffer(s0, None) else s0;
    if s0.job.bufEnd {
      FinishStream(s0, None);
    }
    if !(Drained(s1.job) && s1.job.bank == 0) {
      if BankMax(s1.ep) > 1 && s1.job.bank > 0 {
        ValidateKeepsPackets(s1.hw);
      } else {
        InSentStream(s1, true);
      }
    }
  }

  lemma EmptyBanksMeanIdle(s: Endpoint)
    requires StreamInv(s)
    ensures s.job.bank == 0 <==> Outstanding(s) == 0
  {
  }

  /** An idle endpoint that has delivered exactly the packets of `ts`. */
  predicate Delivered(s: Endpoint, ts: seq<Transfer>, size: nat)
    requires size > 0
  {
    && StreamInv(s) && !s.job.busy && s.job.bank == 0
    && Logged(s.log) == ts && s.hw.sent == Stream(ts, size)
  }

  lemma IdleHasDelivered(s: Endpoint)
    requires StreamInv(s) && s.job.bank == 0
    ensures Delivered(s, Accepted(s), s.size)
  {
    EmptyBanksMeanIdle(s);
    ConservedAccepted(s);
    assert Written(s.hw) + Todo(s) == s.hw.sent;
  }

  /** Every accepted transfer completes: rounds until the banks are empty, of which there are as many as
      packets were outstanding, leave the endpoint idle, and the host has received exactly the packets of
      all accepted transfers. */
  ghost function Settle(s: Endpoint): (r: Endpoint)
    requires StreamInv(s)
    ensures Delivered(r, Accepted(s), s.size)
    decreases Outstanding(s)
  {
    EmptyBanksMeanIdle(s);
    if s.job.bank == 0 then
      IdleHasDelivered(s);
      s
    else
      RoundProgress(s);
      Settle(Round(s))
  }

  // ---------------------------------------------------------------- the host side

  function Buffers(ts: seq<Transfer>): seq<seq<Byte>> {
    if ts == [] then [] else [ts[0].buf] + Buffers(ts[1..])
  }

  /** A transfer that ends in a short packet. */
  predicate Delimited(t: Transfer, size: nat)
    requires size > 0
  {
    t.askShort || |t.buf| == 0 || |t.buf| % size != 0
  }

  /** Round trip: splitting the packet stream at short packets gives the buffers back. */
  lemma {:induction false} HostSplitsStream(ts: seq<Transfer>, size: nat)
    requires size > 0
    requires forall t :: t in ts ==> Delimited(t, size)
    ensures HostTransfers(Stream(ts, size), size, []) == Buffers(ts)
  {
    if ts != [] {
      var t := ts[0];
      assert t in ts;
      HostReadsBack(t.buf, size, t.askShort || |t.buf| == 0, Stream(ts[1..], size), []);
      HostSplitsStream(ts[1..], size);
      assert [] + t.buf == t.buf;
    }
  }
}
