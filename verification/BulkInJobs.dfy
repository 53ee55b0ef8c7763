/** What becomes of the transfers of an IN endpoint, whatever happens to it: each that is accepted is
    completed once, running, or forgotten by clearing a halt or resetting the table. */
module BulkInJobs {
  import opened Usb
  import opened BulkIn
  import opened BulkInBanks
  import opened BulkInStream

  /** The endpoint would take a transfer if it were idle. */
  predicate Open(s: Endpoint) {
    s.hw.enabled && !s.job.stallRequested && !s.hw.forcestall
  }

  /** This transfer is running, and its completions will be served. */
  predicate Runs(s: Endpoint, t: Transfer) {
    s.job.busy && s.job.transfer == t && s.job.bufSize == |t.buf| && s.hw.irq
  }

  /** After a callback: the transfer it started is running, or none. */
  predicate Follows(open: bool, cb: Option<Transfer>, r: Endpoint) {
    if open && cb.Some? then Runs(r, cb.value) else !r.job.busy
  }

  /** The running transfer was completed, once, with this status. */
  predicate Completed(s: Endpoint, r: Endpoint, ok: bool) {
    r.log == s.log + [Completion(s.job.transfer, ok, s.job.bufSize)]
  }

  /** Nothing is in the banks or waits for service. */
  predicate NothingInFlight(s: Endpoint) {
    s.hw.line == [] && s.hw.staged == [] && !s.hw.txcomp && s.job.bank == 0
  }

  // ---------------------------------------------------------------- how a job starts and ends

  lemma StartKeeps(s: Endpoint, tx: bool)
    requires Wf(s)
    ensures var r := InSent(s, tx).0;
            && r.log == s.log && r.hw.irq == s.hw.irq
            && r.hw.enabled == s.hw.enabled && r.hw.forcestall == s.hw.forcestall
            && r.job == s.job.(bufCnt := r.job.bufCnt, bank := r.job.bank,
                               shortPacket := r.job.shortPacket, bufEnd := r.job.bufEnd)
  {
  }

  /** An idle, enabled endpoint that is neither halted nor halting takes the transfer; any other refuses it
      and stays as it is. */
  lemma RunTakes(s: Endpoint, t: Transfer)
    requires Wf(s)
    ensures var r := Step(s, RunJob(t));
            if !s.job.busy && s.hw.enabled && !s.hw.forcestall && !s.job.stallRequested
            then Runs(r, t) && r.log == s.log && r.hw.sent == s.hw.sent
            else r == s
  {
    if Accepts(s) && !InPending(s.hw) {
      var g := Register(s, t);
      StartKeeps(g, true);
      if InSent(g, true).1 {
        StartKeeps(InSent(g, true).0, false);
      }
    }
  }

  lemma CallbackFollows(s: Endpoint, cb: Option<Transfer>)
    requires Wf(s) && !s.job.busy
    ensures Follows(Open(s), cb, Callback(s, cb)) && Callback(s, cb).log == s.log
  {
    if cb.Some? {
      RunTakes(s, cb.value);
    }
  }

  /** An abort ends the running transfer with its callback, and empties the endpoint: afterwards it is idle,
      or runs what the callback started. Without a transfer no callback runs. */
  lemma AbortEnds(s: Endpoint, cb: Option<Transfer>)
    requires Wf(s)
    ensures var r := Step(s, AbortJob(cb));
            && (s.job.busy ==> Completed(s, r, false) && Follows(Open(s), cb, r))
            && (!s.job.busy ==> r.log == s.log && !r.job.busy)
            && (!r.job.busy ==> NothingInFlight(r) && !r.hw.irq)
  {
    var k := Killed(s);
    if s.job.busy {
      var f := k.(job := k.job.(busy := false), log := k.log + [Completion(k.job.transfer, false, k.job.bufSize)]);
      CallbackFollows(f, cb);
      assert Step(s, AbortJob(cb)) == Callback(f, cb);
      if !(Open(f) && cb.Some?) {
        assert Callback(f, cb) == f;
      }
    }
  }

  /** Freeing the endpoint and a bus reset end it too; on the disabled endpoint no callback can start another. */
  lemma ReleaseEnds(s: Endpoint, e: Event)
    requires Wf(s) && (e.FreeEndpoint? || e.ResetBus?)
    ensures var r := Step(s, e);
            && !r.job.busy && !r.hw.enabled
            && (s.job.busy ==> Completed(s, r, false))
            && (!s.job.busy ==> r.log == s.log)
            && (e.ResetBus? ==> r.hw.line == [] && r.hw.staged == [] && !r.hw.txcomp && !r.hw.forcestall)
  {
  }

  /** A halt stalls at once if no packet waits and at most one bank is in use, and is deferred otherwise; either way
      the completions in flight will be served, and no transfer is taken until the halt is cleared. */
  lemma HaltRefuses(s: Endpoint, t: Transfer)
    requires Wf(s)
    ensures var r := Step(s, Halt);
            && r.log == s.log && r.hw.irq && r.hw.line == s.hw.line && Step(r, RunJob(t)) == r
            && (if s.hw.line == [] && s.job.bank <= 1 then r.hw.forcestall && r.job == s.job
                else r.job.stallRequested && r.hw.forcestall == s.hw.forcestall)
  {
  }

  /** Clearing a halt that has taken effect empties the banks and forgets the running transfer, whose callback
      is called as the one for the end of the halt; a halt that has not is only called off. */
  lemma UnhaltForgets(s: Endpoint, cb: Option<Transfer>)
    requires Wf(s)
    ensures var r := Step(s, Unhalt(cb));
            && r.log == s.log && !r.hw.forcestall && !r.job.stallRequested
            && (s.hw.forcestall && s.job.busy ==> Follows(s.hw.enabled, cb, r))
            && (s.hw.forcestall && !s.job.busy ==> !r.job.busy && r.hw.line == [] && r.hw.staged == [])
            && (!s.hw.forcestall ==> r == s.(job := s.job.(stallRequested := false)))
  {
    if s.hw.forcestall && s.job.busy {
      CallbackFollows(Discard(s).(hw := Discard(s).hw.(forcestall := false),
                                  job := s.job.(stallRequested := false, busy := false)), cb);
    }
  }

  lemma TableResetForgets(s: Endpoint)
    requires Wf(s)
    ensures var r := Step(s, ResetTable);
            && r.log == s.log && r.hw == s.hw && !r.job.busy && !r.job.stallRequested && r.job.bank == 0
            && !r.job.shortPacket && !r.job.bufEnd
  {
  }

  /** Allocation is refused exactly while enabled or for too large a size; a freed endpoint that is allocated
      with no completion waiting and not halted is ready: it takes a transfer and validates its first packet. */
  lemma AllocReady(s: Endpoint, size: PacketSize, t: Transfer)
    requires BankOk(s)
    ensures s.hw.enabled || size > SizeMax(s.ep) ==> Step(s, AllocEndpoint(size)) == s
    ensures !s.hw.enabled && size <= SizeMax(s.ep) && !s.hw.txcomp && !s.hw.forcestall && !s.job.busy ==>
              var a := Step(s, AllocEndpoint(size));
              var r := Step(a, RunJob(t));
              && a.size == size && a.hw.enabled && NothingInFlight(a) && a.log == s.log
              && Runs(r, t) && r.hw.line == [if |t.buf| < size then t.buf else t.buf[..size]]
  {
    if !s.hw.enabled && size <= SizeMax(s.ep) && !s.hw.txcomp && !s.hw.forcestall && !s.job.busy {
      var a := Step(s, AllocEndpoint(size));
      RunTakes(a, t);
      FirstPacket(a, t);
    }
  }

  lemma FirstPacket(s: Endpoint, t: Transfer)
    requires Wf(s) && Accepts(s) && NothingInFlight(s)
    ensures Run(s, t).hw.line == [if |t.buf| < s.size then t.buf else t.buf[..s.size]]
  {
    var g := Register(s, t);
    var p := if |t.buf| < s.size then t.buf else t.buf[..s.size];
    assert t.buf[..|t.buf|] == t.buf;
    assert WriteFifo(g).hw.staged == [p];
    FlattenOne([p]);
    assert InSent(g, true).0.hw.line == [p];
    if InSent(g, true).1 {
      assert InSent(InSent(g, true).0, false).0.hw.line == [p];
    }
  }

  // ---------------------------------------------------------------- the fate of every transfer

  /** The transfer that the callback of a completion starts. */
  function Taking(s: Endpoint, cb: Option<Transfer>): seq<Transfer> {
    if s.job.busy && Open(s) then Optional(cb) else []
  }

  function RefillTaking(s: Endpoint, cb: Option<Transfer>): seq<Transfer>
    requires Wf(s)
  {
    if RefillFinishes(s) then Taking(InSent(s, true).0, cb) else []
  }

  function ServeTaking(s: Endpoint, cb1: Option<Transfer>, cb2: Option<Transfer>): seq<Transfer>
    requires Wf(s)
  {
    if s.job.bufEnd then Taking(s, cb1) + RefillTaking(FinishBuffer(s, cb1), cb2) else RefillTaking(s, cb2)
  }

  /** The transfers that one event adds, in any state. */
  function TakenBy(s: Endpoint, e: Event): seq<Transfer>
    requires Wf(s)
  {
    match e
    case RunJob(t) => if !s.job.busy && Open(s) then [t] else []
    case TxInterrupt(cb1, cb2) =>
      if !s.hw.txcomp || !s.hw.irq || s.job.stallRequested then []
      else ServeTaking(s.(job := s.job.(bank := (s.job.bank + 3) % 4)), cb1, cb2)
    case Unhalt(cb) => if s.hw.forcestall && s.job.busy && s.hw.enabled then Optional(cb) else []
    case AbortJob(cb) => Taking(s, cb)
    case _ => []
  }

  /** The transfer that one event drops without a completion: only clearing a halt that has taken effect and
      resetting the table do that, to the running one. */
  function ForgottenBy(s: Endpoint, e: Event): seq<Transfer> {
    if s.job.busy && (e.ResetTable? || (e.Unhalt? && s.hw.forcestall)) then [s.job.transfer] else []
  }

  lemma FinishTakes(s: Endpoint, ok: bool, cb: Option<Transfer>)
    requires Wf(s)
    ensures Accepted(Finish(s, ok, cb)) == Accepted(s) + Taking(s, cb)
  {
    if s.job.busy {
      var c := Completion(s.job.transfer, ok, s.job.bufSize);
      LoggedSnoc(s.log, c);
      CallbackFollows(s.(job := s.job.(busy := false), log := s.log + [c]), cb);
    }
  }

  lemma InSentAccepted(s: Endpoint, tx: bool)
    requires Wf(s)
    ensures Accepted(InSent(s, tx).0) == Accepted(s) && Open(InSent(s, tx).0) == Open(s)
  {
    StartKeeps(s, tx);
  }

  lemma FinishBufferTakes(s: Endpoint, cb: Option<Transfer>)
    requires Wf(s)
    ensures Accepted(FinishBuffer(s, cb)) == Accepted(s) + Taking(s, cb)
  {
    FinishTakes(s.(job := s.job.(bufEnd := false, bufSize := s.job.bufCnt)), true, cb);
  }

  lemma RefillTakes(s: Endpoint, cb: Option<Transfer>)
    requires Wf(s)
    ensures Accepted(Refill(s, cb)) == Accepted(s) + RefillTaking(s, cb)
  {
    if Drained(s.job) && s.job.bank == 0 {
    } else if BankMax(s.ep) > 1 && s.job.bank > 0 {
      InSentAccepted(Ack(s.(hw := Validate(s.hw))), false);
    } else if BankMax(s.ep) > 1 {
      InSentAccepted(s, true);
      var r := InSent(s, true);
      FinishBufferTakes(r.0, cb);
      InSentAccepted(Ack(if r.1 then r.0 else FinishBuffer(r.0, cb)), false);
    } else {
      InSentAccepted(s, true);
    }
  }

  lemma ServeTakes(s: Endpoint, cb1: Option<Transfer>, cb2: Option<Transfer>)
    requires Wf(s)
    ensures Accepted(Refill(if s.job.bufEnd then FinishBuffer(s, cb1) else s, cb2))
         == Accepted(s) + ServeTaking(s, cb1, cb2)
  {
    if s.job.bufEnd {
      FinishBufferTakes(s, cb1);
      RefillTakes(FinishBuffer(s, cb1), cb2);
      Regroup(Accepted(s), Taking(s, cb1), RefillTaking(FinishBuffer(s, cb1), cb2));
    } else {
      RefillTakes(s, cb2);
    }
  }

  /** What the interrupt routine does after it has counted the completed bank. */
  function Served(s: Endpoint, cb1: Option<Transfer>, cb2: Option<Transfer>): Endpoint
    requires Wf(s)
  {
    if s.job.stallRequested then DrainBank(s) else Refill(if s.job.bufEnd then FinishBuffer(s, cb1) else s, cb2)
  }

  lemma ServedTakes(s: Endpoint, cb1: Option<Transfer>, cb2: Option<Transfer>)
    requires Wf(s)
    ensures Accepted(Served(s, cb1, cb2))
         == Accepted(s) + if s.job.stallRequested then [] else ServeTaking(s, cb1, cb2)
  {
    if s.job.stallRequested {
      DrainAccepted(s);
    } else {
      ServeTakes(s, cb1, cb2);
    }
  }

  lemma InterruptTakes(s: Endpoint, cb1: Option<Transfer>, cb2: Option<Transfer>)
    requires Wf(s)
    ensures Accepted(Interrupt(s, cb1, cb2)) == Accepted(s) + TakenBy(s, TxInterrupt(cb1, cb2))
  {
    var s0 := s.(job := s.job.(bank := (s.job.bank + 3) % 4));
    InterruptServes(s, cb1, cb2);
    if s.hw.txcomp && s.hw.irq {
      ServedTakes(s0, cb1, cb2);
      TakenServing(s, cb1, cb2);
    }
  }

  lemma TakenServing(s: Endpoint, cb1: Option<Transfer>, cb2: Option<Transfer>)
    requires Wf(s) && s.hw.txcomp && s.hw.irq
    ensures var s0 := s.(job := s.job.(bank := (s.job.bank + 3) % 4));
            && Accepted(s0) == Accepted(s)
            && TakenBy(s, TxInterrupt(cb1, cb2)) == if s0.job.stallRequested then [] else ServeTaking(s0, cb1, cb2)
  {
  }

  lemma InterruptServes(s: Endpoint, cb1: Option<Transfer>, cb2: Option<Transfer>)
    requires Wf(s)
    ensures Interrupt(s, cb1, cb2) == if !s.hw.txcomp || !s.hw.irq then s
                                      else Served(s.(job := s.job.(bank := (s.job.bank + 3) % 4)), cb1, cb2)
  {
  }

  lemma DrainAccepted(s: Endpoint)
    requires Wf(s)
    ensures Accepted(DrainBank(s)) == Accepted(s)
  {
  }

  lemma UnhaltFate(s: Endpoint, cb: Option<Transfer>)
    requires Wf(s)
    ensures Balance(Accepted(s), TakenBy(s, Unhalt(cb)), Accepted(Step(s, Unhalt(cb))), ForgottenBy(s, Unhalt(cb)))
  {
    UnhaltForgets(s, cb);
    if !(s.hw.forcestall && s.job.busy) {
      Grown(Accepted(s), [], Accepted(Step(s, Unhalt(cb))));
    } else {
      assert Accepted(Step(s, Unhalt(cb))) == Logged(s.log) + TakenBy(s, Unhalt(cb));
    }
  }

  lemma RunFate(s: Endpoint, t: Transfer)
    requires Wf(s)
    ensures Accepted(Step(s, RunJob(t))) == Accepted(s) + TakenBy(s, RunJob(t))
  {
    RunTakes(s, t);
  }

  /** One event completes, keeps or forgets every transfer, and adds those that were handed over. */
  lemma StepFate(s: Endpoint, e: Event)
    requires Wf(s)
    ensures Balance(Accepted(s), TakenBy(s, e), Accepted(Step(s, e)), ForgottenBy(s, e))
  {
    if e.Unhalt? {
      UnhaltFate(s, e.cb);
    } else if e.ResetTable? {
      assert Accepted(Step(s, e)) + ForgottenBy(s, e) == Accepted(s);
    } else {
      StepGrows(s, e);
      Grown(Accepted(s), TakenBy(s, e), Accepted(Step(s, e)));
    }
  }

  lemma StepGrows(s: Endpoint, e: Event)
    requires Wf(s) && !e.Unhalt? && !e.ResetTable?
    ensures Accepted(Step(s, e)) == Accepted(s) + TakenBy(s, e)
  {
    match e
    case RunJob(t) => RunFate(s, t);
    case TxInterrupt(cb1, cb2) => InterruptTakes(s, cb1, cb2);
    case AbortJob(cb) => FinishTakes(Killed(s), false, cb);
    case FreeEndpoint(cb) => FinishTakes(s.(hw := s.hw.(enabled := false)), false, cb);
    case ResetBus(cb) => FinishTakes(s.(hw := Hw([], [], false, false, false, false, s.hw.sent)), false, cb);
    case _ =>
  }

  function TakenIn(s: Endpoint, es: seq<Event>): seq<Transfer>
    requires Wf(s)
    decreases |es|
  {
    if es == [] then [] else TakenBy(s, es[0]) + TakenIn(Step(s, es[0]), es[1..])
  }

  function ForgottenIn(s: Endpoint, es: seq<Event>): seq<Transfer>
    requires Wf(s)
    decreases |es|
  {
    if es == [] then [] else ForgottenBy(s, es[0]) + ForgottenIn(Step(s, es[0]), es[1..])
  }

  /** Main result, over every run of all ten events from any state: each transfer that was running or accepted
      has been completed, once, is running, or was forgotten by clearing a halt or resetting the table. */
  lemma {:induction false} EveryTransferEnds(s: Endpoint, es: seq<Event>)
    requires Wf(s)
    ensures Balance(Accepted(s), TakenIn(s, es), Accepted(Exec(s, es)), ForgottenIn(s, es))
    decreases |es|
  {
    if es != [] {
      var s1 := Step(s, es[0]);
      StepFate(s, es[0]);
      EveryTransferEnds(s1, es[1..]);
      BalanceChains(Accepted(s), TakenBy(s, es[0]), Accepted(s1), ForgottenBy(s, es[0]),
                    TakenIn(s1, es[1..]), Accepted(Exec(s, es)), ForgottenIn(s1, es[1..]));
    }
  }

  /** With no halt cleared and no table reset nothing is forgotten: every transfer is completed or running. */
  lemma {:induction false} NothingForgotten(s: Endpoint, es: seq<Event>)
    requires Wf(s)
    requires forall e :: e in es ==> !e.Unhalt? && !e.ResetTable?
    ensures ForgottenIn(s, es) == []
    decreases |es|
  {
    if es != [] {
      assert es[0] in es;
      NothingForgotten(Step(s, es[0]), es[1..]);
    }
  }

  // ---------------------------------------------------------------- the banks are kept full

  predicate FullOrDrained(s: Endpoint) {
    s.job.bank >= BankMax(s.ep) || Drained(s.job)
  }

  lemma InSentFills(s: Endpoint, tx: bool)
    requires Counted(s) && s.hw.staged == [] && (tx ==> s.hw.line == [])
    requires s.job.bank + 1 >= BankMax(s.ep)
    ensures FullOrDrained(InSent(s, tx).0)
  {
    if s.job.bank < BankMax(s.ep) && !Drained(s.job) {
      LoadCounted(s, tx);
    }
  }

  lemma LoadBothFills(s: Endpoint, cb: Option<Transfer>)
    requires Counted(s) && Held(s.hw) == 0 && s.hw.txcomp && s.hw.irq && BankMax(s.ep) > 1 && !Drained(s.job)
    ensures FullOrDrained(LoadBoth(s, cb))
  {
    LoadCounted(s, true);
    InSentCounted(s, true);
    var r := InSent(s, true);
    if !r.1 {
      FinishBanks(r.0, cb);
    }
    var s1 := if r.1 then r.0 else FinishBuffer(r.0, cb);
    InSentFills(Ack(s1), false);
  }

  lemma RefillFills(s: Endpoint, cb: Option<Transfer>)
    requires Counted(s) && s.hw.line == [] && s.hw.txcomp && s.hw.irq && Held(s.hw) < BankMax(s.ep)
    ensures FullOrDrained(Refill(s, cb))
    ensures Refill(s, cb).job.bank == 0 ==> !Refill(s, cb).hw.irq
  {
    RefillBanks(s, cb);
    if Drained(s.job) && s.job.bank == 0 {
    } else if BankMax(s.ep) > 1 && s.job.bank > 0 {
      ValidateKeepsPackets(s.hw);
      InSentFills(Ack(s.(hw := Validate(s.hw))), false);
    } else if BankMax(s.ep) > 1 {
      LoadBothFills(s, cb);
    } else {
      InSentFills(s, true);
    }
  }

  /** After a service: the completion is acknowledged, all banks are full or nothing is left to load, and the interrupt
      is on exactly while something is in flight. */
  predicate WellServed(s: Endpoint) {
    FullOrDrained(s) && !s.hw.txcomp && (s.hw.irq <==> s.job.bank > 0)
  }

  lemma RefillServes(s: Endpoint, cb: Option<Transfer>)
    requires Counted(s) && s.hw.line == [] && s.hw.txcomp && s.hw.irq && Held(s.hw) < BankMax(s.ep)
    ensures WellServed(Refill(s, cb))
  {
    RefillFills(s, cb);
    RefillBanks(s, cb);
  }

  lemma ServedFills(s: Endpoint, cb1: Option<Transfer>, cb2: Option<Transfer>)
    requires Counted(s) && s.hw.line == [] && s.hw.txcomp && s.hw.irq && Held(s.hw) < BankMax(s.ep)
    requires !s.job.stallRequested
    ensures WellServed(Served(s, cb1, cb2))
  {
    if s.job.bufEnd {
      FinishBanks(s, cb1);
      RefillServes(FinishBuffer(s, cb1), cb2);
    } else {
      RefillServes(s, cb2);
    }
  }

  /** Main result on double buffering: whenever a completion is served with no halt pending, all banks are full
      afterwards or nothing is left to load; and the interrupt stays enabled exactly while something is in
      flight. */
  lemma ServiceKeepsBanksFull(s: Endpoint, cb1: Option<Transfer>, cb2: Option<Transfer>)
    requires BankOk(s) && s.hw.txcomp && !s.job.stallRequested
    ensures WellServed(Step(s, TxInterrupt(cb1, cb2)))
  {
    var s0 := s.(job := s.job.(bank := (s.job.bank + 3) % 4));
    assert s0.job.bank == s.job.bank - 1;
    InterruptServes(s, cb1, cb2);
    ServedFills(s0, cb1, cb2);
  }

  /** A transfer started with nothing in flight fills the banks as well. */
  lemma StartFillsBanks(s: Endpoint, t: Transfer)
    requires BankOk(s) && s.job.bank == 0 && Accepts(s)
    ensures var r := Step(s, RunJob(t)); FullOrDrained(r) && r.job.bank > 0
  {
    var g := Register(s, t);
    LoadCounted(g, true);
    if InSent(g, true).1 {
      InSentFills(InSent(g, true).0, false);
    }
  }
}
