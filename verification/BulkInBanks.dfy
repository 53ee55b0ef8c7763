/** The bank counter of an IN endpoint refines the occupancy of the hardware banks. */
module BulkInBanks {
  import opened Usb
  import opened BulkIn

  function Held(h: Hw): nat {
    |h.line| + |h.staged|
  }

  /** At most one packet is validated and at most one waits behind it, unmerged. */
  predicate Occupancy(s: Endpoint) {
    && Wf(s)
    && |s.hw.line| <= 1 && |s.hw.staged| <= 1
    && Held(s.hw) <= BankMax(s.ep)
    && (s.job.bufEnd ==> Drained(s.job))
  }

  /** Occupancy, and the counter equal to it: the state of the endpoint inside a driver call,
      when a completion being served has already been subtracted. */
  predicate Counted(s: Endpoint) {
    Occupancy(s) && s.job.bank == Held(s.hw)
  }

  /** The bank counter is the number of unsent banks, plus one while TXCOMP waits for service.
      It is positive exactly when TXPKTRDY or TXCOMP is set, so it is never decremented from zero. */
  predicate BankExact(s: Endpoint) {
    && Occupancy(s)
    && s.job.bank == Held(s.hw) + (if s.hw.txcomp then 1 else 0)
    && s.job.bank <= BankMax(s.ep)
    && (s.job.bank > 0 <==> InPending(s.hw))
    && (s.job.bank > 0 ==> s.hw.irq)
    && !(s.hw.line != [] && s.hw.txcomp)
  }

  /** While the endpoint stalls no packet is waiting, and no service can load one. */
  predicate StallClean(s: Endpoint) {
    s.hw.forcestall ==> Held(s.hw) == 0 && (s.hw.txcomp ==> s.job.stallRequested || Drained(s.job))
  }

  predicate BankOk(s: Endpoint) {
    BankExact(s) && StallClean(s)
  }

  /** A disabled endpoint with nothing in its banks and no completion to serve, as a bus reset leaves it.
      Until it is allocated again the counter means nothing and is never used. */
  predicate Quiet(s: Endpoint) {
    Occupancy(s) && !s.hw.enabled && Held(s.hw) == 0 && !s.hw.txcomp
  }

  predicate BankInv(s: Endpoint) {
    (Quiet(s) || BankExact(s)) && StallClean(s)
  }

  // ---------------------------------------------------------------- one call

  lemma FlattenOne(ps: seq<Packet>)
    requires |ps| == 1
    ensures Flatten(ps) == ps[0]
  {
    assert ps[0] + Flatten(ps[1..]) == ps[0];
  }

  /** A validation never merges packets. */
  lemma ValidateKeepsPackets(h: Hw)
    requires h.line == [] && |h.staged| == 1
    ensures Validate(h) == h.(line := h.staged, staged := [])
  {
    FlattenOne(h.staged);
    assert h.staged == [h.staged[0]];
  }

  /** Everything a load leaves alone. */
  predicate SameButLoad(s: Endpoint, r: Endpoint) {
    && r.ep == s.ep && r.size == s.size && r.log == s.log
    && r.hw == s.hw.(line := r.hw.line, staged := r.hw.staged)
    && r.job == s.job.(bufCnt := r.job.bufCnt, bank := r.job.bank,
                       shortPacket := r.job.shortPacket, bufEnd := r.job.bufEnd)
  }

  lemma LoadCounted(s: Endpoint, tx: bool)
    requires Counted(s) && s.hw.staged == [] && s.job.bank < BankMax(s.ep)
    requires tx ==> s.hw.line == []
    ensures var r := Load(s, tx);
            && Counted(r) && SameButLoad(s, r)
            && (tx ==> r.hw.staged == [] && r.hw.line != [])
            && (!tx ==> r.hw.line == s.hw.line)
            && r.job.bank == s.job.bank + 1
  {
    if tx {
      ValidateKeepsPackets(WriteFifo(s).hw);
    }
  }

  lemma InSentCounted(s: Endpoint, tx: bool)
    requires Counted(s) && s.hw.staged == []
    requires tx ==> s.hw.line == []
    ensures var r := InSent(s, tx).0;
            && Counted(r) && SameButLoad(s, r)
            && (tx ==> r.hw.staged == [] && (r.hw.line != [] <==> !Drained(s.job)))
            && (!tx ==> r.hw.line == s.hw.line)
  {
    if s.job.bank < BankMax(s.ep) && !Drained(s.job) {
      LoadCounted(s, tx);
    }
  }

  /** Two loads on an endpoint with nothing in flight. */
  lemma StartCounted(s: Endpoint)
    requires Counted(s) && Held(s.hw) == 0
    ensures var r := Start(s);
            Counted(r) && SameButLoad(s, r) && (Held(r.hw) > 0 ==> r.hw.line != [])
  {
    InSentCounted(s, true);
    if InSent(s, true).1 {
      InSentCounted(InSent(s, true).0, false);
    }
  }

  /** `udd_ep_run` adds to the banks only when nothing is in flight. */
  lemma RunBanks(s: Endpoint, t: Transfer)
    requires BankExact(s) || (Counted(s) && InPending(s.hw))
    ensures var r := Run(s, t);
            && (InPending(s.hw) ==> r.job.bank == s.job.bank && r.hw == s.hw.(irq := r.hw.irq))
            && (BankExact(s) ==> BankExact(r))
            && (s.hw.irq ==> r.hw.irq)
            && (!Accepts(s) && !s.job.busy ==> r == s)
            && r.ep == s.ep && r.hw.forcestall == s.hw.forcestall && r.hw.txcomp == s.hw.txcomp
            && r.job.stallRequested == s.job.stallRequested
            && (s.hw.forcestall ==> r == s)
  {
    if Accepts(s) && !InPending(s.hw) {
      StartCounted(Register(s, t));
    }
  }

  /** A completion inside the interrupt routine leaves the banks alone. */
  lemma FinishBanks(s: Endpoint, cb: Option<Transfer>)
    requires Counted(s) && InPending(s.hw) && s.job.bufEnd
    ensures var r := FinishBuffer(s, cb);
            && Counted(r) && r.ep == s.ep && r.job.bank == s.job.bank
            && r.hw == s.hw.(irq := r.hw.irq) && (s.hw.irq ==> r.hw.irq)
            && r.job.stallRequested == s.job.stallRequested
            && (s.hw.forcestall ==> Drained(r.job) && r.hw == s.hw)
  {
    var s0 := s.(job := s.job.(bufEnd := false, bufSize := s.job.bufCnt));
    if s.job.busy {
      var s1 := s0.(job := s0.job.(busy := false),
                    log := s0.log + [Completion(s0.job.transfer, true, s0.job.bufSize)]);
      if cb.Some? {
        RunBanks(s1, cb.value);
      }
    }
  }

  lemma LoadBothBanks(s: Endpoint, cb: Option<Transfer>)
    requires Counted(s) && Held(s.hw) == 0 && s.hw.txcomp && s.hw.irq && BankMax(s.ep) > 1
    requires !Drained(s.job)
    ensures var r := LoadBoth(s, cb);
            BankExact(r) && r.hw.line != [] && !r.hw.txcomp && r.hw.forcestall == s.hw.forcestall
  {
    InSentCounted(s, true);
    var r := InSent(s, true);
    if !r.1 {
      FinishBanks(r.0, cb);
    }
    var s1 := if r.1 then r.0 else FinishBuffer(r.0, cb);
    InSentCounted(Ack(s1), false);
  }

  /** Serving a completion: every branch leaves the counter exact. */
  lemma RefillBanks(s: Endpoint, cb: Option<Transfer>)
    requires Counted(s) && s.hw.line == [] && s.hw.txcomp && s.hw.irq && Held(s.hw) < BankMax(s.ep)
    ensures var r := Refill(s, cb);
            && BankExact(r) && !r.hw.txcomp && r.hw.forcestall == s.hw.forcestall
            && (Drained(s.job) && s.job.bank == 0 ==> Held(r.hw) == 0)
            && (!Drained(s.job) && s.job.bank == 0 ==> r.hw.line != [])
  {
    if Drained(s.job) && s.job.bank == 0 {
    } else if BankMax(s.ep) > 1 && s.job.bank > 0 {
      ValidateKeepsPackets(s.hw);
      InSentCounted(Ack(s.(hw := Validate(s.hw))), false);
    } else if BankMax(s.ep) > 1 {
      LoadBothBanks(s, cb);
    } else {
      InSentCounted(s, true);
    }
  }

  lemma InterruptBanks(s: Endpoint, cb1: Option<Transfer>, cb2: Option<Transfer>)
    requires BankOk(s)
    ensures BankOk(Interrupt(s, cb1, cb2))
  {
    if s.hw.txcomp && s.hw.irq {
      var s0 := s.(job := s.job.(bank := (s.job.bank + 3) % 4));
      assert s0.job.bank == s.job.bank - 1;
      if s0.job.stallRequested {
        if s0.job.bank != 0 {
          ValidateKeepsPackets(s0.hw);
        }
      } else if s0.job.bufEnd {
        FinishBanks(s0, cb1);
        RefillBanks(FinishBuffer(s0, cb1), cb2);
      } else {
        RefillBanks(s0, cb2);
      }
    }
  }

  lemma CallbackBanks(s: Endpoint, cb: Option<Transfer>)
    requires BankExact(s)
    ensures var r := Callback(s, cb);
            BankExact(r) && r.hw.forcestall == s.hw.forcestall && (s.hw.forcestall ==> r == s)
  {
    if cb.Some? {
      RunBanks(s, cb.value);
    }
  }

  // ---------------------------------------------------------------- halting

  /** A halt asserts FORCESTALL at once only when no packet is waiting in a bank. */
  lemma HaltNeedsEmptyBanks(s: Endpoint)
    requires BankExact(s) && !s.hw.forcestall
    ensures SetHalt(s).hw.forcestall <==> s.hw.line == [] && s.job.bank <= 1
    ensures SetHalt(s).hw.forcestall ==> Held(s.hw) == 0
    ensures !SetHalt(s).hw.forcestall ==> SetHalt(s).job.stallRequested && s.job.bank > 0
  {
  }

  /** Whether a halt is safe, in terms of fields the driver can read before the call: it is not when
      the only packet has completed, that completion waits for service, no halt is deferred and
      the job still has something to load. */
  predicate HaltSafe(s: Endpoint) {
    !(s.hw.txcomp && s.job.bank == 1 && !s.job.stallRequested && !Drained(s.job))
  }

  lemma RunKeeps(s: Endpoint, t: Transfer)
    requires BankOk(s)
    ensures BankOk(Run(s, t))
  {
    RunBanks(s, t);
  }

  lemma HostReadKeeps(s: Endpoint)
    requires BankOk(s)
    ensures BankOk(s.(hw := HostReads(s.hw)))
  {
  }

  lemma HaltKeeps(s: Endpoint)
    requires BankOk(s) && HaltSafe(s)
    ensures BankOk(SetHalt(s))
  {
  }

  lemma UnhaltKeeps(s: Endpoint, cb: Option<Transfer>)
    requires BankOk(s)
    ensures BankOk(ClearHalt(s, cb))
  {
    if s.hw.forcestall && s.job.busy {
      CallbackBanks(s.(hw := s.hw.(forcestall := false, line := [], staged := []),
                       job := s.job.(stallRequested := false, busy := false)), cb);
    }
  }

  lemma AbortKeeps(s: Endpoint, cb: Option<Transfer>)
    requires BankOk(s)
    ensures BankOk(Abort(s, cb))
  {
    var s0 := Killed(s);
    if s.job.busy {
      CallbackBanks(s0.(job := s0.job.(busy := false),
                        log := s0.log + [Completion(s0.job.transfer, false, s0.job.bufSize)]), cb);
    }
  }

  // ---------------------------------------------------------------- release and allocation

  lemma FreeKeeps(s: Endpoint, cb: Option<Transfer>)
    requires BankOk(s)
    ensures BankOk(Free(s, cb))
  {
    var s0 := s.(hw := s.hw.(enabled := false));
    if s.job.busy {
      CallbackBanks(s0.(job := s0.job.(busy := false),
                        log := s0.log + [Completion(s0.job.transfer, false, s0.job.bufSize)]), cb);
    }
  }

  lemma BusResetQuiets(s: Endpoint, cb: Option<Transfer>)
    requires Occupancy(s)
    ensures Quiet(BusReset(s, cb)) && StallClean(BusReset(s, cb))
  {
  }

  /** Allocation sets the counter to zero and does not acknowledge TXCOMP. It is safe if no completion waits
      (or if it is refused). */
  predicate AllocSafe(s: Endpoint, size: PacketSize) {
    !s.hw.txcomp || s.hw.enabled || size > SizeMax(s.ep)
  }

  /** The condition is exact. */
  lemma AllocExact(s: Endpoint, size: PacketSize)
    requires BankInv(s) && !s.hw.enabled && size <= SizeMax(s.ep)
    ensures BankExact(Alloc(s, size)) <==> AllocSafe(s, size)
    ensures AllocSafe(s, size) ==> BankOk(Alloc(s, size))
  {
  }

  /** A completion served with a counter of zero and empty banks. */
  lemma ServedAtZero(s: Endpoint, cb1: Option<Transfer>, cb2: Option<Transfer>)
    requires Wf(s) && s.hw.txcomp && s.hw.irq && s.hw.line == [] && s.hw.staged == []
    requires s.job.bank == 0 && !s.job.stallRequested && !s.job.bufEnd
    ensures var r := Interrupt(s, cb1, cb2);
            && r.job.bank == 3 && !r.hw.txcomp && r.hw.staged == []
            && r.hw.line == (if BankMax(s.ep) > 1 then [[]] else [])
  {
    var s0 := s.(job := s.job.(bank := 3));
    assert Interrupt(s, cb1, cb2) == Refill(s0, cb2);
  }

  /** A counter that says the banks are full lets a job load nothing. */
  lemma FullLoadsNothing(s: Endpoint, t: Transfer)
    requires Wf(s) && s.job.bank >= BankMax(s.ep)
    ensures Run(s, t).hw == s.hw.(irq := Run(s, t).hw.irq)
  {
  }

  /** Otherwise the next service wraps the counter, from 0 to 3, and the banks look full: a dual-bank endpoint
      sends an empty packet nobody asked for, and a job that is run then loads nothing. */
  lemma AllocWraps(s: Endpoint, size: PacketSize, cb1: Option<Transfer>, cb2: Option<Transfer>, t: Transfer)
    requires BankInv(s) && !s.hw.enabled && !AllocSafe(s, size)
    ensures var r := Interrupt(Alloc(s, size), cb1, cb2);
            && r.job.bank == 3 && !r.hw.txcomp && r.hw.staged == []
            && r.hw.line == (if BankMax(s.ep) > 1 then [[]] else [])
            && Run(r, t).hw == r.hw.(irq := Run(r, t).hw.irq)
  {
    ServedAtZero(Alloc(s, size), cb1, cb2);
    FullLoadsNothing(Interrupt(Alloc(s, size), cb1, cb2), t);
  }

  /** The table reset sets the counter to zero as well; it is safe if nothing is in flight. */
  predicate ResetSafe(s: Endpoint) {
    s.job.bank == 0 || Quiet(s)
  }

  lemma TableResetExact(s: Endpoint)
    requires BankInv(s)
    ensures BankInv(TableReset(s)) <==> ResetSafe(s)
  {
  }

  // ---------------------------------------------------------------- runs

  /** Whether a call is safe, in terms of fields the driver can read before it. */
  predicate Safe(s: Endpoint, e: Event) {
    match e
    case Halt => HaltSafe(s)
    case AllocEndpoint(size) => AllocSafe(s, size)
    case ResetTable => ResetSafe(s)
    case _ => true
  }

  lemma QuietStep(s: Endpoint, e: Event)
    requires Quiet(s) && StallClean(s)
    ensures BankInv(Step(s, e))
  {
    match e
    case ResetBus(cb) => BusResetQuiets(s, cb);
    case AllocEndpoint(size) => if size <= SizeMax(s.ep) { AllocExact(s, size); }
    case _ =>
  }

  lemma ExactStep(s: Endpoint, e: Event)
    requires BankOk(s) && Safe(s, e)
    ensures BankInv(Step(s, e))
    ensures !e.ResetBus? ==> BankOk(Step(s, e))
  {
    match e
    case RunJob(t) => RunKeeps(s, t);
    case HostRead => HostReadKeeps(s);
    case TxInterrupt(cb1, cb2) => InterruptBanks(s, cb1, cb2);
    case Halt => HaltKeeps(s);
    case Unhalt(cb) => UnhaltKeeps(s, cb);
    case AbortJob(cb) => AbortKeeps(s, cb);
    case FreeEndpoint(cb) => FreeKeeps(s, cb);
    case AllocEndpoint(size) =>
      if !s.hw.enabled && size <= SizeMax(s.ep) {
        AllocExact(s, size);
      }
    case ResetBus(cb) => BusResetQuiets(s, cb);
    case ResetTable => TableResetExact(s);
  }

  lemma StepBanks(s: Endpoint, e: Event)
    requires BankInv(s) && Safe(s, e)
    ensures BankInv(Step(s, e))
  {
    if Quiet(s) {
      QuietStep(s, e);
    } else {
      ExactStep(s, e);
    }
  }

  /** A run in which every call is made in a safe state. */
  predicate SafeRun(s: Endpoint, es: seq<Event>)
    requires Wf(s)
    decreases |es|
  {
    es == [] || (Safe(s, es[0]) && SafeRun(Step(s, es[0]), es[1..]))
  }

  lemma {:induction false} ExecBanks(s: Endpoint, es: seq<Event>)
    requires BankInv(s) && SafeRun(s, es)
    ensures BankInv(Exec(s, es))
    decreases |es|
  {
    if es != [] {
      StepBanks(s, es[0]);
      ExecBanks(Step(s, es[0]), es[1..]);
    }
  }

  /** Main result: over every such run, with any callbacks, aborts, halts, releases, allocations and resets,
      the counter of an enabled endpoint is exact, and no completion is served with a counter of zero. */
  lemma BankRefinement(s: Endpoint, es: seq<Event>)
    requires BankInv(s) && SafeRun(s, es)
    ensures var r := Exec(s, es);
            BankInv(r) && (r.hw.enabled ==> BankExact(r)) && (r.hw.txcomp ==> r.job.bank > 0)
  {
    ExecBanks(s, es);
  }

  /** A completion served behind an immediate stall loads a packet that the host cannot read. */
  lemma UnsafeService(s: Endpoint, cb1: Option<Transfer>, cb2: Option<Transfer>)
    requires BankExact(s) && s.hw.forcestall && s.hw.txcomp && s.job.bank == 1
    requires !s.job.stallRequested && !Drained(s.job)
    ensures var r := Interrupt(s, cb1, cb2);
            r.hw.forcestall && r.hw.line != [] && r.job.bank > 0 && !r.hw.txcomp
  {
    var s0 := s.(job := s.job.(bank := (s.job.bank + 3) % 4));
    assert s0.job.bank == 0 && !s0.job.bufEnd;
    RefillBanks(s0, cb2);
    assert Interrupt(s, cb1, cb2) == Refill(s0, cb2);
  }

  /** The condition is exact: halting, serving the waiting completion and clearing the halt again
      keeps the counter equal to the occupancy if and only if the halt was safe. Otherwise the
      service loads packets behind the stall and clearing the halt discards them uncounted. */
  lemma HaltCycleExact(s: Endpoint, cb1: Option<Transfer>, cb2: Option<Transfer>)
    requires BankOk(s) && !s.hw.forcestall
    ensures BankExact(Step(Step(Step(s, Halt), TxInterrupt(cb1, cb2)), Unhalt(None))) <==> HaltSafe(s)
  {
    var h := Step(s, Halt);
    var i := Step(h, TxInterrupt(cb1, cb2));
    if HaltSafe(s) {
      HaltKeeps(s);
      InterruptBanks(h, cb1, cb2);
      UnhaltKeeps(i, None);
    } else {
      UnsafeService(h, cb1, cb2);
    }
  }

  /** The state after two events: the host has read the first packet of a longer transfer, and its completion
      waits for service. */
  function ReadOnce(): Endpoint {
    Step(Step(Init(3, 1), RunJob(Transfer([0, 1, 2, 3], false))), HostRead)
  }

  lemma CompletionWaits()
    ensures var s := ReadOnce();
            && BankOk(s) && s.hw.txcomp && s.hw.enabled && s.job.bank == 1 && s.ep == 3
            && !s.job.stallRequested && !Drained(s.job)
  {
    var t := Transfer([0, 1, 2, 3], false);
    var s0 := Init(3, 1);
    RunKeeps(s0, t);
    InSentCounted(Register(s0, t), true);
    HostReadKeeps(Step(s0, RunJob(t)));
  }

  /** So an unsafe halt is reachable. */
  lemma UnsafeHaltReachable()
    ensures BankOk(ReadOnce()) && !HaltSafe(ReadOnce())
  {
    CompletionWaits();
  }

  /** And so is an unsafe allocation: the endpoint is freed and allocated before the completion is served,
      as a change of the alternate setting may do, and the counter wraps. */
  lemma AllocWrapReachable()
    ensures var s := Step(ReadOnce(), FreeEndpoint(None));
            !AllocSafe(s, 1) && Step(Step(s, AllocEndpoint(1)), TxInterrupt(None, None)).job.bank == 3
  {
    CompletionWaits();
    var s := Free(ReadOnce(), None);
    FreeKeeps(ReadOnce(), None);
    AllocWraps(s, 1, None, None, Transfer([], false));
  }

  /** A halt that is deferred, or that has taken effect and has nothing left to serve. */
  predicate Halting(s: Endpoint) {
    BankOk(s) && (if s.job.bank > 0 then s.job.stallRequested else s.hw.forcestall)
  }

  /** A halt starts draining exactly if it is deferred or finds nothing in flight; otherwise it has taken
      effect behind a completion that still waits for service. */
  lemma HaltStarts(s: Endpoint)
    requires BankOk(s) && !s.hw.forcestall && !s.job.stallRequested && HaltSafe(s)
    ensures Halting(SetHalt(s)) <==> s.hw.line != [] || s.job.bank != 1
    ensures !Halting(SetHalt(s)) ==> SetHalt(s).hw.forcestall && s.hw.txcomp && Drained(s.job)
  {
    ExactStep(s, Halt);
  }

  /** Clearing the halt, aborting the job, allocating the endpoint or resetting it. */
  predicate EndsHalt(e: Event) {
    e.Unhalt? || e.AbortJob? || e.AllocEndpoint? || e.ResetBus? || e.ResetTable?
  }

  predicate Serves(s: Endpoint, e: Event) {
    e.TxInterrupt? && s.hw.txcomp && s.hw.irq
  }

  function Served(s: Endpoint, es: seq<Event>): nat
    requires Wf(s)
    decreases |es|
  {
    if es == [] then 0
    else (if Serves(s, es[0]) then 1 else 0) + Served(Step(s, es[0]), es[1..])
  }

  /** Every packet handed to the FIFO so far, sent or not. */
  function Written(h: Hw): seq<Packet> {
    h.sent + h.line + h.staged
  }

  lemma HaltingStep(s: Endpoint, e: Event)
    requires Halting(s) && !EndsHalt(e)
    ensures var r := Step(s, e);
            && Halting(r)
            && Written(r.hw) == Written(s.hw)
            && r.job.bank == s.job.bank - (if Serves(s, e) then 1 else 0)
  {
    assert HaltSafe(s);
    ExactStep(s, e);
    if e.TxInterrupt? && s.hw.txcomp && s.job.bank > 1 {
      ValidateKeepsPackets(s.hw);
    }
  }

  /** Halt drains, then stalls: until the halt is cleared or the job aborted, no byte enters the
      FIFO whatever happens, each served completion takes one from the counter, and FORCESTALL is
      set once the initial number of banks has completed, when no unsent bank remains. */
  lemma {:induction false} HaltDrainsThenStalls(s: Endpoint, es: seq<Event>)
    requires Halting(s)
    requires forall e :: e in es ==> !EndsHalt(e)
    ensures var r := Exec(s, es);
            && Halting(r)
            && Written(r.hw) == Written(s.hw)
            && Served(s, es) <= s.job.bank
            && r.job.bank == s.job.bank - Served(s, es)
            && (Served(s, es) == s.job.bank ==> r.hw.forcestall)
            && (r.hw.forcestall ==> Held(r.hw) == 0)
    decreases |es|
  {
    if es != [] {
      HaltingStep(s, es[0]);
      HaltDrainsThenStalls(Step(s, es[0]), es[1..]);
    }
  }
}
