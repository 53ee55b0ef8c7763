/** Order and reassembly of an OUT endpoint over runs. */
module BulkOutRuns {
  import opened Usb
  import opened BulkOut

  // ---------------------------------------------------------------- ping-pong order

  /** The packets in the banks, oldest first. */
  function Queue(h: Hw): seq<Packet> {
    if AllBanks(h) then [Content(h, h.fill), Content(h, 1 - h.fill % 2)]
    else if AnyBank(h) then [Content(h, Oldest(h))]
    else []
  }

  /** What filling the banks in turn guarantees. */
  predicate HwInv(ep: nat, h: Hw) {
    && h.fill <= 1
    && (BankMax(ep) == 1 ==> h.fill == 0 && h.bk1.None?)
    && (BankMax(ep) > 1 && AnyBank(h) && !AllBanks(h) ==> h.fill == 1 - Oldest(h))
  }

  /** The bank that is the oldest filled one, or will be when a packet arrives. */
  function Head(h: Hw): nat {
    if AnyBank(h) then Oldest(h) else h.fill
  }

  /** `bank` names the oldest filled bank. */
  predicate Synchronised(s: Endpoint) {
    HwInv(s.ep, s.hw) && s.job.bank == Head(s.hw)
  }

  /** Packets are read in arrival order, none lost and none read twice. */
  predicate InOrder(s: Endpoint) {
    s.taken + Queue(s.hw) == s.arrived
  }

  /** An acknowledge clears the oldest bank if and only if not both are full or `bank` names it;
      with one bank full it also brings `bank` back into step. */
  lemma AckExact(s: Endpoint)
    requires HwInv(s.ep, s.hw) && AnyBank(s.hw) && s.job.bank <= 1
    ensures AckBank(s) == Oldest(s.hw) <==> !AllBanks(s.hw) || s.job.bank == Head(s.hw)
    ensures AckBank(s) == Oldest(s.hw) ==> Synchronised(Ack(s)) && Queue(Ack(s).hw) == Queue(s.hw)[1..]
    ensures AckBank(s) != Oldest(s.hw) ==> Queue(Ack(s).hw) == Queue(s.hw)[..1]
  {
  }

  lemma SendsInOrder(s: Endpoint, p: Packet)
    requires Wf(s) && HwInv(s.ep, s.hw) && InOrder(s)
    ensures var r := HostSends(s, p);
            HwInv(r.ep, r.hw) && InOrder(r) && (Synchronised(s) ==> Synchronised(r))
  {
    var r := HostSends(s, p);
    if r != s {
      assert Queue(r.hw) == Queue(s.hw) + [p];
      assert r.taken + (Queue(s.hw) + [p]) == s.arrived + [p];
    }
  }

  lemma ReceiveInOrder(s: Endpoint, cb: Option<Buffer>)
    requires Wf(s) && Synchronised(s) && InOrder(s) && AnyBank(s.hw)
    ensures var r := Receive(s, cb);
            Synchronised(r) && InOrder(r) && r.taken == s.taken + [Content(s.hw, Oldest(s.hw))]
  {
    var c := Copy(s);
    AckExact(c);
    assert Queue(s.hw)[0] == Content(s.hw, Oldest(s.hw));
    assert Queue(s.hw) == [Queue(s.hw)[0]] + Queue(s.hw)[1..];
    assert s.taken + [Queue(s.hw)[0]] + Queue(s.hw)[1..] == s.taken + Queue(s.hw);
  }

  /** No reset of the endpoint, by the driver or by the bus, and none of the table. */
  predicate Undisturbed(e: Event) {
    !e.Unhalt? && !e.AbortJob? && !e.AllocEndpoint? && !e.ResetBus? && !e.ResetTable?
  }

  lemma StepInOrder(s: Endpoint, e: Event)
    requires Wf(s) && Synchronised(s) && InOrder(s) && Undisturbed(e)
    ensures Synchronised(Step(s, e)) && InOrder(Step(s, e))
  {
    match e
    case HostPacket(p) => SendsInOrder(s, p);
    case RxInterrupt(cb) =>
      if s.hw.irq && AnyBank(s.hw) {
        ReceiveInOrder(s, cb);
      }
    case RunJob(b) =>
    case Halt =>
    case FreeEndpoint(cb) =>
  }

  /** Main result on order: from a synchronised state every later acknowledge, until an endpoint reset,
      clears the oldest filled bank, whether one or both are full. */
  lemma {:induction false} PingPongOrder(s: Endpoint, es: seq<Event>)
    requires Wf(s) && Synchronised(s) && InOrder(s)
    requires forall e :: e in es ==> Undisturbed(e)
    ensures var r := Exec(s, es);
            Synchronised(r) && InOrder(r) && (AnyBank(r.hw) ==> AckBank(r) == Oldest(r.hw))
    decreases |es|
  {
    if es != [] {
      StepInOrder(s, es[0]);
      PingPongOrder(Step(s, es[0]), es[1..]);
    }
  }

  lemma ReceiveLogs(s: Endpoint, cb: Option<Buffer>)
    requires Wf(s)
    ensures var r := Receive(s, cb);
            && r.hw == Ack(Copy(s)).hw.(irq := r.hw.irq) && r.job.bank == Ack(Copy(s)).job.bank
            && r.taken == Copy(s).taken && r.arrived == s.arrived && SameConfig(s, r)
  {
  }

  /** After an endpoint reset `bank` may be stale. Whatever it is, a packet served alone is read in
      order and repairs it. */
  lemma ResetThenOne(s: Endpoint, p: Packet, cb: Option<Buffer>)
    requires Wf(s) && BankMax(s.ep) > 1 && s.job.bank <= 1 && s.hw.enabled && !s.hw.forcestall && |p| <= s.size
    ensures var r := Receive(HostSends(Reset(s), p), cb);
            Synchronised(r) && InOrder(r) && r.taken == [p]
  {
    var one := HostSends(Reset(s), p);
    AckExact(Copy(one));
    ReceiveLogs(one, cb);
    assert [p] + [] == [p];
  }

  lemma TwoArrive(s: Endpoint, p: Packet, q: Packet)
    requires Wf(s) && BankMax(s.ep) > 1 && s.hw.enabled && !s.hw.forcestall && |p| <= s.size && |q| <= s.size
    requires !AnyBank(s.hw) && s.hw.fill == 0
    ensures var r := HostSends(HostSends(s, p), q);
            r.hw == s.hw.(bk0 := Some(p), bk1 := Some(q)) && r.arrived == s.arrived + [p, q]
            && r.job == s.job && r.taken == s.taken
  {
    var one := HostSends(s, p);
    assert one.hw == s.hw.(bk0 := Some(p), fill := 1);
    assert s.arrived + [p] + [q] == s.arrived + [p, q];
  }

  /** What the first service leaves in the banks when both are full. */
  lemma FirstOfTwo(s: Endpoint, p: Packet, q: Packet)
    requires Wf(s) && BankMax(s.ep) > 1 && s.job.bank <= 1
    requires s.hw.bk0 == Some(p) && s.hw.bk1 == Some(q) && s.hw.fill == 0
    ensures var r := Ack(Copy(s));
            r.taken == s.taken + [p] && r.arrived == s.arrived && Queue(r.hw) == if s.job.bank == 0 then [q] else [p]
  {
  }

  lemma SecondTells(p: Packet, q: Packet, left: seq<Packet>)
    requires |left| == 1
    ensures [p] + left == [p, q] <==> left[0] == q
  {
    assert [p] + [left[0]] == [p] + left;
    assert ([p] + left)[1] == left[0];
  }

  /** Two packets that arrive before the first service are read in order if and only if `bank` was 0
      when the endpoint was reset (or the packets cannot be told apart). */
  lemma ResetThenTwo(s: Endpoint, p: Packet, q: Packet, cb: Option<Buffer>)
    requires Wf(s) && BankMax(s.ep) > 1 && s.job.bank <= 1 && s.hw.enabled && !s.hw.forcestall
    requires |p| <= s.size && |q| <= s.size
    ensures var r := Receive(HostSends(HostSends(Reset(s), p), q), cb);
            r.taken == [p] && (InOrder(r) <==> s.job.bank == 0 || p == q)
  {
    var two := HostSends(HostSends(Reset(s), p), q);
    TwoArrive(Reset(s), p, q);
    assert [] + [p, q] == [p, q] && [] + [p] == [p];
    FirstOfTwo(two, p, q);
    ReceiveLogs(two, cb);
    var left := if s.job.bank == 0 then [q] else [p];
    SecondTells(p, q, left);
    assert Queue(Receive(two, cb).hw) == left;
  }

  /** A run from the initial state: a job takes one packet and is aborted. */
  function AfterAbort(b: Buffer): Endpoint {
    var s := Step(Step(Init(1, 64), RunJob(b)), HostPacket([]));
    Step(Step(s, RxInterrupt(None)), AbortJob(None))
  }

  /** Such a reset is reachable: that run leaves `bank` at 1 with empty banks. */
  lemma StaleBank(b: Buffer)
    ensures var s := AfterAbort(b);
            s == Reset(s) && s.job.bank == 1 && Wf(s) && s.ep == 1 && s.size == 64 && Accepts(s)
  {
    var s2 := Step(Step(Init(1, 64), RunJob(b)), HostPacket([]));
    assert s2.hw.bk0 == Some([]) && s2.hw.bk1 == None;
    var s3 := Step(s2, RxInterrupt(None));
    assert s3.job.bank == 1 && !AnyBank(s3.hw);
  }

  lemma StaleReads(s: Endpoint, b: Buffer, p: Packet, q: Packet, cb: Option<Buffer>)
    requires Wf(s) && BankMax(s.ep) > 1 && s == Reset(s) && s.job.bank == 1 && Accepts(s)
    requires |p| <= s.size && |q| <= s.size && p != q
    ensures !InOrder(Interrupt(Run(HostSends(HostSends(s, p), q), b), cb))
  {
    TwoArrive(s, p, q);
    var run := Run(HostSends(HostSends(s, p), q), b);
    assert run.hw.irq && Interrupt(run, cb) == Receive(run, cb);
    FirstOfTwo(run, p, q);
    ReceiveLogs(run, cb);
    assert [] + [p, q] == [p, q] && [] + [p] == [p];
    assert Queue(Receive(run, cb).hw) == [p];
    SecondTells(p, q, [p]);
  }

  /** From there any two different packets that arrive together are read out of order. */
  lemma OrderLost(b: Buffer, p: Packet, q: Packet, cb: Option<Buffer>)
    requires |p| <= 64 && |q| <= 64 && p != q
    ensures var two := Step(Step(AfterAbort(b), HostPacket(p)), HostPacket(q));
            !InOrder(Step(Step(two, RunJob(b)), RxInterrupt(cb)))
  {
    StaleBank(b);
    StaleReads(AfterAbort(b), b, p, q, cb);
  }

  // ---------------------------------------------------------------- reassembly

  function Min(a: nat, b: nat): nat {
    if a <= b then a else b
  }

  /** The buffer holds the concatenation of the packets taken, cut at the buffer size, and nothing
      beyond the stored bytes has changed. */
  predicate Reassembled(j: Job) {
    && |j.mem| == |j.original|
    && j.bufCnt == Min(|Flatten(j.got)|, j.bufSize)
    && j.bufSize <= |j.mem|
    && j.mem == Flatten(j.got)[..j.bufCnt] + j.original[j.bufCnt..]
  }

  predicate ReassembledAt(c: Completion) {
    && c.reported == Min(|Flatten(c.got)|, c.limit)
    && c.reported <= |c.original|
    && c.mem == Flatten(c.got)[..c.reported] + c.original[c.reported..]
  }

  predicate Reassembly(s: Endpoint) {
    Wf(s) && Reassembled(s.job) && forall k :: 0 <= k < |s.log| && s.log[k].ok ==> ReassembledAt(s.log[k])
  }

  lemma CopyReassembles(s: Endpoint)
    requires Wf(s) && Reassembled(s.job)
    ensures Reassembled(Copy(s).job)
  {
    var p := Content(s.hw, Oldest(s.hw));
    var r := Copy(s);
    FlattenSnoc(s.job.got, p);
    var f, g := Flatten(s.job.got), Flatten(r.job.got);
    assert g == f + p;
    if s.job.bufCnt < s.job.bufSize {
      assert s.job.bufCnt == |f|;
      assert g[..r.job.bufCnt] == f + p[..Stored(s)];
    } else {
      assert g[..r.job.bufCnt] == f[..s.job.bufCnt];
    }
    assert r.job.mem == g[..r.job.bufCnt] + s.job.original[r.job.bufCnt..];
  }

  lemma RunReassembles(s: Endpoint, b: Buffer)
    requires Reassembly(s)
    ensures Reassembly(Run(s, b))
  {
    if Accepts(s) {
      var r := Run(s, b);
      assert Flatten(r.job.got) == [];
      assert r.job.mem == [] + b.mem;
    }
  }

  lemma CallbackReassembles(s: Endpoint, cb: Option<Buffer>)
    requires Reassembly(s)
    ensures Reassembly(Callback(s, cb))
  {
    if cb.Some? {
      RunReassembles(s, cb.value);
    }
  }

  lemma FinishReassembles(s: Endpoint, ok: bool, limit: nat, cb: Option<Buffer>)
    requires Reassembly(s)
    requires ok ==> s.job.bufSize == s.job.bufCnt == Min(|Flatten(s.job.got)|, limit)
    ensures Reassembly(Finish(s, ok, limit, cb))
  {
    if s.job.busy {
      CallbackReassembles(
        s.(job := s.job.(busy := false),
           log := s.log + [Completion(ok, s.size, limit, s.job.bufSize, s.job.mem, s.job.original, s.job.got)]), cb);
    }
  }

  lemma ReceiveReassembles(s: Endpoint, cb: Option<Buffer>)
    requires Reassembly(s)
    ensures Reassembly(Receive(s, cb))
  {
    CopyReassembles(s);
    var s1 := Ack(Copy(s));
    if Terminal(s) && !s1.hw.forcestall {
      FinishReassembles(s1.(hw := s1.hw.(irq := false), job := s1.job.(bufSize := s1.job.bufCnt)),
                        true, s.job.bufSize, cb);
    }
  }

  lemma StepReassembles(s: Endpoint, e: Event)
    requires Reassembly(s)
    ensures Reassembly(Step(s, e))
  {
    match e
    case HostPacket(p) =>
    case RxInterrupt(cb) =>
      if s.hw.irq && AnyBank(s.hw) {
        ReceiveReassembles(s, cb);
      }
    case RunJob(b) => RunReassembles(s, b);
    case Halt =>
    case Unhalt(cb) =>
      if s.hw.forcestall && s.job.busy {
        CallbackReassembles(
          Reset(s.(hw := s.hw.(forcestall := false), job := s.job.(stallRequested := false, busy := false))), cb);
      }
    case AbortJob(cb) =>
      FinishReassembles(Reset(AckAll(s.(hw := s.hw.(irq := false)))), false, s.job.bufSize, cb);
    case FreeEndpoint(cb) => FinishReassembles(s.(hw := s.hw.(enabled := false)), false, s.job.bufSize, cb);
    case AllocEndpoint(size) =>
    case ResetBus(cb) =>
      var s1 := Reset(s);
      FinishReassembles(s1.(hw := s1.hw.(forcestall := false, irq := false, enabled := false)), false, s.job.bufSize, cb);
    case ResetTable =>
  }

  /** Main result on reassembly: over every run, with halts, aborts, releases and resets at any point, the buffer of
      the current job, and the buffer of each completed job when its callback ran, hold the packets
      taken, cut at the buffer size; the count never exceeds that size. */
  lemma {:induction false} ReassemblyHolds(s: Endpoint, es: seq<Event>)
    requires Reassembly(s)
    ensures Reassembly(Exec(s, es))
    decreases |es|
  {
    if es != [] {
      StepReassembles(s, es[0]);
      ReassemblyHolds(Step(s, es[0]), es[1..]);
    }
  }

  // ---------------------------------------------------------------- when a job completes

  predicate AllFull(got: seq<Packet>, size: nat) {
    forall k :: 0 <= k < |got| ==> |got[k]| == size
  }

  /** Only full packets so far, and they do not fill the buffer. */
  predicate Continues(got: seq<Packet>, size: nat, limit: nat) {
    got == [] || (AllFull(got, size) && |Flatten(got)| < limit)
  }

  /** The last packet, and no earlier one, is short or fills the buffer. */
  predicate Ends(got: seq<Packet>, size: nat, limit: nat) {
    && got != []
    && Continues(got[..|got| - 1], size, limit)
    && (|got[|got| - 1]| < size || |Flatten(got)| >= limit)
  }

  predicate BanksFit(h: Hw, size: nat) {
    (h.bk0.Some? ==> |h.bk0.value| <= size) && (h.bk1.Some? ==> |h.bk1.value| <= size)
  }

  predicate CompletesExactly(s: Endpoint) {
    Reassembly(s) && EndsRight(s)
  }

  /** With no stall pending a running job has only taken full packets that leave room, and every job that
      was completed regularly ended with its last packet and not before. */
  predicate EndsRight(s: Endpoint) {
    && BanksFit(s.hw, s.size)
    && (s.job.busy ==> s.hw.enabled)
    && (s.job.busy && !s.hw.forcestall ==> Continues(s.job.got, s.size, s.job.bufSize))
    && (forall k :: 0 <= k < |s.log| && s.log[k].ok ==> Ends(s.log[k].got, s.log[k].size, s.log[k].limit))
  }

  /** With no stall pending, the routine finishes the job exactly when the packet ends it. */
  lemma TerminalIsEnd(s: Endpoint)
    requires Wf(s) && Reassembled(s.job) && Continues(s.job.got, s.size, s.job.bufSize)
    requires |Content(s.hw, Oldest(s.hw))| <= s.size
    ensures var got := s.job.got + [Content(s.hw, Oldest(s.hw))];
            && (Terminal(s) ==> Ends(got, s.size, s.job.bufSize))
            && (!Terminal(s) ==> Continues(got, s.size, s.job.bufSize))
  {
    var p := Content(s.hw, Oldest(s.hw));
    var got := s.job.got + [p];
    assert got[..|got| - 1] == s.job.got;
    FlattenSnoc(s.job.got, p);
  }

  /** The state in which the callback of the job that ends with this packet runs. */
  function Finished(s: Endpoint): Endpoint
    requires Wf(s)
  {
    var s1 := Ack(Copy(s));
    s1.(hw := s1.hw.(irq := false),
        job := s1.job.(bufSize := s1.job.bufCnt, busy := false),
        log := s1.log + [Completion(true, s.size, s.job.bufSize, s1.job.bufCnt, s1.job.mem, s1.job.original, s1.job.got)])
  }

  lemma CallbackEnds(s: Endpoint, cb: Option<Buffer>)
    requires Wf(s) && EndsRight(s)
    ensures EndsRight(Callback(s, cb))
  {
  }

  lemma FinishedEnds(s: Endpoint)
    requires CompletesExactly(s) && s.job.busy && !s.hw.forcestall && AnyBank(s.hw) && Terminal(s)
    ensures EndsRight(Finished(s))
  {
    TerminalIsEnd(s);
    var r := Finished(s);
    assert r.log[..|s.log|] == s.log;
    assert r.log[|s.log|].got == s.job.got + [Content(s.hw, Oldest(s.hw))];
  }

  /** A packet that completes nothing: the job goes on, the endpoint stalls, or no job is running. */
  lemma AckedEnds(s: Endpoint)
    requires CompletesExactly(s) && AnyBank(s.hw)
    requires s.job.busy && !s.hw.forcestall ==> !Terminal(s)
    ensures EndsRight(Ack(Copy(s)))
  {
    if s.job.busy && !s.hw.forcestall {
      TerminalIsEnd(s);
    }
  }

  lemma ReceiveEnds(s: Endpoint, cb: Option<Buffer>)
    requires CompletesExactly(s) && AnyBank(s.hw)
    ensures EndsRight(Receive(s, cb))
  {
    var s1 := Ack(Copy(s));
    if s.job.busy && Terminal(s) && !s.hw.forcestall {
      assert Receive(s, cb) == Callback(Finished(s), cb);
      FinishedEnds(s);
      CallbackEnds(Finished(s), cb);
    } else {
      AckedEnds(s);
      if Terminal(s) && !s.hw.forcestall {
        assert Receive(s, cb) == s1.(hw := s1.hw.(irq := false), job := s1.job.(bufSize := s1.job.bufCnt));
      } else {
        assert Receive(s, cb) == s1;
      }
    }
  }

  lemma UnhaltEnds(s: Endpoint, cb: Option<Buffer>)
    requires CompletesExactly(s)
    ensures EndsRight(ClearHalt(s, cb))
  {
    if s.hw.forcestall {
      CallbackEnds(Reset(s.(hw := s.hw.(forcestall := false),
                            job := s.job.(stallRequested := false, busy := false))), cb);
    }
  }

  lemma AbortEnds(s: Endpoint, cb: Option<Buffer>)
    requires CompletesExactly(s)
    ensures EndsRight(Abort(s, cb))
  {
    var s1 := Reset(AckAll(s.(hw := s.hw.(irq := false))));
    if s.job.busy {
      CallbackEnds(s1.(job := s1.job.(busy := false),
                       log := s1.log + [Completion(false, s.size, s.job.bufSize, s1.job.bufSize, s1.job.mem,
                                                   s1.job.original, s1.job.got)]), cb);
    }
  }

  /** The job of an endpoint that has just been disabled is aborted. */
  lemma ReleaseEnds(s: Endpoint, s1: Endpoint, cb: Option<Buffer>)
    requires CompletesExactly(s) && Wf(s1) && !s1.hw.enabled
    requires s1.job == s.job && s1.log == s.log && s1.size == s.size && BanksFit(s1.hw, s1.size)
    ensures EndsRight(Finish(s1, false, s.job.bufSize, cb))
  {
    if s.job.busy {
      CallbackEnds(s1.(job := s1.job.(busy := false),
                       log := s1.log + [Completion(false, s1.size, s.job.bufSize, s1.job.bufSize, s1.job.mem,
                                                   s1.job.original, s1.job.got)]), cb);
    }
  }

  lemma StepCompletes(s: Endpoint, e: Event)
    requires CompletesExactly(s)
    ensures CompletesExactly(Step(s, e))
  {
    StepReassembles(s, e);
    match e
    case HostPacket(p) =>
    case RxInterrupt(cb) =>
      if s.hw.irq && AnyBank(s.hw) {
        ReceiveEnds(s, cb);
      }
    case RunJob(b) => CallbackEnds(s, Some(b));
    case Halt =>
    case Unhalt(cb) => UnhaltEnds(s, cb);
    case AbortJob(cb) => AbortEnds(s, cb);
    case FreeEndpoint(cb) => ReleaseEnds(s, s.(hw := s.hw.(enabled := false)), cb);
    case AllocEndpoint(size) =>
    case ResetBus(cb) =>
      var s1 := Reset(s);
      ReleaseEnds(s, s1.(hw := s1.hw.(forcestall := false, irq := false, enabled := false)), cb);
    case ResetTable =>
  }

  /** Main result on completion: over every run, with halts, aborts, releases, allocations and resets
      anywhere, each job that completes regularly does so with its first short or buffer-filling packet, and
      by no other; a job that is running with no stall pending has only taken full packets that leave
      room. */
  lemma {:induction false} JobsEndExactly(s: Endpoint, es: seq<Event>)
    requires CompletesExactly(s)
    ensures CompletesExactly(Exec(s, es))
    decreases |es|
  {
    if es != [] {
      StepCompletes(s, es[0]);
      JobsEndExactly(Step(s, es[0]), es[1..]);
    }
  }

  // ---------------------------------------------------------------- every packet goes to a job

  /** The packets the completed jobs took, in order. */
  function Delivered(log: seq<Completion>): seq<Packet> {
    if log == [] then [] else Delivered(log[..|log| - 1]) + log[|log| - 1].got
  }

  /** The packets jobs have taken, the running one included. */
  function Given(s: Endpoint): seq<Packet> {
    Delivered(s.log) + if s.job.busy then s.job.got else []
  }

  lemma DeliveredSnoc(log: seq<Completion>, c: Completion)
    ensures Delivered(log + [c]) == Delivered(log) + c.got
  {
    assert (log + [c])[..|log + [c]| - 1] == log;
  }

  /** The interrupt is enabled exactly while a job is running, and every packet read went to a job. */
  predicate AllGiven(s: Endpoint) {
    Wf(s) && !s.hw.forcestall && s.hw.irq == s.job.busy && s.taken == Given(s)
  }

  /** Packets, interrupts and jobs. */
  predicate Plain(e: Event) {
    e.HostPacket? || e.RxInterrupt? || e.RunJob?
  }

  lemma RunGives(s: Endpoint, b: Buffer)
    requires Wf(s)
    ensures Given(Run(s, b)) == Given(s)
  {
    assert Delivered(s.log) + [] == Delivered(s.log);
  }

  lemma CallbackGives(s: Endpoint, cb: Option<Buffer>)
    requires Wf(s)
    ensures Given(Callback(s, cb)) == Given(s)
  {
    if cb.Some? {
      RunGives(s, cb.value);
    }
  }

  /** Serving a packet gives it to the running job, whether or not it completes it; without a job it is
      given to nobody. */
  lemma ReceiveGives(s: Endpoint, cb: Option<Buffer>)
    requires Wf(s) && AnyBank(s.hw)
    ensures var p := Content(s.hw, Oldest(s.hw));
            Receive(s, cb).taken == s.taken + [p] && Given(Receive(s, cb)) == Given(s) + if s.job.busy then [p] else []
  {
    var p := Content(s.hw, Oldest(s.hw));
    var s1 := Ack(Copy(s));
    assert Delivered(s.log) + [] == Delivered(s.log);
    if s.job.busy {
      assert Given(s1) == Given(s) + [p];
      if Terminal(s) && !s1.hw.forcestall {
        var f := Finished(s);
        assert Receive(s, cb) == Callback(f, cb);
        DeliveredSnoc(s.log, f.log[|s.log|]);
        CallbackGives(f, cb);
      }
    }
  }

  lemma StepGives(s: Endpoint, e: Event)
    requires AllGiven(s) && Plain(e)
    ensures AllGiven(Step(s, e))
  {
    match e
    case HostPacket(p) =>
    case RxInterrupt(cb) =>
      if s.hw.irq && AnyBank(s.hw) {
        ReceiveGives(s, cb);
      }
    case RunJob(b) => RunGives(s, b);
  }

  lemma {:induction false} ExecGives(s: Endpoint, es: seq<Event>)
    requires AllGiven(s)
    requires forall e :: e in es ==> Plain(e)
    ensures AllGiven(Exec(s, es))
    decreases |es|
  {
    if es != [] {
      StepGives(s, es[0]);
      ExecGives(Step(s, es[0]), es[1..]);
    }
  }

  /** Main result on delivery: over every run of packets, interrupts and jobs each packet read went to a job,
      so the jobs' packets, put together, are those read; with `PingPongOrder` none falls between two jobs. */
  lemma NothingBetweenJobs(ep: nat, size: PacketSize, es: seq<Event>)
    requires forall e :: e in es ==> Plain(e)
    ensures AllGiven(Exec(Init(ep, size), es))
  {
    assert AllGiven(Init(ep, size));
    ExecGives(Init(ep, size), es);
  }

  /** A halt enables the interrupt with no job to serve: a packet that was waiting is acknowledged and given
      to nobody. */
  lemma HaltLosesPacket(ep: nat, size: PacketSize, p: Packet, cb: Option<Buffer>)
    requires |p| <= size
    ensures var r := Step(Step(Step(Init(ep, size), HostPacket(p)), Halt), RxInterrupt(cb));
            r.taken == [p] && !AnyBank(r.hw) && r.log == [] && !r.job.busy && Given(r) == []
  {
    var s := Step(Step(Init(ep, size), HostPacket(p)), Halt);
    assert s.hw.bk0 == Some(p) && s.hw.bk1 == None && s.hw.irq;
    ReceiveGives(s, cb);
    assert [] + [p] == [p];
  }
}
