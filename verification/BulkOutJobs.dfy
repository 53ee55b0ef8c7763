/** What becomes of the jobs of an OUT endpoint, whatever happens to it: each that is accepted is completed
    once, running, or forgotten by clearing a halt or resetting the table. */
module BulkOutJobs {
  import opened Usb
  import opened BulkOut

  /** The endpoint would take a job if it were idle. */
  predicate Open(s: Endpoint) {
    s.hw.enabled && !s.job.stallRequested && !s.hw.forcestall
  }

  /** A job on this buffer is running, nothing of it is filled, and its packets will be served. */
  predicate Fresh(s: Endpoint, b: Buffer) {
    && s.job.busy && s.hw.irq && s.job.mem == b.mem == s.job.original
    && s.job.bufSize == b.limit && s.job.bufCnt == 0 && s.job.got == []
  }

  /** After a callback: the job it started is running, or none. */
  predicate Follows(open: bool, cb: Option<Buffer>, r: Endpoint) {
    if open && cb.Some? then Fresh(r, cb.value) else !r.job.busy
  }

  /** The running job was completed, once, with this status, its buffer as it is. */
  predicate Completed(s: Endpoint, r: Endpoint, ok: bool) {
    r.log == s.log + [Completion(ok, s.size, s.job.bufSize, s.job.bufSize, s.job.mem, s.job.original, s.job.got)]
  }

  // ---------------------------------------------------------------- how a job starts and ends

  /** An idle, enabled endpoint that is neither halted nor halting takes the job; any other refuses it and stays
      as it is. Packets that have arrived before wait for it. */
  lemma RunTakes(s: Endpoint, b: Buffer)
    requires Wf(s)
    ensures var r := Step(s, RunJob(b));
            if !s.job.busy && s.hw.enabled && !s.hw.forcestall && !s.job.stallRequested
            then Fresh(r, b) && r.log == s.log && r.hw == s.hw.(irq := true) && r.arrived == s.arrived
            else r == s
  {
  }

  lemma CallbackFollows(s: Endpoint, cb: Option<Buffer>)
    requires Wf(s) && !s.job.busy
    ensures Follows(Open(s), cb, Callback(s, cb)) && Callback(s, cb).log == s.log
  {
    if cb.Some? {
      RunTakes(s, cb.value);
    }
  }

  /** An abort ends the running job with its callback, and drops the packets that wait. */
  lemma AbortEnds(s: Endpoint, cb: Option<Buffer>)
    requires Wf(s)
    ensures var r := Step(s, AbortJob(cb));
            && !AnyBank(r.hw) && r.hw.fill == 0
            && (s.job.busy ==> Completed(s, r, false) && Follows(Open(s), cb, r))
            && (!s.job.busy ==> r.log == s.log && !r.job.busy)
            && (!r.job.busy ==> !r.hw.irq)
  {
    var s1 := Reset(AckAll(s.(hw := s.hw.(irq := false))));
    if s.job.busy {
      CallbackFollows(s1.(job := s1.job.(busy := false),
                          log := s1.log + [Completion(false, s1.size, s.job.bufSize, s1.job.bufSize, s1.job.mem,
                                                      s1.job.original, s1.job.got)]), cb);
    }
  }

  lemma AbortKeepsBank(s: Endpoint, cb: Option<Buffer>)
    requires Wf(s)
    ensures Step(s, AbortJob(cb)).job.bank == AckAll(s.(hw := s.hw.(irq := false))).job.bank
  {
  }

  lemma AckAllBank(s: Endpoint)
    requires s.job.bank <= 1 && (AllBanks(s.hw) ==> BankMax(s.ep) > 1)
    ensures AckAll(s).job.bank ==
            if AllBanks(s.hw) || !AnyBank(s.hw) then s.job.bank
            else if s.hw.bk0.Some? && BankMax(s.ep) > 1 then 1 else 0
  {
    if AnyBank(s.hw) {
      assert AckAll(s) == AckAll(Ack(s));
      if AllBanks(s.hw) {
        assert AckAll(Ack(s)) == AckAll(Ack(Ack(s)));
      }
    }
  }

  /** What an abort leaves in the software bank, although the hardware starts again with bank 0: a single waiting
      packet in bank 0 of a dual-bank endpoint leaves 1, one in bank 1 leaves 0, and none or two leave the
      value as it was. */
  lemma AbortLeavesBank(s: Endpoint, cb: Option<Buffer>)
    requires Wf(s) && s.job.bank <= 1 && (AllBanks(s.hw) ==> BankMax(s.ep) > 1)
    ensures Step(s, AbortJob(cb)).job.bank ==
            if AllBanks(s.hw) || !AnyBank(s.hw) then s.job.bank
            else if s.hw.bk0.Some? && BankMax(s.ep) > 1 then 1 else 0
  {
    AbortKeepsBank(s, cb);
    AckAllBank(s.(hw := s.hw.(irq := false)));
  }

  /** Freeing the endpoint and a bus reset end it too; on the disabled endpoint no callback can start another. */
  lemma ReleaseEnds(s: Endpoint, e: Event)
    requires Wf(s) && (e.FreeEndpoint? || e.ResetBus?)
    ensures var r := Step(s, e);
            && !r.job.busy && !r.hw.enabled
            && (s.job.busy ==> Completed(s, r, false))
            && (!s.job.busy ==> r.log == s.log)
            && (e.ResetBus? ==> !AnyBank(r.hw) && !r.hw.forcestall && r.hw.fill == 0)
  {
  }

  /** A halt takes effect at once, and clearing it empties the banks and forgets the running job, whose callback
      is called as the one for the end of the halt. */
  lemma UnhaltForgets(s: Endpoint, cb: Option<Buffer>)
    requires Wf(s)
    ensures Step(s, Halt).hw.forcestall && Step(s, Halt).job == s.job
    ensures var r := Step(s, Unhalt(cb));
            && r.log == s.log && !r.hw.forcestall && !r.job.stallRequested
            && (s.hw.forcestall ==> !AnyBank(r.hw) && r.hw.fill == 0)
            && (s.hw.forcestall && s.job.busy ==> Follows(s.hw.enabled, cb, r))
            && (s.hw.forcestall && !s.job.busy ==> !r.job.busy)
            && (!s.hw.forcestall ==> r == s.(job := s.job.(stallRequested := false)))
  {
    if s.hw.forcestall && s.job.busy {
      var s1 := s.(job := s.job.(stallRequested := false));
      CallbackFollows(Reset(s1.(hw := s1.hw.(forcestall := false), job := s1.job.(busy := false))), cb);
    }
  }

  lemma TableResetForgets(s: Endpoint)
    requires Wf(s)
    ensures var r := Step(s, ResetTable);
            r.log == s.log && r.hw == s.hw && !r.job.busy && !r.job.stallRequested && r.job.bank == 0
  {
  }

  /** Allocation is refused exactly while enabled or for too large a size; a freed, idle endpoint that is
      allocated while not halted is ready: it takes a job, and that gets the next packet of the host. */
  lemma AllocReady(s: Endpoint, size: PacketSize, b: Buffer, p: Packet)
    requires Wf(s)
    ensures s.hw.enabled || size > SizeMax(s.ep) ==> Step(s, AllocEndpoint(size)) == s
    ensures !s.hw.enabled && size <= SizeMax(s.ep) && !s.hw.forcestall && !s.job.busy && |p| <= size ==>
              var a := Step(s, AllocEndpoint(size));
              var r := Step(Step(Step(a, RunJob(b)), HostPacket(p)), RxInterrupt(None));
              && a.size == size && a.hw.enabled && !AnyBank(a.hw) && a.log == s.log
              && Fresh(Step(a, RunJob(b)), b) && r.taken == [p]
              && (|p| < size && |p| <= b.limit ==>
                    && !r.job.busy && |r.log| == |s.log| + 1 && r.log[|s.log|].ok
                    && r.log[|s.log|].reported == |p| && r.log[|s.log|].mem == p + b.mem[|p|..])
  {
    if !s.hw.enabled && size <= SizeMax(s.ep) && !s.hw.forcestall && !s.job.busy && |p| <= size {
      FirstPacket(Run(Alloc(s, size), b), b, p);
    }
  }

  lemma FirstPacket(s: Endpoint, b: Buffer, p: Packet)
    requires Wf(s) && Fresh(s, b) && Open(s) && !AnyBank(s.hw) && s.hw.fill == 0 && |p| <= s.size
    ensures var r := Step(Step(s, HostPacket(p)), RxInterrupt(None));
            && r.taken == s.taken + [p]
            && (|p| < s.size && |p| <= b.limit ==>
                  && !r.job.busy && |r.log| == |s.log| + 1 && r.log[|s.log|].ok
                  && r.log[|s.log|].reported == |p| && r.log[|s.log|].mem == p + b.mem[|p|..])
  {
    var h := HostSends(s, p);
    assert Content(h.hw, Oldest(h.hw)) == p && AnyBank(h.hw) && h.hw.irq;
    assert p[..|p|] == p;
    assert Copy(h).taken == s.taken + [p];
    if |p| < s.size && |p| <= b.limit {
      assert Copy(h).job.mem == p + b.mem[|p|..];
      assert Copy(h).job.bufCnt == |p|;
    }
  }

  // ---------------------------------------------------------------- the fate of every job

  /** A job as it was registered: the contents of its buffer then, and the limit. */
  datatype Request = Request(original: seq<Byte>, limit: nat)

  function Logged(log: seq<Completion>): (rs: seq<Request>)
    ensures |rs| == |log|
  {
    seq(|log|, i requires 0 <= i < |log| => Request(log[i].original, log[i].limit))
  }

  function Running(s: Endpoint): Request {
    Request(s.job.original, s.job.bufSize)
  }

  /** All jobs accepted so far: the completed ones, then the current one. */
  function Accepted(s: Endpoint): seq<Request> {
    Logged(s.log) + (if s.job.busy then [Running(s)] else [])
  }

  function Optional(cb: Option<Buffer>): seq<Request> {
    if cb.Some? then [Request(cb.value.mem, cb.value.limit)] else []
  }

  /** The job that the callback of a completion starts. */
  function Taking(s: Endpoint, cb: Option<Buffer>): seq<Request> {
    if s.job.busy && Open(s) then Optional(cb) else []
  }

  /** The jobs that one event adds, in any state. */
  function TakenBy(s: Endpoint, e: Event): seq<Request>
    requires Wf(s)
  {
    match e
    case RunJob(b) => if !s.job.busy && Open(s) then [Request(b.mem, b.limit)] else []
    case RxInterrupt(cb) => if s.hw.irq && AnyBank(s.hw) && Terminal(s) then Taking(s, cb) else []
    case Unhalt(cb) => if s.hw.forcestall && s.job.busy && s.hw.enabled then Optional(cb) else []
    case AbortJob(cb) => Taking(s, cb)
    case _ => []
  }

  /** The job that one event drops without a completion. */
  function ForgottenBy(s: Endpoint, e: Event): seq<Request> {
    if s.job.busy && (e.ResetTable? || (e.Unhalt? && s.hw.forcestall)) then [Running(s)] else []
  }

  lemma CallbackTakes(s: Endpoint, cb: Option<Buffer>)
    requires Wf(s) && !s.job.busy
    ensures Accepted(Callback(s, cb)) == Logged(s.log) + if Open(s) then Optional(cb) else []
  {
    CallbackFollows(s, cb);
  }

  lemma FinishTakes(s: Endpoint, ok: bool, limit: nat, cb: Option<Buffer>)
    requires Wf(s)
    ensures Accepted(Finish(s, ok, limit, cb)) ==
            if s.job.busy then Logged(s.log) + [Request(s.job.original, limit)] + Taking(s, cb) else Accepted(s)
  {
    if s.job.busy {
      var c := Completion(ok, s.size, limit, s.job.bufSize, s.job.mem, s.job.original, s.job.got);
      assert Logged(s.log + [c]) == Logged(s.log) + [Request(s.job.original, limit)];
      CallbackTakes(s.(job := s.job.(busy := false), log := s.log + [c]), cb);
    }
  }

  lemma ReceiveTakes(s: Endpoint, cb: Option<Buffer>)
    requires Wf(s)
    ensures Accepted(Receive(s, cb)) == Accepted(s) + if Terminal(s) then Taking(s, cb) else []
  {
    var s1 := Ack(Copy(s));
    assert Accepted(s1) == Accepted(s) && Open(s1) == Open(s);
    if Terminal(s) && !s1.hw.forcestall {
      var s2 := s1.(hw := s1.hw.(irq := false), job := s1.job.(bufSize := s1.job.bufCnt));
      FinishTakes(s2, true, s.job.bufSize, cb);
      assert Taking(s2, cb) == Taking(s, cb);
    }
  }

  lemma AbortTakes(s: Endpoint, cb: Option<Buffer>)
    requires Wf(s)
    ensures Accepted(Abort(s, cb)) == Accepted(s) + Taking(s, cb)
  {
    FinishTakes(Reset(AckAll(s.(hw := s.hw.(irq := false)))), false, s.job.bufSize, cb);
  }

  lemma ReleaseTakes(s: Endpoint, e: Event)
    requires Wf(s) && (e.FreeEndpoint? || e.ResetBus?)
    ensures Accepted(Step(s, e)) == Accepted(s)
  {
    ReleaseEnds(s, e);
    if s.job.busy {
      assert Logged(Step(s, e).log) == Logged(s.log) + [Running(s)];
    }
  }

  lemma UnhaltFate(s: Endpoint, cb: Option<Buffer>)
    requires Wf(s)
    ensures Balance(Accepted(s), TakenBy(s, Unhalt(cb)), Accepted(Step(s, Unhalt(cb))), ForgottenBy(s, Unhalt(cb)))
  {
    UnhaltForgets(s, cb);
    if !(s.hw.forcestall && s.job.busy) {
      Grown(Accepted(s), [], Accepted(Step(s, Unhalt(cb))));
    } else {
      assert Accepted(Step(s, Unhalt(cb))) == Logged(s.log) + TakenBy(s, Unhalt(cb));
    }
  }

  lemma StepGrows(s: Endpoint, e: Event)
    requires Wf(s) && !e.Unhalt? && !e.ResetTable?
    ensures Accepted(Step(s, e)) == Accepted(s) + TakenBy(s, e)
  {
    match e
    case RxInterrupt(cb) => ReceiveTakes(s, cb);
    case RunJob(b) => RunTakes(s, b);
    case AbortJob(cb) => AbortTakes(s, cb);
    case FreeEndpoint(_) => ReleaseTakes(s, e);
    case ResetBus(_) => ReleaseTakes(s, e);
    case _ =>
  }

  /** One event completes, keeps or forgets every job, and adds those that were handed over. */
  lemma StepFate(s: Endpoint, e: Event)
    requires Wf(s)
    ensures Balance(Accepted(s), TakenBy(s, e), Accepted(Step(s, e)), ForgottenBy(s, e))
  {
    if e.Unhalt? {
      UnhaltFate(s, e.cb);
    } else if e.ResetTable? {
      assert Accepted(Step(s, e)) + ForgottenBy(s, e) == Accepted(s);
    } else {
      StepGrows(s, e);
      Grown(Accepted(s), TakenBy(s, e), Accepted(Step(s, e)));
    }
  }

  function TakenIn(s: Endpoint, es: seq<Event>): seq<Request>
    requires Wf(s)
    decreases |es|
  {
    if es == [] then [] else TakenBy(s, es[0]) + TakenIn(Step(s, es[0]), es[1..])
  }

  function ForgottenIn(s: Endpoint, es: seq<Event>): seq<Request>
    requires Wf(s)
    decreases |es|
  {
    if es == [] then [] else ForgottenBy(s, es[0]) + ForgottenIn(Step(s, es[0]), es[1..])
  }

  /** Main result, over every run of all ten events from any state: each job that was running or accepted has
      been completed, once, is running, or was forgotten by clearing a halt or resetting the table. */
  lemma {:induction false} EveryJobEnds(s: Endpoint, es: seq<Event>)
    requires Wf(s)
    ensures Balance(Accepted(s), TakenIn(s, es), Accepted(Exec(s, es)), ForgottenIn(s, es))
    decreases |es|
  {
    if es != [] {
      var s1 := Step(s, es[0]);
      StepFate(s, es[0]);
      EveryJobEnds(s1, es[1..]);
      BalanceChains(Accepted(s), TakenBy(s, es[0]), Accepted(s1), ForgottenBy(s, es[0]),
                    TakenIn(s1, es[1..]), Accepted(Exec(s, es)), ForgottenIn(s1, es[1..]));
    }
  }
}
