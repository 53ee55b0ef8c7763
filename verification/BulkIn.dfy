/** The bulk/interrupt IN engine of the UDP driver, as functions on the state of one endpoint.

    The peripheral is modelled by the packets it holds. `line` is the bank validated by
    TXPKTRDY (TXPKTRDY is set exactly when `line` is not empty); `staged` are the packets the
    CPU has written since the last validation. Validating sends everything written since then
    as one packet, so two staged packets would be merged. Resetting an endpoint empties its banks and
    leaves TXCOMP alone. `Job` is `udd_ep_job_t`; its
    `bank` is kept modulo 4, the width of the bit-field. */
module BulkIn {
  import opened Usb

  /** What is handed to `udd_ep_run`. */
  datatype Transfer = Transfer(buf: seq<Byte>, askShort: bool)

  /** A call of the transfer callback: the transfer, the status, the reported count. */
  datatype Completion = Completion(transfer: Transfer, ok: bool, reported: nat)

  datatype Hw = Hw(
    line: seq<Packet>, staged: seq<Packet>, txcomp: bool, forcestall: bool, irq: bool, enabled: bool,
    sent: seq<Packet>)

  datatype Job = Job(
    transfer: Transfer, bufSize: nat, bufCnt: nat, bank: nat,
    busy: bool, stallRequested: bool, shortPacket: bool, bufEnd: bool)

  datatype Endpoint = Endpoint(ep: nat, size: nat, hw: Hw, job: Job, log: seq<Completion>)

  /** An endpoint just configured by `udd_ep_alloc` on clean hardware. */
  function Init(ep: nat, size: nat): Endpoint {
    Endpoint(ep, size, Hw([], [], false, false, false, true, []),
             Job(Transfer([], false), 0, 0, 0, false, false, false, false), [])
  }

  /** What makes the buffer arithmetic of the driver meaningful. */
  predicate Wf(s: Endpoint) {
    s.size > 0 && s.job.bufCnt <= s.job.bufSize <= |s.job.transfer.buf|
  }

  predicate SameConfig(s: Endpoint, r: Endpoint) {
    r.ep == s.ep && r.size == s.size
  }

  /** Nothing is left to load, not even a zero-length packet. */
  predicate Drained(j: Job) {
    j.bufCnt >= j.bufSize && !j.shortPacket
  }

  // ---------------------------------------------------------------- the hardware

  function Validate(h: Hw): Hw {
    if h.line != [] then h else h.(line := [Flatten(h.staged)], staged := [])
  }

  /** The host reads the validated packet, unless the endpoint stalls or is disabled. */
  function HostReads(h: Hw): Hw {
    if h.line == [] || h.forcestall || !h.enabled then h
    else h.(sent := h.sent + h.line, line := [], txcomp := true)
  }

  function InPending(h: Hw): bool {
    h.line != [] || h.txcomp
  }

  // ---------------------------------------------------------------- the driver

  predicate LastIsShort(s: Endpoint)
    requires Wf(s)
  {
    s.job.bufSize - s.job.bufCnt < s.size
  }

  /** `udd_ep_write_fifo`. */
  function WriteFifo(s: Endpoint): (r: Endpoint)
    requires Wf(s)
    ensures Wf(r) && SameConfig(s, r)
  {
    var n := if LastIsShort(s) then s.job.bufSize - s.job.bufCnt else s.size;
    s.(hw := s.hw.(staged := s.hw.staged + [s.job.transfer.buf[s.job.bufCnt..s.job.bufCnt + n]]),
       job := s.job.(bufCnt := s.job.bufCnt + n, bank := (s.job.bank + 1) % 4))
  }

  /** The second half of `udd_ep_in_sent`: a bank is free and there is something to load. */
  function Load(s: Endpoint, tx: bool): (r: Endpoint)
    requires Wf(s)
    ensures Wf(r) && SameConfig(s, r)
  {
    var s1 := WriteFifo(s);
    var s2 := if tx then s1.(hw := Validate(s1.hw)) else s1;
    var j := if LastIsShort(s) then s2.job.(shortPacket := false) else s2.job;
    s2.(job := if Drained(j) then j.(bufEnd := true) else j)
  }

  /** `udd_ep_in_sent`; true when data is pending. */
  function InSent(s: Endpoint, tx: bool): (r: (Endpoint, bool))
    requires Wf(s)
    ensures Wf(r.0) && SameConfig(s, r.0)
  {
    if s.job.bank >= BankMax(s.ep) then (s, true)
    else if Drained(s.job) then (s, false)
    else var r := Load(s, tx); (r, !Drained(r.job))
  }

  predicate Accepts(s: Endpoint) {
    s.hw.enabled && !s.job.stallRequested && !s.hw.forcestall && !s.job.busy
  }

  function Register(s: Endpoint, t: Transfer): (r: Endpoint)
    requires Wf(s)
    ensures Wf(r) && SameConfig(s, r)
  {
    s.(job := s.job.(busy := true, transfer := t, bufSize := |t.buf|, bufCnt := 0,
                     shortPacket := t.askShort || |t.buf| == 0, bufEnd := false),
       hw := s.hw.(irq := true))
  }

  /** The first loads of a job on an idle endpoint: one bank, or two. */
  function Start(s: Endpoint): (r: Endpoint)
    requires Wf(s)
    ensures Wf(r) && SameConfig(s, r)
  {
    var r := InSent(s, true);
    if r.1 then InSent(r.0, false).0 else r.0
  }

  /** `udd_ep_run`. */
  function Run(s: Endpoint, t: Transfer): (r: Endpoint)
    requires Wf(s)
    ensures Wf(r) && SameConfig(s, r)
  {
    if !Accepts(s) then s
    else if InPending(s.hw) then Register(s, t)
    else Start(Register(s, t))
  }

  function Callback(s: Endpoint, cb: Option<Transfer>): (r: Endpoint)
    requires Wf(s)
    ensures Wf(r) && SameConfig(s, r)
  {
    match cb
    case None => s
    case Some(t) => Run(s, t)
  }

  /** `udd_ep_finish_job`: the callback may start the next job. */
  function Finish(s: Endpoint, ok: bool, cb: Option<Transfer>): (r: Endpoint)
    requires Wf(s)
    ensures Wf(r) && SameConfig(s, r)
  {
    if !s.job.busy then s
    else
      Callback(s.(job := s.job.(busy := false),
                  log := s.log + [Completion(s.job.transfer, ok, s.job.bufSize)]), cb)
  }

  /** The end of a buffer as the interrupt routine treats it. */
  function FinishBuffer(s: Endpoint, cb: Option<Transfer>): (r: Endpoint)
    requires Wf(s)
    ensures Wf(r) && SameConfig(s, r)
  {
    Finish(s.(job := s.job.(bufEnd := false, bufSize := s.job.bufCnt)), true, cb)
  }

  function Ack(s: Endpoint): (r: Endpoint) {
    s.(hw := s.hw.(txcomp := false))
  }

  /** TXCOMP while a halt is deferred. */
  function DrainBank(s: Endpoint): (r: Endpoint)
    requires Wf(s)
    ensures Wf(r) && SameConfig(s, r)
  {
    if s.job.bank != 0 then Ack(s.(hw := Validate(s.hw)))
    else s.(hw := s.hw.(txcomp := false, forcestall := true), job := s.job.(stallRequested := false))
  }

  /** Dual bank, both free: load and transmit one, then load the other. */
  function LoadBoth(s: Endpoint, cb: Option<Transfer>): (r: Endpoint)
    requires Wf(s)
    ensures Wf(r) && SameConfig(s, r)
  {
    var r := InSent(s, true);
    var s1 := if r.1 then r.0 else FinishBuffer(r.0, cb);
    InSent(Ack(s1), false).0
  }

  /** TXCOMP after a possible completion: refill the banks. */
  function Refill(s: Endpoint, cb: Option<Transfer>): (r: Endpoint)
    requires Wf(s)
    ensures Wf(r) && SameConfig(s, r)
  {
    if Drained(s.job) && s.job.bank == 0 then
      s.(hw := s.hw.(txcomp := false, irq := false))
    else if BankMax(s.ep) > 1 && s.job.bank > 0 then
      InSent(Ack(s.(hw := Validate(s.hw))), false).0
    else if BankMax(s.ep) > 1 then
      LoadBoth(s, cb)
    else
      Ack(InSent(s, true).0)
  }

  /** The TXCOMP branch of `udd_ep_interrupt`. At most two callbacks run in one pass. */
  function Interrupt(s: Endpoint, cb1: Option<Transfer>, cb2: Option<Transfer>): (r: Endpoint)
    requires Wf(s)
    ensures Wf(r) && SameConfig(s, r)
  {
    if !s.hw.txcomp || !s.hw.irq then s
    else
      var s0 := s.(job := s.job.(bank := (s.job.bank + 3) % 4));
      if s0.job.stallRequested then DrainBank(s0)
      else Refill(if s0.job.bufEnd then FinishBuffer(s0, cb1) else s0, cb2)
  }

  function SetHalt(s: Endpoint): (r: Endpoint) {
    if s.hw.line != [] || s.job.bank > 1 then
      s.(job := s.job.(stallRequested := true), hw := s.hw.(irq := true))
    else
      s.(hw := s.hw.(forcestall := true, irq := true))
  }

  /** Resetting the endpoint throws away what its banks hold. */
  function Discard(s: Endpoint): (r: Endpoint) {
    s.(hw := s.hw.(line := [], staged := []))
  }

  /** `udd_ep_clear_halt`. */
  function ClearHalt(s: Endpoint, cb: Option<Transfer>): (r: Endpoint)
    requires Wf(s)
    ensures Wf(r) && SameConfig(s, r)
  {
    if !s.hw.forcestall then s.(job := s.job.(stallRequested := false))
    else
      var s1 := Discard(s).(hw := Discard(s).hw.(forcestall := false),
                            job := s.job.(stallRequested := false, busy := false));
      if s.job.busy then Callback(s1, cb) else s1
  }

  /** The endpoint after `udd_ep_abort` has killed its banks and cleared its statuses. */
  function Killed(s: Endpoint): (r: Endpoint) {
    s.(hw := s.hw.(irq := false, line := [], staged := [], txcomp := false), job := s.job.(bank := 0))
  }

  function Abort(s: Endpoint, cb: Option<Transfer>): (r: Endpoint)
    requires Wf(s)
    ensures Wf(r) && SameConfig(s, r)
  {
    Finish(Killed(s), false, cb)
  }

  /** `udd_ep_free`: the endpoint is disabled and its job aborted; its banks and statuses stay. */
  function Free(s: Endpoint, cb: Option<Transfer>): (r: Endpoint)
    requires Wf(s)
    ensures Wf(r) && SameConfig(s, r)
  {
    Finish(s.(hw := s.hw.(enabled := false)), false, cb)
  }

  /** `udd_ep_alloc`: refused while enabled or for too large a size. */
  function Alloc(s: Endpoint, size: PacketSize): (r: Endpoint)
    requires Wf(s)
    ensures Wf(r) && r.ep == s.ep
  {
    if s.hw.enabled || size > SizeMax(s.ep) then s
    else
      var s1 := Discard(s.(size := size, job := s.job.(bufEnd := false, stallRequested := false, bank := 0)));
      s1.(hw := s1.hw.(enabled := true))
  }

  /** A bus reset: the peripheral disables the endpoint and forgets its state; the driver aborts the job. */
  function BusReset(s: Endpoint, cb: Option<Transfer>): (r: Endpoint)
    requires Wf(s)
    ensures Wf(r) && SameConfig(s, r)
  {
    Finish(s.(hw := Hw([], [], false, false, false, false, s.hw.sent)), false, cb)
  }

  /** `udd_ep_job_table_reset`. */
  function TableReset(s: Endpoint): (r: Endpoint)
    requires Wf(s)
    ensures Wf(r) && SameConfig(s, r)
  {
    s.(job := s.job.(bank := 0, busy := false, stallRequested := false, shortPacket := false, bufEnd := false))
  }

  // ---------------------------------------------------------------- runs

  datatype Event =
    | RunJob(transfer: Transfer)
    | HostRead
    | TxInterrupt(cb1: Option<Transfer>, cb2: Option<Transfer>)
    | Halt
    | Unhalt(cb: Option<Transfer>)
    | AbortJob(cb: Option<Transfer>)
    | FreeEndpoint(cb: Option<Transfer>)
    | AllocEndpoint(size: PacketSize)
    | ResetBus(cb: Option<Transfer>)
    | ResetTable

  function Step(s: Endpoint, e: Event): (r: Endpoint)
    requires Wf(s)
    ensures Wf(r) && r.ep == s.ep && (!e.AllocEndpoint? ==> r.size == s.size)
  {
    match e
    case RunJob(t) => Run(s, t)
    case HostRead => s.(hw := HostReads(s.hw))
    case TxInterrupt(cb1, cb2) => Interrupt(s, cb1, cb2)
    case Halt => SetHalt(s)
    case Unhalt(cb) => ClearHalt(s, cb)
    case AbortJob(cb) => Abort(s, cb)
    case FreeEndpoint(cb) => Free(s, cb)
    case AllocEndpoint(size) => Alloc(s, size)
    case ResetBus(cb) => BusReset(s, cb)
    case ResetTable => TableReset(s)
  }

  function Exec(s: Endpoint, es: seq<Event>): (r: Endpoint)
    requires Wf(s)
    ensures Wf(r) && r.ep == s.ep
    ensures (forall e :: e in es ==> !e.AllocEndpoint?) ==> r.size == s.size
    decreases |es|
  {
    if es == [] then s else Exec(Step(s, es[0]), es[1..])
  }
}
