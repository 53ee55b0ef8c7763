/** The bulk/interrupt OUT engine of the UDP driver, as functions on the state of one endpoint.

    The peripheral fills its banks in turn: `fill` is the bank the next packet goes to. The CPU
    reads the FIFO of the oldest filled bank and must clear the status bit of that bank.
    In `Job` the fields `original` and `got` are observers: the contents of the buffer when
    the job was registered, and the packets it has taken since. */
module BulkOut {
  import opened Usb

  datatype RawBuffer = Buffer(mem: seq<Byte>, limit: nat)

  /** Memory at the buffer address, of which `udd_ep_run` is given the first `limit` bytes. */
  type Buffer = b: RawBuffer | b.limit <= |b.mem| witness Buffer([], 0)

  datatype Hw = Hw(bk0: Option<Packet>, bk1: Option<Packet>, fill: nat, forcestall: bool, irq: bool,
                   enabled: bool)

  datatype Job = Job(mem: seq<Byte>, bufSize: nat, bufCnt: nat, bank: nat, busy: bool, stallRequested: bool,
                     original: seq<Byte>, got: seq<Packet>)

  /** A call of the transfer callback, with the state of the job it ends. */
  datatype Completion = Completion(ok: bool, size: nat, limit: nat, reported: nat,
                                   mem: seq<Byte>, original: seq<Byte>, got: seq<Packet>)

  /** `arrived` and `taken` are the packets received and read since the last endpoint reset. */
  datatype Endpoint = Endpoint(ep: nat, size: nat, hw: Hw, job: Job,
                               arrived: seq<Packet>, taken: seq<Packet>, log: seq<Completion>)

  function Init(ep: nat, size: nat): Endpoint {
    Endpoint(ep, size, Hw(None, None, 0, false, false, true),
             Job([], 0, 0, 0, false, false, [], []), [], [], [])
  }

  predicate Wf(s: Endpoint) {
    s.size > 0 && s.job.bufCnt <= s.job.bufSize <= |s.job.mem|
  }

  predicate SameConfig(s: Endpoint, r: Endpoint) {
    r.ep == s.ep && r.size == s.size
  }

  // ---------------------------------------------------------------- the hardware

  predicate AnyBank(h: Hw) {
    h.bk0.Some? || h.bk1.Some?
  }

  predicate AllBanks(h: Hw) {
    h.bk0.Some? && h.bk1.Some?
  }

  predicate BankFree(h: Hw, bank: nat) {
    if bank == 0 then h.bk0.None? else h.bk1.None?
  }

  /** The oldest filled bank, the one the FIFO shows. */
  function Oldest(h: Hw): nat {
    if AllBanks(h) then h.fill else if h.bk0.Some? then 0 else 1
  }

  function Content(h: Hw, bank: nat): Packet {
    var b := if bank == 0 then h.bk0 else h.bk1;
    if b.Some? then b.value else []
  }

  function ClearBank(h: Hw, bank: nat): Hw {
    if bank == 0 then h.(bk0 := None) else h.(bk1 := None)
  }

  /** The host sends a packet: it is stored if the next bank is free, and refused otherwise. */
  function HostSends(s: Endpoint, p: Packet): (r: Endpoint)
    requires Wf(s)
    ensures Wf(r) && SameConfig(s, r)
  {
    if !s.hw.enabled || s.hw.forcestall || |p| > s.size || !BankFree(s.hw, s.hw.fill) then s
    else
      var next := if BankMax(s.ep) > 1 then 1 - s.hw.fill % 2 else 0;
      var h := if s.hw.fill == 0 then s.hw.(bk0 := Some(p), fill := next) else s.hw.(bk1 := Some(p), fill := next);
      s.(hw := h, arrived := s.arrived + [p])
  }

  // ---------------------------------------------------------------- the driver

  /** The bank whose status `udd_ep_ack_out_received` clears. */
  function AckBank(s: Endpoint): nat {
    if AllBanks(s.hw) then s.job.bank else if s.hw.bk0.Some? then 0 else 1
  }

  /** `udd_ep_ack_out_received`. */
  function Ack(s: Endpoint): (r: Endpoint) {
    if AckBank(s) == 0 then
      s.(hw := ClearBank(s.hw, 0), job := s.job.(bank := if BankMax(s.ep) > 1 then 1 else 0))
    else
      s.(hw := ClearBank(s.hw, 1), job := s.job.(bank := 0))
  }

  /** Number of bytes that are stored of the packet being read. */
  function Stored(s: Endpoint): nat
    requires Wf(s)
  {
    var n := |Content(s.hw, Oldest(s.hw))|;
    var remain := s.job.bufSize - s.job.bufCnt;
    if n >= remain then remain else n
  }

  /** The copy in `udd_ep_out_received`. */
  function Copy(s: Endpoint): (r: Endpoint)
    requires Wf(s)
    ensures Wf(r) && SameConfig(s, r)
  {
    var p := Content(s.hw, Oldest(s.hw));
    var c := s.job.bufCnt;
    var n := Stored(s);
    s.(job := s.job.(mem := s.job.mem[..c] + p[..n] + s.job.mem[c + n..], bufCnt := c + n, got := s.job.got + [p]),
       taken := s.taken + [p])
  }

  /** Whether `udd_ep_out_received` finishes the job: a short packet, or one that fills the buffer. */
  predicate Terminal(s: Endpoint)
    requires Wf(s)
  {
    var n := |Content(s.hw, Oldest(s.hw))|;
    n < s.size || (n > 0 && n >= s.job.bufSize - s.job.bufCnt)
  }

  predicate Accepts(s: Endpoint) {
    s.hw.enabled && !s.job.stallRequested && !s.hw.forcestall && !s.job.busy
  }

  /** `udd_ep_run`. */
  function Run(s: Endpoint, b: Buffer): (r: Endpoint)
    requires Wf(s)
    ensures Wf(r) && SameConfig(s, r)
  {
    if !Accepts(s) then s
    else
      s.(job := s.job.(busy := true, mem := b.mem, bufSize := b.limit, bufCnt := 0, original := b.mem, got := []),
         hw := s.hw.(irq := true))
  }

  function Callback(s: Endpoint, cb: Option<Buffer>): (r: Endpoint)
    requires Wf(s)
    ensures Wf(r) && SameConfig(s, r)
  {
    match cb
    case None => s
    case Some(b) => Run(s, b)
  }

  /** `udd_ep_finish_job`; `limit` is what the buffer size was when the job was registered. */
  function Finish(s: Endpoint, ok: bool, limit: nat, cb: Option<Buffer>): (r: Endpoint)
    requires Wf(s)
    ensures Wf(r) && SameConfig(s, r)
  {
    if !s.job.busy then s
    else
      Callback(s.(job := s.job.(busy := false),
                  log := s.log + [Completion(ok, s.size, limit, s.job.bufSize, s.job.mem, s.job.original, s.job.got)]), cb)
  }

  /** `udd_ep_out_received`. */
  function Receive(s: Endpoint, cb: Option<Buffer>): (r: Endpoint)
    requires Wf(s)
    ensures Wf(r) && SameConfig(s, r)
  {
    var s1 := Ack(Copy(s));
    if Terminal(s) && !s1.hw.forcestall then
      Finish(s1.(hw := s1.hw.(irq := false), job := s1.job.(bufSize := s1.job.bufCnt)), true, s.job.bufSize, cb)
    else s1
  }

  /** The RXOUT branch of `udd_ep_interrupt`. */
  function Interrupt(s: Endpoint, cb: Option<Buffer>): (r: Endpoint)
    requires Wf(s)
    ensures Wf(r) && SameConfig(s, r)
  {
    if !s.hw.irq || !AnyBank(s.hw) then s else Receive(s, cb)
  }

  function SetHalt(s: Endpoint): (r: Endpoint) {
    s.(hw := s.hw.(forcestall := true, irq := true))
  }

  /** An endpoint reset empties the banks and restarts with bank 0; `bank` keeps its value. */
  function Reset(s: Endpoint): (r: Endpoint) {
    s.(hw := s.hw.(bk0 := None, bk1 := None, fill := 0), arrived := [], taken := [])
  }

  function ClearHalt(s: Endpoint, cb: Option<Buffer>): (r: Endpoint)
    requires Wf(s)
    ensures Wf(r) && SameConfig(s, r)
  {
    var s1 := s.(job := s.job.(stallRequested := false));
    if !s.hw.forcestall then s1
    else
      var s2 := Reset(s1.(hw := s1.hw.(forcestall := false), job := s1.job.(busy := false)));
      if s.job.busy then Callback(s2, cb) else s2
  }

  function Filled(h: Hw): nat {
    (if h.bk0.Some? then 1 else 0) + (if h.bk1.Some? then 1 else 0)
  }

  /** The loop of `udd_ep_abort` over the received banks. */
  function AckAll(s: Endpoint): (r: Endpoint)
    ensures r.job == s.job.(bank := r.job.bank) && r == s.(hw := r.hw, job := r.job) && !AnyBank(r.hw)
    ensures r.hw == s.hw.(bk0 := None, bk1 := None)
    decreases Filled(s.hw)
  {
    if AnyBank(s.hw) then AckAll(Ack(s)) else s
  }

  function Abort(s: Endpoint, cb: Option<Buffer>): (r: Endpoint)
    requires Wf(s)
    ensures Wf(r) && SameConfig(s, r)
  {
    Finish(Reset(AckAll(s.(hw := s.hw.(irq := false)))), false, s.job.bufSize, cb)
  }

  /** `udd_ep_free`: the endpoint is disabled and its job aborted; its banks stay. */
  function Free(s: Endpoint, cb: Option<Buffer>): (r: Endpoint)
    requires Wf(s)
    ensures Wf(r) && SameConfig(s, r)
  {
    Finish(s.(hw := s.hw.(enabled := false)), false, s.job.bufSize, cb)
  }

  /** `udd_ep_alloc`: refused while enabled or for too large a size. For an OUT endpoint `bank` stays. */
  function Alloc(s: Endpoint, size: PacketSize): (r: Endpoint)
    requires Wf(s)
    ensures Wf(r) && r.ep == s.ep
  {
    if s.hw.enabled || size > SizeMax(s.ep) then s
    else
      var s1 := Reset(s.(size := size, job := s.job.(stallRequested := false)));
      s1.(hw := s1.hw.(enabled := true))
  }

  /** A bus reset: the peripheral disables the endpoint and forgets its state; the driver aborts the job. */
  function BusReset(s: Endpoint, cb: Option<Buffer>): (r: Endpoint)
    requires Wf(s)
    ensures Wf(r) && SameConfig(s, r)
  {
    var s1 := Reset(s);
    Finish(s1.(hw := s1.hw.(forcestall := false, irq := false, enabled := false)), false, s.job.bufSize, cb)
  }

  /** `udd_ep_job_table_reset`. */
  function TableReset(s: Endpoint): (r: Endpoint)
    requires Wf(s)
    ensures Wf(r) && SameConfig(s, r)
  {
    s.(job := s.job.(bank := 0, busy := false, stallRequested := false))
  }

  // ---------------------------------------------------------------- runs

  datatype Event =
    | HostPacket(p: Packet)
    | RxInterrupt(cb: Option<Buffer>)
    | RunJob(b: Buffer)
    | Halt
    | Unhalt(cb: Option<Buffer>)
    | AbortJob(cb: Option<Buffer>)
    | FreeEndpoint(cb: Option<Buffer>)
    | AllocEndpoint(size: PacketSize)
    | ResetBus(cb: Option<Buffer>)
    | ResetTable

  function Step(s: Endpoint, e: Event): (r: Endpoint)
    requires Wf(s)
    ensures Wf(r) && r.ep == s.ep && (!e.AllocEndpoint? ==> r.size == s.size)
  {
    match e
    case HostPacket(p) => HostSends(s, p)
    case RxInterrupt(cb) => Interrupt(s, cb)
    case RunJob(b) => Run(s, b)
    case Halt => SetHalt(s)
    case Unhalt(cb) => ClearHalt(s, cb)
    case AbortJob(cb) => Abort(s, cb)
    case FreeEndpoint(cb) => Free(s, cb)
    case AllocEndpoint(size) => Alloc(s, size)
    case ResetBus(cb) => BusReset(s, cb)
    case ResetTable => TableReset(s)
  }

  function Exec(s: Endpoint, es: seq<Event>): (r: Endpoint)
    requires Wf(s)
    ensures Wf(r) && r.ep == s.ep
    ensures (forall e :: e in es ==> !e.AllocEndpoint?) ==> r.size == s.size
    decreases |es|
  {
    if es == [] then s else Exec(Step(s, es[0]), es[1..])
  }
}
