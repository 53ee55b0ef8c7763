/** The control endpoint of the UDP driver: the SETUP / DATA / status machine of `udp_device.c`
    as functions on its state. `Observed` records what happened and is never read by the
    driver. The two transfer counters are 16-bit, so their arithmetic is modulo 65536. */
module Control {
  import opened Usb

  /** `USB_DEVICE_EP_CTRL_SIZE`. */
  const CTRL_SIZE := 64

  datatype Phase = SetupWait | DataOut | DataIn | WaitInZlp | WaitOutZlp | StallReq

  /** `udd_g_ctrlreq`: whether the two callbacks are set, and the present payload buffer. */
  datatype Request = Request(wLength: nat, payload: seq<Byte>, payloadSize: nat, callback: bool, overUnderRun: bool)

  /** `requests` numbers the SETUP packets; `ran` lists the requests whose end-of-request callback ran.
      `given` are the payload buffers of the current request; `sent` its IN data packets;
      `outs` the OUT packets read for it and `stored` the bytes stored of them. */
  datatype Observed = Observed(requests: nat, ran: seq<nat>, given: seq<seq<Byte>>,
                               sent: seq<Packet>, outs: seq<Packet>, stored: seq<Byte>)

  /** `inPending`: an IN packet was validated and neither acknowledged nor flushed. */
  datatype Ctrl = Ctrl(phase: Phase, prev: nat, cur: nat, shortPacket: bool, req: Request,
                       inPending: bool, forcestall: bool, obs: Observed)

  /** What `udc_process_setup` decides about a request. */
  datatype Decision = Decision(known: bool, isIn: bool, wLength: nat, payload: seq<Byte>,
                               callback: bool, overUnderRun: bool)

  datatype Event =
    | Setup(eightBytes: bool, d: Decision, outReceived: bool, supply: Option<seq<Byte>>)
    | InSent(outReceived: bool, supply: Option<seq<Byte>>)
    | OutReceived(p: Packet, supply: Option<seq<Byte>>)

  function U16(x: int): nat {
    x % 65536
  }

  predicate DataStage(s: Ctrl) {
    s.phase == DataIn || s.phase == DataOut
  }

  /** The counters make sense in a data stage, and an IN packet is outstanding only where the driver
      asserts it: in the IN data stage or in the IN status stage. */
  predicate Wf(s: Ctrl) {
    && s.req.payloadSize <= |s.req.payload| < 65536
    && s.cur < 65536 && s.prev < 65536
    && (DataStage(s) ==> s.cur <= s.req.payloadSize)
    && (s.inPending ==> s.phase == DataIn || s.phase == WaitInZlp)
  }

  predicate SupplyOk(supply: Option<seq<Byte>>) {
    supply.Some? ==> |supply.value| < 65536
  }

  function Init(): Ctrl {
    Ctrl(SetupWait, 0, 0, false, Request(0, [], 0, false, false), false, false, Observed(0, [], [], [], [], []))
  }

  // ---------------------------------------------------------------- common parts

  /** `udd_ctrl_init`. */
  function CtrlInit(s: Ctrl): (r: Ctrl) {
    s.(phase := SetupWait, req := s.req.(payloadSize := 0, callback := false, overUnderRun := false))
  }

  /** `udd_ctrl_endofrequest`. */
  function EndOfRequest(s: Ctrl): (r: Ctrl) {
    if s.req.callback then s.(obs := s.obs.(ran := s.obs.ran + [s.obs.requests])) else s
  }

  /** `udd_ctrl_stall_data`. */
  function StallData(s: Ctrl): (r: Ctrl) {
    s.(phase := StallReq, forcestall := true)
  }

  /** `udd_ctrl_send_zlp_in`. */
  function SendZlpIn(s: Ctrl): (r: Ctrl) {
    s.(phase := WaitInZlp, inPending := true)
  }

  // ---------------------------------------------------------------- IN data stage

  /** The second half of `udd_ctrl_in_sent`: send the next packet of `remain` bytes left, unless the host
      has already ended the stage with an OUT packet. */
  function SendData(s: Ctrl, remain: nat, outReceived: bool): (r: Ctrl)
    requires Wf(s) && s.phase == DataIn && s.cur + remain <= s.req.payloadSize
    ensures Wf(r)
  {
    var n := if remain >= CTRL_SIZE then CTRL_SIZE else remain;
    var s1 := s.(shortPacket := remain < CTRL_SIZE);
    if outReceived then s1.(phase := WaitOutZlp, inPending := false)
    else
      s1.(cur := U16(s.cur + n), inPending := true,
          obs := s.obs.(sent := s.obs.sent + [s.req.payload[s.cur..s.cur + n]]))
  }

  /** The state in which `BufferSent` sends the first packet of a new buffer. */
  function Supplied(s: Ctrl, buf: seq<Byte>): (r: Ctrl) {
    s.(cur := 0, req := s.req.(payload := buf, payloadSize := |buf|), obs := s.obs.(given := s.obs.given + [buf]))
  }

  /** `udd_ctrl_in_sent` in the data stage, when the present buffer has been sent. */
  function BufferSent(s: Ctrl, outReceived: bool, supply: Option<seq<Byte>>): (r: Ctrl)
    requires Wf(s) && SupplyOk(supply) && s.phase == DataIn
    ensures Wf(r)
  {
    var s1 := s.(prev := U16(s.prev + s.cur));
    if s1.req.wLength == s1.prev || s1.shortPacket then
      s1.(phase := WaitOutZlp, inPending := false)
    else if !s1.req.overUnderRun || supply.None? then
      SendData(s1, 0, outReceived)
    else
      SendData(Supplied(s1, supply.value), |supply.value|, outReceived)
  }

  /** `udd_ctrl_in_sent`. */
  function CtrlInSent(s: Ctrl, outReceived: bool, supply: Option<seq<Byte>>): (r: Ctrl)
    requires Wf(s) && SupplyOk(supply)
    requires s.phase == DataIn || s.phase == WaitInZlp
    ensures Wf(r)
  {
    if s.phase == WaitInZlp then
      CtrlInit(EndOfRequest(s.(inPending := false)))
    else
      var remain := U16(s.req.payloadSize - s.cur);
      if remain == 0 then BufferSent(s, outReceived, supply) else SendData(s, remain, outReceived)
  }

  // ---------------------------------------------------------------- OUT data stage

  /** Number of bytes stored of an OUT packet. */
  function Room(s: Ctrl, p: Packet): nat
    requires Wf(s) && s.phase == DataOut
  {
    if s.req.payloadSize < s.cur + |p| then s.req.payloadSize - s.cur else |p|
  }

  /** Reading the FIFO into the payload buffer. */
  function StoreOut(s: Ctrl, p: Packet): (r: Ctrl)
    requires Wf(s) && s.phase == DataOut
    ensures Wf(r) && r.phase == DataOut
  {
    var n := Room(s, p);
    s.(cur := U16(s.cur + n),
       req := s.req.(payload := s.req.payload[..s.cur] + p[..n] + s.req.payload[s.cur + n..]),
       obs := s.obs.(outs := s.obs.outs + [p], stored := s.obs.stored + p[..n]))
  }

  /** The end of the OUT data stage. */
  function OutComplete(s: Ctrl, supply: Option<seq<Byte>>): (r: Ctrl)
    requires Wf(s) && s.phase == DataOut && !s.inPending
    ensures Wf(r)
  {
    var s1 := s.(req := s.req.(payloadSize := s.cur));
    if s1.req.overUnderRun && supply.None? then StallData(s1) else SendZlpIn(s1)
  }

  /** The payload buffer is full and more data is due. */
  function OutOverrun(s: Ctrl, supply: Option<seq<Byte>>): (r: Ctrl)
    requires Wf(s) && SupplyOk(supply) && s.phase == DataOut && !s.inPending
    ensures Wf(r)
  {
    if !s.req.overUnderRun || supply.None? then StallData(s)
    else
      s.(prev := U16(s.prev + s.cur), cur := 0,
         req := s.req.(payload := supply.value, payloadSize := |supply.value|),
         obs := s.obs.(given := s.obs.given + [supply.value]))
  }

  predicate LastOut(s: Ctrl, n: nat) {
    n != CTRL_SIZE || s.req.wLength <= s.prev + s.cur
  }

  /** `udd_ctrl_out_received`. The packet takes the only bank, so a waiting IN packet is flushed. */
  function CtrlOutReceived(s: Ctrl, p: Packet, supply: Option<seq<Byte>>): (r: Ctrl)
    requires Wf(s) && SupplyOk(supply)
    ensures Wf(r)
  {
    var s0 := s.(inPending := false);
    if s.phase == DataIn || s.phase == WaitOutZlp then CtrlInit(EndOfRequest(s0))
    else if s.phase != DataOut then CtrlInit(StallData(s0))
    else
      var s1 := StoreOut(s0, p);
      if LastOut(s1, Room(s0, p)) then OutComplete(s1, supply)
      else if s1.req.payloadSize == s1.cur then OutOverrun(s1, supply)
      else s1
  }

  // ---------------------------------------------------------------- SETUP

  /** The request structure after `udc_process_setup`. */
  function Decide(s: Ctrl, d: Decision): (r: Ctrl) {
    s.(req := Request(d.wLength, d.payload, |d.payload|, d.callback, d.overUnderRun),
       obs := s.obs.(given := [d.payload]))
  }

  /** `udd_ctrl_setup_received`. A SETUP packet flushes the endpoint and releases a stall. */
  function SetupReceived(s: Ctrl, eightBytes: bool, d: Decision, outReceived: bool, supply: Option<seq<Byte>>): (r: Ctrl)
    requires Wf(s) && |d.payload| < 65536 && SupplyOk(supply)
    ensures Wf(r)
  {
    var s1 := NewRequest(s);
    if !eightBytes then StallData(s1)
    else
      var s2 := Decide(s1, d);
      if !d.known then StallData(s2)
      else if d.isIn then CtrlInSent(s2.(prev := 0, cur := 0, phase := DataIn), outReceived, supply)
      else if d.wLength == 0 then SendZlpIn(s2)
      else s2.(prev := 0, cur := 0, phase := DataOut)
  }

  /** Closing a request that the SETUP packet interrupts. */
  function NewRequest(s: Ctrl): (r: Ctrl)
    requires Wf(s)
    ensures Wf(r) && r.phase == SetupWait && !r.inPending
  {
    var s0 := s.(inPending := false, forcestall := false);
    var s1 := if s0.phase != SetupWait then CtrlInit(EndOfRequest(s0)) else s0;
    s1.(obs := Observed(s1.obs.requests + 1, s1.obs.ran, [], [], [], []))
  }

  // ---------------------------------------------------------------- events

  /** Buffers and packets have their 16-bit and 64-byte sizes; TXCOMP follows an outstanding IN packet. */
  predicate Possible(s: Ctrl, e: Event) {
    match e
    case Setup(_, d, _, supply) => |d.payload| < 65536 && d.wLength < 65536 && SupplyOk(supply)
    case InSent(_, supply) => s.inPending && SupplyOk(supply)
    case OutReceived(p, supply) => |p| <= CTRL_SIZE && SupplyOk(supply)
  }

  /** One pass of `udd_ctrl_interrupt`. */
  function Step(s: Ctrl, e: Event): (r: Ctrl)
    requires Wf(s) && Possible(s, e)
    ensures Wf(r)
  {
    match e
    case Setup(eight, d, out, supply) => SetupReceived(s, eight, d, out, supply)
    case InSent(out, supply) => CtrlInSent(s, out, supply)
    case OutReceived(p, supply) => CtrlOutReceived(s, p, supply)
  }

  /** A run in which every event is possible when it happens. */
  predicate PossibleRun(s: Ctrl, es: seq<Event>)
    requires Wf(s)
    decreases |es|
  {
    es == [] || (Possible(s, es[0]) && PossibleRun(Step(s, es[0]), es[1..]))
  }

  function Exec(s: Ctrl, es: seq<Event>): (r: Ctrl)
    requires Wf(s) && PossibleRun(s, es)
    ensures Wf(r)
    decreases |es|
  {
    if es == [] then s else Exec(Step(s, es[0]), es[1..])
  }
}
