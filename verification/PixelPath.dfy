/** From the host's frame buffer to the pixels: line packets through the OUT engine, the vendor callback,
    the device's frame buffer and the refresh. */
module PixelPath {
  import opened Usb
  import opened Lcd
  import BulkOut
  import Runs = BulkOutRuns

  const RECV_SIZE := 64       // of the endpoint and of the receive buffer
  const PACKET := 53          // line number and host line

  type Recv = r: seq<Byte> | |r| == RECV_SIZE witness seq(RECV_SIZE, _ => 0)

  // ---------------------------------------------------------------- the vendor callback

  /** A copy of bytes to address `at`, as far as it falls into this memory. */
  function CopyInto(mem: seq<Byte>, at: nat, d: seq<Byte>): (r: seq<Byte>)
    ensures |r| == |mem|
  {
    seq(|mem|, i requires 0 <= i < |mem| => if at <= i < at + |d| then d[i - at] else mem[i])
  }

  /** The copy of a line reaches beyond the end of the frame buffer. */
  predicate Leaves(line: nat) {
    LINE_BYTES * line + LINE_BYTES > LINE_BYTES * DEVICE_LINES
  }

  /** The guard of the callback. */
  predicate Admitted(line: nat) {
    !(line > DEVICE_LINES)
  }

  /** The static receive buffer, the frame buffer, whether a copy went beyond its end, and whether the last
      callback started the next transfer. */
  datatype Sink = Sink(recv: Recv, frame: DeviceFrame, past: bool, armed: bool)

  /** `vendor_out_ep_callback` for a good transfer. */
  function VendorCallback(k: Sink): Sink {
    var line := k.recv[0] as nat;
    if !Admitted(line) then k.(armed := false)
    else
      k.(frame := CopyInto(k.frame, LINE_BYTES * line, k.recv[1..1 + LINE_BYTES]),
         past := k.past || Leaves(line), armed := true)
  }

  /** What one packet does: it overwrites the front of the receive buffer. */
  function Apply(k: Sink, p: Packet): Sink
    requires |p| <= RECV_SIZE
  {
    VendorCallback(k.(recv := p + k.recv[|p|..]))
  }

  predicate Fit(ps: seq<Packet>) {
    forall i :: 0 <= i < |ps| ==> |ps[i]| <= RECV_SIZE
  }

  function Fold(k: Sink, ps: seq<Packet>): Sink
    requires Fit(ps)
  {
    if ps == [] then k else Apply(Fold(k, ps[..|ps| - 1]), ps[|ps| - 1])
  }

  // ---------------------------------------------------------------- the device

  /** The OUT endpoint and the memory its callback works on; the receive buffer is the job's buffer. */
  datatype Device = Device(out: BulkOut.Endpoint, frame: DeviceFrame, past: bool)

  datatype Event = HostPacket(p: Packet) | RxInterrupt

  /** `usbVendorDeviceEnableExt` after the endpoint was allocated. */
  function Enable(ep: nat, recv: Recv, frame: DeviceFrame): Device {
    Device(BulkOut.Run(BulkOut.Init(ep, RECV_SIZE), BulkOut.Buffer(recv, RECV_SIZE)), frame, false)
  }

  predicate DeviceWf(d: Device) {
    BulkOut.Wf(d.out) && |d.out.job.mem| == RECV_SIZE
  }

  /** One pass of the interrupt routine, with the callback it makes. */
  function Serve(d: Device): (r: Device)
    requires DeviceWf(d)
    ensures DeviceWf(r)
  {
    if !d.out.hw.irq || !BulkOut.AnyBank(d.out.hw) then d
    else if !BulkOut.Terminal(d.out) || d.out.hw.forcestall || !d.out.job.busy then
      d.(out := BulkOut.Interrupt(d.out, None))
    else
      var mem := BulkOut.Copy(d.out).job.mem;
      var k := VendorCallback(Sink(mem, d.frame, d.past, true));
      Device(BulkOut.Interrupt(d.out, if k.armed then Some(BulkOut.Buffer(mem, RECV_SIZE)) else None), k.frame, k.past)
  }

  function Step(d: Device, e: Event): (r: Device)
    requires DeviceWf(d)
    ensures DeviceWf(r)
  {
    match e
    case HostPacket(p) => d.(out := BulkOut.HostSends(d.out, p))
    case RxInterrupt => Serve(d)
  }

  function Exec(d: Device, es: seq<Event>): (r: Device)
    requires DeviceWf(d)
    ensures DeviceWf(r)
    decreases |es|
  {
    if es == [] then d else Exec(Step(d, es[0]), es[1..])
  }

  // ---------------------------------------------------------------- every packet is applied once, in order

  /** Completion i is the callback for packet i, alone in its transfer. */
  predicate OnePerPacket(s: BulkOut.Endpoint) {
    && |s.log| == |s.taken|
    && forall i :: 0 <= i < |s.log| ==> s.log[i].ok && s.log[i].got == [s.taken[i]] && s.log[i].reported == |s.taken[i]|
  }

  /** The endpoint waits for a packet exactly while the last callback re-armed it. */
  predicate Waiting(s: BulkOut.Endpoint, armed: bool) {
    && s.size == RECV_SIZE && s.hw.enabled && !s.hw.forcestall && !s.job.stallRequested
    && s.job.busy == s.hw.irq == armed
    && (armed ==> s.job.bufCnt == 0 && s.job.bufSize == RECV_SIZE && s.job.got == [])
  }

  predicate InStep(s: BulkOut.Endpoint) {
    Runs.Synchronised(s) && Runs.InOrder(s) && Runs.BanksFit(s.hw, s.size)
  }

  predicate Tracks(k0: Sink, d: Device) {
    && DeviceWf(d) && InStep(d.out) && OnePerPacket(d.out) && Fit(d.out.taken)
    && var k := Fold(k0, d.out.taken);
       Waiting(d.out, k.armed) && d.frame == k.frame && d.past == k.past && d.out.job.mem == k.recv
  }

  lemma EnableTracks(ep: nat, recv: Recv, frame: DeviceFrame)
    ensures Tracks(Sink(recv, frame, false, true), Enable(ep, recv, frame))
  {
  }

  lemma SendTracks(k0: Sink, d: Device, p: Packet)
    requires Tracks(k0, d)
    ensures Tracks(k0, Step(d, HostPacket(p)))
  {
    Runs.SendsInOrder(d.out, p);
  }

  /** One packet is one transfer: it is copied to the front of the buffer and completes the job. */
  lemma EngineServes(s: BulkOut.Endpoint, cb: Option<BulkOut.Buffer>)
    requires BulkOut.Wf(s) && |s.job.mem| == RECV_SIZE && Waiting(s, true) && InStep(s) && OnePerPacket(s)
    requires BulkOut.AnyBank(s.hw)
    requires cb.Some? ==> cb.value.limit == RECV_SIZE
    ensures var p, r := BulkOut.Content(s.hw, BulkOut.Oldest(s.hw)), BulkOut.Interrupt(s, cb);
            && |p| <= RECV_SIZE && BulkOut.Terminal(s)
            && BulkOut.Copy(s).job.mem == p + s.job.mem[|p|..]
            && r.taken == s.taken + [p] && InStep(r) && OnePerPacket(r)
            && Waiting(r, cb.Some?) && r.job.mem == if cb.Some? then cb.value.mem else BulkOut.Copy(s).job.mem
  {
    var p := BulkOut.Content(s.hw, BulkOut.Oldest(s.hw));
    Runs.ReceiveInOrder(s, cb);
    var c := BulkOut.Copy(s);
    assert s.job.mem[..0] + p[..|p|] == p;
    var s1 := BulkOut.Ack(c);
    var s2 := s1.(hw := s1.hw.(irq := false), job := s1.job.(bufSize := s1.job.bufCnt));
    assert BulkOut.Receive(s, cb) == BulkOut.Finish(s2, true, RECV_SIZE, cb);
    assert s2.job.got == [p];
  }

  lemma ServeTracks(k0: Sink, d: Device)
    requires Tracks(k0, d)
    ensures Tracks(k0, Serve(d))
    ensures Fold(k0, d.out.taken).armed && BulkOut.AnyBank(d.out.hw) ==>
              Serve(d).out.taken == d.out.taken + [BulkOut.Content(d.out.hw, BulkOut.Oldest(d.out.hw))]
  {
    if d.out.hw.irq && BulkOut.AnyBank(d.out.hw) {
      var p := BulkOut.Content(d.out.hw, BulkOut.Oldest(d.out.hw));
      var mem := BulkOut.Copy(d.out).job.mem;
      var k := VendorCallback(Sink(mem, d.frame, d.past, true));
      EngineServes(d.out, if k.armed then Some(BulkOut.Buffer(mem, RECV_SIZE)) else None);
      var taken := d.out.taken + [p];
      assert taken[..|taken| - 1] == d.out.taken;
      assert Fold(k0, taken) == Apply(Fold(k0, d.out.taken), p);
    }
  }

  lemma StepTracks(k0: Sink, d: Device, e: Event)
    requires Tracks(k0, d)
    ensures Tracks(k0, Step(d, e))
  {
    match e
    case HostPacket(p) => SendTracks(k0, d, p);
    case RxInterrupt => ServeTracks(k0, d);
  }

  /** Main result on the device: over every interleaving of packets and interrupts, whatever the packets
      hold, each packet read has had exactly one callback, in arrival order, and the frame buffer is what
      these callbacks made of it; the endpoint is armed exactly if the last callback armed it. */
  lemma {:induction false} DeviceTracks(k0: Sink, d: Device, es: seq<Event>)
    requires Tracks(k0, d)
    ensures Tracks(k0, Exec(d, es))
    decreases |es|
  {
    if es != [] {
      StepTracks(k0, d, es[0]);
      DeviceTracks(k0, Step(d, es[0]), es[1..]);
    }
  }

  /** After a line number beyond 242 the device is deaf: no later packet changes anything but the banks. */
  lemma {:induction false} DeafForGood(k0: Sink, d: Device, es: seq<Event>)
    requires Tracks(k0, d) && !Fold(k0, d.out.taken).armed
    ensures var r := Exec(d, es);
            r.frame == d.frame && r.past == d.past && r.out.taken == d.out.taken && r.out.log == d.out.log
    decreases |es|
  {
    if es != [] {
      StepTracks(k0, d, es[0]);
      DeafForGood(k0, Step(d, es[0]), es[1..]);
    }
  }

  // ---------------------------------------------------------------- last writer wins

  predicate LinePackets(ps: seq<Packet>) {
    forall i :: 0 <= i < |ps| ==> |ps[i]| == PACKET
  }

  /** The last data sent for line y. */
  function LastLine(ps: seq<Packet>, y: nat): Option<Line>
    requires LinePackets(ps)
  {
    if ps == [] then None
    else
      var p := ps[|ps| - 1];
      if p[0] as nat == y then Some(p[1..1 + LINE_BYTES]) else LastLine(ps[..|ps| - 1], y)
  }

  /** The copy of an admitted line changes that line only; line 242 changes none. */
  lemma CopyReads(f: DeviceFrame, line: nat, d: Line, y: nat)
    requires y < DEVICE_LINES
    ensures DeviceLine(CopyInto(f, LINE_BYTES * line, d), y) == if y == line then d else DeviceLine(f, y)
  {
    var r, want := DeviceLine(CopyInto(f, LINE_BYTES * line, d), y), if y == line then d else DeviceLine(f, y);
    forall k | 0 <= k < LINE_BYTES
      ensures r[k] == want[k]
    {
      assert r[k] == CopyInto(f, LINE_BYTES * line, d)[LINE_BYTES * y + k];
    }
  }

  /** Of the lines the guard admits exactly one leaves the frame buffer. */
  lemma OneLineTooMany(line: nat)
    ensures Admitted(line) && Leaves(line) <==> line == DEVICE_LINES
  {
  }

  /** A line packet, whatever the receive buffer held before. */
  lemma ApplyLinePacket(k: Sink, p: Packet)
    requires |p| == PACKET
    ensures var r := Apply(k, p);
            && (r.armed <==> Admitted(p[0] as nat))
            && (r.past <==> k.past || (Admitted(p[0] as nat) && Leaves(p[0] as nat)))
            && r.frame == if Admitted(p[0] as nat) then CopyInto(k.frame, LINE_BYTES * p[0] as nat, p[1..1 + LINE_BYTES])
                          else k.frame
  {
    var recv := p + k.recv[|p|..];
    assert recv[1..1 + LINE_BYTES] == p[1..1 + LINE_BYTES];
  }

  /** Main result on the frame buffer: each line holds what was sent for it last. */
  lemma {:induction false} LastWriterWins(k0: Sink, ps: seq<Packet>, y: nat)
    requires LinePackets(ps) && y < DEVICE_LINES
    ensures DeviceLine(Fold(k0, ps).frame, y) ==
            if LastLine(ps, y).Some? then LastLine(ps, y).value else DeviceLine(k0.frame, y)
  {
    if ps != [] {
      var p, before := ps[|ps| - 1], ps[..|ps| - 1];
      LastWriterWins(k0, before, y);
      ApplyLinePacket(Fold(k0, before), p);
      CopyReads(Fold(k0, before).frame, p[0] as nat, p[1..1 + LINE_BYTES], y);
    }
  }

  /** Over every sequence of line packets a copy has left the frame buffer if and only if one of them named
      line 242; the callback starts the next transfer exactly up to that line. */
  lemma {:induction false} PastEndExactly(k0: Sink, ps: seq<Packet>)
    requires LinePackets(ps)
    ensures Fold(k0, ps).past <==> k0.past || exists i :: 0 <= i < |ps| && ps[i][0] as nat == DEVICE_LINES
    ensures ps != [] ==> (Fold(k0, ps).armed <==> ps[|ps| - 1][0] as nat <= DEVICE_LINES)
  {
    if ps != [] {
      var p, before := ps[|ps| - 1], ps[..|ps| - 1];
      PastEndExactly(k0, before);
      ApplyLinePacket(Fold(k0, before), p);
      OneLineTooMany(p[0] as nat);
      assert forall i :: 0 <= i < |before| ==> before[i] == ps[i];
    }
  }

  // ---------------------------------------------------------------- end to end

  function HostPacketOf(vm: HostFrame, y: nat): (p: Packet)
    requires y < HOST_LINES
    ensures |p| == PACKET && p[0] as nat == y
  {
    [ByteOf(y)] + vm[HOST_PITCH * y..HOST_PITCH * (y + 1)]
  }

  lemma HostPacketData(vm: HostFrame, y: nat)
    requires y < HOST_LINES
    ensures HostPacketOf(vm, y)[1..1 + LINE_BYTES] == HostLine(vm, y)
  {
    var p := HostPacketOf(vm, y);
    forall k | 0 <= k < LINE_BYTES
      ensures p[1 + k] == HostLine(vm, y)[k]
    {
      assert p[1 + k] == vm[HOST_PITCH * y..HOST_PITCH * (y + 1)][k];
    }
  }

  /** The packets of the host's first n lines. */
  function HostPackets(vm: HostFrame, n: nat): (ps: seq<Packet>)
    requires n <= HOST_LINES
    ensures |ps| == n && LinePackets(ps)
  {
    if n == 0 then [] else HostPackets(vm, n - 1) + [HostPacketOf(vm, n - 1)]
  }

  lemma LastLineSnoc(ps: seq<Packet>, p: Packet, y: nat)
    requires LinePackets(ps) && |p| == PACKET
    ensures LastLine(ps + [p], y) == if p[0] as nat == y then Some(p[1..1 + LINE_BYTES]) else LastLine(ps, y)
  {
    assert (ps + [p])[..|ps + [p]| - 1] == ps;
  }

  lemma {:induction false} LastOfFrame(earlier: seq<Packet>, vm: HostFrame, n: nat, y: nat)
    requires LinePackets(earlier) && y < n <= HOST_LINES
    ensures LastLine(earlier + HostPackets(vm, n), y) == Some(HostLine(vm, y))
  {
    var before, p := earlier + HostPackets(vm, n - 1), HostPacketOf(vm, n - 1);
    assert earlier + HostPackets(vm, n) == before + [p];
    LastLineSnoc(before, p, y);
    if y < n - 1 {
      LastOfFrame(earlier, vm, n - 1, y);
    } else {
      HostPacketData(vm, y);
    }
  }

  lemma AllRead(s: BulkOut.Endpoint)
    requires Runs.InOrder(s) && !BulkOut.AnyBank(s.hw)
    ensures s.taken == s.arrived
  {
    assert s.taken + [] == s.taken;
  }

  /** The frame buffer after a whole host frame, in any state a run can reach. */
  lemma FrameReceived(k0: Sink, d: Device, earlier: seq<Packet>, vm: HostFrame, y: nat)
    requires Tracks(k0, d) && LinePackets(earlier) && y < HOST_LINES
    requires d.out.arrived == earlier + HostPackets(vm, HOST_LINES) && !BulkOut.AnyBank(d.out.hw)
    ensures DeviceLine(d.frame, y) == HostLine(vm, y)
  {
    AllRead(d.out);
    var ps := earlier + HostPackets(vm, HOST_LINES);
    LastWriterWins(k0, ps, y);
    LastOfFrame(earlier, vm, HOST_LINES, y);
  }

  /** Main result, end to end: on any device and after any run, once the packets of a whole host frame
      have arrived last and the banks are empty, the refresh shows every pixel of the host's buffer. */
  lemma EndToEnd(ep: nat, recv: Recv, frame: DeviceFrame, es: seq<Event>, earlier: seq<Packet>, vm: HostFrame,
                 shown: Picture, x: nat, y: nat)
    requires LinePackets(earlier) && x < WIDTH && y < HOST_LINES
    requires Exec(Enable(ep, recv, frame), es).out.arrived == earlier + HostPackets(vm, HOST_LINES)
    requires !BulkOut.AnyBank(Exec(Enable(ep, recv, frame), es).out.hw)
    ensures var p := ShowAll(shown, ScreenMessages(Exec(Enable(ep, recv, frame), es).frame, DEVICE_LINES));
            y in p && |p[y]| == WIDTH && p[y][x] == HostPixel(vm, x, y)
  {
    var k0 := Sink(recv, frame, false, true);
    EnableTracks(ep, recv, frame);
    DeviceTracks(k0, Enable(ep, recv, frame), es);
    var d := Exec(Enable(ep, recv, frame), es);
    FrameReceived(k0, d, earlier, vm, y);
    SamePicture(shown, shown, vm, d.frame, x, y);
  }

  // ---------------------------------------------------------------- such runs exist

  /** Each packet sent and served in turn. */
  function Feed(ps: seq<Packet>): seq<Event> {
    if ps == [] then [] else [HostPacket(ps[0]), RxInterrupt] + Feed(ps[1..])
  }

  function SendServe(d: Device, p: Packet): (r: Device)
    requires DeviceWf(d)
    ensures DeviceWf(r)
  {
    Step(Step(d, HostPacket(p)), RxInterrupt)
  }

  /** The device is armed and has read all that arrived. */
  predicate Idle(k0: Sink, d: Device) {
    Tracks(k0, d) && d.out.hw.irq && !BulkOut.AnyBank(d.out.hw)
  }

  lemma FeedExec(d: Device, ps: seq<Packet>)
    requires DeviceWf(d) && ps != []
    ensures Exec(d, Feed(ps)) == Exec(SendServe(d, ps[0]), Feed(ps[1..]))
  {
    var tail := [RxInterrupt] + Feed(ps[1..]);
    assert Feed(ps) == [HostPacket(ps[0])] + tail;
    assert Feed(ps)[1..] == tail && tail[1..] == Feed(ps[1..]);
    assert Exec(d, Feed(ps)) == Exec(Step(d, HostPacket(ps[0])), tail);
  }

  lemma BankServed(s: BulkOut.Endpoint, cb: Option<BulkOut.Buffer>)
    requires BulkOut.Wf(s) && Runs.HwInv(s.ep, s.hw) && BulkOut.AnyBank(s.hw) && !BulkOut.AllBanks(s.hw)
    ensures !BulkOut.AnyBank(BulkOut.Interrupt(s, cb).hw) || !s.hw.irq
    ensures BulkOut.Interrupt(s, cb).arrived == s.arrived
  {
  }

  lemma SendArrives(d: Device, p: Packet)
    requires DeviceWf(d) && Waiting(d.out, true) && InStep(d.out) && !BulkOut.AnyBank(d.out.hw) && |p| <= RECV_SIZE
    ensures var s := BulkOut.HostSends(d.out, p);
            && s.arrived == d.out.arrived + [p] && s.hw.irq
            && BulkOut.AnyBank(s.hw) && !BulkOut.AllBanks(s.hw) && BulkOut.Content(s.hw, BulkOut.Oldest(s.hw)) == p
  {
  }

  lemma IdleServes(k0: Sink, d: Device, p: Packet)
    requires Idle(k0, d) && |p| == PACKET && p[0] as nat <= DEVICE_LINES
    ensures Idle(k0, SendServe(d, p)) && SendServe(d, p).out.arrived == d.out.arrived + [p]
  {
    var d1 := Step(d, HostPacket(p));
    SendArrives(d, p);
    SendTracks(k0, d, p);
    ServeTracks(k0, d1);
    ApplyLinePacket(Fold(k0, d.out.taken), p);
    var taken := d.out.taken + [p];
    assert taken[..|taken| - 1] == d.out.taken;
    BankServed(d1.out, None);
    BankServed(d1.out, Some(BulkOut.Buffer(BulkOut.Copy(d1.out).job.mem, RECV_SIZE)));
  }

  function FeedAll(d: Device, ps: seq<Packet>): (r: Device)
    requires DeviceWf(d)
    decreases |ps|
  {
    if ps == [] then d else FeedAll(SendServe(d, ps[0]), ps[1..])
  }

  lemma {:induction false} FeedAllIsRun(d: Device, ps: seq<Packet>)
    requires DeviceWf(d)
    ensures Exec(d, Feed(ps)) == FeedAll(d, ps)
    decreases |ps|
  {
    if ps != [] {
      FeedExec(d, ps);
      FeedAllIsRun(SendServe(d, ps[0]), ps[1..]);
    }
  }

  predicate PassGuard(ps: seq<Packet>) {
    LinePackets(ps) && forall i :: 0 <= i < |ps| ==> ps[i][0] as nat <= DEVICE_LINES
  }

  lemma {:induction false} FeedAllIdle(k0: Sink, d: Device, ps: seq<Packet>)
    requires Idle(k0, d) && PassGuard(ps)
    ensures Idle(k0, FeedAll(d, ps))
    decreases |ps|
  {
    if ps == [] {
    } else {
      IdleServes(k0, d, ps[0]);
      FeedAllIdle(k0, SendServe(d, ps[0]), ps[1..]);
    }
  }

  lemma {:induction false} FeedAllArrives(k0: Sink, d: Device, ps: seq<Packet>)
    requires Idle(k0, d) && PassGuard(ps)
    ensures FeedAll(d, ps).out.arrived == d.out.arrived + ps
    decreases |ps|
  {
    if ps == [] {
      assert d.out.arrived + ps == d.out.arrived;
    } else {
      IdleServes(k0, d, ps[0]);
      FeedAllArrives(k0, SendServe(d, ps[0]), ps[1..]);
      TakeFirst(d.out.arrived, ps);
    }
  }

  lemma TakeFirst(before: seq<Packet>, ps: seq<Packet>)
    requires ps != []
    ensures before + [ps[0]] + ps[1..] == before + ps
  {
  }

  /** Such a run delivers: packets whose line number passes the guard all arrive and are all read. */
  lemma FeedDelivers(k0: Sink, d: Device, ps: seq<Packet>)
    requires Idle(k0, d) && PassGuard(ps)
    ensures Idle(k0, Exec(d, Feed(ps))) && Exec(d, Feed(ps)).out.arrived == d.out.arrived + ps
  {
    FeedAllIsRun(d, ps);
    FeedAllIdle(k0, d, ps);
    FeedAllArrives(k0, d, ps);
  }
}
