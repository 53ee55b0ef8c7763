/** The OUT side of `udp_device.c` in its own form: one endpoint as an object that fills the caller's
    array. Each method is proved against module BulkOut. A callback is given by the buffer
    it hands to `udd_ep_run`, if any; its contents are those at the time of the call. */
module BulkOutDriver {
  import opened Usb
  import BulkOut

  /** The buffer arguments of `udd_ep_run`. */
  datatype Region = Region(data: array<Byte>, limit: nat)

  class OutEndpoint {
    const ep: nat
    var size: nat

    // registers and banks
    var bk0: Option<Packet>
    var bk1: Option<Packet>
    var fill: nat
    var forcestall: bool
    var irq: bool
    var enabled: bool

    // udd_ep_job_t
    var buf: array<Byte>
    var bufSize: nat
    var bufCnt: nat
    var bank: nat
    var busy: bool
    var stallRequested: bool

    // observers
    ghost var original: seq<Byte>
    ghost var got: seq<Packet>
    ghost var arrived: seq<Packet>
    ghost var taken: seq<Packet>
    ghost var log: seq<BulkOut.Completion>

    ghost function View(): BulkOut.Endpoint
      reads this, buf
    {
      BulkOut.Endpoint(ep, size, BulkOut.Hw(bk0, bk1, fill, forcestall, irq, enabled),
                       BulkOut.Job(buf[..], bufSize, bufCnt, bank, busy, stallRequested, original, got),
                       arrived, taken, log)
    }

    ghost predicate Valid()
      reads this, buf
    {
      BulkOut.Wf(View())
    }

    constructor (ep: nat, size: nat)
      requires size > 0
      ensures Valid() && View() == BulkOut.Init(ep, size)
    {
      this.ep, this.size := ep, size;
      bk0, bk1, fill, forcestall, irq, enabled := None, None, 0, false, false, true;
      buf := new Byte[0];
      bufSize, bufCnt, bank, busy, stallRequested := 0, 0, 0, false, false;
      original, got, arrived, taken, log := [], [], [], [], [];
      new;
      assert buf[..] == [];
    }

    /** `udd_ep_run`. */
    method Run(b: Region) returns (accepted: bool)
      requires Valid() && b.limit <= b.data.Length
      modifies this
      ensures Valid() && View() == BulkOut.Run(old(View()), BulkOut.Buffer(b.data[..], b.limit))
      ensures accepted == BulkOut.Accepts(old(View()))
      ensures buf == if accepted then b.data else old(buf)
    {
      if !enabled || stallRequested || forcestall {
        return false;
      }
      if busy {
        return false;
      }
      Register(b);
      return true;
    }

    /** The new job. */
    method Register(b: Region)
      modifies `busy, `buf, `bufSize, `bufCnt, `original, `got, `irq
      ensures busy && irq && buf == b.data && bufSize == b.limit && bufCnt == 0
      ensures original == b.data[..] && got == []
    {
      busy := true;
      buf, bufSize, bufCnt := b.data, b.limit, 0;
      original, got := b.data[..], [];
      irq := true;
    }

    /** `udd_ep_finish_job`. */
    method FinishJob(ok: bool, ghost limit: nat, callback: Option<Region>)
      requires Valid() && (callback.Some? ==> callback.value.limit <= callback.value.data.Length)
      modifies this
      ensures Valid() && View() == BulkOut.Finish(old(View()), ok, limit, Argument(callback))
    {
      if !busy {
        return;
      }
      busy := false;
      log := log + [BulkOut.Completion(ok, size, limit, bufSize, buf[..], original, got)];
      if callback.Some? {
        var _ := Run(callback.value);
      }
    }

    /** What the callback hands over, with the present contents of its buffer. */
    static ghost function Argument(callback: Option<Region>): Option<BulkOut.Buffer>
      requires callback.Some? ==> callback.value.limit <= callback.value.data.Length
      reads if callback.Some? then {callback.value.data} else {}
    {
      match callback
      case None => None
      case Some(b) => Some(BulkOut.Buffer(b.data[..], b.limit))
    }

    /** `udd_ep_ack_out_received`. */
    method AckOutReceived()
      requires Valid()
      modifies this
      ensures Valid() && View() == BulkOut.Ack(old(View())) && buf == old(buf)
    {
      if bk0.Some? && bk1.Some? {
        // the only way is to use the counter
      } else if bk0.Some? {
        bank := 0;
      } else {
        bank := 1;
      }
      if bank == 0 {
        bk0 := None;
        if BankMax(ep) > 1 {
          bank := 1;
        }
      } else {
        bk1 := None;
        bank := 0;
      }
    }

    /** The packet the FIFO shows. */
    function Fifo(): Packet
      reads this, buf
    {
      var b := if bk0.Some? && bk1.Some? then fill else if bk0.Some? then 0 else 1;
      var bank := if b == 0 then bk0 else bk1;
      if bank.Some? then bank.value else []
    }

    /** The copy loop of `udd_ep_out_received`. */
    method CopyBytes(packet: Packet, dst: nat, count: nat)
      requires count <= |packet| && dst + count <= buf.Length
      modifies buf
      ensures buf[..] == old(buf[..])[..dst] + packet[..count] + old(buf[..])[dst + count..]
    {
      for i := 0 to count
        invariant forall k :: dst <= k < dst + i ==> buf[k] == packet[k - dst]
        invariant forall k :: 0 <= k < dst || dst + i <= k < buf.Length ==> buf[k] == old(buf[k])
      {
        buf[dst + i] := packet[i];
      }
    }

    /** The part of the packet that fits the buffer; true if it fills the buffer. */
    method StoreBytes(packet: seq<Byte>) returns (full: bool)
      requires Valid()
      modifies this`bufCnt, buf
      ensures var n := if |packet| >= bufSize - old(bufCnt) then bufSize - old(bufCnt) else |packet|;
              && bufCnt == old(bufCnt) + n
              && buf[..] == old(buf[..])[..old(bufCnt)] + packet[..n] + old(buf[..])[old(bufCnt) + n..]
      ensures full <==> |packet| > 0 && |packet| >= bufSize - old(bufCnt)
    {
      var remain := bufSize - bufCnt;
      var count := |packet|;
      var dst := bufCnt;
      full := false;
      if count > 0 {
        if count >= remain {
          count := remain;
          full := true;
        }
        bufCnt := bufCnt + count;
        CopyBytes(packet, dst, count);
      } else {
        assert buf[..] == buf[..dst] + packet[..0] + buf[dst..];
      }
    }

    /** `udd_ep_out_received` up to the acknowledge. */
    method CopyFromFifo() returns (full: bool, short: bool)
      requires Valid()
      modifies this, buf
      ensures Valid() && View() == BulkOut.Copy(old(View())) && buf == old(buf)
      ensures full || short <==> BulkOut.Terminal(old(View()))
    {
      ghost var before := View();
      var packet := Fifo();
      assert packet == BulkOut.Content(before.hw, BulkOut.Oldest(before.hw));
      short := |packet| < size;
      full := StoreBytes(packet);
      got := got + [packet];
      taken := taken + [packet];
      ghost var want := BulkOut.Copy(before);
      assert View().job == want.job;
      assert View().hw == want.hw;
      assert View() == want;
    }

    /** `udd_ep_out_received`. */
    method OutReceived(callback: Option<Region>)
      requires Valid() && (callback.Some? ==> callback.value.limit <= callback.value.data.Length)
      modifies this, buf
      ensures Valid()
      ensures BulkOut.Copy(old(View())).job.mem == old(buf)[..]
      ensures View() == BulkOut.Receive(old(View()), Argument(callback))
    {
      var full, short := CopyFromFifo();
      AckOutReceived();
      if (full || short) && !forcestall {
        irq := false;
        ghost var limit := bufSize;
        bufSize := bufCnt;
        FinishJob(true, limit, callback);
      }
    }

    /** The RXOUT branch of `udd_ep_interrupt`. */
    method RxInterrupt(callback: Option<Region>)
      requires Valid() && (callback.Some? ==> callback.value.limit <= callback.value.data.Length)
      modifies this, buf
      ensures Valid() && View() == BulkOut.Interrupt(old(View()), Argument(callback))
    {
      if irq && (bk0.Some? || bk1.Some?) {
        OutReceived(callback);
      }
    }

    method SetHalt()
      requires Valid()
      modifies this
      ensures Valid() && View() == BulkOut.SetHalt(old(View()))
    {
      forcestall := true;
      irq := true;
    }

    method ResetEndpoint()
      requires Valid()
      modifies this
      ensures Valid() && View() == BulkOut.Reset(old(View())) && buf == old(buf)
    {
      bk0, bk1, fill := None, None, 0;
      arrived, taken := [], [];
    }

    method ClearHalt(callback: Option<Region>)
      requires Valid() && (callback.Some? ==> callback.value.limit <= callback.value.data.Length)
      modifies this
      ensures Valid() && View() == BulkOut.ClearHalt(old(View()), Argument(callback))
    {
      stallRequested := false;
      if forcestall {
        forcestall := false;
        ResetEndpoint();
        if busy {
          busy := false;
          if callback.Some? {
            var _ := Run(callback.value);
          }
        }
      }
    }

    method Abort(callback: Option<Region>)
      requires Valid() && (callback.Some? ==> callback.value.limit <= callback.value.data.Length)
      modifies this
      ensures Valid() && View() == BulkOut.Abort(old(View()), Argument(callback))
    {
      irq := false;
      ghost var masked := View();
      while bk0.Some? || bk1.Some?
        invariant Valid() && BulkOut.AckAll(View()) == BulkOut.AckAll(masked) && buf == old(buf)
        decreases BulkOut.Filled(View().hw)
      {
        AckOutReceived();
      }
      ResetEndpoint();
      FinishJob(false, bufSize, callback);
    }

    /** `udd_ep_free`. */
    method Free(callback: Option<Region>)
      requires Valid() && (callback.Some? ==> callback.value.limit <= callback.value.data.Length)
      modifies this
      ensures Valid() && View() == BulkOut.Free(old(View()), Argument(callback))
    {
      ghost var before := View();
      enabled := false;
      assert View() == before.(hw := before.hw.(enabled := false));
      FinishJob(false, bufSize, callback);
    }

    /** `udd_ep_alloc`. */
    method Alloc(maxEndpointSize: PacketSize) returns (ok: bool)
      requires Valid()
      modifies this
      ensures Valid() && View() == BulkOut.Alloc(old(View()), maxEndpointSize)
      ensures ok <==> !old(enabled) && maxEndpointSize <= SizeMax(ep)
    {
      if enabled {
        return false;
      }
      if maxEndpointSize > SizeMax(ep) {
        return false;
      }
      size := maxEndpointSize;
      stallRequested := false;
      ResetEndpoint();
      enabled := true;
      return true;
    }
  }
}
