/** The IN side of `udp_device.c` in its own form: one endpoint as an object whose methods update
    the job structure and the registers. Each method is proved against module BulkIn.
    Callbacks are given by the transfer they start, if any. */
module BulkInDriver {
  import opened Usb
  import BulkIn

  class InEndpoint {
    const ep: nat
    var size: nat

    // registers and FIFO; TXPKTRDY is `validated.Some?`
    var validated: Option<Packet>
    var fifo: seq<Byte>
    var txcomp: bool
    var forcestall: bool
    var irq: bool
    var enabled: bool

    var job: BulkIn.Job

    // observers: what the host has read, packet boundaries in the FIFO, the call log
    ghost var sent: seq<Packet>
    ghost var staged: seq<Packet>
    ghost var log: seq<BulkIn.Completion>

    ghost function View(): BulkIn.Endpoint
      reads this
    {
      BulkIn.Endpoint(ep, size,
                      BulkIn.Hw(if validated.Some? then [validated.value] else [], staged,
                                txcomp, forcestall, irq, enabled, sent),
                      job, log)
    }

    ghost predicate Valid()
      reads this
    {
      BulkIn.Wf(View()) && fifo == Flatten(staged)
    }

    constructor (ep: nat, size: nat)
      requires size > 0
      ensures Valid() && View() == BulkIn.Init(ep, size)
    {
      this.ep, this.size := ep, size;
      validated, fifo, txcomp, forcestall, irq, enabled := None, [], false, false, false, true;
      job := BulkIn.Job(BulkIn.Transfer([], false), 0, 0, 0, false, false, false, false);
      sent, staged, log := [], [], [];
    }

    method SetTransmitReady()
      requires Valid()
      modifies this
      ensures Valid() && View() == old(View()).(hw := BulkIn.Validate(old(View()).hw))
    {
      if validated.None? {
        validated, fifo := Some(fifo), [];
        staged := [];
      }
    }

    /** The copy loops of `udd_ep_write_fifo`: eight bytes at a time, then the rest one by one. */
    method CopyToFifo(data: seq<Byte>, start: nat, count: nat)
      requires start + count <= |data|
      modifies this`fifo
      ensures fifo == old(fifo) + data[start..start + count]
    {
      var src, pktSize := start, count;
      while pktSize >= 8
        invariant start <= src && 0 <= pktSize && src + pktSize == start + count
        invariant fifo == old(fifo) + data[start..src]
      {
        Appended(old(fifo), data, start, src, 8);
        fifo := fifo + [data[src], data[src + 1], data[src + 2], data[src + 3],
                        data[src + 4], data[src + 5], data[src + 6], data[src + 7]];
        src, pktSize := src + 8, pktSize - 8;
      }
      while pktSize > 0
        invariant start <= src && 0 <= pktSize && src + pktSize == start + count
        invariant fifo == old(fifo) + data[start..src]
      {
        Appended(old(fifo), data, start, src, 1);
        fifo := fifo + [data[src]];
        src, pktSize := src + 1, pktSize - 1;
      }
    }

    static lemma Appended(before: seq<Byte>, data: seq<Byte>, start: nat, src: nat, n: nat)
      requires start <= src && src + n <= |data|
      ensures before + data[start..src] + data[src..src + n] == before + data[start..src + n]
      ensures n == 8 ==> data[src..src + n] == [data[src], data[src + 1], data[src + 2], data[src + 3],
                                                data[src + 4], data[src + 5], data[src + 6], data[src + 7]]
      ensures n == 1 ==> data[src..src + n] == [data[src]]
    {
      assert data[start..src] + data[src..src + n] == data[start..src + n];
    }

    /** `udd_ep_write_fifo`. */
    method WriteFifo() returns (isShort: bool)
      requires Valid()
      modifies this
      ensures Valid() && View() == BulkIn.WriteFifo(old(View()))
      ensures isShort == BulkIn.LastIsShort(old(View()))
    {
      var src := job.bufCnt;
      var remain := job.bufSize - job.bufCnt;
      var pktSize := size;
      isShort := false;
      if remain < pktSize {
        pktSize := remain;
        isShort := true;
      }
      job := job.(bufCnt := job.bufCnt + pktSize);
      CopyToFifo(job.transfer.buf, src, pktSize);
      FlattenSnoc(staged, job.transfer.buf[src..src + pktSize]);
      staged := staged + [job.transfer.buf[src..src + pktSize]];
      job := job.(bank := (job.bank + 1) % 4);
    }

    /** `udd_ep_in_sent`. */
    method InSent(tx: bool) returns (pending: bool)
      requires Valid()
      modifies this
      ensures Valid() && View() == BulkIn.InSent(old(View()), tx).0
      ensures pending == BulkIn.InSent(old(View()), tx).1
    {
      if job.bank >= BankMax(ep) {
        return true;
      }
      if job.bufCnt >= job.bufSize && !job.shortPacket {
        return false;
      }
      pending := Load(tx);
    }

    /** Its second half: a bank is free and there is something to load. */
    method Load(tx: bool) returns (pending: bool)
      requires Valid()
      modifies this
      ensures Valid() && View() == BulkIn.Load(old(View()), tx)
      ensures pending == !BulkIn.Drained(BulkIn.Load(old(View()), tx).job)
    {
      var isShort := WriteFifo();
      ghost var written := View();
      if tx {
        SetTransmitReady();
      }
      assert View() == if tx then written.(hw := BulkIn.Validate(written.hw)) else written;
      if isShort {
        job := job.(shortPacket := false);
      }
      if job.bufCnt >= job.bufSize && !job.shortPacket {
        job := job.(bufEnd := true);
        return false;
      }
      return true;
    }

    /** `udd_ep_run`. */
    method Run(t: BulkIn.Transfer) returns (accepted: bool)
      requires Valid()
      modifies this
      ensures Valid() && View() == BulkIn.Run(old(View()), t)
      ensures accepted == BulkIn.Accepts(old(View()))
    {
      if !enabled || job.stallRequested || forcestall {
        return false;
      }
      if job.busy {
        return false;
      }
      job := job.(busy := true);
      job := job.(transfer := t, bufSize := |t.buf|, bufCnt := 0,
                  shortPacket := t.askShort || |t.buf| == 0, bufEnd := false);
      irq := true;
      ghost var registered := BulkIn.Register(old(View()), t);
      assert View() == registered;
      if validated.Some? || txcomp {
        // more data is appended by the interrupt routine
      } else {
        var pending := InSent(true);
        if pending {
          pending := InSent(false);
        }
      }
      return true;
    }

    /** `udd_ep_finish_job`. */
    method FinishJob(ok: bool, callback: Option<BulkIn.Transfer>)
      requires Valid()
      modifies this
      ensures Valid() && View() == BulkIn.Finish(old(View()), ok, callback)
    {
      if !job.busy {
        return;
      }
      job := job.(busy := false);
      log := log + [BulkIn.Completion(job.transfer, ok, job.bufSize)];
      if callback.Some? {
        var _ := Run(callback.value);
      }
    }

    /** The end of a buffer in the interrupt routine. */
    method FinishBuffer(callback: Option<BulkIn.Transfer>)
      requires Valid()
      modifies this
      ensures Valid() && View() == BulkIn.FinishBuffer(old(View()), callback)
    {
      ghost var before := View();
      job := job.(bufEnd := false);
      job := job.(bufSize := job.bufCnt);
      assert View() == before.(job := before.job.(bufEnd := false, bufSize := before.job.bufCnt));
      FinishJob(true, callback);
    }

    /** The TXCOMP branch of `udd_ep_interrupt`. */
    method TxInterrupt(cb1: Option<BulkIn.Transfer>, cb2: Option<BulkIn.Transfer>)
      requires Valid()
      modifies this
      ensures Valid() && View() == BulkIn.Interrupt(old(View()), cb1, cb2)
    {
      if !irq || !txcomp {
        return;
      }
      ghost var before := View();
      job := job.(bank := (job.bank + 3) % 4);
      assert View() == before.(job := before.job.(bank := (before.job.bank + 3) % 4));
      if job.stallRequested {
        DrainBank();
      } else {
        ServeCompletion(cb1, cb2);
      }
    }

    /** The part of it without a halt: finish the job at the end of its buffer, then serve the banks. */
    method ServeCompletion(cb1: Option<BulkIn.Transfer>, cb2: Option<BulkIn.Transfer>)
      requires Valid()
      modifies this
      ensures Valid()
      ensures View() == BulkIn.Refill(if old(job.bufEnd) then BulkIn.FinishBuffer(old(View()), cb1) else old(View()), cb2)
    {
      ghost var s0 := View();
      if job.bufEnd {
        FinishBuffer(cb1);
      }
      assert View() == if s0.job.bufEnd then BulkIn.FinishBuffer(s0, cb1) else s0;
      ServeBanks(cb2);
    }

    /** Its first part, while a halt is deferred: stall when all banks are free. */
    method DrainBank()
      requires Valid()
      modifies this
      ensures Valid() && View() == BulkIn.DrainBank(old(View()))
    {
      if job.bank != 0 {
        SetTransmitReady();
        txcomp := false;
      } else {
        txcomp := false;
        forcestall := true;
        job := job.(stallRequested := false);
      }
    }

    /** The remainder of that branch: disable, transmit and load, or load both. */
    method ServeBanks(cb: Option<BulkIn.Transfer>)
      requires Valid()
      modifies this
      ensures Valid() && View() == BulkIn.Refill(old(View()), cb)
    {
      if job.bufCnt >= job.bufSize && !job.shortPacket && job.bank == 0 {
        irq := false;
        txcomp := false;
      } else if BankMax(ep) > 1 && job.bank > 0 {
        TransmitAndLoad();
      } else if BankMax(ep) > 1 {
        LoadBoth(cb);
      } else {
        var _ := InSent(true);
        txcomp := false;
      }
    }

    /** Its dual-bank part with one bank filled: transmit it while loading the other. */
    method TransmitAndLoad()
      requires Valid()
      modifies this
      ensures Valid()
      ensures View() == BulkIn.InSent(BulkIn.Ack(old(View()).(hw := BulkIn.Validate(old(View()).hw))), false).0
    {
      ghost var before := View();
      SetTransmitReady();
      txcomp := false;
      assert View() == BulkIn.Ack(before.(hw := BulkIn.Validate(before.hw)));
      var _ := InSent(false);
    }

    /** Its dual-bank part with both banks free. */
    method LoadBoth(cb: Option<BulkIn.Transfer>)
      requires Valid()
      modifies this
      ensures Valid() && View() == BulkIn.LoadBoth(old(View()), cb)
    {
      var pending := InSent(true);
      ghost var loaded := View();
      if !pending {
        FinishBuffer(cb);
      }
      ghost var before := View();
      assert before == if pending then loaded else BulkIn.FinishBuffer(loaded, cb);
      txcomp := false;
      assert View() == BulkIn.Ack(before);
      pending := InSent(false);
    }

    method SetHalt()
      requires Valid()
      modifies this
      ensures Valid() && View() == BulkIn.SetHalt(old(View()))
    {
      if validated.Some? || job.bank > 1 {
        job := job.(stallRequested := true);
        irq := true;
      } else {
        forcestall := true;
        irq := true;
      }
    }

    method ResetEndpoint()
      requires Valid()
      modifies this
      ensures Valid() && View() == BulkIn.Discard(old(View()))
    {
      validated, fifo, staged := None, [], [];
    }

    method ClearHalt(callback: Option<BulkIn.Transfer>)
      requires Valid()
      modifies this
      ensures Valid() && View() == BulkIn.ClearHalt(old(View()), callback)
    {
      job := job.(stallRequested := false);
      if forcestall {
        forcestall := false;
        ResetEndpoint();
        if job.busy {
          job := job.(busy := false);
          if callback.Some? {
            var _ := Run(callback.value);
          }
        }
      }
    }

    method Abort(callback: Option<BulkIn.Transfer>)
      requires Valid()
      modifies this
      ensures Valid() && View() == BulkIn.Abort(old(View()), callback)
    {
      irq := false;
      if validated.Some? {
        validated := None; // both banks are killed
        fifo, staged := [], [];
      }
      txcomp := false;
      job := job.(bank := 0);
      ResetEndpoint();
      assert View() == BulkIn.Killed(old(View()));
      FinishJob(false, callback);
    }

    /** `udd_ep_free`. */
    method Free(callback: Option<BulkIn.Transfer>)
      requires Valid()
      modifies this
      ensures Valid() && View() == BulkIn.Free(old(View()), callback)
    {
      ghost var before := View();
      enabled := false;
      assert View() == before.(hw := before.hw.(enabled := false));
      FinishJob(false, callback);
    }

    /** `udd_ep_alloc`. */
    method Alloc(maxEndpointSize: PacketSize) returns (ok: bool)
      requires Valid()
      modifies this
      ensures Valid() && View() == BulkIn.Alloc(old(View()), maxEndpointSize)
      ensures ok <==> !old(enabled) && maxEndpointSize <= SizeMax(ep)
    {
      if enabled {
        return false;
      }
      if maxEndpointSize > SizeMax(ep) {
        return false;
      }
      size := maxEndpointSize;
      job := job.(bufEnd := false);
      job := job.(stallRequested := false);
      job := job.(bank := 0);
      ResetEndpoint();
      enabled := true;
      return true;
    }

    /** `udd_ep_job_table_reset`, for this endpoint. */
    method TableReset()
      requires Valid()
      modifies `job
      ensures Valid() && View() == BulkIn.TableReset(old(View()))
    {
      job := job.(bank := 0);
      job := job.(busy := false);
      job := job.(stallRequested := false);
      job := job.(shortPacket := false);
      job := job.(bufEnd := false);
    }
  }
}
