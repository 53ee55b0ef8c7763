/** The control endpoint of `udp_device.c` in its own form: an object whose methods update the state
    variables, read the payload into the FIFO and the FIFO into the payload. Each method is
    proved against module Control. The over/underrun callback is given by the buffer it
    supplies, if any. */
module ControlDriver {
  import opened Usb
  import opened Control

  class ControlEndpoint {
    // udd_ep_control_state and the two counters, and the static flag of udd_ctrl_in_sent
    var phase: Phase
    var prev: nat
    var cur: nat
    var shortPacket: bool

    // udd_g_ctrlreq
    var wLength: nat
    var payload: array<Byte>
    var payloadSize: nat
    var callback: bool
    var overUnderRun: bool

    // endpoint 0
    var fifo: seq<Byte>
    var inPending: bool
    var forcestall: bool

    ghost var obs: Observed

    ghost function View(): Ctrl
      reads this, payload
    {
      Ctrl(phase, prev, cur, shortPacket, Request(wLength, payload[..], payloadSize, callback, overUnderRun),
           inPending, forcestall, obs)
    }

    ghost predicate Valid()
      reads this, payload
    {
      Wf(View())
    }

    static ghost function Contents(supply: Option<array<Byte>>): Option<seq<Byte>>
      reads if supply.Some? then {supply.value} else {}
    {
      match supply
      case None => None
      case Some(a) => Some(a[..])
    }

    method CtrlInit()
      modifies this
      ensures View() == Control.CtrlInit(old(View())) && payload == old(payload)
    {
      callback := false;
      overUnderRun := false;
      payloadSize := 0;
      phase := SetupWait;
    }

    method EndOfRequest()
      modifies this`obs
      ensures View() == Control.EndOfRequest(old(View())) && payload == old(payload)
    {
      if callback {
        obs := obs.(ran := obs.ran + [obs.requests]);
      }
    }

    method StallData()
      modifies this
      ensures View() == Control.StallData(old(View())) && payload == old(payload)
    {
      phase := StallReq;
      forcestall := true;
    }

    method SendZlpIn()
      modifies this
      ensures View() == Control.SendZlpIn(old(View())) && payload == old(payload)
    {
      phase := WaitInZlp;
      inPending := true;
    }

    /** The copy loop of `udd_ctrl_in_sent`, and the validation of the packet. */
    method FillFifo(count: nat)
      requires cur + count <= payload.Length
      modifies this`fifo
      ensures fifo == payload[cur..cur + count]
    {
      fifo := [];
      for i := 0 to count
        invariant fifo == payload[cur..cur + i]
      {
        fifo := fifo + [payload[cur + i]];
      }
    }

    /** `udd_ctrl_in_sent` from the choice of the packet size on. */
    method SendData(remain: nat, outReceived: bool)
      requires Valid() && phase == DataIn && cur + remain <= payloadSize
      modifies this
      ensures Valid() && View() == Control.SendData(old(View()), remain, outReceived) && payload == old(payload)
    {
      var count := remain;
      if count >= CTRL_SIZE {
        count := CTRL_SIZE;
        shortPacket := false;
      } else {
        shortPacket := true;
      }
      if outReceived {
        phase := WaitOutZlp;
        inPending := false;
        return;
      }
      FillFifo(count);
      cur := (cur + count) % 65536;
      inPending := true;
      obs := obs.(sent := obs.sent + [fifo]);
    }

    /** A payload buffer from the over/underrun callback. */
    method TakeSupply(data: array<Byte>)
      requires data.Length < 65536
      modifies this
      ensures View() == Supplied(old(View()), data[..]) && payload == data
    {
      payload, payloadSize := data, data.Length;
      obs := obs.(given := obs.given + [data[..]]);
      cur := 0;
    }

    /** `udd_ctrl_in_sent` when the present buffer is sent. */
    method BufferSent(outReceived: bool, supply: Option<array<Byte>>)
      requires Valid() && SupplyOk(Contents(supply)) && phase == DataIn && cur == payloadSize
      modifies this
      ensures Valid() && View() == Control.BufferSent(old(View()), outReceived, Contents(supply))
    {
      ghost var before := View();
      prev := (prev + cur) % 65536;
      ghost var counted := View();
      assert counted == before.(prev := U16(before.prev + before.cur));
      if wLength == prev || shortPacket {
        phase := WaitOutZlp;
        inPending := false;
      } else if !overUnderRun || supply.None? {
        SendData(0, outReceived);
      } else {
        TakeSupply(supply.value);
        SendData(payloadSize, outReceived);
      }
    }

    /** `udd_ctrl_in_sent`. */
    method InSent(outReceived: bool, supply: Option<array<Byte>>)
      requires Valid() && SupplyOk(Contents(supply))
      requires phase == DataIn || phase == WaitInZlp
      modifies this
      ensures Valid() && View() == CtrlInSent(old(View()), outReceived, Contents(supply))
    {
      if phase == WaitInZlp {
        ghost var before := View();
        inPending := false;
        assert View() == before.(inPending := false);
        EndOfRequest();
        CtrlInit();
        return;
      }
      var remain := (payloadSize - cur) % 65536;
      if remain == 0 {
        BufferSent(outReceived, supply);
      } else {
        SendData(remain, outReceived);
      }
    }

    /** The copy loop of `udd_ctrl_out_received`. */
    method DrainFifo(p: Packet, count: nat)
      requires count <= |p| && cur + count <= payload.Length
      modifies payload
      ensures payload[..] == old(payload[..])[..cur] + p[..count] + old(payload[..])[cur + count..]
    {
      ghost var before := payload[..];
      for i := 0 to count
        invariant payload[..] == before[..cur] + p[..i] + before[cur + i..]
      {
        payload[cur + i] := p[i];
      }
    }

    /** `udd_ctrl_out_received` in the data stage up to the counters. */
    method StoreOut(p: Packet) returns (count: nat)
      requires Valid() && phase == DataOut
      modifies this, payload
      ensures Valid() && View() == Control.StoreOut(old(View()), p) && payload == old(payload)
      ensures count == Room(old(View()), p)
    {
      count := |p|;
      if payloadSize < cur + count {
        count := payloadSize - cur;
      }
      DrainFifo(p, count);
      cur := (cur + count) % 65536;
      obs := obs.(outs := obs.outs + [p], stored := obs.stored + p[..count]);
    }

    /** `udd_ctrl_out_received` at the end of the data stage. */
    method OutComplete(supply: Option<array<Byte>>)
      requires Valid() && phase == DataOut && !inPending
      modifies this
      ensures Valid() && View() == Control.OutComplete(old(View()), Contents(supply))
    {
      ghost var before := View();
      payloadSize := cur;
      assert View() == before.(req := before.req.(payloadSize := before.cur));
      if overUnderRun && supply.None? {
        StallData();
      } else {
        SendZlpIn();
      }
    }

    /** `udd_ctrl_out_received` when the payload buffer is full and more data is due. */
    method OutOverrun(supply: Option<array<Byte>>)
      requires Valid() && SupplyOk(Contents(supply)) && phase == DataOut && !inPending
      modifies this
      ensures Valid() && View() == Control.OutOverrun(old(View()), Contents(supply))
    {
      if !overUnderRun || supply.None? {
        StallData();
        return;
      }
      prev := (prev + cur) % 65536;
      TakeSupply(supply.value);
    }

    /** `udd_ctrl_out_received`. */
    method OutReceived(p: Packet, supply: Option<array<Byte>>)
      requires Valid() && SupplyOk(Contents(supply))
      modifies this, payload
      ensures Valid() && View() == CtrlOutReceived(old(View()), p, Contents(supply))
    {
      ghost var before := View();
      inPending := false;
      assert View() == before.(inPending := false);
      if phase != DataOut {
        OutElsewhere();
        return;
      }
      var count := StoreOut(p);
      if CTRL_SIZE != count || wLength <= prev + cur {
        OutComplete(supply);
      } else if payloadSize == cur {
        OutOverrun(supply);
      }
    }

    /** `udd_ctrl_out_received` outside the OUT data stage. */
    method OutElsewhere()
      requires Valid() && phase != DataOut && !inPending
      modifies this
      ensures Valid()
      ensures View() == Control.CtrlInit(if old(phase) == DataIn || old(phase) == WaitOutZlp
                                         then Control.EndOfRequest(old(View())) else Control.StallData(old(View())))
    {
      if phase == DataIn || phase == WaitOutZlp {
        EndOfRequest();
      } else {
        StallData();
      }
      CtrlInit();
    }

    /** `udd_ctrl_setup_received` up to the decoding of the request. */
    method NewRequest()
      requires Valid()
      modifies this
      ensures Valid() && View() == Control.NewRequest(old(View()))
    {
      ghost var before := View();
      inPending, forcestall := false, false;
      assert View() == before.(inPending := false, forcestall := false);
      if phase != SetupWait {
        EndOfRequest();
        CtrlInit();
      }
      obs := Observed(obs.requests + 1, obs.ran, [], [], [], []);
    }

    /** What `udc_process_setup` writes. */
    method Decide(d: Decision, data: array<Byte>)
      requires Valid() && phase == SetupWait && !inPending && data.Length < 65536 && data[..] == d.payload
      modifies this
      ensures Valid() && View() == Control.Decide(old(View()), d)
    {
      wLength, payload, payloadSize := d.wLength, data, data.Length;
      callback, overUnderRun := d.callback, d.overUnderRun;
      obs := obs.(given := [d.payload]);
    }

    /** Entering a data stage. */
    method EnterData(stage: Phase)
      requires Valid() && (stage == DataIn || stage == DataOut) && !inPending
      modifies this
      ensures Valid() && View() == old(View()).(prev := 0, cur := 0, phase := stage)
    {
      prev, cur := 0, 0;
      phase := stage;
    }

    /** `udd_ctrl_setup_received`; `d` and `data` are what `udc_process_setup` decides. */
    method SetupReceived(eightBytes: bool, d: Decision, data: array<Byte>, outReceived: bool, supply: Option<array<Byte>>)
      requires Valid() && SupplyOk(Contents(supply)) && data.Length < 65536 && data[..] == d.payload
      modifies this
      ensures Valid() && View() == Control.SetupReceived(old(View()), eightBytes, d, outReceived, Contents(supply))
    {
      NewRequest();
      if !eightBytes {
        StallData();
        return;
      }
      Decide(d, data);
      if !d.known {
        StallData();
      } else if d.isIn {
        EnterData(DataIn);
        InSent(outReceived, supply);
      } else if wLength == 0 {
        SendZlpIn();
      } else {
        EnterData(DataOut);
      }
    }
  }
}
