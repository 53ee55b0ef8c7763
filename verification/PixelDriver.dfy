/** The two ends of the pixel path in their own form: the vendor callback on the static buffers, and the
    host's USB driver cutting a frame into line packets. */
module PixelDriver {
  import opened Usb
  import opened Lcd
  import PixelPath

  class VendorDevice {
    const recvBuff: array<Byte>
    const memory: array<Byte>     // the frame buffer, and what lies behind it
    var armed: bool               // `udi_display_bulk_out_run` was called last
    ghost var past: bool          // a copy went beyond the frame buffer

    ghost predicate Valid() {
      && recvBuff.Length == PixelPath.RECV_SIZE && recvBuff != memory
      && memory.Length >= LINE_BYTES * (DEVICE_LINES + 1)
    }

    ghost function View(): PixelPath.Sink
      requires Valid()
      reads this, recvBuff, memory
    {
      PixelPath.Sink(recvBuff[..], memory[..LINE_BYTES * DEVICE_LINES], past, armed)
    }

    constructor (behind: nat)
      requires behind >= LINE_BYTES
      ensures Valid() && fresh(recvBuff) && fresh(memory) && !armed && !past
    {
      recvBuff := new Byte[PixelPath.RECV_SIZE];
      memory := new Byte[LINE_BYTES * DEVICE_LINES + behind];
      armed, past := false, false;
    }

    /** `vendor_out_ep_callback`. The copy of line 242 lands behind the frame buffer. */
    method OutCallback(ok: bool)
      requires Valid()
      modifies this, memory
      ensures View() == if ok then PixelPath.VendorCallback(old(View())) else old(View()).(armed := false)
      ensures memory[..] == if ok && PixelPath.Admitted(recvBuff[0] as nat)
                            then PixelPath.CopyInto(old(memory[..]), LINE_BYTES * recvBuff[0] as nat,
                                                    recvBuff[1..1 + LINE_BYTES])
                            else old(memory[..])
    {
      armed := false;
      if !ok {
        return;
      }
      var line := recvBuff[0] as nat;
      if line > DEVICE_LINES {
        return;
      }
      CopyLine(line);
      past := past || LINE_BYTES * line + LINE_BYTES > LINE_BYTES * DEVICE_LINES;
      PrefixOfCopy(old(memory[..]), LINE_BYTES * DEVICE_LINES, LINE_BYTES * line, recvBuff[1..1 + LINE_BYTES]);
      assert old(memory[..LINE_BYTES * DEVICE_LINES]) == old(memory[..])[..LINE_BYTES * DEVICE_LINES];
      armed := true;
    }

    /** The `memcpy` of the line. */
    method CopyLine(line: nat)
      requires Valid() && line <= DEVICE_LINES
      modifies memory
      ensures memory[..] == PixelPath.CopyInto(old(memory[..]), LINE_BYTES * line, recvBuff[1..1 + LINE_BYTES])
    {
      var at := LINE_BYTES * line;
      for i := 0 to LINE_BYTES
        invariant forall k :: at <= k < at + i ==> memory[k] == recvBuff[1 + k - at]
        invariant forall k :: 0 <= k < at || at + i <= k < memory.Length ==> memory[k] == old(memory[k])
      {
        memory[at + i] := recvBuff[1 + i];
      }
    }
  }

  lemma PrefixOfCopy(mem: seq<Byte>, n: nat, at: nat, d: seq<Byte>)
    requires n <= |mem|
    ensures PixelPath.CopyInto(mem, at, d)[..n] == PixelPath.CopyInto(mem[..n], at, d)
  {
  }

  /** What the kernel answers for one line. */
  datatype Answer = NoUrb | NoBuffer | SubmitFails | Submitted

  /** The fill of one transfer buffer: line number and host line. */
  method FillPacket(vm: HostFrame, i: nat) returns (p: Packet)
    requires i < HOST_LINES
    ensures p == PixelPath.HostPacketOf(vm, i)
  {
    var buf := new Byte[PixelPath.PACKET];
    buf[0] := ByteOf(i);
    for j := 0 to HOST_PITCH
      invariant buf[0] == ByteOf(i)
      invariant forall k :: 1 <= k < 1 + j ==> buf[k] == vm[HOST_PITCH * i + k - 1]
    {
      buf[1 + j] := vm[HOST_PITCH * i + j];
    }
    p := buf[..];
    assert p == [ByteOf(i)] + vm[HOST_PITCH * i..HOST_PITCH * (i + 1)];
  }

  /** `ls027b7dh01_update` of the host's USB driver: it stops at the first failure, having submitted
      exactly the packets of the lines before it. */
  method HostUpdate(vm: HostFrame, answer: nat -> Answer) returns (n: nat, submitted: seq<Packet>)
    ensures n <= HOST_LINES && (forall k :: 0 <= k < n ==> answer(k).Submitted?)
    ensures n < HOST_LINES ==> !answer(n).Submitted?
    ensures submitted == PixelPath.HostPackets(vm, n)
  {
    n, submitted := 0, [];
    while n < HOST_LINES
      invariant 0 <= n <= HOST_LINES && forall k :: 0 <= k < n ==> answer(k).Submitted?
      invariant submitted == PixelPath.HostPackets(vm, n)
    {
      if answer(n).NoUrb? || answer(n).NoBuffer? {
        return;
      }
      var buf := FillPacket(vm, n);
      if answer(n).SubmitFails? {
        return;
      }
      submitted := submitted + [buf];
      n := n + 1;
    }
  }
}
