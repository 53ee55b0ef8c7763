/** The firmware's way from the frame buffer to the SPI: bounded polling in `spi_write`, unbounded
    retries in `MemLcd.c`, line messages and the screen refresh; and the host's SPI driver. What the display
    takes is read off the log of the wire alone: the bytes written and shifted out while it is selected. */
module SpiDriver {
  import opened Usb
  import opened Lcd
  import opened BitTable

  /** `SPI_TIMEOUT`. */
  const SPI_TIMEOUT: nat := 15000

  /** A write to the transmit data register, in fixed or in variable peripheral select mode. */
  datatype TdrWrite = Fixed(data: Byte) | Variable(data: Byte, pcs: nat, last: bool)

  /** TDRE is read as set in some poll from poll n on. */
  ghost predicate ReadyFrom(ready: nat -> bool, n: nat) {
    exists k: nat :: n <= k && ready(k)
  }

  /** The hardware is ready again and again. */
  ghost predicate Fair(ready: nat -> bool) {
    forall n: nat :: ReadyFrom(ready, n)
  }

  /** TDRE is read as set in one of the polls a call makes from poll n on. */
  predicate ReadyInTime(ready: nat -> bool, n: nat) {
    exists k :: n <= k <= n + SPI_TIMEOUT && ready(k)
  }

  function Data(ws: seq<TdrWrite>): (r: seq<Byte>)
    ensures |r| == |ws|
  {
    seq(|ws|, i requires 0 <= i < |ws| => ws[i].data)
  }

  // ---------------------------------------------------------------- the wire

  /** What happens on the wire: the chip select goes to a level, a byte is written to the transmit register, or
      the driver has seen all written bytes shifted out. */
  datatype WireEvent = Level(high: bool) | Wrote(data: Byte) | Drained

  /** The display: the bytes it has taken since it was selected, those that may still be in the transmitter, and
      the frames it has taken: the bytes shifted out between a rise and the next fall of its select. */
  datatype Display = Display(selected: bool, open: seq<Byte>, pending: seq<Byte>, frames: seq<seq<Byte>>)

  function Sees(d: Display, e: WireEvent): Display {
    match e
    case Level(high) =>
      if high == d.selected then d
      else if high then Display(true, [], [], d.frames)
      else Display(false, [], [], d.frames + [d.open])
    case Wrote(b) => d.(pending := d.pending + [b])
    case Drained => d.(open := if d.selected then d.open + d.pending else d.open, pending := [])
  }

  /** The display after a log of the wire. */
  function Taken(wire: seq<WireEvent>): Display {
    if wire == [] then Display(false, [], [], []) else Sees(Taken(wire[..|wire| - 1]), wire[|wire| - 1])
  }

  lemma TakenSnoc(wire: seq<WireEvent>, e: WireEvent)
    ensures Taken(wire + [e]) == Sees(Taken(wire), e)
  {
    assert (wire + [e])[..|wire|] == wire;
  }

  /** The display has been given one more byte. */
  predicate OneMoreByte(d: Display, r: Display, b: Byte) {
    r == d.(pending := d.pending + [b])
  }

  // ---------------------------------------------------------------- the peripheral

  /** The SPI peripheral: `ready(k)` and `empty(k)` are the values of TDRE and of TXEMPTY at the k-th poll of the
      status register ever made. `wire` is an observer. */
  class Spi {
    const ready: nat -> bool
    const empty: nat -> bool
    const variableSelect: bool
    var polls: nat
    var tdr: seq<TdrWrite>
    ghost var wire: seq<WireEvent>

    constructor (ready: nat -> bool, empty: nat -> bool, variableSelect: bool)
      ensures this.ready == ready && this.empty == empty && this.variableSelect == variableSelect
      ensures polls == 0 && tdr == [] && wire == []
    {
      this.ready, this.empty, this.variableSelect, polls, tdr := ready, empty, variableSelect, 0, [];
      wire := [];
    }

    /** `spi_write`: it succeeds exactly when TDRE is set within 15001 polls, and writes once; on a
        timeout it writes nothing. */
    method Write(b: Byte, pcs: nat, last: bool) returns (ok: bool)
      modifies this
      ensures wire == if ok then old(wire) + [Wrote(b)] else old(wire)
      ensures ok <==> ReadyInTime(ready, old(polls))
      ensures polls > old(polls) && (ok ==> ready(polls - 1)) && (!ok ==> polls == old(polls) + SPI_TIMEOUT + 1)
      ensures forall k :: old(polls) <= k < polls - 1 ==> !ready(k)
      ensures tdr == if ok then old(tdr) + [if variableSelect then Variable(b, pcs, last) else Fixed(b)] else old(tdr)
    {
      var timeout := SPI_TIMEOUT;
      var tdre := ready(polls);
      polls := polls + 1;
      while !tdre
        invariant 0 <= timeout <= SPI_TIMEOUT && polls == old(polls) + SPI_TIMEOUT - timeout + 1
        invariant tdre == ready(polls - 1)
        invariant forall k :: old(polls) <= k < polls - 1 ==> !ready(k)
        invariant tdr == old(tdr) && wire == old(wire)
        decreases timeout, !tdre
      {
        if timeout == 0 {
          return false;
        }
        timeout := timeout - 1;
        tdre := ready(polls);
        polls := polls + 1;
      }
      tdr := tdr + [if variableSelect then Variable(b, pcs, last) else Fixed(b)];
      wire := wire + [Wrote(b)];
      return true;
    }

    /** The loop that waits for TXEMPTY: when it ends, all that was written has been shifted out. */
    method WaitEmpty()
      requires Fair(empty)
      modifies this`polls, this`wire
      ensures wire == old(wire) + [Drained]
      ensures polls > old(polls) && empty(polls - 1) && forall k :: old(polls) <= k < polls - 1 ==> !empty(k)
    {
      assert ReadyFrom(empty, polls);
      ghost var k: nat :| polls <= k && empty(k);
      var done := empty(polls);
      polls := polls + 1;
      while !done
        invariant old(polls) < polls && done == empty(polls - 1) && wire == old(wire)
        invariant forall i :: old(polls) <= i < polls - 1 ==> !empty(i)
        invariant !done ==> polls <= k
        decreases k - polls, !done
      {
        done := empty(polls);
        polls := polls + 1;
      }
      wire := wire + [Drained];
    }
  }

  /** The line number as the message holds it, in eight bits. */
  function LineByte(n: nat): (b: nat)
    ensures b < 256 && (n < 256 ==> b == n)
  {
    n % 256
  }

  /** `MemLcd.c`: the global `lcd_line` and the chip select of the display. */
  class MemLcd {
    const spi: Spi
    var mode: Byte
    var line: nat
    var data: seq<Byte>
    var selected: bool

    constructor (spi: Spi)
      requires spi.wire == []
      ensures this.spi == spi && Valid() && Shown() == []
    {
      this.spi, selected := spi, false;
      mode, line, data := 0, 0, [];
    }

    /** What the display has made of the wire so far. */
    ghost function Seen(): Display
      reads this, spi
    {
      Taken(spi.wire)
    }

    /** The frames it has taken. */
    ghost function Shown(): seq<seq<Byte>>
      reads this, spi
    {
      Seen().frames
    }

    /** The chip select is what the wire shows, and the polls will succeed. */
    ghost predicate Valid()
      reads this, spi
    {
      selected == Seen().selected
    }

    ghost predicate Live()
      reads this
    {
      Fair(spi.ready) && Fair(spi.empty)
    }

    /** `ioport_set_pin_level(LCD_SCS, level)`. */
    method Select(level: bool)
      requires Valid()
      modifies this`selected, spi`wire
      ensures Valid() && selected == level && Seen() == Sees(old(Seen()), Level(level))
      ensures spi.wire == old(spi.wire) + [Level(level)]
    {
      selected := level;
      TakenSnoc(spi.wire, Level(level));
      spi.wire := spi.wire + [Level(level)];
    }

    /** The retry loop around `spi_write`: under any fair schedule the byte is written exactly once, to the selected
        display. */
    method Send(b: Byte)
      requires Live() && Valid() && selected
      modifies spi
      ensures Valid() && OneMoreByte(old(Seen()), Seen(), b)
      ensures Data(spi.tdr) == Data(old(spi.tdr)) + [b]
      ensures spi.polls > old(spi.polls)
    {
      assert ReadyFrom(spi.ready, spi.polls);
      ghost var k: nat :| spi.polls <= k && spi.ready(k);
      var ok := spi.Write(b, 0, false);
      while !ok
        invariant spi.polls > old(spi.polls)
        invariant if ok then Data(spi.tdr) == Data(old(spi.tdr)) + [b] else spi.tdr == old(spi.tdr) && spi.polls <= k
        invariant spi.wire == if ok then old(spi.wire) + [Wrote(b)] else old(spi.wire)
        decreases k - spi.polls, !ok
      {
        ok := spi.Write(b, 0, false);
      }
      TakenSnoc(old(spi.wire), Wrote(b));
    }

    /** The loop over the bytes of the line. */
    method SendData(d: Line)
      requires Live() && Valid() && selected && data == d
      modifies spi
      ensures Valid() && Seen() == old(Seen()).(pending := old(Seen()).pending + MirrorAll(d))
      ensures Data(spi.tdr) == Data(old(spi.tdr)) + MirrorAll(d)
    {
      for i := 0 to LINE_BYTES
        invariant Valid()
        invariant Seen() == old(Seen()).(pending := old(Seen()).pending + MirrorAll(d)[..i])
        invariant Data(spi.tdr) == Data(old(spi.tdr)) + MirrorAll(d)[..i]
      {
        var b := Reverse(data[i]);
        Send(b);
        assert MirrorAll(d)[..i + 1] == MirrorAll(d)[..i] + [MirrorAll(d)[i]];
      }
      assert MirrorAll(d)[..LINE_BYTES] == MirrorAll(d);
    }

    /** The writes of one message: its mode, its line number, its data and two dummy bytes. */
    method SendMessage(d: Line)
      requires Live() && Valid() && selected && mode == 1 && line < 256 && data == d
      modifies spi
      ensures Valid() && Seen() == old(Seen()).(pending := old(Seen()).pending + LineMessage(line, d))
      ensures Data(spi.tdr) == Data(old(spi.tdr)) + LineMessage(line, d)
    {
      ghost var before, waiting := Data(spi.tdr), Seen().pending;
      var b := Reverse(mode);
      Send(b);
      b := Reverse(ByteOf(line));
      Send(b);
      SendData(d);
      Send(0);
      Send(0);
      MessageParts(before, line, d);
      MessageParts(waiting, line, d);
    }

    /** `memcld_write_line`: the display takes one frame, which is the message of the line. */
    method WriteLine(n: nat, d: Line)
      requires Live() && Valid() && !selected
      modifies this, spi
      ensures Valid() && !selected
      ensures Shown() == old(Shown()) + [LineMessage(LineByte(n), d)]
      ensures Data(spi.tdr) == Data(old(spi.tdr)) + LineMessage(LineByte(n), d)
    {
      ghost var frames := Shown();
      mode := 1;
      line := LineByte(n);
      data := d;
      Select(true);
      assert Seen() == Display(true, [], [], frames);
      SendMessage(d);
      assert [] + LineMessage(LineByte(n), d) == LineMessage(LineByte(n), d);
      TakenSnoc(spi.wire, Drained);
      spi.WaitEmpty();
      assert Seen() == Display(true, LineMessage(LineByte(n), d), [], frames);
      Select(false);
    }

    /** `memlcd_update_screen`. */
    method UpdateScreen(frame: DeviceFrame)
      requires Live() && Valid() && !selected
      modifies this, spi
      ensures Valid() && !selected
      ensures Shown() == old(Shown()) + ScreenMessages(frame, DEVICE_LINES)
      ensures Data(spi.tdr) == Data(old(spi.tdr)) + Flatten(ScreenMessages(frame, DEVICE_LINES))
    {
      ghost var before, sent := Shown(), Data(spi.tdr);
      var cline: nat := 0;
      while cline < DEVICE_LINES
        invariant 0 <= cline <= DEVICE_LINES && Valid() && !selected
        invariant Shown() == before + ScreenMessages(frame, cline)
        invariant Data(spi.tdr) == sent + Flatten(ScreenMessages(frame, cline))
      {
        var d := DeviceLine(frame, cline);
        WriteLine(cline, d);
        NextLine(frame, cline);
        OneMoreMessage(before, sent, ScreenMessages(frame, cline), LineMessage(LineByte(cline), d));
        cline := cline + 1;
      }
    }
  }

  lemma OneMoreMessage(before: seq<seq<Byte>>, sent: seq<Byte>, ms: seq<seq<Byte>>, m: seq<Byte>)
    ensures before + ms + [m] == before + (ms + [m])
    ensures sent + Flatten(ms) + m == sent + Flatten(ms + [m])
  {
    FlattenSnoc(ms, m);
  }

  lemma NextLine(frame: DeviceFrame, n: nat)
    requires n < DEVICE_LINES
    ensures ScreenMessages(frame, n + 1) == ScreenMessages(frame, n) + [LineMessage(LineByte(n), DeviceLine(frame, n))]
  {
  }

  lemma MessageParts(sent: seq<Byte>, line: nat, d: Line)
    requires line < 256
    ensures sent + [Mirrored(1)] + [Mirrored(ByteOf(line))] + MirrorAll(d) + [0] + [0] == sent + LineMessage(line, d)
    ensures (sent + LineMessage(line, d))[|sent|..] == LineMessage(line, d)
  {
    assert [Mirrored(1)] + [Mirrored(ByteOf(line))] == [Mirrored(1), Mirrored(ByteOf(line))];
  }

  /** Record i of the host's transfer, as a slice. */
  lemma HostTransferRecord(vm: HostFrame, i: nat)
    requires i < HOST_LINES
    ensures HostTransfer(vm)[RECORD * i..RECORD * i + RECORD] == Record(i, HostLine(vm, i))
  {
    HostRecordAt(vm, i);
  }

  lemma HostTransferTail(vm: HostFrame)
    ensures HostTransfer(vm)[RECORD * HOST_LINES..] == [0, 0]
  {
    assert HostTransfer(vm)[RECORD * HOST_LINES] == HostTransferByte(vm, RECORD * HOST_LINES);
    assert HostTransfer(vm)[RECORD * HOST_LINES + 1] == HostTransferByte(vm, RECORD * HOST_LINES + 1);
  }

  /** Sequences that agree up to i and on the next n elements agree up to i + n. */
  lemma AgreeFurther(a: seq<Byte>, b: seq<Byte>, i: nat, n: nat)
    requires i + n <= |a| && i + n <= |b|
    requires a[..i] == b[..i] && a[i..i + n] == b[i..i + n]
    ensures a[..i + n] == b[..i + n]
  {
    assert a[..i + n] == a[..i] + a[i..i + n];
    assert b[..i + n] == b[..i] + b[i..i + n];
  }

  /** The transfer buffer holds record i, read from the host's frame buffer. Records and host lines
      have the same length, so byte k of the transfer comes from byte k - 2 of the frame. */
  predicate Filled(b: seq<Byte>, vm: HostFrame, i: nat)
    requires |b| == RECORD * HOST_LINES + 2 && i < HOST_LINES
  {
    && b[RECORD * i] == 0x80
    && b[RECORD * i + 1] == Mirrored(ByteOf(i))
    && forall k :: RECORD * i + 2 <= k < RECORD * (i + 1) ==> b[k] == Mirrored(vm[k - 2])
  }

  lemma FilledIsRecord(b: seq<Byte>, vm: HostFrame, i: nat)
    requires |b| == RECORD * HOST_LINES + 2 && i < HOST_LINES && Filled(b, vm, i)
    ensures b[RECORD * i..RECORD * i + RECORD] == Record(i, HostLine(vm, i))
  {
    ModeByte();
    var s, r := b[RECORD * i..RECORD * i + RECORD], Record(i, HostLine(vm, i));
    forall k | 2 <= k < RECORD
      ensures s[k] == r[k]
    {
      assert b[RECORD * i + k] == Mirrored(vm[RECORD * i + k - 2]);
    }
  }

  /** The host's inner loop: the data bytes of record i. */
  method FillData(vm: HostFrame, spiBuf: array<Byte>, i: nat)
    requires spiBuf.Length == RECORD * HOST_LINES + 2 && i < HOST_LINES
    modifies spiBuf
    ensures forall k :: RECORD * i + 2 <= k < RECORD * (i + 1) ==> spiBuf[k] == Mirrored(vm[k - 2])
    ensures forall k :: 0 <= k < RECORD * i + 2 || RECORD * (i + 1) <= k < spiBuf.Length ==> spiBuf[k] == old(spiBuf[k])
  {
    for j := 0 to LINE_BYTES
      invariant forall k :: RECORD * i + 2 <= k < RECORD * i + 2 + j ==> spiBuf[k] == Mirrored(vm[k - 2])
      invariant forall k :: 0 <= k < RECORD * i + 2 || RECORD * (i + 1) <= k < spiBuf.Length ==> spiBuf[k] == old(spiBuf[k])
    {
      spiBuf[RECORD * i + 2 + j] := Reverse(vm[HOST_PITCH * i + j]);
    }
  }

  /** The body of the host's outer loop: record i of the transfer buffer. */
  method FillRecord(vm: HostFrame, spiBuf: array<Byte>, i: nat)
    requires spiBuf.Length == RECORD * HOST_LINES + 2 && i < HOST_LINES
    modifies spiBuf
    ensures Filled(spiBuf[..], vm, i)
    ensures forall k :: 0 <= k < RECORD * i || RECORD * (i + 1) <= k < spiBuf.Length ==> spiBuf[k] == old(spiBuf[k])
  {
    spiBuf[RECORD * i] := 0x80;
    spiBuf[RECORD * i + 1] := Reverse(ByteOf(i));
    FillData(vm, spiBuf, i);
  }

  /** The first i records of the transfer are in the buffer, and its last two bytes are zero. */
  predicate FilledUpTo(b: seq<Byte>, vm: HostFrame, i: nat)
    requires |b| == RECORD * HOST_LINES + 2 && i <= HOST_LINES
  {
    b[..RECORD * i] == HostTransfer(vm)[..RECORD * i] && b[RECORD * HOST_LINES..] == [0, 0]
  }

  lemma RecordAdded(b: seq<Byte>, c: seq<Byte>, vm: HostFrame, i: nat)
    requires |b| == |c| == RECORD * HOST_LINES + 2 && i < HOST_LINES
    requires FilledUpTo(b, vm, i) && Filled(c, vm, i)
    requires forall k :: 0 <= k < RECORD * i || RECORD * (i + 1) <= k < |b| ==> c[k] == b[k]
    ensures FilledUpTo(c, vm, i + 1)
  {
    assert c[..RECORD * i] == b[..RECORD * i];
    assert c[RECORD * HOST_LINES..] == b[RECORD * HOST_LINES..];
    FilledIsRecord(c, vm, i);
    HostTransferRecord(vm, i);
    AgreeFurther(c, HostTransfer(vm), RECORD * i, RECORD);
  }

  /** `ls027b7dh01_update` of the host's SPI driver: the whole frame into one transfer buffer, whose last
      two bytes are zero since it was allocated. */
  method HostUpdate(vm: HostFrame, spiBuf: array<Byte>)
    requires spiBuf.Length == RECORD * HOST_LINES + 2
    requires spiBuf[RECORD * HOST_LINES..] == [0, 0]
    modifies spiBuf
    ensures spiBuf[..] == HostTransfer(vm)
  {
    for i := 0 to HOST_LINES
      invariant FilledUpTo(spiBuf[..], vm, i)
    {
      ghost var before := spiBuf[..];
      FillRecord(vm, spiBuf, i);
      RecordAdded(before, spiBuf[..], vm, i);
    }
    HostTransferTail(vm);
    AgreeFurther(spiBuf[..], HostTransfer(vm), RECORD * HOST_LINES, 2);
  }
}
