/** The picture format: frame buffers of the host and of the device, the bit order on the SPI wire, and
    the display that reads it. The host pitch is 52 bytes, the device pitch 50. */
module Lcd {
  import opened Usb

  const WIDTH := 400
  const LINE_BYTES := 50        // visible bytes of a line
  const HOST_PITCH := 52
  const HOST_LINES := 241
  const DEVICE_LINES := 242
  const RECORD := 52            // mode, address and data bytes on the wire

  type Line = d: seq<Byte> | |d| == LINE_BYTES witness seq(LINE_BYTES, _ => 0)
  type HostFrame = f: seq<Byte> | |f| == HOST_PITCH * HOST_LINES witness seq(HOST_PITCH * HOST_LINES, _ => 0)
  type DeviceFrame = f: seq<Byte> | |f| == LINE_BYTES * DEVICE_LINES witness seq(LINE_BYTES * DEVICE_LINES, _ => 0)

  // ---------------------------------------------------------------- bits

  /** Bit k of a byte, bit 0 being the least significant. */
  predicate Bit(b: Byte, k: nat)
    requires k < 8
  {
    match k
    case 0 => b & 1 != 0
    case 1 => b & 2 != 0
    case 2 => b & 4 != 0
    case 3 => b & 8 != 0
    case 4 => b & 16 != 0
    case 5 => b & 32 != 0
    case 6 => b & 64 != 0
    case _ => b & 128 != 0
  }

  function Successor(b: Byte): (r: Byte)
    requires b != 255
    ensures r as int == b as int + 1
  {
    b + 1
  }

  /** The 8-bit value of a number. */
  function ByteOf(i: nat): (b: Byte)
    requires i < 256
    ensures b as int == i
  {
    if i == 0 then 0 else Successor(ByteOf(i - 1))
  }

  /** A byte with its bits in the opposite order. */
  function Mirrored(b: Byte): Byte {
    ((b & 1) << 7) | ((b & 2) << 5) | ((b & 4) << 3) | ((b & 8) << 1) |
    ((b >> 1) & 8) | ((b >> 3) & 4) | ((b >> 5) & 2) | ((b >> 7) & 1)
  }

  lemma MirroredBit(b: Byte, k: nat)
    requires k < 8
    ensures Bit(Mirrored(b), 7 - k) == Bit(b, k)
  {
    match k
    case 0 =>
    case 1 =>
    case 2 =>
    case 3 =>
    case 4 =>
    case 5 =>
    case 6 =>
    case _ =>
  }

  // ---------------------------------------------------------------- pictures

  /** Pixel x of a line of 50 bytes. */
  predicate LinePixel(d: Line, x: nat)
    requires x < WIDTH
  {
    Bit(d[x / 8], x % 8)
  }

  function HostLine(vm: HostFrame, y: nat): Line
    requires y < HOST_LINES
  {
    vm[HOST_PITCH * y..HOST_PITCH * y + LINE_BYTES]
  }

  /** Pixel (x, y) of the host's frame buffer. */
  predicate HostPixel(vm: HostFrame, x: nat, y: nat)
    requires x < WIDTH && y < HOST_LINES
  {
    Bit(vm[HOST_PITCH * y + x / 8], x % 8)
  }

  function DeviceLine(f: DeviceFrame, y: nat): Line
    requires y < DEVICE_LINES
  {
    f[LINE_BYTES * y..LINE_BYTES * y + LINE_BYTES]
  }

  // ---------------------------------------------------------------- the display

  /** Bit i of a message as it travels: the SPI sends each byte from its most significant bit on. */
  predicate WireBit(m: seq<Byte>, i: nat)
    requires i < 8 * |m|
  {
    Bit(m[i / 8], 7 - i % 8)
  }

  function Weigh(b: bool, weight: nat): nat {
    if b then weight else 0
  }

  /** The number that eight bits stand for, the first one being the least significant. */
  function Value(bits: seq<bool>): nat
    requires |bits| == 8
  {
    Weigh(bits[0], 1) + Weigh(bits[1], 2) + Weigh(bits[2], 4) + Weigh(bits[3], 8) +
    Weigh(bits[4], 16) + Weigh(bits[5], 32) + Weigh(bits[6], 64) + Weigh(bits[7], 128)
  }

  /** The line address of a record: eight wire bits, the least significant one first. */
  function WireAddress(m: seq<Byte>, at: nat): nat
    requires at + 8 <= 8 * |m|
  {
    Value(seq(8, k requires 0 <= k < 8 => WireBit(m, at + k)))
  }

  function WirePixels(m: seq<Byte>, at: nat): seq<bool>
    requires at + WIDTH <= 8 * |m|
  {
    seq(WIDTH, x requires 0 <= x < WIDTH => WireBit(m, at + x))
  }

  type Picture = map<nat, seq<bool>>

  /** What the display shows after the first n line records of a message: eight mode (or dummy) bits,
      eight address bits and 400 pixels each. */
  function ShowRecords(shown: Picture, m: seq<Byte>, n: nat): Picture
    requires RECORD * n <= |m|
  {
    if n == 0 then shown
    else
      ShowRecords(shown, m, n - 1)[WireAddress(m, 8 * (RECORD * (n - 1) + 1)) := WirePixels(m, 8 * (RECORD * (n - 1) + 2))]
  }

  /** One message: shown if its first bit, M0, is set; it ends with sixteen dummy bits. */
  function Show(shown: Picture, m: seq<Byte>): Picture {
    if |m| < RECORD + 2 || !WireBit(m, 0) then shown else ShowRecords(shown, m, (|m| - 2) / RECORD)
  }

  function ShowAll(shown: Picture, ms: seq<seq<Byte>>): Picture {
    if ms == [] then shown else Show(ShowAll(shown, ms[..|ms| - 1]), ms[|ms| - 1])
  }

  // ---------------------------------------------------------------- encoders

  function MirrorAll(d: seq<Byte>): (r: seq<Byte>)
    ensures |r| == |d|
  {
    seq(|d|, i requires 0 <= i < |d| => Mirrored(d[i]))
  }

  /** A line record: mode 1, address, data. */
  function Record(line: nat, d: Line): (r: seq<Byte>)
    requires line < 256
    ensures |r| == RECORD
  {
    [Mirrored(1), Mirrored(ByteOf(line))] + MirrorAll(d)
  }

  /** The message of `memcld_write_line`. */
  function LineMessage(line: nat, d: Line): seq<Byte>
    requires line < 256
  {
    Record(line, d) + [0, 0]
  }

  /** The messages of `memlcd_update_screen`, up to line n. */
  function ScreenMessages(f: DeviceFrame, n: nat): (ms: seq<seq<Byte>>)
    requires n <= DEVICE_LINES
  {
    if n == 0 then [] else ScreenMessages(f, n - 1) + [LineMessage(n - 1, DeviceLine(f, n - 1))]
  }

  /** Byte i of the single transfer of `ls027b7dh01_update`: 241 line records and two zero bytes. */
  function HostTransferByte(vm: HostFrame, i: nat): Byte
    requires i < RECORD * HOST_LINES + 2
  {
    if i >= RECORD * HOST_LINES then 0
    else if i % RECORD == 0 then 0x80
    else if i % RECORD == 1 then Mirrored(ByteOf(i / RECORD))
    else Mirrored(vm[HOST_PITCH * (i / RECORD) + i % RECORD - 2])
  }

  function HostTransfer(vm: HostFrame): (m: seq<Byte>)
    ensures |m| == RECORD * HOST_LINES + 2
  {
    seq(RECORD * HOST_LINES + 2, i requires 0 <= i < RECORD * HOST_LINES + 2 => HostTransferByte(vm, i))
  }

  // ---------------------------------------------------------------- decoding gives the pictures back

  /** Record k of a message is the record of this line. */
  predicate RecordAt(m: seq<Byte>, k: nat, line: nat, d: Line)
    requires RECORD * (k + 1) <= |m| && line < 256
  {
    forall i :: 0 <= i < RECORD ==> m[RECORD * k + i] == Record(line, d)[i]
  }

  function Bits(b: Byte): (r: seq<bool>)
    ensures |r| == 8
  {
    seq(8, k requires 0 <= k < 8 => Bit(b, k))
  }

  lemma ValueOfBits(b: Byte)
    ensures Value(Bits(b)) == b as int
  {
  }

  /** A byte that was mirrored arrives least significant bit first. */
  lemma WireOrder(m: seq<Byte>, j: nat, b: Byte, k: nat)
    requires j < |m| && m[j] == Mirrored(b) && k < 8
    ensures WireBit(m, 8 * j + k) == Bit(b, k)
  {
    assert (8 * j + k) / 8 == j && (8 * j + k) % 8 == k;
    MirroredBit(b, k);
  }

  lemma WireByteAddress(m: seq<Byte>, j: nat, b: Byte)
    requires j < |m| && m[j] == Mirrored(b)
    ensures WireAddress(m, 8 * j) == Value(Bits(b))
  {
    var wire := seq(8, k requires 0 <= k < 8 => WireBit(m, 8 * j + k));
    forall k | 0 <= k < 8
      ensures wire[k] == Bits(b)[k]
    {
      WireOrder(m, j, b, k);
    }
    assert wire == Bits(b);
  }

  lemma RecordAddress(m: seq<Byte>, k: nat, line: nat, d: Line)
    requires RECORD * (k + 1) <= |m| && line < 256 && RecordAt(m, k, line, d)
    ensures WireAddress(m, 8 * (RECORD * k + 1)) == line
  {
    assert m[RECORD * k + 1] == Record(line, d)[1];
    WireByteAddress(m, RECORD * k + 1, ByteOf(line));
    ValueOfBits(ByteOf(line));
  }

  lemma RecordPixel(m: seq<Byte>, k: nat, line: nat, d: Line, x: nat)
    requires RECORD * (k + 1) <= |m| && line < 256 && RecordAt(m, k, line, d) && x < WIDTH
    ensures WireBit(m, 8 * (RECORD * k + 2) + x) == LinePixel(d, x)
  {
    var j := RECORD * k + 2 + x / 8;
    assert m[RECORD * k + (2 + x / 8)] == Record(line, d)[2 + x / 8];
    WireOrder(m, j, d[x / 8], x % 8);
    assert 8 * j + x % 8 == 8 * (RECORD * k + 2) + x;
  }

  predicate ShowsLine(p: Picture, line: nat, d: Line) {
    line in p && |p[line]| == WIDTH && forall x :: 0 <= x < WIDTH ==> p[line][x] == LinePixel(d, x)
  }

  /** Showing the n-th record shows its line and leaves the others alone. */
  lemma RecordShows(shown: Picture, m: seq<Byte>, n: nat, line: nat, d: Line)
    requires 0 < n && RECORD * n <= |m| && line < 256 && RecordAt(m, n - 1, line, d)
    ensures ShowsLine(ShowRecords(shown, m, n), line, d)
    ensures forall a, e :: a != line && ShowsLine(ShowRecords(shown, m, n - 1), a, e)
                           ==> ShowsLine(ShowRecords(shown, m, n), a, e)
  {
    RecordAddress(m, n - 1, line, d);
    var pixels := WirePixels(m, 8 * (RECORD * (n - 1) + 2));
    forall x | 0 <= x < WIDTH
      ensures pixels[x] == LinePixel(d, x)
    {
      RecordPixel(m, n - 1, line, d, x);
    }
    assert ShowRecords(shown, m, n) == ShowRecords(shown, m, n - 1)[line := pixels];
  }

  lemma FirstBitIsUpdate(m: seq<Byte>)
    requires |m| > 0 && m[0] == Mirrored(1)
    ensures WireBit(m, 0)
  {
    WireOrder(m, 0, 1, 0);
  }

  /** The host's frame buffer, read by lines. */
  lemma HostLinePixel(vm: HostFrame, x: nat, y: nat)
    requires x < WIDTH && y < HOST_LINES
    ensures LinePixel(HostLine(vm, y), x) == HostPixel(vm, x, y)
  {
  }

  lemma ModeByte()
    ensures Mirrored(1) == 0x80
  {
  }

  lemma HostRecordAt(vm: HostFrame, k: nat)
    requires k < HOST_LINES
    ensures RecordAt(HostTransfer(vm), k, k, HostLine(vm, k))
  {
    ModeByte();
    forall i | 0 <= i < RECORD
      ensures HostTransfer(vm)[RECORD * k + i] == Record(k, HostLine(vm, k))[i]
    {
      assert (RECORD * k + i) / RECORD == k && (RECORD * k + i) % RECORD == i;
      assert HostTransfer(vm)[RECORD * k + i] == HostTransferByte(vm, RECORD * k + i);
      if i >= 2 {
        assert Record(k, HostLine(vm, k))[i] == Mirrored(HostLine(vm, k)[i - 2]);
      }
    }
  }

  /** A message of consecutive records for lines 0, 1, ... */
  predicate CarriesLines(m: seq<Byte>, vm: HostFrame)
    requires RECORD * HOST_LINES <= |m|
  {
    forall k :: 0 <= k < HOST_LINES ==> RecordAt(m, k, k, HostLine(vm, k))
  }

  lemma {:induction false} RecordsShow(shown: Picture, m: seq<Byte>, vm: HostFrame, n: nat, y: nat)
    requires y < n <= HOST_LINES && RECORD * HOST_LINES <= |m| && CarriesLines(m, vm)
    ensures ShowsLine(ShowRecords(shown, m, n), y, HostLine(vm, y))
  {
    assert RecordAt(m, n - 1, n - 1, HostLine(vm, n - 1));
    RecordShows(shown, m, n, n - 1, HostLine(vm, n - 1));
    if y < n - 1 {
      RecordsShow(shown, m, vm, n - 1, y);
    }
  }

  lemma HostTransferCarriesLines(vm: HostFrame)
    ensures CarriesLines(HostTransfer(vm), vm)
    ensures WireBit(HostTransfer(vm), 0)
  {
    forall k | 0 <= k < HOST_LINES
      ensures RecordAt(HostTransfer(vm), k, k, HostLine(vm, k))
    {
      HostRecordAt(vm, k);
    }
    ModeByte();
    assert HostTransfer(vm)[0] == HostTransferByte(vm, 0);
    FirstBitIsUpdate(HostTransfer(vm));
  }

  /** Round trip: the display decodes the host's single transfer into all 241 x 400 pixels. */
  lemma HostTransferRoundTrip(shown: Picture, vm: HostFrame, x: nat, y: nat)
    requires x < WIDTH && y < HOST_LINES
    ensures var p := Show(shown, HostTransfer(vm));
            y in p && |p[y]| == WIDTH && p[y][x] == HostPixel(vm, x, y)
  {
    HostTransferCarriesLines(vm);
    var m := HostTransfer(vm);
    assert (|m| - 2) / RECORD == HOST_LINES;
    RecordsShow(shown, m, vm, HOST_LINES, y);
    HostLinePixel(vm, x, y);
  }

  /** A line message shows its line and leaves the others alone. */
  lemma LineMessageShows(shown: Picture, line: nat, d: Line)
    requires line < 256
    ensures var p := Show(shown, LineMessage(line, d));
            ShowsLine(p, line, d) && forall a, e :: a != line && ShowsLine(shown, a, e) ==> ShowsLine(p, a, e)
  {
    var m := LineMessage(line, d);
    FirstBitIsUpdate(m);
    assert RecordAt(m, 0, line, d);
    RecordShows(shown, m, 1, line, d);
    assert (|m| - 2) / RECORD == 1;
  }

  /** Refresh: the device's messages show every line of its frame buffer. */
  lemma {:induction false} ScreenShows(shown: Picture, f: DeviceFrame, n: nat, y: nat)
    requires y < n <= DEVICE_LINES
    ensures ShowsLine(ShowAll(shown, ScreenMessages(f, n)), y, DeviceLine(f, y))
  {
    var ms := ScreenMessages(f, n);
    assert ms[..|ms| - 1] == ScreenMessages(f, n - 1);
    LineMessageShows(ShowAll(shown, ScreenMessages(f, n - 1)), n - 1, DeviceLine(f, n - 1));
    if y < n - 1 {
      ScreenShows(shown, f, n - 1, y);
    }
  }

  /** Refinement: if the device holds the host's visible line, its per-line messages show the same
      pixels of it as the host's single transfer would, whatever the two displays showed before. */
  lemma SamePicture(shown: Picture, shown': Picture, vm: HostFrame, f: DeviceFrame, x: nat, y: nat)
    requires x < WIDTH && y < HOST_LINES
    requires DeviceLine(f, y) == HostLine(vm, y)
    ensures var p, q := ShowAll(shown, ScreenMessages(f, DEVICE_LINES)), Show(shown', HostTransfer(vm));
            && y in p && y in q && |p[y]| == |q[y]| == WIDTH
            && p[y][x] == q[y][x] == HostPixel(vm, x, y)
  {
    ScreenShows(shown, f, DEVICE_LINES, y);
    HostTransferRoundTrip(shown', vm, x, y);
    HostLinePixel(vm, x, y);
  }
}
