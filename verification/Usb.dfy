/** Vocabulary shared by the USB device modules: bytes, packets and the cutting of
    a transfer into packets (section 5.8.3 of the USB 2.0 specification). */
module Usb {

  datatype Option<+T> = None | Some(value: T)

  type Byte = bv8
  type Packet = seq<Byte>

  /** Number of banks of an endpoint of the UDP peripheral. */
  function BankMax(ep: nat): (n: nat)
  {
    if ep == 0 || ep == 3 then 1 else 2
  }

  /** Largest packet size of an endpoint of the UDP peripheral. */
  function SizeMax(ep: nat): nat
  {
    if ep == 4 || ep == 5 then 512 else 64
  }

  type PacketSize = n: nat | n > 0 witness 1

  function Flatten<T>(ps: seq<seq<T>>): seq<T>
  {
    if ps == [] then [] else ps[0] + Flatten(ps[1..])
  }

  lemma {:induction false} FlattenConcat<T>(ps: seq<seq<T>>, qs: seq<seq<T>>)
    ensures Flatten(ps + qs) == Flatten(ps) + Flatten(qs)
  {
    if ps == [] {
      assert ps + qs == qs;
    } else {
      assert (ps + qs)[1..] == ps[1..] + qs;
      FlattenConcat(ps[1..], qs);
    }
  }

  lemma FlattenSnoc<T>(ps: seq<seq<T>>, p: seq<T>)
    ensures Flatten(ps + [p]) == Flatten(ps) + p
  {
    FlattenConcat(ps, [p]);
    assert Flatten([p]) == p + Flatten([p][1..]);
  }

  /** The packets that carry `data`: full packets, then a short one if data is left over,
      or if `short` asks for one (it is then a zero-length packet). */
  function Packets(data: seq<Byte>, size: nat, short: bool): (ps: seq<Packet>)
    requires size > 0
    decreases |data|
  {
    if |data| < size then
      if data == [] && !short then [] else [data]
    else
      [data[..size]] + Packets(data[size..], size, short)
  }

  /** Section 5.8.3: no byte is lost or reordered, every packet but the last is full, and
      the last is short exactly when a short packet was asked for or the length leaves a rest.
      A short last packet is empty exactly when the length is a multiple of the packet size. */
  lemma {:induction false} PacketsCarryData(data: seq<Byte>, size: nat, short: bool)
    requires size > 0
    ensures Flatten(Packets(data, size, short)) == data
    ensures Packets(data, size, short) == [] <==> data == [] && !short
    ensures forall k :: 0 <= k < |Packets(data, size, short)| - 1 ==> |Packets(data, size, short)[k]| == size
    ensures var ps := Packets(data, size, short);
            ps != [] ==>
              && |ps[|ps| - 1]| <= size
              && (|ps[|ps| - 1]| < size <==> short || |data| % size != 0)
              && (ps[|ps| - 1] == [] <==> short && |data| % size == 0)
    decreases |data|
  {
    if |data| < size {
      SmallModulus(|data|, size);
    } else {
      PacketsCarryData(data[size..], size, short);
      ModulusMinus(|data|, size);
      var rest := Packets(data[size..], size, short);
      assert Packets(data, size, short) == [data[..size]] + rest;
      assert ([data[..size]] + rest)[1..] == rest;
    }
  }

  lemma SmallModulus(n: nat, size: nat)
    requires n < size
    ensures n % size == n
  {
  }

  lemma ModulusMinus(n: nat, size: nat)
    requires 0 < size <= n
    ensures n % size == (n - size) % size
  {
    var q, r := (n - size) / size, (n - size) % size;
    assert n == (q + 1) * size + r;
    ModulusUnique(n, size, q + 1, r);
  }

  lemma ModulusUnique(n: nat, size: nat, q: nat, r: nat)
    requires 0 <= r < size && n == q * size + r
    ensures n % size == r
  {
    var d := n / size - q;
    assert d * size == r - n % size;
  }

  /** What the host sees as transfers: a transfer ends with each packet shorter than `size`.
      `open` holds the bytes of the transfer that is not finished yet. */
  function HostTransfers(ps: seq<Packet>, size: nat, open: seq<Byte>): seq<seq<Byte>>
  {
    if ps == [] then []
    else if |ps[0]| < size then [open + ps[0]] + HostTransfers(ps[1..], size, [])
    else HostTransfers(ps[1..], size, open + ps[0])
  }

  lemma HostTransfersShort(p: Packet, ps: seq<Packet>, size: nat, open: seq<Byte>)
    requires |p| < size
    ensures HostTransfers([p] + ps, size, open) == [open + p] + HostTransfers(ps, size, [])
  {
    assert ([p] + ps)[1..] == ps;
  }

  lemma HostTransfersFull(p: Packet, ps: seq<Packet>, size: nat, open: seq<Byte>)
    requires |p| >= size
    ensures HostTransfers([p] + ps, size, open) == HostTransfers(ps, size, open + p)
  {
    assert ([p] + ps)[1..] == ps;
  }

  /** The length of the data leaves a rest, so that its last packet is short. */
  predicate LeavesRest(n: nat, size: nat)
    requires size > 0
  {
    n % size != 0
  }

  lemma RestKept(n: nat, size: nat)
    requires 0 < size <= n
    ensures LeavesRest(n, size) == LeavesRest(n - size, size)
  {
    ModulusMinus(n, size);
  }

  lemma NoRestOfNothing(size: nat)
    requires size > 0
    ensures !LeavesRest(0, size)
  {
  }

  /** Reading back the packets of delimited data gives that data as one transfer. */
  lemma {:induction false} HostReadsBack(data: seq<Byte>, size: nat, short: bool, rest: seq<Packet>, open: seq<Byte>)
    requires size > 0
    requires short || LeavesRest(|data|, size)
    ensures HostTransfers(Packets(data, size, short) + rest, size, open) == [open + data] + HostTransfers(rest, size, [])
    decreases |data|
  {
    if |data| < size {
      NoRestOfNothing(size);
      assert Packets(data, size, short) == [data];
      HostTransfersShort(data, rest, size, open);
    } else {
      var head, tail := data[..size], data[size..];
      RestKept(|data|, size);
      HostReadsBack(tail, size, short, rest, open + head);
      assert (open + head) + tail == open + data;
      assert Packets(data, size, short) + rest == [head] + (Packets(tail, size, short) + rest);
      HostTransfersFull(head, Packets(tail, size, short) + rest, size, open);
    }
  }

  // ---------------------------------------------------------------- the books of an endpoint

  /** As collections: what was accepted before and what was added is what is accepted afterwards and what was
      dropped. */
  ghost predicate Balance<T>(before: seq<T>, taken: seq<T>, after: seq<T>, forgotten: seq<T>) {
    multiset(after) + multiset(forgotten) == multiset(before) + multiset(taken)
  }

  lemma Grown<T>(before: seq<T>, taken: seq<T>, after: seq<T>)
    requires after == before + taken
    ensures Balance(before, taken, after, [])
  {
  }

  lemma BalanceChains<T>(a: seq<T>, t1: seq<T>, b: seq<T>, f1: seq<T>, t2: seq<T>, c: seq<T>, f2: seq<T>)
    requires Balance(a, t1, b, f1) && Balance(b, t2, c, f2)
    ensures Balance(a, t1 + t2, c, f1 + f2)
  {
    Exchange(multiset(a), multiset(t1), multiset(b), multiset(f1), multiset(t2), multiset(c), multiset(f2));
    assert multiset(t1 + t2) == multiset(t1) + multiset(t2);
    assert multiset(f1 + f2) == multiset(f1) + multiset(f2);
  }

  lemma Exchange<T>(a: multiset<T>, t1: multiset<T>, b: multiset<T>, f1: multiset<T>, t2: multiset<T>,
                    c: multiset<T>, f2: multiset<T>)
    requires b + f1 == a + t1 && c + f2 == b + t2
    ensures c + (f1 + f2) == a + (t1 + t2)
  {
    assert c + (f1 + f2) == (c + f2) + f1;
    assert (b + t2) + f1 == (b + f1) + t2;
  }
}
