/** Interrupt priorities of the NVIC with four priority bits: grouping, the priority register of a device
    interrupt, and what the register's order means. */
module Nvic {

  type Word = bv32

  const PRIO_BITS: nat := 4

  /** Number of preemption bits of a priority group. */
  function PreemptBits(group: nat): (n: nat)
    ensures n <= PRIO_BITS && n + SubBits(group) == PRIO_BITS
  {
    var g := group % 8;
    if 7 - g > PRIO_BITS then PRIO_BITS else 7 - g
  }

  /** Number of subpriority bits. */
  function SubBits(group: nat): (n: nat)
    ensures n <= PRIO_BITS
  {
    var g := group % 8;
    if g + PRIO_BITS < 7 then 0 else g - 7 + PRIO_BITS
  }

  /** `(1 << n) - 1`. */
  function Ones(n: nat): Word
    requires n <= PRIO_BITS
  {
    match n
    case 0 => 0
    case 1 => 1
    case 2 => 3
    case 3 => 7
    case _ => 15
  }

  function Shl(w: Word, n: nat): Word
    requires n <= PRIO_BITS
  {
    match n
    case 0 => w
    case 1 => w << 1
    case 2 => w << 2
    case 3 => w << 3
    case _ => w << 4
  }

  function Shr(w: Word, n: nat): Word
    requires n <= PRIO_BITS
  {
    match n
    case 0 => w
    case 1 => w >> 1
    case 2 => w >> 2
    case 3 => w >> 3
    case _ => w >> 4
  }

  /** `NVIC_EncodePriority`. */
  function Encode(group: nat, preempt: Word, sub: Word): Word {
    Shl(preempt & Ones(PreemptBits(group)), SubBits(group)) | (sub & Ones(SubBits(group)))
  }

  /** `NVIC_DecodePriority`. */
  function Decode(priority: Word, group: nat): (Word, Word) {
    (Shr(priority, SubBits(group)) & Ones(PreemptBits(group)), priority & Ones(SubBits(group)))
  }

  /** What `NVIC_SetPriority` leaves in the 8-bit register of a device interrupt. */
  function Register(priority: Word): Word {
    (priority << 4) & 0xff
  }

  /** What `NVIC_GetPriority` makes of it. */
  function Priority(register: Word): Word {
    register >> 4
  }

  /** Main result: encoded, stored, read back and decoded, a pair comes back cut to the bits of its group,
      so a pair that fits comes back unchanged. */
  lemma PriorityRoundTrip(group: nat, preempt: Word, sub: Word)
    ensures Decode(Priority(Register(Encode(group, preempt, sub))), group)
            == (preempt & Ones(PreemptBits(group)), sub & Ones(SubBits(group)))
  {
    match SubBits(group)
    case 0 =>
    case 1 =>
    case 2 =>
    case 3 =>
    case _ =>
  }

  predicate Fits(group: nat, preempt: Word, sub: Word) {
    preempt <= Ones(PreemptBits(group)) && sub <= Ones(SubBits(group))
  }

  /** Main result: the registers are ordered as the pairs are, preemption priority first. */
  lemma RegisterOrder(group: nat, preempt: Word, sub: Word, preempt': Word, sub': Word)
    requires Fits(group, preempt, sub) && Fits(group, preempt', sub')
    ensures Register(Encode(group, preempt, sub)) < Register(Encode(group, preempt', sub'))
            <==> preempt < preempt' || (preempt == preempt' && sub < sub')
  {
    match SubBits(group)
    case 0 =>
    case 1 =>
    case 2 =>
    case 3 =>
    case _ =>
  }
}

/** The register array. */
module NvicRegisters {
  import opened Nvic

  /** Only the upper four bits of a priority register exist. */
  predicate Implemented(register: Word) {
    register & 0xf0 == register
  }

  class Registers {
    const ip: array<Word>

    ghost predicate Valid()
      reads ip
    {
      forall k :: 0 <= k < ip.Length ==> Implemented(ip[k])
    }

    constructor (n: nat)
      ensures Valid() && fresh(ip) && ip.Length == n
    {
      ip := new Word[n](_ => 0);
    }

    /** `NVIC_SetPriority` for a device interrupt. */
    method SetPriority(irq: nat, priority: Word)
      requires Valid() && irq < ip.Length
      modifies ip
      ensures Valid() && ip[..] == old(ip[..])[irq := Register(priority)]
    {
      ip[irq] := (priority << (8 - PRIO_BITS)) & 0xff;
      assert Implemented(ip[irq]);
    }

    /** `NVIC_GetPriority` for a device interrupt: the four-bit priority that setting would leave this
        register. There is only one, by `OnePriority`. */
    method GetPriority(irq: nat) returns (priority: Word)
      requires irq < ip.Length
      ensures Implemented(ip[irq]) ==> priority <= 15 && Register(priority) == ip[irq]
    {
      priority := ip[irq] >> (8 - PRIO_BITS);
      SetBack(ip[irq]);
    }
  }

  lemma SetBack(register: Word)
    ensures Implemented(register) ==> register >> 4 <= 15 && Register(register >> 4) == register
  {
  }

  /** A four-bit priority with the register of p is p, cut to four bits. */
  lemma OnePriority(priority: Word, p: Word)
    ensures priority <= 15 && Register(priority) == Register(p) ==> priority == p & 15
  {
  }
}
