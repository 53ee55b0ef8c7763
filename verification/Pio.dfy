/** Dispatch of PIO interrupts to the registered sources. The 32-bit masks are sets of pin numbers. */
module Pio {
  import opened Usb

  const MAX_SOURCES: nat := 7

  type Pins = set<nat>

  datatype Source = Source(id: nat, mask: Pins, attr: nat, handler: nat)

  /** An unused entry of the static table. */
  const FREE := Source(0, {}, 0, 0)

  /** What is left of the pending pins when the loop comes to entry n. */
  function Left(t: seq<Source>, id: nat, status: Pins, n: nat): Pins
    requires n <= |t|
  {
    if n == 0 then status
    else if t[n - 1].id == id && Left(t, id, status, n - 1) * t[n - 1].mask != {} then
      Left(t, id, status, n - 1) - t[n - 1].mask
    else Left(t, id, status, n - 1)
  }

  /** The pins entry n is called for. */
  function Claim(t: seq<Source>, id: nat, status: Pins, n: nat): Pins
    requires n < |t|
  {
    if t[n].id == id then Left(t, id, status, n) * t[n].mask else {}
  }

  /** The entries called up to n, in order. */
  function Calls(t: seq<Source>, id: nat, status: Pins, n: nat): seq<nat>
    requires n <= |t|
  {
    if n == 0 then []
    else Calls(t, id, status, n - 1) + if Claim(t, id, status, n - 1) != {} then [n - 1] else []
  }

  /** The pins the first n entries cover on this controller. */
  function Coverage(t: seq<Source>, id: nat, n: nat): Pins
    requires n <= |t|
  {
    if n == 0 then {}
    else Coverage(t, id, n - 1) + if t[n - 1].id == id then t[n - 1].mask else {}
  }

  // ---------------------------------------------------------------- who is called

  /** Whoever was called, the pins left are those not covered. */
  lemma {:induction false} LeftIsUncovered(t: seq<Source>, id: nat, status: Pins, n: nat)
    requires n <= |t|
    ensures Left(t, id, status, n) == status - Coverage(t, id, n)
  {
    if n == 0 {
      assert status - {} == status;
    } else {
      LeftIsUncovered(t, id, status, n - 1);
      var covered, mask := Coverage(t, id, n - 1), t[n - 1].mask;
      assert (status - covered) - mask == status - (covered + mask);
      if (status - covered) * mask == {} {
        forall p | p in status - covered
          ensures p !in mask
        {
          assert p in mask ==> p in (status - covered) * mask;
        }
      }
      assert covered + {} == covered;
    }
  }

  lemma {:induction false} CoverageGrows(t: seq<Source>, id: nat, j: nat, k: nat)
    requires j <= k <= |t|
    ensures Coverage(t, id, j) <= Coverage(t, id, k)
    decreases k - j
  {
    if j < k {
      CoverageGrows(t, id, j, k - 1);
    }
  }

  /** Main result on claims: an entry is called for the pending pins of its mask that no earlier entry of
      the controller covers, and an entry of another controller is called for none. */
  lemma ClaimExact(t: seq<Source>, id: nat, status: Pins, n: nat)
    requires n < |t|
    ensures Claim(t, id, status, n) == if t[n].id == id then status * t[n].mask - Coverage(t, id, n) else {}
  {
    LeftIsUncovered(t, id, status, n);
  }

  /** Each covered pending pin is claimed by exactly one entry, the earliest that covers it. */
  lemma {:induction false} ClaimedByOne(t: seq<Source>, id: nat, status: Pins, n: nat, pin: nat) returns (j: nat)
    requires n <= |t| && pin in status && pin in Coverage(t, id, n)
    ensures j < n && t[j].id == id && pin in t[j].mask && pin in Claim(t, id, status, j)
    ensures forall k :: 0 <= k < j && t[k].id == id ==> pin !in t[k].mask
    ensures forall k :: 0 <= k < |t| && k != j ==> pin !in Claim(t, id, status, k)
  {
    if pin in Coverage(t, id, n - 1) {
      j := ClaimedByOne(t, id, status, n - 1, pin);
    } else {
      j := n - 1;
      ClaimExact(t, id, status, j);
      forall k | 0 <= k < |t| && k != j
        ensures pin !in Claim(t, id, status, k)
        ensures k < j && t[k].id == id ==> pin !in t[k].mask
      {
        ClaimExact(t, id, status, k);
        if k < j {
          CoverageGrows(t, id, k + 1, j);
        } else {
          CoverageGrows(t, id, j + 1, k);
        }
      }
    }
  }

  /** An entry is in the list of calls exactly if it claims a pin; the list is in registration order,
      without repetition. */
  lemma {:induction false} CallsExact(t: seq<Source>, id: nat, status: Pins, n: nat)
    requires n <= |t|
    ensures forall j :: j in Calls(t, id, status, n) <==> 0 <= j < n && Claim(t, id, status, j) != {}
    ensures forall a, b :: 0 <= a < b < |Calls(t, id, status, n)| ==> Calls(t, id, status, n)[a] < Calls(t, id, status, n)[b]
  {
    if n > 0 {
      CallsExact(t, id, status, n - 1);
      var before := Calls(t, id, status, n - 1);
      assert forall a :: 0 <= a < |before| ==> before[a] in before;
    }
  }

  // ---------------------------------------------------------------- when the loop ends

  /** The loop of `pio_handler_process` from entry i on; None if it reads past the table. */
  function Loop(t: seq<Source>, id: nat, status: Pins, i: nat): Option<seq<nat>>
    requires i <= |t|
    decreases |t| - i
  {
    if status == {} then Some([])
    else if i == |t| then None
    else if t[i].id == id && status * t[i].mask != {} then
      var rest := Loop(t, id, status - t[i].mask, i + 1);
      if rest.Some? then Some([i] + rest.value) else None
    else Loop(t, id, status, i + 1)
  }

  lemma {:induction false} NothingLeft(t: seq<Source>, id: nat, status: Pins, i: nat, n: nat)
    requires i <= n <= |t| && Left(t, id, status, i) == {}
    ensures Left(t, id, status, n) == {} && Calls(t, id, status, n) == Calls(t, id, status, i)
    decreases n - i
  {
    if i < n {
      NothingLeft(t, id, status, i, n - 1);
    }
  }

  lemma NoneUncovered(a: Pins, b: Pins)
    ensures a - b == {} <==> a <= b
  {
    forall p | p in a && p !in b
      ensures p in a - b
    {
    }
  }

  /** Main result on termination: the loop, which has no bound of its own, ends inside the table if and only
      if the table covers every pending pin, and then it has called exactly the claiming entries. */
  lemma {:induction false} LoopEnds(t: seq<Source>, id: nat, status: Pins, i: nat)
    requires i <= |t|
    ensures var r := Loop(t, id, Left(t, id, status, i), i);
            && (r.Some? <==> status <= Coverage(t, id, |t|))
            && (r.Some? ==> Calls(t, id, status, i) + r.value == Calls(t, id, status, |t|))
    decreases |t| - i
  {
    LeftIsUncovered(t, id, status, |t|);
    NoneUncovered(status, Coverage(t, id, |t|));
    if Left(t, id, status, i) == {} {
      NothingLeft(t, id, status, i, |t|);
    } else if i < |t| {
      LoopEnds(t, id, status, i + 1);
    }
  }

  /** Free entries cover nothing, so what counts are the registered ones. */
  lemma {:induction false} FreeEntries(t: seq<Source>, free: nat, id: nat, status: Pins)
    ensures var all := t + seq(free, _ => FREE);
            && Coverage(all, id, |all|) == Coverage(t, id, |t|)
            && Calls(all, id, status, |all|) == Calls(t, id, status, |t|)
  {
    var all := t + seq(free, _ => FREE);
    if free == 0 {
      assert all == t;
    } else {
      var fewer := t + seq(free - 1, _ => FREE);
      FreeEntries(t, free - 1, id, status);
      assert all == fewer + [FREE];
      SamePrefix(fewer, all, id, status, |fewer|);
    }
  }

  lemma {:induction false} SamePrefix(t: seq<Source>, u: seq<Source>, id: nat, status: Pins, n: nat)
    requires n <= |t| && n <= |u| && t[..n] == u[..n]
    ensures Coverage(t, id, n) == Coverage(u, id, n)
    ensures Left(t, id, status, n) == Left(u, id, status, n)
    ensures Calls(t, id, status, n) == Calls(u, id, status, n)
  {
    if n > 0 {
      assert t[n - 1] == t[..n][n - 1] == u[..n][n - 1] == u[n - 1];
      assert t[..n - 1] == t[..n][..n - 1];
      assert u[..n - 1] == u[..n][..n - 1];
      SamePrefix(t, u, id, status, n - 1);
    }
  }

  /** The static table: the registered entries, then free ones. */
  function Table(registered: seq<Source>): (t: seq<Source>)
    requires |registered| <= MAX_SOURCES
    ensures |t| == MAX_SOURCES
  {
    registered + seq(MAX_SOURCES - |registered|, _ => FREE)
  }

  /** The loop over the table of seven ends exactly when the registered sources cover the pending pins. */
  lemma DispatchExact(registered: seq<Source>, id: nat, status: Pins)
    requires |registered| <= MAX_SOURCES
    ensures var r := Loop(Table(registered), id, status, 0);
            && (r.Some? <==> status <= Coverage(registered, id, |registered|))
            && (r.Some? ==> r.value == Calls(registered, id, status, |registered|))
  {
    var t := Table(registered);
    LoopEnds(t, id, status, 0);
    FreeEntries(registered, MAX_SOURCES - |registered|, id, status);
    assert Left(t, id, status, 0) == status;
    var r := Loop(t, id, status, 0);
    if r.Some? {
      assert [] + r.value == r.value;
    }
  }
}

/** The registration table and the dispatch loop in their own form. */
module PioHandler {
  import opened Pio

  class Handlers {
    const table: array<Source>
    var count: nat

    ghost predicate Valid()
      reads this
    {
      table.Length == MAX_SOURCES && count <= MAX_SOURCES
    }

    ghost function Registered(): seq<Source>
      requires Valid()
      reads this, table
    {
      table[..count]
    }

    constructor ()
      ensures Valid() && fresh(table) && Registered() == []
    {
      table := new Source[MAX_SOURCES](_ => FREE);
      count := 0;
    }

    /** `pio_handler_set`: appends a source, or answers 1 when the table is full. */
    method Set(id: nat, mask: Pins, attr: nat, handler: nat) returns (code: nat)
      requires Valid()
      modifies this, table
      ensures Valid()
      ensures code == if |old(Registered())| < MAX_SOURCES then 0 else 1
      ensures Registered() == if code == 0 then old(Registered()) + [Source(id, mask, attr, handler)] else old(Registered())
    {
      if count >= MAX_SOURCES {
        return 1;
      }
      table[count] := Source(id, mask, attr, handler);
      count := count + 1;
      return 0;
    }

    /** `pio_handler_process`, for covered pins: `called` lists the entries whose handlers ran. */
    method Process(id: nat, pending: Pins) returns (called: seq<nat>)
      requires Valid() && pending <= Coverage(Registered(), id, |Registered()|)
      ensures called == Calls(Registered(), id, pending, |Registered()|)
    {
      ghost var t := Registered();
      called := [];
      var status := pending;
      if status != {} {
        var i := 0;
        while status != {}
          invariant 0 <= i <= |t| && t == Registered()
          invariant status == Left(t, id, pending, i) && called == Calls(t, id, pending, i)
          decreases |t| - i
        {
          LeftIsUncovered(t, id, pending, i);
          if i < |t| {
            assert t[i] == table[i];
          }
          if table[i].id == id {
            if status * table[i].mask != {} {
              called := called + [i];
              status := status - table[i].mask;
            }
          }
          i := i + 1;
        }
        NothingLeft(t, id, pending, i, |t|);
      } else {
        NothingLeft(t, id, pending, 0, |t|);
      }
    }
  }
}
