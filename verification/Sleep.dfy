/** The sleep manager's lock counts and the locks the USB driver takes and gives back. */
module Sleep {

  const ACTIVE: nat := 0
  const WFE: nat := 1
  const WFI: nat := 2           // locked while the bus is idle
  const WAIT: nat := 3          // locked while the driver is enabled
  const BACKUP: nat := 4
  const MODES: nat := 5

  type Mode = m: nat | m < MODES witness 0

  // ---------------------------------------------------------------- lock counts

  /** `failed`: an assertion on a lock count does not hold. */
  datatype Locks = Locks(count: seq<nat>, failed: bool)

  predicate Sized(l: Locks) {
    |l.count| == MODES
  }

  function Init(): Locks {
    Locks([0, 0, 0, 0, 1], false)
  }

  /** `sleepmgr_lock_mode`; the counts are 8 bits wide. */
  function Lock(l: Locks, m: Mode): (r: Locks)
    requires Sized(l)
    ensures Sized(r)
  {
    if l.count[m] >= 255 then l.(failed := true) else l.(count := l.count[m := l.count[m] + 1])
  }

  /** `sleepmgr_unlock_mode`. */
  function Unlock(l: Locks, m: Mode): (r: Locks)
    requires Sized(l)
    ensures Sized(r)
  {
    if l.count[m] == 0 then l.(failed := true) else l.(count := l.count[m := l.count[m] - 1])
  }

  /** The first locked mode from m on; MODES if there is none. */
  function FirstLocked(count: seq<nat>, m: nat): (r: nat)
    requires m <= |count|
    ensures m <= r <= |count| && (r < |count| ==> count[r] > 0)
    ensures forall k :: m <= k < r ==> count[k] == 0
    decreases |count| - m
  {
    if m == |count| || count[m] > 0 then m else FirstLocked(count, m + 1)
  }

  // ---------------------------------------------------------------- the USB driver

  datatype Driver = Driver(locks: Locks, idle: bool)

  /** `udd_sleep_mode`. */
  function SleepMode(d: Driver, idle: bool): (r: Driver)
    requires Sized(d.locks)
    ensures Sized(r.locks)
  {
    var l := if !idle && d.idle then Unlock(d.locks, WFI) else d.locks;
    Driver(if idle && !d.idle then Lock(l, WFI) else l, idle)
  }

  /** `udd_enable`; `attach` unless USB_DEVICE_ATTACH_AUTO_DISABLE is defined. */
  function Enable(d: Driver, attach: bool): (r: Driver)
    requires Sized(d.locks)
    ensures Sized(r.locks)
  {
    var d1 := Driver(Lock(d.locks, WAIT), false);
    if attach then SleepMode(d1, true) else d1
  }

  /** `udd_disable`, which detaches first. */
  function Disable(d: Driver): (r: Driver)
    requires Sized(d.locks)
    ensures Sized(r.locks)
  {
    var d1 := SleepMode(d, false);
    d1.(locks := Unlock(d1.locks, WAIT))
  }

  /** `udd_send_remotewakeup`. */
  function RemoteWakeup(d: Driver): (r: Driver)
    requires Sized(d.locks)
    ensures Sized(r.locks)
  {
    if d.idle then d else SleepMode(d, true)
  }

  // ---------------------------------------------------------------- runs

  datatype Event =
    | EnableUsb(attach: bool)
    | DisableUsb
    | Attach
    | Detach
    | Suspend
    | Resume
    | Wakeup
    | ClientLock(m: Mode)
    | ClientUnlock(m: Mode)

  /** The driver, whether it is enabled, and the locks the other users of the sleep manager hold. */
  datatype System = System(d: Driver, enabled: bool, clients: seq<nat>)

  function Boot(): System {
    System(Driver(Init(), false), false, [0, 0, 0, 0, 0])
  }

  predicate Wf(s: System) {
    Sized(s.d.locks) && |s.clients| == MODES
  }

  function Step(s: System, e: Event): (r: System)
    requires Wf(s)
    ensures Wf(r)
  {
    match e
    case EnableUsb(attach) => s.(d := Enable(s.d, attach), enabled := true)
    case DisableUsb => s.(d := Disable(s.d), enabled := false)
    case Attach => s.(d := SleepMode(s.d, true))
    case Detach => s.(d := SleepMode(s.d, false))
    case Suspend => s.(d := SleepMode(s.d, false))
    case Resume => s.(d := SleepMode(s.d, true))
    case Wakeup => s.(d := RemoteWakeup(s.d))
    case ClientLock(m) => s.(d := s.d.(locks := Lock(s.d.locks, m)), clients := s.clients[m := s.clients[m] + 1])
    case ClientUnlock(m) =>
      s.(d := s.d.(locks := Unlock(s.d.locks, m)),
         clients := if s.clients[m] == 0 then s.clients else s.clients[m := s.clients[m] - 1])
  }

  function Exec(s: System, es: seq<Event>): (r: System)
    requires Wf(s)
    ensures Wf(r)
    decreases |es|
  {
    if es == [] then s else Exec(Step(s, es[0]), es[1..])
  }

  /** Enable and disable alternate, and a client gives back only what it holds and leaves the counters
      room. Bus events and calls of the class code come at any time. */
  predicate Permitted(s: System, e: Event)
    requires Wf(s)
  {
    match e
    case EnableUsb(_) => !s.enabled
    case DisableUsb => s.enabled
    case ClientLock(m) => s.clients[m] < 254
    case ClientUnlock(m) => s.clients[m] > 0
    case _ => true
  }

  predicate PermittedRun(s: System, es: seq<Event>)
    requires Wf(s)
    decreases |es|
  {
    es == [] || (Permitted(s, es[0]) && PermittedRun(Step(s, es[0]), es[1..]))
  }

  /** The lock that stays from initialisation on, and those of the driver. */
  function Own(m: nat, idle: bool, enabled: bool): nat {
    if m == BACKUP then 1
    else if m == WFI && idle then 1
    else if m == WAIT && enabled then 1
    else 0
  }

  /** Enabling forgets the lock that the idle flag stands for. */
  predicate Leaks(s: System, e: Event) {
    e.EnableUsb? && s.d.idle
  }

  function LeaksIn(s: System, es: seq<Event>): nat
    requires Wf(s)
    decreases |es|
  {
    if es == [] then 0 else (if Leaks(s, es[0]) then 1 else 0) + LeaksIn(Step(s, es[0]), es[1..])
  }

  /** The counts, with so many WFI locks that nobody holds any more. */
  predicate Counts(s: System, leaked: nat)
    requires Wf(s)
  {
    forall m :: 0 <= m < MODES ==>
      s.d.locks.count[m] == s.clients[m] + Own(m, s.d.idle, s.enabled) + (if m == WFI then leaked else 0)
  }

  predicate ClientsFit(s: System)
    requires Wf(s)
  {
    forall m :: 0 <= m < MODES ==> s.clients[m] <= 254
  }

  /** The driver holds one WFI lock exactly while the bus is idle, one WAIT lock exactly while it is
      enabled, and no other; no assertion has failed. */
  predicate Balanced(s: System) {
    Wf(s) && !s.d.locks.failed && Counts(s, 0)
  }

  /** Either an assertion has failed, which needs a leaked lock, or the counts are off by the leaks. */
  predicate Tracked(s: System, leaked: nat) {
    && Wf(s) && ClientsFit(s)
    && (if s.d.locks.failed then leaked > 0 else Counts(s, leaked))
  }

  lemma EnableTracked(s: System, attach: bool, leaked: nat)
    requires Tracked(s, leaked) && !s.enabled
    ensures Tracked(Step(s, EnableUsb(attach)), leaked + if s.d.idle then 1 else 0)
  {
  }

  lemma DisableTracked(s: System, leaked: nat)
    requires Tracked(s, leaked) && s.enabled
    ensures Tracked(Step(s, DisableUsb), leaked)
  {
  }

  lemma IdleTracked(s: System, idle: bool, leaked: nat)
    requires Tracked(s, leaked)
    ensures Tracked(s.(d := SleepMode(s.d, idle)), leaked)
  {
  }

  lemma ClientTracked(s: System, e: Event, leaked: nat)
    requires Tracked(s, leaked) && Permitted(s, e) && (e.ClientLock? || e.ClientUnlock?)
    ensures Tracked(Step(s, e), leaked)
  {
  }

  lemma StepTracked(s: System, e: Event, leaked: nat)
    requires Tracked(s, leaked) && Permitted(s, e)
    ensures Tracked(Step(s, e), leaked + if Leaks(s, e) then 1 else 0)
  {
    match e
    case EnableUsb(attach) => EnableTracked(s, attach, leaked);
    case DisableUsb => DisableTracked(s, leaked);
    case Attach => IdleTracked(s, true, leaked);
    case Detach => IdleTracked(s, false, leaked);
    case Suspend => IdleTracked(s, false, leaked);
    case Resume => IdleTracked(s, true, leaked);
    case Wakeup => IdleTracked(s, true, leaked);
    case ClientLock(_) => ClientTracked(s, e, leaked);
    case ClientUnlock(_) => ClientTracked(s, e, leaked);
  }

  lemma {:induction false} ExecTracked(s: System, es: seq<Event>, leaked: nat)
    requires Tracked(s, leaked) && PermittedRun(s, es)
    ensures Tracked(Exec(s, es), leaked + LeaksIn(s, es))
    decreases |es|
  {
    if es != [] {
      StepTracked(s, es[0], leaked);
      ExecTracked(Step(s, es[0]), es[1..], leaked + if Leaks(s, es[0]) then 1 else 0);
    }
  }

  /** Main result: over every permitted run, with bus events and other clients at any time, the driver's
      locks are balanced at the end, and no assertion on a count has failed, if and only if each
      `udd_enable` found the idle flag clear. A leak is never made good. */
  lemma LocksBalancedExactly(s: System, es: seq<Event>)
    requires Balanced(s) && ClientsFit(s) && PermittedRun(s, es)
    ensures Balanced(Exec(s, es)) <==> LeaksIn(s, es) == 0
    ensures ClientsFit(Exec(s, es))
  {
    ExecTracked(s, es, 0);
    var r := Exec(s, es);
    if LeaksIn(s, es) > 0 && !r.d.locks.failed {
      assert r.d.locks.count[WFI] != r.clients[WFI] + Own(WFI, r.d.idle, r.enabled);
    }
  }

  /** One call: from a balanced, disabled state `udd_enable` keeps the balance if and only if the idle
      flag was not set. */
  lemma EnableExact(s: System, attach: bool)
    requires Balanced(s) && !s.enabled && ClientsFit(s)
    ensures Balanced(Step(s, EnableUsb(attach))) <==> !s.d.idle
  {
    var es := [EnableUsb(attach)];
    assert es[1..] == [];
    assert LeaksIn(s, es) == if s.d.idle then 1 else 0;
    assert PermittedRun(s, es);
    LocksBalancedExactly(s, es);
    assert Exec(s, es) == Step(s, es[0]);
  }

  /** Attaching before enabling is enough to leak a lock: afterwards even a suspended bus keeps the
      device out of WAIT mode. */
  lemma AttachThenEnableLeaks()
    ensures var s := Exec(Boot(), [Attach, EnableUsb(true)]);
            !Balanced(s) && FirstLocked(Step(s, Suspend).d.locks.count, 0) == WFI
  {
    var es := [Attach, EnableUsb(true)];
    assert es[1..] == [EnableUsb(true)] && es[1..][1..] == [];
    var s1 := Step(Boot(), Attach);
    var s2 := Step(s1, EnableUsb(true));
    assert Exec(s1, es[1..]) == Exec(s2, []);
    assert s2.d.locks.count == [0, 0, 2, 1, 1] && s2.clients == [0, 0, 0, 0, 0];
    assert Step(s2, Suspend).d.locks.count == [0, 0, 1, 1, 1];
    assert FirstLocked(Step(s2, Suspend).d.locks.count, 1) == 2;
  }

  /** A mode is kept from being passed by a client, by the idle bus, by the enabled driver or for good. */
  predicate Held(s: System, m: nat)
    requires |s.clients| == MODES && m < MODES
  {
    s.clients[m] > 0 || Own(m, s.d.idle, s.enabled) > 0
  }

  /** The search ends inside the array, at the shallowest mode that is held; the driver's idle flag allows nothing
      below WFI, an enabled driver nothing below WAIT, and where no client holds a lock exactly these depths
      are reached. */
  lemma DeepestAllowed(s: System)
    requires Balanced(s)
    ensures var r := FirstLocked(s.d.locks.count, 0);
            && r < MODES && Held(s, r) && (forall k :: 0 <= k < r ==> !Held(s, k))
            && (s.d.idle ==> r <= WFI) && (s.enabled ==> r <= WAIT)
            && ((forall k :: 0 <= k < MODES ==> s.clients[k] == 0)
                ==> r == if s.d.idle then WFI else if s.enabled then WAIT else BACKUP)
  {
    assert s.d.locks.count[BACKUP] == s.clients[BACKUP] + 1;
    assert s.d.locks.count[WFI] == s.clients[WFI] + Own(WFI, s.d.idle, s.enabled);
    assert s.d.locks.count[WAIT] == s.clients[WAIT] + Own(WAIT, s.d.idle, s.enabled);
  }

  /** The counts fit their eight bits. */
  predicate CountsFit(l: Locks) {
    Sized(l) && forall m :: 0 <= m < MODES ==> l.count[m] <= 255
  }

  /** Taking a lock fails, and changes no count, exactly at the largest count; giving one back exactly at zero. */
  lemma LockLimits(l: Locks, m: Mode)
    requires CountsFit(l) && !l.failed
    ensures Lock(l, m).failed <==> l.count[m] == 255
    ensures Unlock(l, m).failed <==> l.count[m] == 0
    ensures l.count[m] < 255 ==> Unlock(Lock(l, m), m) == l
  {
    if l.count[m] < 255 {
      assert l.count[m := l.count[m] + 1][m := l.count[m]] == l.count;
    }
  }

  lemma StepFits(s: System, e: Event)
    requires Wf(s) && CountsFit(s.d.locks)
    ensures CountsFit(Step(s, e).d.locks)
  {
  }

  /** Over every run, permitted or not, no count wraps. */
  lemma {:induction false} CountsNeverWrap(s: System, es: seq<Event>)
    requires Wf(s) && CountsFit(s.d.locks)
    ensures CountsFit(Exec(s, es).d.locks)
    decreases |es|
  {
    if es != [] {
      StepFits(s, es[0]);
      CountsNeverWrap(Step(s, es[0]), es[1..]);
    }
  }

  // ---------------------------------------------------------------- the bus, by its events

  /** The bus is active: what the last event that concerns it says. A host uses the bus from attaching, resuming,
      a wake-up or an enabling that attaches, until suspending, detaching or disabling. */
  predicate Active(es: seq<Event>) {
    if es == [] then false
    else
      match es[|es| - 1]
      case Attach => true
      case Resume => true
      case Wakeup => true
      case EnableUsb(attach) => attach
      case Suspend => false
      case Detach => false
      case DisableUsb => false
      case _ => Active(es[..|es| - 1])
  }

  /** The driver is enabled: the last call of that kind was `udd_enable`. */
  predicate Enabled(es: seq<Event>) {
    es != [] &&
    var e := es[|es| - 1];
    (e.EnableUsb? || (!e.DisableUsb? && Enabled(es[..|es| - 1])))
  }

  lemma {:induction false} ExecSnoc(s: System, es: seq<Event>, e: Event)
    requires Wf(s)
    ensures Exec(s, es + [e]) == Step(Exec(s, es), e)
    decreases |es|
  {
    if es == [] {
      assert ([] + [e])[1..] == [];
    } else {
      assert (es + [e])[1..] == es[1..] + [e];
      ExecSnoc(Step(s, es[0]), es[1..], e);
    }
  }

  /** The flag that decides about the locks is what the events say: over every run, in any order of events. */
  lemma {:induction false} FlagsFollowBus(es: seq<Event>)
    ensures var s := Exec(Boot(), es); (s.d.idle <==> Active(es)) && (s.enabled <==> Enabled(es))
    decreases |es|
  {
    if es != [] {
      var n := |es| - 1;
      assert es == es[..n] + [es[n]];
      ExecSnoc(Boot(), es[..n], es[n]);
      FlagsFollowBus(es[..n]);
    }
  }

  /** Each enabling happened while the bus was not active. */
  predicate EnabledQuietly(es: seq<Event>) {
    forall k :: 0 <= k < |es| && es[k].EnableUsb? ==> !Active(es[..k])
  }

  /** Leaks up to an event, and at it. */
  lemma {:induction false} LeaksSnoc(s: System, es: seq<Event>, e: Event)
    requires Wf(s)
    ensures LeaksIn(s, es + [e]) == LeaksIn(s, es) + if Leaks(Exec(s, es), e) then 1 else 0
    decreases |es|
  {
    if es == [] {
      assert ([] + [e])[1..] == [];
    } else {
      assert (es + [e])[1..] == es[1..] + [e];
      LeaksSnoc(Step(s, es[0]), es[1..], e);
    }
  }

  lemma {:induction false} LeaksByEvents(es: seq<Event>)
    ensures LeaksIn(Boot(), es) == 0 <==> EnabledQuietly(es)
    decreases |es|
  {
    if es != [] {
      var n := |es| - 1;
      assert es == es[..n] + [es[n]];
      LeaksSnoc(Boot(), es[..n], es[n]);
      LeaksByEvents(es[..n]);
      FlagsFollowBus(es[..n]);
      QuietSnoc(es[..n], es[n]);
    }
  }

  lemma QuietSnoc(es: seq<Event>, e: Event)
    ensures EnabledQuietly(es + [e]) <==> EnabledQuietly(es) && (e.EnableUsb? ==> !Active(es))
  {
    var all := es + [e];
    assert all[..|es|] == es && all[|es|] == e;
    assert forall k :: 0 <= k < |es| ==> all[..k] == es[..k] && all[k] == es[k];
  }

  /** Main result, in terms of events only: from start-up on, the locks are balanced if and only if each enabling
      happened while the bus was not active. Then the mode found is WFI on an active bus, else WAIT while
      enabled, else BACKUP, unless a client holds a shallower one, and never deeper. */
  lemma DepthByEvents(es: seq<Event>)
    requires PermittedRun(Boot(), es)
    ensures var s := Exec(Boot(), es);
            var depth := FirstLocked(s.d.locks.count, 0);
            var own := if Active(es) then WFI else if Enabled(es) then WAIT else BACKUP;
            && (Balanced(s) <==> EnabledQuietly(es))
            && (EnabledQuietly(es) ==> depth <= own && (depth == own || s.clients[depth] > 0))
            && (EnabledQuietly(es) && (forall k :: 0 <= k < MODES ==> s.clients[k] == 0) ==> depth == own)
  {
    assert Balanced(Boot());
    LocksBalancedExactly(Boot(), es);
    LeaksByEvents(es);
    FlagsFollowBus(es);
    if EnabledQuietly(es) {
      DeepestAllowed(Exec(Boot(), es));
    }
  }

  /** Whatever the order of events, with leaks or without, an active bus keeps the device out of every mode below
      WFI: a leaked lock errs on the safe side. */
  lemma ActiveBusKeepsAwake(es: seq<Event>)
    requires PermittedRun(Boot(), es)
    ensures var s := Exec(Boot(), es);
            Active(es) && !s.d.locks.failed ==> FirstLocked(s.d.locks.count, 0) <= WFI
  {
    assert Tracked(Boot(), 0);
    ExecTracked(Boot(), es, 0);
    FlagsFollowBus(es);
    var s := Exec(Boot(), es);
    assert s.d.idle && !s.d.locks.failed ==> s.d.locks.count[WFI] > 0;
  }
}
