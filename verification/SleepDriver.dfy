/** The sleep manager on its array of counts, and the USB driver's calls of it. */
module SleepDriver {
  import opened Sleep

  class SleepManager {
    const locks: array<nat>

    ghost predicate Valid() {
      locks.Length == MODES
    }

    ghost function View(): (r: Locks)
      requires Valid()
      reads locks
      ensures Sized(r)
    {
      Locks(locks[..], false)
    }

    constructor ()
      ensures Valid() && fresh(locks)
    {
      locks := new nat[MODES](_ => 0);
    }

    /** `sleepmgr_init`. */
    method Initialise()
      requires Valid()
      modifies locks
      ensures View() == Init()
    {
      for i := 0 to MODES - 1
        invariant forall k :: 0 <= k < i ==> locks[k] == 0
      {
        locks[i] := 0;
      }
      locks[MODES - 1] := 1;
      assert locks[..] == [0, 0, 0, 0, 1];
    }

    method LockMode(m: Mode)
      requires Valid() && locks[m] < 255
      modifies locks
      ensures View() == Lock(old(View()), m)
    {
      locks[m] := locks[m] + 1;
    }

    method UnlockMode(m: Mode)
      requires Valid() && locks[m] > 0
      modifies locks
      ensures View() == Unlock(old(View()), m)
    {
      locks[m] := locks[m] - 1;
    }

    /** `sleepmgr_get_sleep_mode`: the search ends inside the array if any mode is locked. */
    method GetSleepMode() returns (mode: nat)
      requires Valid() && exists k :: 0 <= k < MODES && locks[k] > 0
      ensures mode == FirstLocked(locks[..], 0) && mode < MODES
    {
      mode := ACTIVE;
      while locks[mode] == 0
        invariant 0 <= mode < MODES && forall k :: 0 <= k < mode ==> locks[k] == 0
        decreases MODES - mode
      {
        mode := mode + 1;
      }
      var r := FirstLocked(locks[..], 0);
      assert r < MODES ==> locks[r] > 0;
    }
  }

  class UsbPower {
    const manager: SleepManager
    var idle: bool

    ghost predicate Valid() {
      manager.Valid()
    }

    ghost function View(): (r: Driver)
      requires Valid()
      reads this, manager.locks
      ensures Sized(r.locks)
    {
      Driver(manager.View(), idle)
    }

    constructor (manager: SleepManager)
      requires manager.Valid()
      ensures Valid() && this.manager == manager && !idle
    {
      this.manager, idle := manager, false;
    }

    /** `udd_sleep_mode`. */
    method SetIdle(b: bool)
      requires Valid() && !SleepMode(View(), b).locks.failed
      modifies this, manager.locks
      ensures View() == SleepMode(old(View()), b)
    {
      if !b && idle {
        manager.UnlockMode(WFI);
      }
      if b && !idle {
        manager.LockMode(WFI);
      }
      idle := b;
    }

    /** `udd_enable`. */
    method EnableUsb(attach: bool)
      requires Valid() && !Enable(View(), attach).locks.failed
      modifies this, manager.locks
      ensures View() == Enable(old(View()), attach)
    {
      idle := false;
      manager.LockMode(WAIT);
      if attach {
        SetIdle(true);
      }
    }

    /** `udd_disable`. */
    method DisableUsb()
      requires Valid() && !Disable(View()).locks.failed
      modifies this, manager.locks
      ensures View() == Disable(old(View()))
    {
      SetIdle(false);
      manager.UnlockMode(WAIT);
    }

    /** `udd_send_remotewakeup`. */
    method SendRemoteWakeup()
      requires Valid() && !RemoteWakeup(View()).locks.failed
      modifies this, manager.locks
      ensures View() == RemoteWakeup(old(View()))
    {
      if !idle {
        SetIdle(true);
      }
    }
  }
}
