/** The job table of the UDP driver with re-entrant callbacks.

    Which callback runs when does not depend on the data moved, so this model keeps of a job only
    what decides it. A callback may call the driver again on any endpoint, and those calls may
    invoke further callbacks: `Oracle` lists, for each invocation in turn, the calls it makes.
    Nothing is assumed about it, so all interleavings are covered. */
module Callbacks {

  /** `USB_DEVICE_MAX_EP`. */
  const MAX_EP := 6

  /** One entry of `udd_ep_job` with the endpoint flags, and the books kept about it: jobs are numbered
      as they are accepted; `called` are the jobs whose callback ran, `silent` counts completions
      without callback, `dropped` jobs forgotten by `udd_ep_job_table_reset`, and `faults` jobs
      without callback for which `udd_ep_clear_halt` called the null pointer. `nullCalls` counts the
      null pointers that `udd_ep_wait_stall_clear` called at once; no job is involved in these. */
  datatype Slot = Slot(enabled: bool, busy: bool, hasCallback: bool, stallRequested: bool, forcestall: bool,
                       accepted: nat, called: seq<nat>, silent: nat, dropped: nat, faults: nat, nullCalls: nat)

  /** The memory at `udd_ep_job[ep - 1]` for each endpoint number that passes the guards of the driver. The
      table has the entries of endpoints 1 to 6; entry 0 is what lies before it, read as a job. */
  type Table = t: seq<Slot> | |t| == MAX_EP + 1 witness seq(MAX_EP + 1, _ => FRESH)

  const FRESH := Slot(false, false, false, false, false, 0, [], 0, 0, 0, 0)

  /** A call of the driver, or a pass of its interrupt routine. `IsrComplete` is a pass that finishes
      the job of an endpoint, `IsrStall` one that executes a deferred halt. */
  datatype Action =
    | Alloc
    | Free
    | Run(hasCallback: bool)
    | WaitStallClear(given: bool)
    | Abort
    | SetHalt(deferred: bool)
    | ClearHalt
    | IsrComplete
    | IsrStall

  datatype Call = At(ep: nat, action: Action) | BusReset(disabling: set<nat>) | Enable

  type Oracle = seq<seq<Call>>

  /** The guard of the driver's calls: only numbers above the table are refused. */
  predicate Admitted(ep: nat) {
    !(MAX_EP < ep)
  }

  /** The endpoint number of an address, such as the one a host puts into a request. */
  function EndpointOf(address: nat): nat {
    address % 16
  }

  /** The books balance: each accepted job was completed in exactly one way or is the running one,
      and no callback ran twice for a job. */
  predicate Balanced(s: Slot) {
    && |s.called| + s.silent + s.dropped + s.faults + (if s.busy then 1 else 0) == s.accepted
    && (forall i, j :: 0 <= i < j < |s.called| ==> s.called[i] < s.called[j])
    && (forall i :: 0 <= i < |s.called| ==> s.called[i] <= s.accepted && (s.busy ==> s.called[i] < s.accepted))
  }

  predicate Books(t: Table) {
    forall i :: 1 <= i <= MAX_EP ==> Balanced(t[i])
  }

  /** The running job has ended: the next callback that ran was its own, or it was counted as completed without
      one. */
  predicate Completed(s: Slot, r: Slot) {
    if s.hasCallback then |r.called| > |s.called| && r.called[|s.called|] == s.accepted
    else r.silent > s.silent
  }

  /** The running job has ended in some way: a table reset drops it, and clearing a halt calls its callback,
      which may be a null pointer. */
  predicate Ended(s: Slot, r: Slot) {
    Completed(s, r) || r.dropped > s.dropped || (!s.hasCallback && r.faults > s.faults)
  }

  predicate StillRuns(s: Slot, r: Slot) {
    r.busy && r.accepted == s.accepted && r.hasCallback == s.hasCallback && r.called == s.called
  }

  /** The books are only added to, and a running job goes on or has ended. */
  predicate Grown(s: Slot, r: Slot) {
    && s.accepted <= r.accepted && s.called <= r.called && s.silent <= r.silent
    && s.dropped <= r.dropped && s.faults <= r.faults && s.nullCalls <= r.nullCalls
    && (s.busy ==> StillRuns(s, r) || Ended(s, r))
  }

  predicate Grows(t: Table, r: Table) {
    forall i :: 0 <= i <= MAX_EP ==> Grown(t[i], r[i])
  }

  lemma GrownOn(a: Slot, b: Slot, c: Slot)
    requires Grown(a, b) && Grown(b, c)
    ensures Grown(a, c)
  {
  }

  lemma GrowsOn(a: Table, b: Table, c: Table)
    requires Grows(a, b) && Grows(b, c)
    ensures Grows(a, c)
  {
    forall i | 0 <= i <= MAX_EP ensures Grown(a[i], c[i]) {
      GrownOn(a[i], b[i], c[i]);
    }
  }

  /** Every running job has a callback. */
  predicate AllHaveCallbacks(t: Table) {
    forall i :: 0 <= i <= MAX_EP ==> t[i].busy ==> t[i].hasCallback
  }

  /** No callback is left out. */
  predicate Careful(a: Action) {
    match a
    case Run(hasCallback) => hasCallback
    case WaitStallClear(given) => given
    case _ => true
  }

  predicate CarefulCalls(calls: seq<Call>) {
    forall c :: c in calls && c.At? ==> Careful(c.action)
  }

  predicate CarefulOracle(o: Oracle) {
    forall i :: 0 <= i < |o| ==> CarefulCalls(o[i])
  }

  /** Null pointers called on an endpoint. */
  function NullsCalled(s: Slot): nat {
    s.faults + s.nullCalls
  }

  /** Jobs without callback stay out, and no null pointer is called. */
  predicate StaysClean(t: Table, o: Oracle, r: (Table, Oracle)) {
    AllHaveCallbacks(t) && CarefulOracle(o) ==>
      && AllHaveCallbacks(r.0) && CarefulOracle(r.1)
      && forall i :: 0 <= i <= MAX_EP ==> NullsCalled(r.0[i]) == NullsCalled(t[i])
  }

  /** No call names endpoint 0. */
  predicate InsideCalls(calls: seq<Call>) {
    forall c :: c in calls && c.At? ==> c.ep != 0
  }

  predicate InsideOracle(o: Oracle) {
    forall i :: 0 <= i < |o| ==> InsideCalls(o[i])
  }

  /** The memory before the table stays as it is. */
  predicate StaysInside(t: Table, o: Oracle, r: (Table, Oracle)) {
    InsideOracle(o) ==> InsideOracle(r.1) && r.0[0] == t[0]
  }

  /** No callback resets the table. */
  predicate CallsKeepTable(calls: seq<Call>) {
    forall c :: c in calls ==> !c.Enable?
  }

  predicate KeepsTable(o: Oracle) {
    forall i :: 0 <= i < |o| ==> CallsKeepTable(o[i])
  }

  /** No job is dropped. */
  predicate DropsNothing(t: Table, o: Oracle, r: (Table, Oracle)) {
    KeepsTable(o) ==> KeepsTable(r.1) && forall i :: 0 <= i <= MAX_EP ==> r.0[i].dropped == t[i].dropped
  }

  function Accept(s: Slot, hasCallback: bool): Slot {
    s.(busy := true, hasCallback := hasCallback, accepted := s.accepted + 1)
  }

  /** The running job ends and its callback is called. */
  function Called(s: Slot): Slot {
    s.(busy := false, called := s.called + [s.accepted])
  }

  function Drop(s: Slot): Slot {
    if s.busy then s.(busy := false, stallRequested := false, dropped := s.dropped + 1)
    else s.(stallRequested := false)
  }

  function Put(t: Table, ep: nat, s: Slot): (r: Table)
    requires Admitted(ep)
    ensures Books(t) && Balanced(s) ==> Books(r)
    ensures (s.busy ==> s.hasCallback) && NullsCalled(s) == NullsCalled(t[ep]) ==> StaysClean(t, [], (r, []))
    ensures ep != 0 ==> r[0] == t[0]
    ensures r[ep] == s && (s == t[ep] ==> r == t)
    ensures Grown(t[ep], s) ==> Grows(t, r)
    ensures s.dropped == t[ep].dropped ==> DropsNothing(t, [], (r, []))
  {
    t[ep := s]
  }

  /** Flags play no part in the books. */
  function Flags(s: Slot, enabled: bool, stallRequested: bool, forcestall: bool): (r: Slot)
    ensures Balanced(s) ==> Balanced(r)
  {
    s.(enabled := enabled, stallRequested := stallRequested, forcestall := forcestall)
  }

  /** A callback runs: it makes the calls the oracle says. */
  function Invoke(t: Table, o: Oracle): (r: (Table, Oracle))
    ensures |r.1| <= |o|
    ensures StaysInside(t, o, r)
    ensures Books(t) ==> Books(r.0)
    ensures Grows(t, r.0)
    ensures DropsNothing(t, o, r)
    ensures StaysClean(t, o, r)
    decreases |o|, 0, 0
  {
    if o == [] then (t, o) else Exec(t, o[0], o[1..])
  }

  /** What `udd_ep_finish_job` does to the entry. */
  function Finished(s: Slot): (r: Slot)
    ensures Balanced(s) ==> Balanced(r)
    ensures Grown(s, r) && !r.busy && NullsCalled(r) == NullsCalled(s) && r.dropped == s.dropped
    ensures s.busy ==> Completed(s, r)
  {
    if !s.busy then s
    else if s.hasCallback then Called(s)
    else s.(busy := false, silent := s.silent + 1)
  }

  /** What `udd_ep_finish_job` does itself; true if it then calls the callback of the job. */
  function FinishStage(t: Table, ep: nat): (r: (Table, bool))
    requires Admitted(ep)
    ensures Books(t) ==> Books(r.0)
    ensures Grows(t, r.0)
    ensures DropsNothing(t, [], (r.0, []))
    ensures ep != 0 ==> r.0[0] == t[0]
    ensures StaysClean(t, [], (r.0, []))
  {
    (Put(t, ep, Finished(t[ep])), t[ep].busy && t[ep].hasCallback)
  }

  /** `udd_ep_finish_job`. */
  function Finish(t: Table, ep: nat, o: Oracle): (r: (Table, Oracle))
    requires Admitted(ep)
    ensures |r.1| <= |o|
    ensures ep != 0 ==> StaysInside(t, o, r)
    ensures Books(t) ==> Books(r.0)
    ensures Grows(t, r.0)
    ensures DropsNothing(t, o, r)
    ensures StaysClean(t, o, r)
    decreases |o|, 1, 0
  {
    var f := FinishStage(t, ep);
    if f.1 then Invoke(f.0, o) else (f.0, o)
  }

  /** `udd_ep_job_table_kill`; a callback may start a job on an endpoint already passed. */
  function KillFrom(t: Table, ep: nat, o: Oracle): (r: (Table, Oracle))
    requires 1 <= ep <= MAX_EP + 1
    ensures |r.1| <= |o|
    ensures StaysInside(t, o, r)
    ensures Books(t) ==> Books(r.0)
    ensures Grows(t, r.0)
    ensures DropsNothing(t, o, r)
    ensures StaysClean(t, o, r)
    decreases |o|, 2, MAX_EP + 1 - ep
  {
    if ep > MAX_EP then (t, o)
    else
      var f := Finish(t, ep, o);
      var r := KillFrom(f.0, ep + 1, f.1);
      GrowsOn(t, f.0, r.0);
      r
  }

  function Disabled(s: Slot, off: bool): (r: Slot)
    ensures Balanced(s) ==> Balanced(r)
    ensures Grown(s, r) && r == s.(enabled := r.enabled, forcestall := r.forcestall)
  {
    if off then s.(enabled := false, forcestall := false) else s
  }

  function DisableAll(t: Table, disabling: set<nat>): (r: Table)
    ensures Books(t) ==> Books(r)
    ensures Grows(t, r)
    ensures DropsNothing(t, [], (r, []))
    ensures StaysClean(t, [], (r, []))
    ensures r[0] == t[0]
  {
    seq(MAX_EP + 1, i requires 0 <= i <= MAX_EP => Disabled(t[i], i != 0 && i in disabling))
  }

  /** A bus reset: the peripheral disables endpoints and drops their stalls, and the driver kills all jobs. */
  function BusResetOf(t: Table, disabling: set<nat>, o: Oracle): (r: (Table, Oracle))
    ensures |r.1| <= |o|
    ensures StaysInside(t, o, r)
    ensures Books(t) ==> Books(r.0)
    ensures Grows(t, r.0)
    ensures DropsNothing(t, o, r)
    ensures StaysClean(t, o, r)
    decreases |o|, 3, 0
  {
    var t1 := DisableAll(t, disabling);
    var r := KillFrom(t1, 1, o);
    GrowsOn(t, t1, r.0);
    r
  }

  /** `udd_ep_job_table_reset`: every running job, and no other, is forgotten without a callback. */
  function TableReset(t: Table): (r: Table)
    ensures Books(t) ==> Books(r)
    ensures Grows(t, r)
    ensures forall i :: 1 <= i <= MAX_EP ==>
              && !r[i].busy && !r[i].stallRequested && r[i].called == t[i].called
              && r[i].dropped == t[i].dropped + (if t[i].busy then 1 else 0)
              && r[i].accepted == t[i].accepted && r[i].silent == t[i].silent
              && r[i].faults == t[i].faults && r[i].nullCalls == t[i].nullCalls
    ensures r[0] == t[0]
  {
    seq(MAX_EP + 1, i requires 0 <= i <= MAX_EP => if i != 0 then Drop(t[i]) else t[0])
  }

  /** What `udd_ep_clear_halt` does to the entry: nothing more than the flags, unless a job is registered on
      a stalled endpoint. */
  function Unhalted(s: Slot): (r: Slot)
    ensures Balanced(s) ==> Balanced(r)
    ensures r.busy ==> s.busy && r.hasCallback == s.hasCallback
    ensures r.nullCalls == s.nullCalls && r.dropped == s.dropped
    ensures r.faults == s.faults + if s.forcestall && s.busy && !s.hasCallback then 1 else 0
    ensures s.forcestall && s.busy && s.hasCallback ==> r.called == s.called + [s.accepted]
    ensures Grown(s, r)
  {
    var s1 := Flags(s, s.enabled, false, false);
    if !s.forcestall || !s.busy then s1
    else if !s.hasCallback then s1.(busy := false, faults := s1.faults + 1)
    else Called(s1)
  }

  /** What `udd_ep_clear_halt` does itself; true if it then calls the callback of a job. */
  function ClearHaltStage(t: Table, ep: nat): (r: (Table, bool))
    requires Admitted(ep)
    ensures Books(t) ==> Books(r.0)
    ensures Grows(t, r.0)
    ensures DropsNothing(t, [], (r.0, []))
    ensures ep != 0 ==> r.0[0] == t[0]
    ensures StaysClean(t, [], (r.0, []))
  {
    var s := t[ep];
    (Put(t, ep, Unhalted(s)), s.forcestall && s.busy && s.hasCallback)
  }

  /** `udd_ep_clear_halt`. */
  function ClearHaltOf(t: Table, ep: nat, o: Oracle): (r: (Table, Oracle))
    requires Admitted(ep)
    ensures |r.1| <= |o|
    ensures ep != 0 ==> StaysInside(t, o, r)
    ensures Books(t) ==> Books(r.0)
    ensures Grows(t, r.0)
    ensures DropsNothing(t, o, r)
    ensures StaysClean(t, o, r)
    decreases |o|, 1, 0
  {
    var c := ClearHaltStage(t, ep);
    if c.1 then Invoke(c.0, o) else (c.0, o)
  }

  /** The endpoint takes a callback for the end of its halt and, not being halted, calls it at once. */
  predicate CallsAtOnce(s: Slot) {
    s.enabled && !s.busy && !s.forcestall && !s.stallRequested
  }

  /** What `udd_ep_wait_stall_clear` does to the entry: it registers the callback if a halt is set or deferred, and
      else calls it, also when it is null. */
  function Waiting(s: Slot, given: bool): (r: Slot)
    ensures Balanced(s) ==> Balanced(r)
    ensures Grown(s, r) && r.faults == s.faults && r.dropped == s.dropped
    ensures given ==> r.nullCalls == s.nullCalls
    ensures given && r.busy && (s.busy ==> s.hasCallback) ==> r.hasCallback
  {
    if !s.enabled || s.busy then s
    else if s.forcestall || s.stallRequested then Accept(s, given)
    else if given then s
    else s.(nullCalls := s.nullCalls + 1)
  }

  /** What `udd_ep_wait_stall_clear` does itself; `given` if the callback is not null. True if it then calls
      the callback. */
  function WaitStallStage(t: Table, ep: nat, given: bool): (r: (Table, bool))
    requires Admitted(ep)
    ensures Books(t) ==> Books(r.0)
    ensures Grows(t, r.0)
    ensures DropsNothing(t, [], (r.0, []))
    ensures ep != 0 ==> r.0[0] == t[0]
    ensures given ==> StaysClean(t, [], (r.0, []))
  {
    (Put(t, ep, Waiting(t[ep], given)), given && CallsAtOnce(t[ep]))
  }

  /** `udd_ep_wait_stall_clear`. */
  function WaitStallClearOf(t: Table, ep: nat, given: bool, o: Oracle): (r: (Table, Oracle))
    requires Admitted(ep)
    ensures |r.1| <= |o|
    ensures ep != 0 ==> StaysInside(t, o, r)
    ensures !t[ep].enabled || t[ep].busy ==> r == (t, o)
    ensures t[ep].enabled && !t[ep].busy && (t[ep].forcestall || t[ep].stallRequested) ==>
              && r.1 == o && r.0[ep].busy && r.0[ep].hasCallback == given
              && r.0[ep].accepted == t[ep].accepted + 1 && r.0[ep].called == t[ep].called
    ensures o != [] && given && CallsAtOnce(t[ep]) ==> |r.1| < |o|
    ensures Books(t) ==> Books(r.0)
    ensures Grows(t, r.0)
    ensures DropsNothing(t, o, r)
    ensures given ==> StaysClean(t, o, r)
    decreases |o|, 1, 0
  {
    var w := WaitStallStage(t, ep, given);
    if w.1 then Invoke(w.0, o) else (w.0, o)
  }

  function RunOf(t: Table, ep: nat, hasCallback: bool): (r: Table)
    requires Admitted(ep)
    ensures Books(t) ==> Books(r)
    ensures Grows(t, r)
    ensures DropsNothing(t, [], (r, []))
    ensures hasCallback ==> StaysClean(t, [], (r, []))
    ensures ep != 0 ==> r[0] == t[0]
  {
    var s := t[ep];
    if !s.enabled || s.stallRequested || s.forcestall || s.busy then t
    else Put(t, ep, Accept(s, hasCallback))
  }

  function PutFlags(t: Table, ep: nat, enabled: bool, stallRequested: bool, forcestall: bool): (r: Table)
    requires Admitted(ep)
    ensures Books(t) ==> Books(r)
    ensures Grows(t, r)
    ensures DropsNothing(t, [], (r, []))
    ensures StaysClean(t, [], (r, []))
    ensures ep != 0 ==> r[0] == t[0]
  {
    Put(t, ep, Flags(t[ep], enabled, stallRequested, forcestall))
  }

  /** `udd_ep_free`: the endpoint is disabled, then its job finished. */
  function FreeOf(t: Table, ep: nat, o: Oracle): (r: (Table, Oracle))
    requires Admitted(ep)
    ensures |r.1| <= |o|
    ensures ep != 0 ==> StaysInside(t, o, r)
    ensures Books(t) ==> Books(r.0)
    ensures Grows(t, r.0)
    ensures DropsNothing(t, o, r)
    ensures StaysClean(t, o, r)
    decreases |o|, 2, 0
  {
    var t1 := PutFlags(t, ep, false, t[ep].stallRequested, t[ep].forcestall);
    var r := Finish(t1, ep, o);
    GrowsOn(t, t1, r.0);
    r
  }

  /** A call on one endpoint with everything its callbacks do. */
  function DoAt(t: Table, ep: nat, a: Action, o: Oracle): (r: (Table, Oracle))
    requires Admitted(ep)
    ensures |r.1| <= |o|
    ensures Books(t) ==> Books(r.0)
    ensures Grows(t, r.0)
    ensures DropsNothing(t, o, r)
    ensures Careful(a) ==> StaysClean(t, o, r)
    ensures ep != 0 ==> StaysInside(t, o, r)
    decreases |o|, 3, 0
  {
    var s := t[ep];
    match a
    case Alloc => (if s.enabled then t else PutFlags(t, ep, true, false, s.forcestall), o)
    case Free => FreeOf(t, ep, o)
    case Run(hasCallback) => (RunOf(t, ep, hasCallback), o)
    case WaitStallClear(given) => WaitStallClearOf(t, ep, given, o)
    case Abort => Finish(t, ep, o)
    case SetHalt(deferred) =>
      (PutFlags(t, ep, s.enabled, s.stallRequested || deferred, s.forcestall || !deferred), o)
    case ClearHalt => ClearHaltOf(t, ep, o)
    case IsrComplete => Finish(t, ep, o)
    case IsrStall => (if s.stallRequested then PutFlags(t, ep, s.enabled, false, true) else t, o)
  }

  /** A call with everything its callbacks do; endpoint numbers above the table are refused. */
  function Do(t: Table, c: Call, o: Oracle): (r: (Table, Oracle))
    ensures |r.1| <= |o|
    ensures Books(t) ==> Books(r.0)
    ensures Grows(t, r.0)
    ensures !c.Enable? ==> DropsNothing(t, o, r)
    ensures (c.At? ==> Careful(c.action)) ==> StaysClean(t, o, r)
    ensures (c.At? ==> c.ep != 0) ==> StaysInside(t, o, r)
    decreases |o|, 4, 0
  {
    match c
    case At(ep, a) => if Admitted(ep) then DoAt(t, ep, a, o) else (t, o)
    case BusReset(disabling) => BusResetOf(t, disabling, o)
    case Enable => (TableReset(t), o)
  }

  /** A run: the calls in turn. Main result: whatever is called and whatever the callbacks do, accepted
      jobs = callbacks invoked + completions without callback + drops + faults + the running job,
      and no job completes twice. */
  function Exec(t: Table, calls: seq<Call>, o: Oracle): (r: (Table, Oracle))
    ensures |r.1| <= |o|
    ensures Books(t) ==> Books(r.0)
    ensures Grows(t, r.0)
    ensures CallsKeepTable(calls) ==> DropsNothing(t, o, r)
    ensures CarefulCalls(calls) ==> StaysClean(t, o, r)
    ensures InsideCalls(calls) ==> StaysInside(t, o, r)
    decreases |o|, 5, |calls|
  {
    if calls == [] then (t, o)
    else
      var d := Do(t, calls[0], o);
      var r := Exec(d.0, calls[1..], d.1);
      GrowsOn(t, d.0, r.0);
      r
  }

  // ---------------------------------------------------------------- how jobs end

  /** The three ways in which one call ends a job. */
  predicate Finishing(a: Action) {
    a.Abort? || a.Free? || a.IsrComplete?
  }

  lemma FinishCompletes(t: Table, ep: nat, o: Oracle)
    requires Admitted(ep) && t[ep].busy
    ensures Completed(t[ep], Finish(t, ep, o).0[ep])
  {
    var f := FinishStage(t, ep);
    assert Completed(t[ep], f.0[ep]);
    assert Grows(f.0, Finish(t, ep, o).0);
  }

  /** The table when the job is finished: a release has disabled the endpoint. */
  function Released(t: Table, ep: nat, a: Action): (r: Table)
    requires Admitted(ep)
    ensures r == t[ep := t[ep].(enabled := t[ep].enabled && !a.Free?)]
  {
    if a.Free? then PutFlags(t, ep, false, t[ep].stallRequested, t[ep].forcestall) else t
  }

  lemma FinishingIsFinish(t: Table, ep: nat, a: Action, o: Oracle)
    requires Admitted(ep) && Finishing(a)
    ensures Do(t, At(ep, a), o) == Finish(Released(t, ep, a), ep, o)
  {
    assert Do(t, At(ep, a), o) == DoAt(t, ep, a, o);
    if a.Free? {
      assert DoAt(t, ep, a, o) == FreeOf(t, ep, o);
      assert FreeOf(t, ep, o) == Finish(Released(t, ep, a), ep, o);
    } else {
      assert Released(t, ep, a) == t;
    }
  }

  /** A completion, an abort or a release ends the running job, whatever its callback does: the callback runs for
      that job, or the completion is counted. */
  lemma CallCompletes(t: Table, ep: nat, a: Action, o: Oracle)
    requires Admitted(ep) && t[ep].busy && Finishing(a)
    ensures Completed(t[ep], Do(t, At(ep, a), o).0[ep])
  {
    FinishingIsFinish(t, ep, a, o);
    FinishCompletes(Released(t, ep, a), ep, o);
  }

  lemma EndedLater(a: Slot, b: Slot, c: Slot)
    requires Grown(a, b) && Grown(b, c)
    requires Ended(a, b) || (StillRuns(a, b) && Ended(b, c))
    ensures Ended(a, c)
  {
  }

  lemma {:induction false} KillEnds(t: Table, ep: nat, i: nat, o: Oracle)
    requires 1 <= ep <= i <= MAX_EP && t[i].busy
    ensures Ended(t[i], KillFrom(t, ep, o).0[i])
    decreases i - ep
  {
    var f := Finish(t, ep, o);
    var r := KillFrom(f.0, ep + 1, f.1);
    if i == ep {
      FinishCompletes(t, ep, o);
    } else if StillRuns(t[i], f.0[i]) {
      KillEnds(f.0, ep + 1, i, f.1);
    }
    assert Grows(t, f.0) && Grows(f.0, r.0);
    EndedLater(t[i], f.0[i], r.0[i]);
  }

  /** Main result on bus resets: every job that was running has ended afterwards, whatever the callbacks do in
      between. If none of them resets the table, no job is dropped: the callback of each job that has one ran for
      it, and a job without one was counted as completed, or as the null pointer that a callback called by
      clearing a halt. */
  lemma BusResetEnds(t: Table, disabling: set<nat>, i: nat, o: Oracle)
    requires 1 <= i <= MAX_EP && t[i].busy
    ensures var r := Do(t, BusReset(disabling), o).0[i];
            && Ended(t[i], r)
            && (KeepsTable(o) ==> Completed(t[i], r) || (!t[i].hasCallback && r.faults > t[i].faults))
  {
    var t1 := DisableAll(t, disabling);
    KillEnds(t1, 1, i, o);
    EndedLater(t[i], t1[i], BusResetOf(t, disabling, o).0[i]);
    assert KeepsTable(o) ==> BusResetOf(t, disabling, o).0[i].dropped == t[i].dropped;
  }

  // ---------------------------------------------------------------- callbacks that make no call

  predicate Quiet(o: Oracle) {
    forall i :: 0 <= i < |o| ==> o[i] == []
  }

  /** The entry is idle, and just its running job has been completed. */
  predicate EndsExactly(s: Slot, r: Slot) {
    && !r.busy && r.accepted == s.accepted && r.stallRequested == s.stallRequested
    && r.called == s.called + (if s.busy && s.hasCallback then [s.accepted] else [])
    && r.silent == s.silent + (if s.busy && !s.hasCallback then 1 else 0)
    && r.dropped == s.dropped && r.faults == s.faults && r.nullCalls == s.nullCalls
  }

  lemma QuietFinish(t: Table, ep: nat, o: Oracle)
    requires Admitted(ep) && Quiet(o)
    ensures var r := Finish(t, ep, o); r.0 == t[ep := Finished(t[ep])] && Quiet(r.1)
  {
    var f := FinishStage(t, ep);
    assert f.0 == t[ep := Finished(t[ep])];
    if f.1 && o != [] {
      assert Invoke(f.0, o) == Exec(f.0, o[0], o[1..]);
      assert Exec(f.0, [], o[1..]) == (f.0, o[1..]);
    }
  }

  lemma QuietKillStep(t: Table, ep: nat, o: Oracle) returns (rest: Oracle)
    requires 1 <= ep <= MAX_EP && Quiet(o)
    ensures Quiet(rest) && KillFrom(t, ep, o) == KillFrom(t[ep := Finished(t[ep])], ep + 1, rest)
  {
    QuietFinish(t, ep, o);
    rest := Finish(t, ep, o).1;
  }

  function AllFinished(t: Table, ep: nat): (r: Table)
    requires 1 <= ep <= MAX_EP + 1
    ensures forall i :: 0 <= i <= MAX_EP ==> r[i] == if i >= ep then Finished(t[i]) else t[i]
    decreases MAX_EP + 1 - ep
  {
    if ep > MAX_EP then t else AllFinished(t[ep := Finished(t[ep])], ep + 1)
  }

  lemma {:induction false} QuietKill(t: Table, ep: nat, o: Oracle)
    requires 1 <= ep <= MAX_EP + 1 && Quiet(o)
    ensures KillFrom(t, ep, o).0 == AllFinished(t, ep)
    decreases MAX_EP + 1 - ep
  {
    if ep <= MAX_EP {
      var rest := QuietKillStep(t, ep, o);
      QuietKill(t[ep := Finished(t[ep])], ep + 1, rest);
    }
  }

  /** What a bus reset leaves of the entry of an endpoint. */
  predicate ResetExactly(s: Slot, disabled: bool, r: Slot) {
    EndsExactly(s, r) && r.enabled == (s.enabled && !disabled) && r.forcestall == (s.forcestall && !disabled)
  }

  lemma KilledAt(t: Table, disabling: set<nat>, i: nat)
    requires 1 <= i <= MAX_EP
    ensures ResetExactly(t[i], i in disabling, AllFinished(DisableAll(t, disabling), 1)[i])
  {
    var t1 := DisableAll(t, disabling);
    assert t1[i] == Disabled(t[i], i in disabling);
    assert AllFinished(t1, 1)[i] == Finished(t1[i]);
  }

  lemma BusResetIsKill(t: Table, disabling: set<nat>, o: Oracle)
    requires Quiet(o)
    ensures Do(t, BusReset(disabling), o).0 == AllFinished(DisableAll(t, disabling), 1)
  {
    assert Do(t, BusReset(disabling), o) == BusResetOf(t, disabling, o);
    QuietKill(DisableAll(t, disabling), 1, o);
  }

  /** A bus reset leaves no endpoint busy, and each entry's books grow by exactly its running job; the endpoints
      it disables have no halt left. */
  lemma QuietBusReset(t: Table, disabling: set<nat>, i: nat, o: Oracle)
    requires Quiet(o) && 1 <= i <= MAX_EP
    ensures ResetExactly(t[i], i in disabling, Do(t, BusReset(disabling), o).0[i])
  {
    BusResetIsKill(t, disabling, o);
    KilledAt(t, disabling, i);
  }

  /** A completion, an abort or a release leaves the endpoint idle, its books grown by exactly its running job,
      and the other entries as they were; a release also disables the endpoint. */
  lemma QuietCall(t: Table, ep: nat, a: Action, i: nat, o: Oracle)
    requires Admitted(ep) && Quiet(o) && Finishing(a) && i <= MAX_EP
    ensures var r := Do(t, At(ep, a), o).0[i];
            if i != ep then r == t[i]
            else EndsExactly(t[i], r) && r.forcestall == t[i].forcestall && r.enabled == (t[i].enabled && !a.Free?)
  {
    FinishingIsFinish(t, ep, a, o);
    QuietFinish(Released(t, ep, a), ep, o);
  }

  // ---------------------------------------------------------------- what a callback does

  /** The call runs a callback: the one of the job it ends, of the halt it clears, or the one it was given. */
  predicate RunsCallback(s: Slot, a: Action) {
    match a
    case ClearHalt => s.forcestall && s.busy && s.hasCallback
    case WaitStallClear(given) => given && CallsAtOnce(s)
    case _ => Finishing(a) && s.busy && s.hasCallback
  }

  lemma FinishThenCalls(t: Table, ep: nat, calls: seq<Call>, o: Oracle)
    requires Admitted(ep) && t[ep].busy && t[ep].hasCallback
    ensures Finish(t, ep, [calls] + o) == Exec(Finish(t, ep, []).0, calls, o)
  {
    var f := FinishStage(t, ep);
    InvokeCalls(f.0, calls, o);
    assert Finish(t, ep, []) == Invoke(f.0, []);
    assert Invoke(f.0, []) == (f.0, []);
  }

  lemma InvokeCalls(t: Table, calls: seq<Call>, o: Oracle)
    ensures Invoke(t, [calls] + o) == Exec(t, calls, o)
  {
    assert ([calls] + o)[1..] == o;
  }

  /** The calls that a callback makes work as if they were made right after the call that runs it: by then its own
      job is over. */
  lemma CallbackIsNext(t: Table, ep: nat, a: Action, calls: seq<Call>, o: Oracle)
    requires Admitted(ep) && RunsCallback(t[ep], a)
    ensures Do(t, At(ep, a), [calls] + o) == Exec(Do(t, At(ep, a), []).0, calls, o)
  {
    if a.ClearHalt? {
      var c := ClearHaltStage(t, ep).0;
      assert Do(t, At(ep, a), []) == ClearHaltOf(t, ep, []) == Invoke(c, []) == (c, []);
      assert Do(t, At(ep, a), [calls] + o) == ClearHaltOf(t, ep, [calls] + o) == Invoke(c, [calls] + o);
      InvokeCalls(c, calls, o);
    } else if a.WaitStallClear? {
      assert Do(t, At(ep, a), []) == WaitStallClearOf(t, ep, true, []) == Invoke(t, []) == (t, []);
      assert Do(t, At(ep, a), [calls] + o) == WaitStallClearOf(t, ep, true, [calls] + o) == Invoke(t, [calls] + o);
      InvokeCalls(t, calls, o);
    } else {
      FinishingIsFinish(t, ep, a, []);
      FinishingIsFinish(t, ep, a, [calls] + o);
      FinishThenCalls(Released(t, ep, a), ep, calls, o);
    }
  }

  // ---------------------------------------------------------------- when jobs start

  /** The endpoint would take a job. */
  predicate Ready(s: Slot) {
    s.enabled && !s.busy && !s.forcestall && !s.stallRequested
  }

  /** A job is taken exactly by a ready endpoint, and gets the next number. */
  lemma RunTakes(t: Table, ep: nat, hasCallback: bool, i: nat, o: Oracle)
    requires Admitted(ep) && i <= MAX_EP
    ensures var d := Do(t, At(ep, Run(hasCallback)), o);
            && d.1 == o
            && if i != ep || !Ready(t[ep]) then d.0[i] == t[i]
               else d.0[i] == t[i].(busy := true, hasCallback := hasCallback, accepted := t[i].accepted + 1)
  {
  }

  /** A job that runs and is then aborted has its callback called, with its number, once. */
  lemma RunThenEnd(t: Table, ep: nat, a: Action, o: Oracle)
    requires Admitted(ep) && Ready(t[ep]) && Quiet(o) && Finishing(a)
    ensures var d := Do(t, At(ep, Run(true)), o);
            var r := Do(d.0, At(ep, a), d.1).0[ep];
            r.called == t[ep].called + [t[ep].accepted + 1] && !r.busy
  {
    RunTakes(t, ep, true, ep, o);
    var d := Do(t, At(ep, Run(true)), o);
    QuietCall(d.0, ep, a, ep, d.1);
  }

  /** A halt, deferred or not, refuses jobs from the call on; a deferred one is carried out by the interrupt
      routine; and clearing it makes an enabled, idle endpoint ready again. */
  lemma HaltCycle(t: Table, ep: nat, deferred: bool, o: Oracle)
    requires Admitted(ep) && t[ep].enabled && !t[ep].busy && Quiet(o)
    ensures var h := Do(t, At(ep, SetHalt(deferred)), o);
            var s := Do(h.0, At(ep, IsrStall), h.1);
            && !Ready(h.0[ep]) && !Ready(s.0[ep])
            && (Ready(t[ep]) ==> s.0[ep].forcestall && !s.0[ep].stallRequested)
            && Ready(Do(h.0, At(ep, ClearHalt), h.1).0[ep])
            && Ready(Do(s.0, At(ep, ClearHalt), s.1).0[ep])
  {
    var h := PutFlags(t, ep, t[ep].enabled, t[ep].stallRequested || deferred, t[ep].forcestall || !deferred);
    assert Do(t, At(ep, SetHalt(deferred)), o) == (h, o);
    var s := if h[ep].stallRequested then PutFlags(h, ep, h[ep].enabled, false, true) else h;
    assert Do(h, At(ep, IsrStall), o) == (s, o);
    assert h[ep] == Flags(t[ep], t[ep].enabled, t[ep].stallRequested || deferred, t[ep].forcestall || !deferred);
    ClearReady(h, ep, o);
    ClearReady(s, ep, o);
  }

  lemma ClearReady(t: Table, ep: nat, o: Oracle)
    requires Admitted(ep) && t[ep].enabled && !t[ep].busy
    ensures Ready(Do(t, At(ep, ClearHalt), o).0[ep])
  {
    assert ClearHaltOf(t, ep, o).0[ep] == Unhalted(t[ep]);
  }

  /** Allocating a free endpoint that is not halted makes it ready; one that is enabled is refused. */
  lemma AllocReady(t: Table, ep: nat, o: Oracle)
    requires Admitted(ep)
    ensures var d := Do(t, At(ep, Alloc), o);
            && d.1 == o
            && (t[ep].enabled ==> d.0 == t)
            && (!t[ep].enabled && !t[ep].busy && !t[ep].forcestall ==> Ready(d.0[ep]))
  {
  }

  // ---------------------------------------------------------------- null pointers

  /** Clearing a halt calls a null pointer, before any callback runs and whatever callbacks do, if and only if
      the endpoint stalls with a job without callback registered; it calls a callback if and only if it
      stalls with a job that has one. */
  lemma ClearHaltFaults(t: Table, ep: nat, o: Oracle)
    requires Admitted(ep)
    ensures var s, c, r := t[ep], ClearHaltStage(t, ep), ClearHaltOf(t, ep, o);
            && (c.0[ep].faults == s.faults + 1 <==> s.forcestall && s.busy && !s.hasCallback)
            && (c.1 <==> s.forcestall && s.busy && s.hasCallback)
            && (c.1 ==> c.0[ep].called == s.called + [s.accepted])
            && (!c.1 ==> r == (c.0, o))
  {
  }

  /** Waiting for the end of a halt, with no callback given, calls the null pointer at once if and only if the
      endpoint is enabled, idle and neither halted nor halting; with a callback given it never does. */
  lemma WaitStallFaults(t: Table, ep: nat, given: bool, o: Oracle)
    requires Admitted(ep)
    ensures var s, w, r := t[ep], WaitStallStage(t, ep, given), WaitStallClearOf(t, ep, given, o);
            && (w.0[ep].nullCalls == s.nullCalls + 1 <==> !given && CallsAtOnce(s))
            && (w.1 <==> given && CallsAtOnce(s))
            && w.0[ep].faults == s.faults
            && (!w.1 ==> r == (w.0, o))
  {
  }

  /** Main result on null pointers: if no callback is left out, neither of a job nor of a wait for the end of a
      halt, in the run and in its callbacks, no null pointer is ever called. */
  lemma NoFaults(t: Table, calls: seq<Call>, o: Oracle)
    requires AllHaveCallbacks(t) && CarefulCalls(calls) && CarefulOracle(o)
    ensures forall i :: 0 <= i <= MAX_EP ==> NullsCalled(Exec(t, calls, o).0[i]) == NullsCalled(t[i])
  {
    assert StaysClean(t, o, Exec(t, calls, o));
  }

  lemma AllocEnables(t: Table)
    requires t[1] == FRESH
    ensures Do(t, At(1, Alloc), []).0[1] == FRESH.(enabled := true)
  {
    assert DoAt(t, 1, Alloc, []).0[1] == FRESH.(enabled := true);
  }

  lemma RunSilently(t: Table)
    requires t[1] == FRESH.(enabled := true)
    ensures Do(t, At(1, Run(false)), []).0[1] == FRESH.(enabled := true, busy := true, accepted := 1)
  {
  }

  lemma WaitCallsNull(t: Table)
    requires CallsAtOnce(t[1])
    ensures Do(t, At(1, WaitStallClear(false)), []).0[1] == t[1].(nullCalls := t[1].nullCalls + 1)
  {
    WaitStallFaults(t, 1, false, []);
  }

  lemma HaltStalls(t: Table)
    ensures Do(t, At(1, SetHalt(false)), []).0[1] == t[1].(forcestall := true)
  {
  }

  lemma ClearCallsNull(t: Table)
    requires t[1].busy && !t[1].hasCallback && t[1].forcestall
    ensures Do(t, At(1, ClearHalt), []).0[1].faults == t[1].faults + 1
  {
    ClearHaltFaults(t, 1, []);
  }

  /** Four calls from the empty table that call the null pointer: a job without callback, a halt, and
      clearing it. */
  lemma FaultReachable(t: Table)
    requires t[1] == FRESH
    ensures var t2 := Do(Do(t, At(1, Alloc), []).0, At(1, Run(false)), []).0;
            Do(Do(t2, At(1, SetHalt(false)), []).0, At(1, ClearHalt), []).0[1].faults == 1
  {
    AllocEnables(t);
    RunSilently(Do(t, At(1, Alloc), []).0);
    var t2 := Do(Do(t, At(1, Alloc), []).0, At(1, Run(false)), []).0;
    HaltStalls(t2);
    ClearCallsNull(Do(t2, At(1, SetHalt(false)), []).0);
  }

  /** Two calls that call it with no job at all: waiting for the end of a halt that is not there. */
  lemma NullCallReachable(t: Table)
    requires t[1] == FRESH
    ensures var r := Do(Do(t, At(1, Alloc), []).0, At(1, WaitStallClear(false)), []).0;
            r[1].nullCalls == 1 && r[1].accepted == 0
  {
    AllocEnables(t);
    WaitCallsNull(Do(t, At(1, Alloc), []).0);
  }

  // ---------------------------------------------------------------- endpoint 0

  /** The entry that a call on an address works on lies inside the table, for addresses that the guard admits,
      if and only if the address is not one of endpoint 0. */
  lemma InsideExactly(address: nat)
    requires Admitted(EndpointOf(address))
    ensures 0 <= EndpointOf(address) - 1 < MAX_EP <==> EndpointOf(address) != 0
  {
  }

  /** Main result on the table's bounds: if no call names endpoint 0, in the run and in its callbacks, the
      memory before the table stays as it is. */
  lemma NothingOutside(t: Table, calls: seq<Call>, o: Oracle)
    requires InsideCalls(calls) && InsideOracle(o)
    ensures Exec(t, calls, o).0[0] == t[0]
  {
    assert StaysInside(t, o, Exec(t, calls, o));
  }

  /** Clearing the halt of endpoint 0, which a host may ask for, writes there. */
  lemma OutsideReachable(t: Table)
    requires t[0].stallRequested && !t[0].forcestall
    ensures Do(t, At(EndpointOf(0x80), ClearHalt), []).0[0] == t[0].(stallRequested := false)
  {
    assert EndpointOf(0x80) == 0;
    assert ClearHaltOf(t, 0, []).0[0] == Unhalted(t[0]);
  }
}
