/** Who gets on in the request protocol: the worker's steps come in order, nobody is blocked for good, an
    untimed wait lasts as long as the request, and an erased entry is gone. */
module RequestProgress {
  import opened RequestProtocol

  // ---- the worker ---------------------------------------------------------------------------------------

  /** The worker's own steps in a run. */
  function WorkOf(es: seq<Event>): seq<WorkerStep> {
    if es == [] then [] else (if es[0].OfWorker? then [es[0].work] else []) + WorkOf(es[1..])
  }

  /** finish, then publish: the status is decided, the mutex taken and given back, the waiters notified, the
      request published. */
  predicate Expected(step: WorkerStep, n: nat) {
    if n == 0 then step.Decide? else if n == 1 then step == Lock else if n == 2 then step == Unlock
    else if n == 3 then step == Notify else n == 4 && step == Publish
  }

  function Taken(w: Worker): nat {
    match w
    case Running => 0
    case Decided => 1
    case Locked => 2
    case Unlocked => 3
    case Finished => 4
    case Published => 5
  }

  lemma WorkerStepIsExpected(s: State, e: Event)
    requires Enabled(s, e)
    ensures e.OfWorker? ==> Expected(e.work, Taken(s.worker)) && Taken(Apply(s, e).worker) == Taken(s.worker) + 1
    ensures !e.OfWorker? ==> Apply(s, e).worker == s.worker
  {
    hide WakeAll;
  }

  /** In every run the worker decides, passes through the mutex, notifies and publishes, in this order and each
      once. */
  lemma {:induction false} WorkerStepsInOrder(s: State, es: seq<Event>)
    requires Legal(s, es)
    ensures Taken(Run(s, es).worker) == Taken(s.worker) + |WorkOf(es)|
    ensures forall i :: 0 <= i < |WorkOf(es)| ==> Expected(WorkOf(es)[i], Taken(s.worker) + i)
    decreases |es|
  {
    hide Enabled, Apply, Expected, Taken;
    if es != [] {
      WorkerStepIsExpected(s, es[0]);
      WorkerStepsInOrder(Apply(s, es[0]), es[1..]);
      if es[0].OfWorker? {
        assert WorkOf(es) == [es[0].work] + WorkOf(es[1..]);
      } else {
        assert WorkOf(es) == [] + WorkOf(es[1..]);
      }
    }
  }

  /** The worker's next step. */
  function NextWork(w: Worker, ok: bool): WorkerStep
    requires w != Published
  {
    match w
    case Running => Decide(ok)
    case Decided => Lock
    case Locked => Unlock
    case Unlocked => Notify
    case Finished => Publish
  }

  /** A waiter that holds the mutex can always take its next step. */
  lemma HolderGoesOn(s: State)
    requires Inv(s) && s.mutex.ByWaiter?
    ensures s.mutex.w < |s.waiters| && s.waiters[s.mutex.w] != Out && WaiterCan(s, s.mutex.w, NextStep(s.waiters[s.mutex.w]))
  {
    hide SleepInv, EntryInv, StatusInv, CallInv;
    assert HoldsLock(s.waiters[s.mutex.w]);
  }

  /** Nobody is blocked for good. Until it has published the worker can go on, or the waiter that holds the mutex
      can; a poller can always start a drain or go on with its own; so can a thread that cancels or releases. */
  lemma NoThreadIsStuck(s: State, ok: bool, p: nat, c: nat, releasing: bool)
    requires Inv(s) && p < |s.pollers| && c < |s.cancellers|
    ensures s.worker != Published ==>
              || WorkerCan(s, NextWork(s.worker, ok))
              || (s.mutex.ByWaiter? && s.mutex.w < |s.waiters| && s.waiters[s.mutex.w] != Out
                  && WaiterCan(s, s.mutex.w, NextStep(s.waiters[s.mutex.w])))
    ensures if s.pollers[p] == Idle then PollerCan(s, p, Swap)
            else exists step: PollerStep :: step != Swap && PollerCan(s, p, step)
    ensures if s.cancellers[c] == Calm then CancellerCan(s.cancellers[c], Cancel(releasing))
            else exists step: CancelStep :: !step.Cancel? && CancellerCan(s.cancellers[c], step)
  {
    if s.mutex.ByWaiter? {
      HolderGoesOn(s);
    }
    MutexOfWorker(s);
    hide Inv, PollerCan, CancellerCan;
    PollerGoesOn(s, p);
    CancellerGoesOn(s.cancellers[c], releasing);
  }

  lemma PollerGoesOn(s: State, p: nat)
    requires p < |s.pollers|
    ensures if s.pollers[p] == Idle then PollerCan(s, p, Swap)
            else exists step: PollerStep :: step != Swap && PollerCan(s, p, step)
  {
    match s.pollers[p]
    case Idle =>
    case Draining => assert PollerCan(s, p, if s.entry == InBatch(p) then Take else Drained);
    case Claimed => assert PollerCan(s, p, Read);
    case Ready(_) => assert PollerCan(s, p, Deliver);
  }

  lemma CancellerGoesOn(x: Canceller, releasing: bool)
    ensures if x == Calm then CancellerCan(x, Cancel(releasing))
            else exists step: CancelStep :: !step.Cancel? && CancellerCan(x, step)
  {
    match x
    case Calm =>
    case Marked(_) => assert CancellerCan(x, NotifyCanceled);
    case Erasing => assert CancellerCan(x, Erase);
  }

  lemma MutexOfWorker(s: State)
    requires Inv(s)
    ensures s.mutex == ByWorker <==> s.worker == Locked
  {
    hide SleepInv, EntryInv, StatusInv, CallInv;
  }

  // ---- waiting ------------------------------------------------------------------------------------------

  /** Inside an untimed wait that has not been let go. */
  predicate StillWaits(x: Waiter) {
    x == Entering(false) || x == Holding(false, false) || x == SawPending(false) || x == Asleep(false) || x == Waking(false, false)
  }

  lemma StepKeepsWaiting(s: State, e: Event, w: nat)
    requires w < |s.waiters| && StillWaits(s.waiters[w]) && Enabled(s, e) && s.status == Pending
    ensures StillWaits(Apply(s, e).waiters[w])
  {
    match e
    case OfWaiter(v, step) =>
      if v != w {
        assert Apply(s, e).waiters[w] == s.waiters[w];
      }
    case _ =>
  }

  /** A wait without a timeout lasts as long as the request is pending, whatever happens. */
  lemma {:induction false} UntimedWaitLasts(s: State, es: seq<Event>, w: nat)
    requires w < |s.waiters| && StillWaits(s.waiters[w]) && Legal(s, es) && Run(s, es).status == Pending
    ensures StillWaits(Run(s, es).waiters[w])
    decreases |es|
  {
    hide Enabled, Apply, StillWaits;
    if es != [] {
      StatusIsFirstVerdict(s, es);
      StepKeepsWaiting(s, es[0], w);
      UntimedWaitLasts(Apply(s, es[0]), es[1..], w);
    }
  }

  /** Past its timeout, or on its way out for another reason. */
  predicate Expiring(x: Waiter) {
    (x.Waking? && x.expired) || (x.Holding? && x.expired) || x == Leaving || x == Past || x.Loaded? || x.Won? || x == Out
  }

  lemma StepKeepsExpiring(s: State, e: Event, w: nat)
    requires w < |s.waiters| && Expiring(s.waiters[w]) && Enabled(s, e) && !(Own(e, w) && e.wait.Enter?)
    ensures Expiring(Apply(s, e).waiters[w])
    ensures Remaining(Apply(s, e).waiters[w]) + (if Own(e, w) then 1 else 0) <= Remaining(s.waiters[w])
  {
    match e
    case OfWaiter(v, step) =>
      if v != w {
        hide WaiterCan;
        assert Apply(s, e).waiters[w] == s.waiters[w];
      }
    case _ => assert Apply(s, e).waiters[w] == s.waiters[w];
  }

  /** A wait whose time has run out is left within six steps of its own, pending or not. */
  lemma {:induction false} ExpiredWaitIsLeft(s: State, es: seq<Event>, w: nat)
    requires w < |s.waiters| && Expiring(s.waiters[w]) && Legal(s, es)
    requires forall i :: 0 <= i < |es| ==> !(Own(es[i], w) && es[i].wait.Enter?)
    ensures Expiring(Run(s, es).waiters[w])
    ensures OwnSteps(es, w) + Remaining(Run(s, es).waiters[w]) <= Remaining(s.waiters[w]) <= 6
    decreases |es|
  {
    ExpiringIsShort(s.waiters[w]);
    hide Enabled, Apply, Expiring, Remaining;
    if es != [] {
      StepKeepsExpiring(s, es[0], w);
      ExpiredWaitIsLeft(Apply(s, es[0]), es[1..], w);
    }
  }

  lemma ExpiringIsShort(x: Waiter)
    requires Expiring(x)
    ensures Remaining(x) <= 6
  {
  }

  // ---- draining -----------------------------------------------------------------------------------------

  predicate OwnDrain(e: Event, p: nat) { e.OfPoller? && e.p == p }

  function DrainSteps(es: seq<Event>, p: nat): nat {
    if es == [] then 0 else (if OwnDrain(es[0], p) then 1 else 0) + DrainSteps(es[1..], p)
  }

  /** How many own steps a drain may still take. */
  function DrainLeft(s: State, p: nat): nat
    requires p < |s.pollers|
  {
    match s.pollers[p]
    case Idle => 0
    case Draining => if s.entry == InBatch(p) then 4 else 1
    case Ready(_) => 2
    case Claimed => 3
  }

  lemma DrainStep(s: State, e: Event, p: nat)
    requires p < |s.pollers| && Enabled(s, e) && e != OfPoller(p, Swap)
    requires EntryInPlace(s, p)
    ensures DrainLeft(Apply(s, e), p) + (if OwnDrain(e, p) then 1 else 0) <= DrainLeft(s, p)
  {
    hide WorkerCan, WaiterCan, PollerCan, CancellerCan, Work, WaitStep, Poll, Withdraw, DrainLeft, EntryInPlace;
    match e
    case OfPoller(v, step) => DrainPoll(s, v, step, p);
    case OfWorker(step) => DrainWork(s, step, p);
    case OfWaiter(w, step) => DrainWait(s, w, step, p);
    case OfCanceller(c, step) => DrainWithdraw(s, c, step, p);
  }

  lemma DrainPoll(s: State, v: nat, step: PollerStep, p: nat)
    requires p < |s.pollers| && v < |s.pollers| && PollerCan(s, v, step) && !(v == p && step == Swap) && EntryInPlace(s, p)
    ensures DrainLeft(Poll(s, v, step), p) + (if v == p then 1 else 0) <= DrainLeft(s, p)
  {
    if v != p {
      assert Poll(s, v, step).pollers[p] == s.pollers[p];
    }
  }

  lemma DrainWork(s: State, step: WorkerStep, p: nat)
    requires p < |s.pollers| && WorkerCan(s, step) && EntryInPlace(s, p)
    ensures DrainLeft(Work(s, step), p) <= DrainLeft(s, p)
  {
    hide WakeAll;
  }

  lemma DrainWait(s: State, w: nat, step: WaiterStep, p: nat)
    requires p < |s.pollers| && w < |s.waiters| && WaiterCan(s, w, step)
    ensures DrainLeft(WaitStep(s, w, step), p) == DrainLeft(s, p)
  {
  }

  lemma DrainWithdraw(s: State, c: nat, step: CancelStep, p: nat)
    requires p < |s.pollers| && c < |s.cancellers| && CancellerCan(s.cancellers[c], step)
    ensures DrainLeft(Withdraw(s, c, step), p) <= DrainLeft(s, p)
  {
    hide WakeAll;
  }

  predicate EntryInPlace(s: State, p: nat) {
    (s.worker != Published ==> s.entry == Absent) && (s.entry == InBatch(p) ==> p < |s.pollers| && s.pollers[p] == Draining)
  }

  lemma EntryIsInPlace(s: State, p: nat)
    requires Inv(s)
    ensures EntryInPlace(s, p)
  {
    hide LockInv, SleepInv, StatusInv, CallInv;
  }

  /** A drain returns within four steps of its own after its swap, its callback made if it claimed it. */
  lemma {:induction false} DrainEnds(s: State, es: seq<Event>, p: nat)
    requires Inv(s) && p < |s.pollers| && Legal(s, es) && forall i :: 0 <= i < |es| ==> es[i] != OfPoller(p, Swap)
    ensures DrainSteps(es, p) + DrainLeft(Run(s, es), p) <= DrainLeft(s, p) <= 4
    decreases |es|
  {
    if es != [] {
      hide Inv, Enabled, Apply;
      EntryIsInPlace(s, p);
      DrainStep(s, es[0], p);
      StepKeepsInv(s, es[0]);
      DrainEnds(Apply(s, es[0]), es[1..], p);
    }
  }

  // ---- cancelling ---------------------------------------------------------------------------------------

  /** The own steps of a cancelling thread. */
  function CancelOf(es: seq<Event>, c: nat): seq<CancelStep> {
    if es == [] then [] else (if es[0].OfCanceller? && es[0].c == c then [es[0].cancel] else []) + CancelOf(es[1..], c)
  }

  /** What such a thread has left to do. */
  function CancelLeft(x: Canceller): seq<CancelStep> {
    match x
    case Calm => []
    case Marked(releasing) => [NotifyCanceled] + (if releasing then [Erase] else [])
    case Erasing => [Erase]
  }

  lemma CancelStepLeft(s: State, e: Event, c: nat)
    requires c < |s.cancellers| && Enabled(s, e) && !(e.OfCanceller? && e.c == c && e.cancel.Cancel?)
    ensures (if e.OfCanceller? && e.c == c then [e.cancel] else []) + CancelLeft(Apply(s, e).cancellers[c]) == CancelLeft(s.cancellers[c])
  {
    hide WakeAll;
    match e
    case OfCanceller(v, step) =>
      if v != c {
        assert Apply(s, e).cancellers[c] == s.cancellers[c];
      }
    case _ => assert Apply(s, e).cancellers[c] == s.cancellers[c];
  }

  lemma {:induction false} CancelRunLeft(s: State, es: seq<Event>, c: nat)
    requires c < |s.cancellers| && Legal(s, es)
    requires forall i :: 0 <= i < |es| ==> !(es[i].OfCanceller? && es[i].c == c && es[i].cancel.Cancel?)
    ensures CancelOf(es, c) + CancelLeft(Run(s, es).cancellers[c]) == CancelLeft(s.cancellers[c])
    decreases |es|
  {
    hide Enabled, Apply, CancelLeft;
    if es == [] {
      assert [] + CancelLeft(s.cancellers[c]) == CancelLeft(s.cancellers[c]);
    } else {
      var head := if es[0].OfCanceller? && es[0].c == c then [es[0].cancel] else [];
      var left := CancelLeft(Run(s, es).cancellers[c]);
      CancelStepLeft(s, es[0], c);
      CancelRunLeft(Apply(s, es[0]), es[1..], c);
      assert head + CancelOf(es[1..], c) + left == head + (CancelOf(es[1..], c) + left);
    }
  }

  /** A cancel notifies the waiters exactly when it ended the request, and a release then, or at once, takes the
      entry out of the queue; after these steps of its own the thread is done. */
  lemma CancelStepsInOrder(s: State, c: nat, releasing: bool, es: seq<Event>)
    requires Enabled(s, OfCanceller(c, Cancel(releasing))) && Legal(Apply(s, OfCanceller(c, Cancel(releasing))), es)
    requires forall i :: 0 <= i < |es| ==> !(es[i].OfCanceller? && es[i].c == c && es[i].cancel.Cancel?)
    ensures
      var all := (if s.status == Pending then [NotifyCanceled] else []) + (if releasing then [Erase] else []);
      var mine := CancelOf(es, c);
      mine <= all && (Run(Apply(s, OfCanceller(c, Cancel(releasing))), es).cancellers[c] == Calm <==> mine == all)
  {
    var t := Apply(s, OfCanceller(c, Cancel(releasing)));
    CancelRunLeft(t, es, c);
    assert CancelLeft(t.cancellers[c]) == (if s.status == Pending then [NotifyCanceled] else []) + (if releasing then [Erase] else []);
    hide Legal, Run, Apply, Enabled;
    var left := CancelLeft(Run(t, es).cancellers[c]);
    assert left == [] <==> Run(t, es).cancellers[c] == Calm;
    if CancelOf(es, c) + left == CancelOf(es, c) {
      assert |left| == 0;
    }
  }

  // ---- released requests ------------------------------------------------------------------------------

  predicate Takes(e: Event) { e.OfPoller? && e.poll == Take }

  lemma StepKeepsErased(s: State, e: Event)
    requires Inv(s) && Enabled(s, e) && s.entry == Erased
    ensures Apply(s, e).entry == Erased && !Takes(e)
  {
    hide LockInv, SleepInv, StatusInv, CallInv, WakeAll;
  }

  /** A release takes a queued entry out of the queue; out of it for good, so no drain dispatches it. Only an
      entry published after the release can still be dispatched. */
  lemma {:induction false} ErasedEntryIsGone(s: State, c: nat, es: seq<Event>)
    requires Inv(s) && s.entry == Queued && Enabled(s, OfCanceller(c, Erase)) && Legal(Apply(s, OfCanceller(c, Erase)), es)
    ensures Run(Apply(s, OfCanceller(c, Erase)), es).entry == Erased
    ensures forall i :: 0 <= i < |es| ==> !Takes(es[i])
  {
    var t := Apply(s, OfCanceller(c, Erase));
    assert t.entry == Erased;
    StepKeepsInv(s, OfCanceller(c, Erase));
    hide *;
    ErasedStays(t, es);
  }

  lemma {:induction false} ErasedStays(s: State, es: seq<Event>)
    requires Inv(s) && s.entry == Erased && Legal(s, es)
    ensures Run(s, es).entry == Erased
    ensures forall i :: 0 <= i < |es| ==> !Takes(es[i])
    decreases |es|
  {
    hide Inv, Enabled, Apply, Takes;
    if es != [] {
      StepKeepsErased(s, es[0]);
      StepKeepsInv(s, es[0]);
      ErasedStays(Apply(s, es[0]), es[1..]);
      assert forall i :: 1 <= i < |es| ==> es[i] == es[1..][i - 1];
    }
  }
}
