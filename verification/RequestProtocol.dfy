/** One request shared by the worker that runs it, the threads that cancel or release it, the threads
    that wait for it and the threads that drain the dispatch queue. Every atomic access, lock operation
    and notification is one step; a run is any interleaving of enabled steps. */
module RequestProtocol {

  datatype Status = Pending | Completed | Failed | Canceled

  /** Where the worker is: still running, status set, holding and past the wait mutex, finish returned,
      request published. */
  datatype Worker = Running | Decided | Locked | Unlocked | Finished | Published

  /** A thread in dew_request_wait. `timed` waits may expire. */
  datatype Waiter =
    | Out
    | Entering(timed: bool)
    | Holding(timed: bool, expired: bool)
    | SawPending(timed: bool)
    | Asleep(timed: bool)
    | Waking(timed: bool, expired: bool)
    | Leaving
    | Past
    | Loaded(status: Status)
    | Won(status: Status)

  /** A thread in drain_fn. */
  datatype Poller = Idle | Draining | Claimed | Ready(status: Status)

  /** A thread in dew_request_cancel or dew_request_release. */
  datatype Canceller = Calm | Marked(releasing: bool) | Erasing

  datatype Owner = Free | ByWorker | ByWaiter(w: nat)

  /** Where the published entry is. */
  datatype Entry = Absent | Queued | InBatch(p: nat) | Dispatched | Erased

  datatype State = State(
    hasDone: bool,
    status: Status,
    fired: bool,
    mutex: Owner,
    worker: Worker,
    waiters: seq<Waiter>,
    pollers: seq<Poller>,
    cancellers: seq<Canceller>,
    entry: Entry,
    released: bool,
    calls: seq<Status>)

  datatype WorkerStep = Decide(ok: bool) | Lock | Unlock | Notify | Publish
  datatype WaiterStep = Enter(timed: bool) | Acquire | Check | Sleep | Wake(expired: bool) | Release | Load | Claim | Call
  datatype PollerStep = Swap | Take | Read | Deliver | Drained
  datatype CancelStep = Cancel(releasing: bool) | NotifyCanceled | Erase

  datatype Event =
    | OfWorker(work: WorkerStep)
    | OfWaiter(w: nat, wait: WaiterStep)
    | OfPoller(p: nat, poll: PollerStep)
    | OfCanceller(c: nat, cancel: CancelStep)

  predicate Start(s: State) {
    && s.status == Pending && !s.fired && s.mutex == Free && s.worker == Running
    && (forall w :: 0 <= w < |s.waiters| ==> s.waiters[w] == Out)
    && (forall p :: 0 <= p < |s.pollers| ==> s.pollers[p] == Idle)
    && (forall c :: 0 <= c < |s.cancellers| ==> s.cancellers[c] == Calm)
    && s.entry == Absent && !s.released && s.calls == []
  }

  predicate Enabled(s: State, e: Event) {
    match e
    case OfWorker(step) => WorkerCan(s, step)
    case OfWaiter(w, step) => w < |s.waiters| && WaiterCan(s, w, step)
    case OfPoller(p, step) => p < |s.pollers| && PollerCan(s, p, step)
    case OfCanceller(c, step) => c < |s.cancellers| && CancellerCan(s.cancellers[c], step)
  }

  predicate WorkerCan(s: State, step: WorkerStep) {
    match step
    case Decide(_) => s.worker == Running
    case Lock => s.worker == Decided && s.mutex == Free
    case Unlock => s.worker == Locked
    case Notify => s.worker == Unlocked
    case Publish => s.worker == Finished
  }

  predicate WaiterCan(s: State, w: nat, step: WaiterStep)
    requires w < |s.waiters|
  {
    var x := s.waiters[w];
    match step
    case Enter(_) => x == Out
    case Acquire => (x.Entering? || x.Waking?) && s.mutex == Free
    case Check => x.Holding?
    case Sleep => x.SawPending?
    case Wake(expired) => x.Asleep? && (expired ==> x.timed)
    case Release => x == Leaving
    case Load => x == Past
    case Claim => x.Loaded?
    case Call => x.Won?
  }

  predicate PollerCan(s: State, p: nat, step: PollerStep)
    requires p < |s.pollers|
  {
    var x := s.pollers[p];
    match step
    case Swap => x == Idle
    case Take => x == Draining && s.entry == InBatch(p)
    case Read => x == Claimed
    case Deliver => x.Ready?
    case Drained => x == Draining && s.entry != InBatch(p)
  }

  predicate CancellerCan(x: Canceller, step: CancelStep) {
    match step
    case Cancel(_) => x == Calm
    case NotifyCanceled => x.Marked?
    case Erase => x == Erasing
  }

  /** compare_exchange_strong from pending. */
  function Exchange(s: Status, next: Status): Status { if s == Pending then next else s }

  /** notify_all */
  function WakeAll(ws: seq<Waiter>): (r: seq<Waiter>)
    ensures |r| == |ws|
    ensures forall w :: 0 <= w < |ws| ==> r[w] == if ws[w].Asleep? then Waking(ws[w].timed, false) else ws[w]
  {
    seq(|ws|, w requires 0 <= w < |ws| => if ws[w].Asleep? then Waking(ws[w].timed, false) else ws[w])
  }

  /** Threads are not created or lost. */
  predicate SameThreads(s: State, t: State) {
    |t.waiters| == |s.waiters| && |t.pollers| == |s.pollers| && |t.cancellers| == |s.cancellers| && t.hasDone == s.hasDone
  }

  function Apply(s: State, e: Event): (t: State)
    requires Enabled(s, e)
    ensures SameThreads(s, t)
  {
    match e
    case OfWorker(step) => Work(s, step)
    case OfWaiter(w, step) => WaitStep(s, w, step)
    case OfPoller(p, step) => Poll(s, p, step)
    case OfCanceller(c, step) => Withdraw(s, c, step)
  }

  /** finish, then publish. */
  function Work(s: State, step: WorkerStep): (t: State)
    requires WorkerCan(s, step)
    ensures SameThreads(s, t)
  {
    match step
    case Decide(ok) => s.(worker := Decided, status := Exchange(s.status, if ok then Completed else Failed))
    case Lock => s.(worker := Locked, mutex := ByWorker)
    case Unlock => s.(worker := Unlocked, mutex := Free)
    case Notify => s.(worker := Finished, waiters := WakeAll(s.waiters))
    case Publish => s.(worker := Published, entry := Queued)
  }

  /** dew_request_wait: the predicate is tested and the thread put to sleep under the mutex; sleeping
      releases it in the same step. */
  function WaitStep(s: State, w: nat, step: WaiterStep): (t: State)
    requires w < |s.waiters| && WaiterCan(s, w, step)
    ensures SameThreads(s, t)
  {
    var x := s.waiters[w];
    match step
    case Enter(timed) => s.(waiters := s.waiters[w := Entering(timed)])
    case Acquire => s.(mutex := ByWaiter(w), waiters := s.waiters[w := Holding(x.timed, x.Waking? && x.expired)])
    case Check => s.(waiters := s.waiters[w := if s.status != Pending || x.expired then Leaving else SawPending(x.timed)])
    case Sleep => s.(mutex := Free, waiters := s.waiters[w := Asleep(x.timed)])
    case Wake(expired) => s.(waiters := s.waiters[w := Waking(x.timed, expired)])
    case Release => s.(mutex := Free, waiters := s.waiters[w := Past])
    case Load => s.(waiters := s.waiters[w := if s.status == Pending then Out else Loaded(s.status)])
    case Claim => s.(fired := true, waiters := s.waiters[w := if !s.fired && s.hasDone then Won(x.status) else Out])
    case Call => s.(calls := s.calls + [x.status], waiters := s.waiters[w := Out])
  }

  /** drain_fn: the status is loaded after the claim. */
  function Poll(s: State, p: nat, step: PollerStep): (t: State)
    requires p < |s.pollers| && PollerCan(s, p, step)
    ensures SameThreads(s, t)
  {
    var x := s.pollers[p];
    match step
    case Swap => s.(pollers := s.pollers[p := Draining], entry := if s.entry == Queued then InBatch(p) else s.entry)
    case Take => s.(fired := true, entry := Dispatched, pollers := s.pollers[p := if !s.fired && s.hasDone then Claimed else Draining])
    case Read => s.(pollers := s.pollers[p := Ready(s.status)])
    case Deliver => s.(calls := s.calls + [x.status], pollers := s.pollers[p := Draining])
    case Drained => s.(pollers := s.pollers[p := Idle])
  }

  /** cancel notifies without taking the mutex; release goes on to erase the queued entry. */
  function Withdraw(s: State, c: nat, step: CancelStep): (t: State)
    requires c < |s.cancellers| && CancellerCan(s.cancellers[c], step)
    ensures SameThreads(s, t)
  {
    match step
    case Cancel(releasing) =>
      s.(status := Exchange(s.status, Canceled), released := s.released || releasing,
         cancellers := s.cancellers[c := if s.status == Pending then Marked(releasing) else if releasing then Erasing else Calm])
    case NotifyCanceled =>
      s.(waiters := WakeAll(s.waiters), cancellers := s.cancellers[c := if s.cancellers[c].releasing then Erasing else Calm])
    case Erase => s.(entry := if s.entry == Queued then Erased else s.entry, cancellers := s.cancellers[c := Calm])
  }

  predicate Legal(s: State, es: seq<Event>)
    decreases |es|
  {
    es == [] || (Enabled(s, es[0]) && Legal(Apply(s, es[0]), es[1..]))
  }

  function Run(s: State, es: seq<Event>): (t: State)
    requires Legal(s, es)
    ensures SameThreads(s, t)
    decreases |es|
  {
    if es == [] then s else Run(Apply(s, es[0]), es[1..])
  }

  // ---- what every step keeps ------------------------------------------------------------------------

  predicate HoldsLock(x: Waiter) { x.Holding? || x.SawPending? || x == Leaving }

  /** The wait mutex has one owner. */
  ghost predicate LockInv(s: State) {
    && (s.mutex == ByWorker <==> s.worker == Locked)
    && (s.mutex.ByWaiter? ==> s.mutex.w < |s.waiters|)
    && (forall w :: 0 <= w < |s.waiters| ==> (HoldsLock(s.waiters[w]) <==> s.mutex == ByWaiter(w)))
  }

  predicate PastLock(w: Worker) { w == Locked || w == Unlocked || w == Finished || w == Published }
  predicate Returned(w: Worker) { w == Finished || w == Published }

  /** Once the worker has been through the mutex, no thread that saw the pending status is still about
      to sleep; once it has notified, none is asleep. */
  ghost predicate SleepInv(s: State) {
    && (s.worker != Running ==> s.status != Pending)
    && (s.worker == Running ==> s.status == Pending || s.status == Canceled)
    && (PastLock(s.worker) ==> forall w :: 0 <= w < |s.waiters| ==> !s.waiters[w].SawPending?)
    && (Returned(s.worker) ==> forall w :: 0 <= w < |s.waiters| ==> !s.waiters[w].Asleep?)
  }

  predicate IsWon(x: Waiter) { x.Won? }
  predicate IsClaimed(x: Poller) { x == Claimed || x.Ready? }
  predicate IsReleasing(x: Canceller) { x == Erasing || x == Marked(true) }

  /** The published entry is in one place. */
  ghost predicate EntryInv(s: State) {
    && (s.entry == Absent <==> s.worker != Published)
    && (s.entry.InBatch? ==> s.entry.p < |s.pollers| && s.pollers[s.entry.p] == Draining)
    && (s.entry == Dispatched ==> s.fired)
    && (s.entry == Erased ==> s.released)
    && (s.worker != Published ==> forall p :: 0 <= p < |s.pollers| ==> !IsClaimed(s.pollers[p]))
    && (!s.released ==> forall c :: 0 <= c < |s.cancellers| ==> !IsReleasing(s.cancellers[c]))
  }

  predicate WaiterAgrees(x: Waiter, status: Status) { x.Loaded? || x.Won? ==> x.status == status && status != Pending }
  predicate PollerAgrees(x: Poller, status: Status) { x.Ready? ==> x.status == status && status != Pending }

  /** Whoever carries a status carries the final one. */
  ghost predicate StatusInv(s: State) {
    && (forall w :: 0 <= w < |s.waiters| ==> WaiterAgrees(s.waiters[w], s.status))
    && (forall p :: 0 <= p < |s.pollers| ==> PollerAgrees(s.pollers[p], s.status))
    && (forall i :: 0 <= i < |s.calls| ==> s.calls[i] == s.status)
    && (s.calls != [] ==> s.status != Pending)
  }

  /** The number of elements with a property. */
  function Count<T>(xs: seq<T>, f: T -> bool): nat {
    if xs == [] then 0 else (if f(xs[0]) then 1 else 0) + Count(xs[1..], f)
  }

  lemma {:induction false} CountUpdate<T>(xs: seq<T>, i: nat, x: T, f: T -> bool)
    requires i < |xs|
    ensures Count(xs[i := x], f) == Count(xs, f) + (if f(x) then 1 else 0) - (if f(xs[i]) then 1 else 0)
  {
    if i == 0 {
      assert xs[0 := x][1..] == xs[1..];
    } else {
      assert xs[i := x][1..] == xs[1..][i - 1 := x];
      CountUpdate(xs[1..], i - 1, x, f);
    }
  }

  lemma {:induction false} CountSame<T>(xs: seq<T>, ys: seq<T>, f: T -> bool)
    requires |xs| == |ys| && forall i :: 0 <= i < |xs| ==> f(xs[i]) == f(ys[i])
    ensures Count(xs, f) == Count(ys, f)
  {
    if xs != [] {
      CountSame(xs[1..], ys[1..], f);
    }
  }

  lemma {:induction false} CountNone<T>(xs: seq<T>, f: T -> bool)
    ensures Count(xs, f) == 0 <==> forall i :: 0 <= i < |xs| ==> !f(xs[i])
  {
    if xs != [] {
      CountNone(xs[1..], f);
      assert forall i :: 1 <= i < |xs| ==> xs[i] == xs[1..][i - 1];
      assert forall i :: 0 <= i < |xs[1..]| ==> xs[1..][i] == xs[i + 1];
    }
  }

  /** Threads that have claimed the callback and not called it yet. */
  function InFlight(s: State): nat { Count(s.waiters, IsWon) + Count(s.pollers, IsClaimed) }

  /** The claim is spent once: delivered calls and calls under way make up one. */
  ghost predicate CallInv(s: State) {
    |s.calls| + InFlight(s) == if s.fired && s.hasDone then 1 else 0
  }

  ghost predicate Inv(s: State) { LockInv(s) && SleepInv(s) && EntryInv(s) && StatusInv(s) && CallInv(s) }

  lemma StartInv(s: State)
    requires Start(s)
    ensures Inv(s)
  {
    CountNone(s.waiters, IsWon);
    CountNone(s.pollers, IsClaimed);
  }

  lemma WorkKeepsLock(s: State, step: WorkerStep)
    requires LockInv(s) && SleepInv(s) && WorkerCan(s, step)
    ensures LockInv(Work(s, step)) && SleepInv(Work(s, step))
  {
  }

  lemma WorkKeepsEntry(s: State, step: WorkerStep)
    requires EntryInv(s) && WorkerCan(s, step)
    ensures EntryInv(Work(s, step))
  {
  }

  lemma WorkKeepsStatus(s: State, step: WorkerStep)
    requires SleepInv(s) && EntryInv(s) && StatusInv(s) && WorkerCan(s, step)
    ensures StatusInv(Work(s, step))
  {
  }

  lemma WorkKeepsInv(s: State, step: WorkerStep)
    requires Inv(s) && WorkerCan(s, step)
    ensures Inv(Work(s, step))
  {
    hide LockInv, SleepInv, EntryInv, StatusInv, Count;
    WorkKeepsLock(s, step);
    WorkKeepsEntry(s, step);
    WorkKeepsStatus(s, step);
    CountSame(s.waiters, Work(s, step).waiters, IsWon);
  }

  lemma WaitKeepsLock(s: State, w: nat, step: WaiterStep)
    requires LockInv(s) && SleepInv(s) && w < |s.waiters| && WaiterCan(s, w, step)
    ensures LockInv(WaitStep(s, w, step)) && SleepInv(WaitStep(s, w, step))
  {
  }

  lemma WaitKeepsEntry(s: State, w: nat, step: WaiterStep)
    requires EntryInv(s) && w < |s.waiters| && WaiterCan(s, w, step)
    ensures EntryInv(WaitStep(s, w, step))
  {
  }

  lemma WaitKeepsStatus(s: State, w: nat, step: WaiterStep)
    requires SleepInv(s) && EntryInv(s) && StatusInv(s) && w < |s.waiters| && WaiterCan(s, w, step)
    ensures StatusInv(WaitStep(s, w, step))
  {
    var t := WaitStep(s, w, step);
    assert t.status == s.status && t.pollers == s.pollers && WaiterAgrees(s.waiters[w], s.status);
    forall v | 0 <= v < |t.waiters|
      ensures WaiterAgrees(t.waiters[v], t.status)
    {
      if v != w {
        assert t.waiters[v] == s.waiters[v];
      }
    }
    forall i | 0 <= i < |t.calls|
      ensures t.calls[i] == t.status
    {
      if i < |s.calls| {
        assert t.calls[i] == s.calls[i];
      }
    }
  }

  lemma WaitKeepsInv(s: State, w: nat, step: WaiterStep)
    requires Inv(s) && w < |s.waiters| && WaiterCan(s, w, step)
    ensures Inv(WaitStep(s, w, step))
  {
    hide LockInv, SleepInv, EntryInv, StatusInv, Count;
    WaitKeepsLock(s, w, step);
    WaitKeepsEntry(s, w, step);
    WaitKeepsStatus(s, w, step);
    CountUpdate(s.waiters, w, WaitStep(s, w, step).waiters[w], IsWon);
  }

  lemma PollKeepsLock(s: State, p: nat, step: PollerStep)
    requires LockInv(s) && SleepInv(s) && p < |s.pollers| && PollerCan(s, p, step)
    ensures LockInv(Poll(s, p, step)) && SleepInv(Poll(s, p, step))
  {
  }

  lemma PollKeepsEntry(s: State, p: nat, step: PollerStep)
    requires EntryInv(s) && p < |s.pollers| && PollerCan(s, p, step)
    ensures EntryInv(Poll(s, p, step))
  {
  }

  lemma PollKeepsStatus(s: State, p: nat, step: PollerStep)
    requires SleepInv(s) && EntryInv(s) && StatusInv(s) && p < |s.pollers| && PollerCan(s, p, step)
    ensures StatusInv(Poll(s, p, step))
  {
    var t := Poll(s, p, step);
    assert IsClaimed(s.pollers[p]) ==> s.worker == Published;
    assert t.status == s.status && t.waiters == s.waiters && PollerAgrees(s.pollers[p], s.status);
    forall q | 0 <= q < |t.pollers|
      ensures PollerAgrees(t.pollers[q], t.status)
    {
      if q != p {
        assert t.pollers[q] == s.pollers[q];
      }
    }
    forall i | 0 <= i < |t.calls|
      ensures t.calls[i] == t.status
    {
      if i < |s.calls| {
        assert t.calls[i] == s.calls[i];
      }
    }
  }

  lemma PollKeepsInv(s: State, p: nat, step: PollerStep)
    requires Inv(s) && p < |s.pollers| && PollerCan(s, p, step)
    ensures Inv(Poll(s, p, step))
  {
    hide LockInv, SleepInv, EntryInv, StatusInv, Count;
    PollKeepsLock(s, p, step);
    PollKeepsEntry(s, p, step);
    PollKeepsStatus(s, p, step);
    CountUpdate(s.pollers, p, Poll(s, p, step).pollers[p], IsClaimed);
  }

  lemma WithdrawKeepsLock(s: State, c: nat, step: CancelStep)
    requires LockInv(s) && SleepInv(s) && c < |s.cancellers| && CancellerCan(s.cancellers[c], step)
    ensures LockInv(Withdraw(s, c, step)) && SleepInv(Withdraw(s, c, step))
  {
  }

  lemma WithdrawKeepsEntry(s: State, c: nat, step: CancelStep)
    requires EntryInv(s) && c < |s.cancellers| && CancellerCan(s.cancellers[c], step)
    ensures EntryInv(Withdraw(s, c, step))
  {
  }

  lemma WithdrawKeepsStatus(s: State, c: nat, step: CancelStep)
    requires SleepInv(s) && EntryInv(s) && StatusInv(s) && c < |s.cancellers| && CancellerCan(s.cancellers[c], step)
    ensures StatusInv(Withdraw(s, c, step))
  {
  }

  lemma WithdrawKeepsInv(s: State, c: nat, step: CancelStep)
    requires Inv(s) && c < |s.cancellers| && CancellerCan(s.cancellers[c], step)
    ensures Inv(Withdraw(s, c, step))
  {
    hide LockInv, SleepInv, EntryInv, StatusInv, Count;
    WithdrawKeepsLock(s, c, step);
    WithdrawKeepsEntry(s, c, step);
    WithdrawKeepsStatus(s, c, step);
    CountSame(s.waiters, Withdraw(s, c, step).waiters, IsWon);
  }

  lemma StepKeepsInv(s: State, e: Event)
    requires Inv(s) && Enabled(s, e)
    ensures Inv(Apply(s, e))
  {
    hide Inv, Work, WaitStep, Poll, Withdraw;
    match e
    case OfWorker(step) => WorkKeepsInv(s, step);
    case OfWaiter(w, step) => WaitKeepsInv(s, w, step);
    case OfPoller(p, step) => PollKeepsInv(s, p, step);
    case OfCanceller(c, step) => WithdrawKeepsInv(s, c, step);
  }

  lemma {:induction false} RunKeepsInv(s: State, es: seq<Event>)
    requires Inv(s) && Legal(s, es)
    ensures Inv(Run(s, es))
    decreases |es|
  {
    hide Inv, Enabled, Apply;
    if es != [] {
      StepKeepsInv(s, es[0]);
      RunKeepsInv(Apply(s, es[0]), es[1..]);
    }
  }

  // ---- the theorems ---------------------------------------------------------------------------------

  /** What no step takes back. */
  ghost predicate Onward(s: State, t: State) {
    && (s.status != Pending ==> t.status == s.status)
    && (s.fired ==> t.fired) && (s.released ==> t.released) && s.calls <= t.calls
    && (Returned(s.worker) ==> Returned(t.worker)) && (s.worker == Published ==> t.worker == Published)
    && (s.entry != Absent ==> t.entry != Absent)
    && (s.entry != Absent && s.entry != Queued ==> t.entry != Queued)
  }

  lemma StepOnward(s: State, e: Event)
    requires Inv(s) && Enabled(s, e)
    ensures Onward(s, Apply(s, e))
  {
    hide Inv, Onward, WorkerCan, WaiterCan, PollerCan, CancellerCan, Work, WaitStep, Poll, Withdraw;
    match e
    case OfWorker(step) => WorkOnward(s, step);
    case OfWaiter(w, step) => WaitOnward(s, w, step);
    case OfPoller(p, step) => PollOnward(s, p, step);
    case OfCanceller(c, step) => WithdrawOnward(s, c, step);
  }

  lemma WorkOnward(s: State, step: WorkerStep)
    requires Inv(s) && WorkerCan(s, step)
    ensures Onward(s, Work(s, step))
  {
    hide LockInv, SleepInv, CallInv;
  }

  lemma WithdrawOnward(s: State, c: nat, step: CancelStep)
    requires c < |s.cancellers| && CancellerCan(s.cancellers[c], step)
    ensures Onward(s, Withdraw(s, c, step))
  {
  }

  lemma WaitOnward(s: State, w: nat, step: WaiterStep)
    requires w < |s.waiters| && WaiterCan(s, w, step)
    ensures Onward(s, WaitStep(s, w, step))
  {
  }

  lemma PollOnward(s: State, p: nat, step: PollerStep)
    requires p < |s.pollers| && PollerCan(s, p, step)
    ensures Onward(s, Poll(s, p, step))
  {
  }

  /** The status leaves pending at most once and never changes again; a callback once made stays made. */
  lemma {:induction false} RunOnward(s: State, es: seq<Event>)
    requires Inv(s) && Legal(s, es)
    ensures Onward(s, Run(s, es))
    decreases |es|
  {
    if es != [] {
      hide Enabled, Apply, Inv;
      StepOnward(s, es[0]);
      StepKeepsInv(s, es[0]);
      RunOnward(Apply(s, es[0]), es[1..]);
    }
  }

  /** In every run the callback is made at most once, with the final status. */
  lemma AtMostOneCall(s: State, es: seq<Event>, later: seq<Event>)
    requires Start(s) && Legal(s, es) && Legal(Run(s, es), later)
    ensures
      var t, u := Run(s, es), Run(Run(s, es), later);
      && |u.calls| <= 1
      && (t.status != Pending ==> u.status == t.status)
      && (t.calls != [] ==> u.calls == t.calls == [u.status] && u.status != Pending)
  {
    hide Start, Legal, Run, Count;
    StartInv(s);
    RunKeepsInv(s, es);
    RunKeepsInv(Run(s, es), later);
    RunOnward(Run(s, es), later);
    var t, u := Run(s, es), Run(Run(s, es), later);
    if t.calls != [] {
      assert t.calls[0] == t.status && u.calls[0] == t.calls[0];
    }
  }

  // ---- which status a request ends with -----------------------------------------------------------------

  predicate Cancels(e: Event) { e.OfCanceller? && e.cancel.Cancel? }

  /** Whoever comes first decides: a cancel, or the worker with the outcome of its work. */
  function FirstVerdict(es: seq<Event>): Status {
    if es == [] then Pending
    else if Cancels(es[0]) then Canceled
    else if es[0] == OfWorker(Decide(true)) then Completed
    else if es[0] == OfWorker(Decide(false)) then Failed
    else FirstVerdict(es[1..])
  }

  lemma StepVerdict(s: State, e: Event)
    requires Enabled(s, e)
    ensures s.status != Pending ==> Apply(s, e).status == s.status
    ensures s.status == Pending ==> Apply(s, e).status == FirstVerdict([e])
  {
    hide WakeAll;
    assert [e][1..] == [] && FirstVerdict([]) == Pending;
  }

  /** Over every run the status is the verdict that came first. */
  lemma {:induction false} StatusIsFirstVerdict(s: State, es: seq<Event>)
    requires Legal(s, es)
    ensures Run(s, es).status == if s.status != Pending then s.status else FirstVerdict(es)
    decreases |es|
  {
    if es != [] {
      hide Enabled, Apply;
      StepVerdict(s, es[0]);
      VerdictOfOne(es);
      StatusIsFirstVerdict(Apply(s, es[0]), es[1..]);
    }
  }

  lemma VerdictOfOne(es: seq<Event>)
    requires es != []
    ensures FirstVerdict(es) == if FirstVerdict([es[0]]) != Pending then FirstVerdict([es[0]]) else FirstVerdict(es[1..])
  {
    assert [es[0]][1..] == [] && FirstVerdict([]) == Pending;
  }

  lemma {:induction false} VerdictOfPrefix(es: seq<Event>)
    ensures FirstVerdict(es) == Pending ==> forall i :: 0 <= i < |es| ==> !Cancels(es[i])
    ensures FirstVerdict(es) == Canceled ==> exists i :: 0 <= i < |es| && Cancels(es[i])
  {
    if es != [] && !Cancels(es[0]) {
      VerdictOfPrefix(es[1..]);
      assert forall i :: 1 <= i < |es| ==> es[i] == es[1..][i - 1];
      if FirstVerdict(es[1..]) == Canceled {
        var i :| 0 <= i < |es[1..]| && Cancels(es[1..][i]);
        assert Cancels(es[i + 1]);
      }
    }
  }

  /** The outcome of the worker's job is what is reported: a request whose job ends with `ok` is Completed,
      one whose job fails is Failed, unless a cancel came before, and no later step changes that. The one
      callback carries it. */
  lemma OutcomeIsReported(s: State, es: seq<Event>, ok: bool, later: seq<Event>)
    requires Start(s) && Legal(s, es) && Enabled(Run(s, es), OfWorker(Decide(ok)))
    requires Legal(Apply(Run(s, es), OfWorker(Decide(ok))), later)
    ensures
      var t := Run(Apply(Run(s, es), OfWorker(Decide(ok))), later);
      && t.status == (if exists i :: 0 <= i < |es| && Cancels(es[i]) then Canceled else if ok then Completed else Failed)
      && (t.calls == [] || t.calls == [t.status])
      && (t.fired && t.hasDone && Settled(t) ==> t.calls == [t.status])
  {
    var m, e := Run(s, es), OfWorker(Decide(ok));
    StartInv(s);
    RunKeepsInv(s, es);
    StillUndecided(m, ok);
    StepKeepsInv(m, e);
    hide *;
    StartPending(s);
    StatusIsFirstVerdict(s, es);
    VerdictOfPrefix(es);
    StepVerdict(m, e);
    DecidedVerdict(ok);
    StatusIsFirstVerdict(Apply(m, e), later);
    RunKeepsInv(Apply(m, e), later);
    CallsCarryStatus(Run(Apply(m, e), later));
  }

  lemma StartPending(s: State)
    requires Start(s)
    ensures s.status == Pending
  {
  }

  lemma StillUndecided(s: State, ok: bool)
    requires Inv(s) && Enabled(s, OfWorker(Decide(ok)))
    ensures s.status == Pending || s.status == Canceled
  {
  }

  lemma DecidedVerdict(ok: bool)
    ensures FirstVerdict([OfWorker(Decide(ok))]) == if ok then Completed else Failed
  {
  }

  lemma CallsCarryStatus(s: State)
    requires Inv(s)
    ensures s.calls == [] || s.calls == [s.status]
    ensures s.fired && s.hasDone && Settled(s) ==> s.calls == [s.status]
  {
    hide Count, LockInv, SleepInv, EntryInv, Settled;
    if s.fired && s.hasDone && Settled(s) {
      FiredIsOneCall(s);
    }
    if s.calls != [] {
      assert |s.calls| == 1 && s.calls[0] == s.status;
    }
  }

  /** Somebody tried to claim the callback: a waiter that saw the end, or a poller that took the entry. */
  predicate Claims(e: Event) { (e.OfWaiter? && e.wait == Claim) || (e.OfPoller? && e.poll == Take) }

  predicate Releases(e: Event) { e.OfCanceller? && e.cancel == Cancel(true) }

  /** No thread is between the claim and the call. */
  predicate Settled(s: State) {
    && (forall w :: 0 <= w < |s.waiters| ==> !s.waiters[w].Won?)
    && (forall p :: 0 <= p < |s.pollers| ==> !IsClaimed(s.pollers[p]))
  }

  /** Every drain has returned. */
  predicate AllIdle(s: State) { forall p :: 0 <= p < |s.pollers| ==> s.pollers[p] == Idle }

  lemma FiredIsOneCall(s: State)
    requires Inv(s) && s.fired && s.hasDone && Settled(s)
    ensures s.calls == [s.status] && s.status != Pending
  {
    hide Count, LockInv, SleepInv, EntryInv;
    CountNone(s.waiters, IsWon);
    CountNone(s.pollers, IsClaimed);
    assert |s.calls| == 1;
    assert s.calls[0] == s.status;
  }

  /** A request somebody waited for to its end, or whose entry was taken, gets exactly one call. */
  lemma ClaimedGetsOneCall(s: State, es: seq<Event>, e: Event, later: seq<Event>)
    requires Start(s) && s.hasDone && Legal(s, es) && Enabled(Run(s, es), e) && Claims(e)
    requires Legal(Apply(Run(s, es), e), later) && Settled(Run(Apply(Run(s, es), e), later))
    ensures var t := Run(Apply(Run(s, es), e), later); t.calls == [t.status] && t.status != Pending
  {
    var m := Run(s, es);
    StartInv(s);
    RunKeepsInv(s, es);
    StepKeepsInv(m, e);
    RunKeepsInv(Apply(m, e), later);
    RunOnward(s, es);
    assert Apply(m, e).fired;
    hide *;
    StepOnward(m, e);
    RunOnward(Apply(m, e), later);
    FiredIsOneCall(Run(Apply(m, e), later));
  }

  /** Waiter w is inside dew_request_wait, or the callback has been claimed. */
  predicate WaitsOrClaimed(s: State, w: nat) { s.status != Pending && w < |s.waiters| && (s.waiters[w] == Out ==> s.fired) }

  lemma WonIsFired(s: State, w: nat)
    requires Inv(s) && w < |s.waiters| && s.waiters[w].Won?
    ensures s.fired
  {
    hide LockInv, SleepInv, EntryInv, StatusInv;
    CountNone(s.waiters, IsWon);
    hide Count;
    assert IsWon(s.waiters[w]);
  }

  lemma StepKeepsWaiting(s: State, e: Event, w: nat)
    requires Inv(s) && WaitsOrClaimed(s, w) && Enabled(s, e)
    ensures WaitsOrClaimed(Apply(s, e), w)
  {
    hide Inv, WorkerCan, WaiterCan, PollerCan, CancellerCan, WaitStep, Work, Poll, Withdraw;
    match e
    case OfWorker(step) => WorkKeepsWaiting(s, step, w);
    case OfWaiter(v, step) => WaitKeepsWaiting(s, v, step, w);
    case OfPoller(p, step) => PollKeepsWaiting(s, p, step, w);
    case OfCanceller(c, step) => WithdrawKeepsWaiting(s, c, step, w);
  }

  lemma WorkKeepsWaiting(s: State, step: WorkerStep, w: nat)
    requires WaitsOrClaimed(s, w) && WorkerCan(s, step)
    ensures WaitsOrClaimed(Work(s, step), w)
  {
  }

  lemma WaitKeepsWaiting(s: State, v: nat, step: WaiterStep, w: nat)
    requires Inv(s) && WaitsOrClaimed(s, w) && v < |s.waiters| && WaiterCan(s, v, step)
    ensures WaitsOrClaimed(WaitStep(s, v, step), w)
  {
    hide Inv;
    if v == w && s.waiters[w].Won? {
      WonIsFired(s, w);
    }
  }

  lemma PollKeepsWaiting(s: State, p: nat, step: PollerStep, w: nat)
    requires WaitsOrClaimed(s, w) && p < |s.pollers| && PollerCan(s, p, step)
    ensures WaitsOrClaimed(Poll(s, p, step), w)
  {
  }

  lemma WithdrawKeepsWaiting(s: State, c: nat, step: CancelStep, w: nat)
    requires WaitsOrClaimed(s, w) && c < |s.cancellers| && CancellerCan(s.cancellers[c], step)
    ensures WaitsOrClaimed(Withdraw(s, c, step), w)
  {
  }

  /** A wait still under way when the request ends does not return before the callback has been claimed, by
      this waiter or another thread. */
  lemma {:induction false} WaitReturnsAfterTheClaim(s: State, es: seq<Event>, w: nat)
    requires Inv(s) && s.status != Pending && w < |s.waiters| && s.waiters[w] != Out && Legal(s, es)
    ensures Run(s, es).waiters[w] == Out ==> Run(s, es).fired
  {
    hide Inv, Legal, Run;
    RunKeepsWaiting(s, es, w);
  }

  lemma {:induction false} RunKeepsWaiting(s: State, es: seq<Event>, w: nat)
    requires Inv(s) && WaitsOrClaimed(s, w) && Legal(s, es)
    ensures WaitsOrClaimed(Run(s, es), w)
    decreases |es|
  {
    if es != [] {
      hide Inv, Enabled, Apply, WaitsOrClaimed;
      StepKeepsWaiting(s, es[0], w);
      StepKeepsInv(s, es[0]);
      RunKeepsWaiting(Apply(s, es[0]), es[1..], w);
    }
  }

  lemma StepKeepsUnreleased(s: State, e: Event)
    requires Enabled(s, e) && !s.released && !Releases(e)
    ensures !Apply(s, e).released
  {
    hide WakeAll;
  }

  lemma {:induction false} RunKeepsUnreleased(s: State, es: seq<Event>)
    requires Legal(s, es) && !s.released && forall i :: 0 <= i < |es| ==> !Releases(es[i])
    ensures !Run(s, es).released
    decreases |es|
  {
    if es != [] {
      hide Enabled, Apply;
      StepKeepsUnreleased(s, es[0]);
      RunKeepsUnreleased(Apply(s, es[0]), es[1..]);
    }
  }

  /** An unreleased request that is published and then drained gets exactly one call: any swap of the
      queue after the publication, once every drain has returned, has delivered it, unless a waiter did. */
  lemma PublishedAndDrainedGetsOneCall(s: State, es: seq<Event>, p: nat, later: seq<Event>)
    requires Start(s) && s.hasDone && Legal(s, es) && Run(s, es).worker == Published
    requires Enabled(Run(s, es), OfPoller(p, Swap)) && Legal(Apply(Run(s, es), OfPoller(p, Swap)), later)
    requires forall k :: 0 <= k < |es| ==> !Releases(es[k])
    requires forall k :: 0 <= k < |later| ==> !Releases(later[k])
    requires Settled(Run(Apply(Run(s, es), OfPoller(p, Swap)), later)) && AllIdle(Run(Apply(Run(s, es), OfPoller(p, Swap)), later))
    ensures var t := Run(Apply(Run(s, es), OfPoller(p, Swap)), later); t.calls == [t.status] && t.status != Pending
  {
    hide Run, Legal, Start, Enabled, Apply, Inv, Settled, AllIdle, Releases;
    var m := Run(s, es);
    var n := Apply(m, OfPoller(p, Swap));
    var t := Run(n, later);
    StartInv(s);
    StartUnreleased(s);
    RunKeepsInv(s, es);
    SwapTakesEntry(m, p);
    StepKeepsInv(m, OfPoller(p, Swap));
    RunKeepsInv(n, later);
    RunKeepsUnreleased(s, es);
    RunKeepsUnreleased(n, later);
    RunOnward(n, later);
    DrainedIsFired(t);
    FiredIsOneCall(t);
  }

  lemma StartUnreleased(s: State)
    requires Start(s)
    ensures !s.released
  {
  }

  /** After a swap the published entry is not in the queue. */
  lemma SwapTakesEntry(s: State, p: nat)
    requires Inv(s) && s.worker == Published && Enabled(s, OfPoller(p, Swap))
    ensures var t := Apply(s, OfPoller(p, Swap)); t.entry != Absent && t.entry != Queued && t.released == s.released
  {
    hide CallInv, LockInv, SleepInv, StatusInv;
  }

  /** An entry that has left the queue unreleased, with no drain under way, was dispatched. */
  lemma DrainedIsFired(t: State)
    requires Inv(t) && !t.released && AllIdle(t) && t.entry != Absent && t.entry != Queued
    ensures t.fired
  {
    hide CallInv, LockInv, SleepInv, StatusInv;
  }

  // ---- waiting --------------------------------------------------------------------------------------

  /** How many own steps a waiter may still take once finish has returned. */
  function Remaining(x: Waiter): nat {
    match x
    case Out => 0
    case Won(_) => 1
    case Loaded(_) => 2
    case Past => 3
    case Leaving => 4
    case Holding(_, _) => 5
    case Entering(_) => 6
    case Waking(_, _) => 6
    case SawPending(_) => 8
    case Asleep(_) => 7
  }

  predicate Own(e: Event, w: nat) { e.OfWaiter? && e.w == w }

  function OwnSteps(es: seq<Event>, w: nat): nat {
    if es == [] then 0 else (if Own(es[0], w) then 1 else 0) + OwnSteps(es[1..], w)
  }

  lemma AwakeStep(s: State, e: Event, w: nat)
    requires Inv(s) && Returned(s.worker) && w < |s.waiters| && Enabled(s, e) && !(Own(e, w) && e.wait.Enter?)
    ensures Remaining(Apply(s, e).waiters[w]) + (if Own(e, w) then 1 else 0) <= Remaining(s.waiters[w])
  {
    hide CallInv, StatusInv, EntryInv, LockInv;
    assert s.status != Pending && !s.waiters[w].SawPending? && !s.waiters[w].Asleep?;
    match e
    case OfWaiter(v, step) =>
      if v != w {
        hide WaiterCan;
        assert Apply(s, e).waiters[w] == s.waiters[w];
      }
    case _ => assert Apply(s, e).waiters[w] == s.waiters[w];
  }

  /** Once finish has returned no waiter is asleep or goes to sleep: each leaves dew_request_wait within
      six steps of its own, whatever the other threads do. */
  lemma {:induction false} NoWaiterIsLeftAsleep(s: State, es: seq<Event>, w: nat)
    requires Inv(s) && Returned(s.worker) && w < |s.waiters| && Legal(s, es)
    requires forall i :: 0 <= i < |es| ==> !(Own(es[i], w) && es[i].wait.Enter?)
    ensures !Run(s, es).waiters[w].Asleep?
    ensures OwnSteps(es, w) + Remaining(Run(s, es).waiters[w]) <= Remaining(s.waiters[w]) <= 6
    decreases |es|
  {
    assert s.waiters[w].Asleep? == false && s.waiters[w].SawPending? == false;
    if es != [] {
      hide Inv, Enabled, Apply, Remaining;
      AwakeStep(s, es[0], w);
      StepKeepsInv(s, es[0]);
      StepOnward(s, es[0]);
      NoWaiterIsLeftAsleep(Apply(s, es[0]), es[1..], w);
    }
  }

  /** The step a waiter inside dew_request_wait takes next. */
  function NextStep(x: Waiter): WaiterStep
    requires x != Out
  {
    match x
    case Entering(_) => Acquire
    case Holding(_, _) => Check
    case SawPending(_) => Sleep
    case Asleep(_) => Wake(false)
    case Waking(_, _) => Acquire
    case Leaving => Release
    case Past => Load
    case Loaded(_) => Claim
    case Won(_) => Call
  }

  /** And none is stuck: its next step is enabled, or the waiter that holds the mutex can take its own. */
  lemma NoWaiterIsStuck(s: State, w: nat)
    requires Inv(s) && Returned(s.worker) && w < |s.waiters| && s.waiters[w] != Out
    ensures
      || WaiterCan(s, w, NextStep(s.waiters[w]))
      || (&& s.mutex.ByWaiter? && s.mutex.w < |s.waiters| && s.waiters[s.mutex.w] != Out
          && WaiterCan(s, s.mutex.w, NextStep(s.waiters[s.mutex.w])))
  {
    hide CallInv, StatusInv, EntryInv;
    if s.mutex.ByWaiter? {
      assert HoldsLock(s.waiters[s.mutex.w]);
    }
  }

  /** A thread sleeps on a request that is over only while finish has yet to notify. */
  lemma AsleepOnlyBeforeNotify(s: State, es: seq<Event>, w: nat)
    requires Start(s) && Legal(s, es) && w < |Run(s, es).waiters| && Run(s, es).waiters[w].Asleep?
    ensures !Returned(Run(s, es).worker)
  {
    StartInv(s);
    RunKeepsInv(s, es);
  }

  /** cancel alone does not give that: it notifies without the mutex, so a waiter that has just seen the
      pending status can fall asleep after the notification. Only finish, later, wakes it. */
  lemma CancelCanMissAWaiter()
    ensures exists s, es :: Start(s) && Legal(s, es) && Missed(Run(s, es))
  {
    hide Legal, Run, Apply;
    var s := State(true, Pending, false, Free, Running, [Out], [], [Calm], Absent, false, []);
    var s3 := s.(mutex := ByWaiter(0), waiters := [SawPending(false)]);
    var t := s.(status := Canceled, waiters := [Asleep(false)]);
    var es := [OfCanceller(0, Cancel(false)), OfCanceller(0, NotifyCanceled), OfWaiter(0, Sleep)];
    MissedNotification(s, s3, t);
    EntersAndSeesPending(s, s3, es);
    var all := [OfWaiter(0, Enter(false))] + ([OfWaiter(0, Acquire)] + ([OfWaiter(0, Check)] + es));
    assert Start(s) && Legal(s, all) && Missed(Run(s, all));
  }

  /** A waiter takes the mutex and finds the request pending. */
  lemma EntersAndSeesPending(s: State, s3: State, es: seq<Event>)
    requires s.status == Pending && s.mutex == Free && s.waiters == [Out]
    requires s3 == s.(mutex := ByWaiter(0), waiters := [SawPending(false)]) && Legal(s3, es)
    ensures var all := [OfWaiter(0, Enter(false))] + ([OfWaiter(0, Acquire)] + ([OfWaiter(0, Check)] + es));
      Legal(s, all) && Run(s, all) == Run(s3, es)
  {
    hide Legal, Run;
    var s1 := s.(waiters := [Entering(false)]);
    var s2 := s.(mutex := ByWaiter(0), waiters := [Holding(false, false)]);
    var e1, e2, e3 := OfWaiter(0, Enter(false)), OfWaiter(0, Acquire), OfWaiter(0, Check);
    assert Apply(s, e1) == s1;
    assert Apply(s1, e2) == s2;
    assert Apply(s2, e3) == s3;
    Chain(s2, e3, es);
    Chain(s1, e2, [e3] + es);
    Chain(s, e1, [e2] + ([e3] + es));
  }

  /** Canceled, the canceller gone, and the only waiter asleep. */
  predicate Missed(t: State) { t.status == Canceled && t.waiters == [Asleep(false)] && t.cancellers == [Calm] }

  /** A notification that arrives between a waiter's test and its sleep is lost. */
  lemma MissedNotification(s: State, s3: State, t: State)
    requires s.status == Pending && s.mutex == Free && s.cancellers == [Calm]
    requires s3 == s.(mutex := ByWaiter(0), waiters := [SawPending(false)])
    requires t == s.(status := Canceled, waiters := [Asleep(false)])
    ensures var es := [OfCanceller(0, Cancel(false)), OfCanceller(0, NotifyCanceled), OfWaiter(0, Sleep)];
      Legal(s3, es) && Run(s3, es) == t
  {
    var s4 := s3.(status := Canceled, cancellers := [Marked(false)]);
    var s5 := s4.(cancellers := [Calm]);
    var e4, e5, e6 := OfCanceller(0, Cancel(false)), OfCanceller(0, NotifyCanceled), OfWaiter(0, Sleep);
    assert s3.(released := s3.released || false) == s3;
    assert Apply(s3, e4) == s4;
    assert WakeAll(s4.waiters) == s4.waiters;
    assert Apply(s4, e5) == s5;
    assert Apply(s5, e6) == t;
    hide Apply;
    Chain(s5, e6, []);
    Chain(s4, e5, [e6]);
    Chain(s3, e4, [e5, e6]);
    assert [e4] + [e5, e6] == [e4, e5, e6] && [e5] + [e6] == [e5, e6] && [e6] + [] == [e6];
  }

  /** The request is over, and waiter w neither sleeps nor is about to. */
  predicate Alert(s: State, w: nat) {
    s.status != Pending && w < |s.waiters| && !s.waiters[w].SawPending? && !s.waiters[w].Asleep?
  }

  lemma StepKeepsAlert(s: State, e: Event, w: nat)
    requires Alert(s, w) && Enabled(s, e)
    ensures Alert(Apply(s, e), w)
  {
    match e
    case OfWaiter(v, step) =>
      if v != w {
        assert Apply(s, e).waiters[w] == s.waiters[w];
      }
    case _ => assert Apply(s, e).waiters[w] == s.waiters[w];
  }

  lemma {:induction false} RunKeepsAlert(s: State, es: seq<Event>, w: nat)
    requires Alert(s, w) && Legal(s, es)
    ensures Alert(Run(s, es), w)
    decreases |es|
  {
    hide Enabled, Apply;
    if es != [] {
      StepKeepsAlert(s, es[0], w);
      RunKeepsAlert(Apply(s, es[0]), es[1..], w);
    }
  }

  /** Some continuation from t puts waiter w to sleep. */
  ghost predicate CanSleep(t: State, w: nat)
    requires w < |t.waiters|
  {
    exists es :: Legal(t, es) && Run(t, es).waiters[w].Asleep?
  }

  /** Exactly when cancel's notification is missed: a waiter can be asleep after it, whatever the schedule,
      if and only if at the notification it stood between its test and its sleep. */
  lemma CancelMissesExactly(s: State, c: nat, w: nat)
    requires s.status != Pending && w < |s.waiters| && Enabled(s, OfCanceller(c, NotifyCanceled))
    ensures CanSleep(Apply(s, OfCanceller(c, NotifyCanceled)), w) <==> s.waiters[w].SawPending?
  {
    var t := Apply(s, OfCanceller(c, NotifyCanceled));
    if s.waiters[w].SawPending? {
      var e := OfWaiter(w, Sleep);
      assert Legal(Apply(t, e), []);
      Chain(t, e, []);
      assert Run(t, [e] + []).waiters[w].Asleep?;
    } else if CanSleep(t, w) {
      var es :| Legal(t, es) && Run(t, es).waiters[w].Asleep?;
      RunKeepsAlert(t, es, w);
      assert false;
    }
  }

  lemma Chain(s: State, e: Event, es: seq<Event>)
    requires Enabled(s, e) && Legal(Apply(s, e), es)
    ensures Legal(s, [e] + es) && Run(s, [e] + es) == Run(Apply(s, e), es)
  {
    assert ([e] + es)[1..] == es;
  }

  /** A completed status means the worker has stopped writing the result, for good: it is past its work now
      and in every continuation, and the status stays. */
  lemma CompletedResultIsFinal(s: State, es: seq<Event>, later: seq<Event>)
    requires Start(s) && Legal(s, es) && Run(s, es).status == Completed && Legal(Run(s, es), later)
    ensures Run(s, es).worker != Running
    ensures Run(Run(s, es), later).worker != Running && Run(Run(s, es), later).status == Completed
  {
    hide Run, Legal, Start;
    StartInv(s);
    RunKeepsInv(s, es);
    RunKeepsInv(Run(s, es), later);
    RunOnward(Run(s, es), later);
  }
}
