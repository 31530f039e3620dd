/** What the IO pass promises over its nodes: which loads the gates hold back, what the counters count, how
    much memory the backlog bounds, and how a selected node gets to the GPU. */
module IoProgress {
  import opened RenderList
  import opened IoScheduler

  // ---- what holds a load back ---------------------------------------------------------------------------

  function TotalCpu(costs: seq<Cost>): nat { if costs == [] then 0 else TotalCpu(costs[..|costs| - 1]) + costs[|costs| - 1].cpu }

  lemma {:induction false} LoadsAddUp(s: Stats, costs: seq<Cost>)
    ensures
      var t := AfterLoads(s, costs);
      && t.inFlight == s.inFlight + |costs| && t.scheduled == s.scheduled + |costs|
      && t.backlog == s.backlog + TotalCpu(costs) && t.projected == s.projected + TotalGpu(costs)
      && t.used == s.used && t.uploads == s.uploads && t.deniedBacklog == s.deniedBacklog && t.deniedGpu == s.deniedGpu
    decreases |costs|
  {
    if costs != [] {
      LoadsAddUp(s, costs[..|costs| - 1]);
    }
  }

  /** There is a slot for one more load after j of them. */
  predicate SlotFree(s: Stats, l: Limits, j: nat) { s.inFlight + j < l.maxConcurrent && s.scheduled + j < l.maxNew }

  /** Candidate j fits the backlog beside what is under way, or nothing at all is under way. */
  predicate FitsBacklog(s: Stats, costs: seq<Cost>, l: Limits, j: nat)
    requires j < |costs|
  {
    || s.backlog + TotalCpu(costs[..j]) + costs[j].cpu <= l.backlogCap
    || (j == 0 && s.inFlight == 0 && s.backlog == l.deferred)
  }

  predicate FitsGpu(s: Stats, costs: seq<Cost>, l: Limits, virtualUsed: nat, j: nat)
    requires j < |costs|
  {
    s.used + virtualUsed + s.projected + TotalGpu(costs[..j]) + costs[j].gpu <= l.gpuBudget
  }

  predicate HasRoom(s: Stats, costs: seq<Cost>, l: Limits, virtualUsed: nat, j: nat)
    requires j < |costs|
  {
    SlotFree(s, l, j) && FitsBacklog(s, costs, l, j) && FitsGpu(s, costs, l, virtualUsed, j)
  }

  lemma DecideIsRoom(s: Stats, costs: seq<Cost>, l: Limits, virtualUsed: nat, j: nat)
    requires j < |costs|
    ensures
      var d := Decide(AfterLoads(s, costs[..j]), costs[j], l, virtualUsed);
      && (d == Full <==> !SlotFree(s, l, j))
      && (d == OverBacklog <==> SlotFree(s, l, j) && !FitsBacklog(s, costs, l, j))
      && (d == OverGpu <==> SlotFree(s, l, j) && FitsBacklog(s, costs, l, j) && !FitsGpu(s, costs, l, virtualUsed, j))
  {
    LoadsAddUp(s, costs[..j]);
    hide AfterLoads, TotalCpu, TotalGpu;
    if j == 0 {
      NoLoads(s, costs);
    }
  }

  /** The loads issued are the longest prefix of the candidates for which there was room: no load is held back
      but for a full slot, backlog or budget. */
  lemma LoadsAreTheLongestPrefix(s: Stats, costs: seq<Cost>, l: Limits, virtualUsed: nat, k: nat)
    ensures Lets(s, costs, l, virtualUsed, k) <==>
              && k <= |costs|
              && (forall j :: 0 <= j < k ==> HasRoom(s, costs, l, virtualUsed, j))
              && (k < |costs| ==> !HasRoom(s, costs, l, virtualUsed, k))
  {
    hide AfterLoads, Decide, SlotFree, FitsBacklog, FitsGpu;
    forall j | 0 <= j < |costs|
      ensures Decide(AfterLoads(s, costs[..j]), costs[j], l, virtualUsed) == Admit <==> HasRoom(s, costs, l, virtualUsed, j)
    {
      DecideIsRoom(s, costs, l, virtualUsed, j);
    }
  }

  /** The load that stops the pass is counted as denied when the backlog or the budget stopped it, and nothing
      else is. */
  lemma DenialIsCounted(s: Stats, costs: seq<Cost>, l: Limits, virtualUsed: nat, k: nat)
    requires k < |costs|
    ensures
      var after := AfterLoads(s, costs[..k]);
      var t := Refused(after, Decide(after, costs[k], l, virtualUsed));
      && t.deniedBacklog == s.deniedBacklog + (if SlotFree(s, l, k) && !FitsBacklog(s, costs, l, k) then 1 else 0)
      && t.deniedGpu == s.deniedGpu + (if SlotFree(s, l, k) && FitsBacklog(s, costs, l, k) && !FitsGpu(s, costs, l, virtualUsed, k)
                                       then 1 else 0)
  {
    LoadsAddUp(s, costs[..k]);
    DecideIsRoom(s, costs, l, virtualUsed, k);
    hide AfterLoads, Decide, SlotFree, FitsBacklog, FitsGpu;
  }

  // ---- what the pass does to one node -------------------------------------------------------------------

  /** A pass seen from one node: it is scanned, and its load issued or its upload done if it wants that. */
  function PassOn(n: Node, e: Seen, served: bool): Node {
    var m := Classified(n, e);
    if !served then m else if WantsLoad(n) then SetLoading(m) else if WantsUpload(n) then SetUploaded(m) else m
  }

  lemma PassIsPassOn(was: seq<Node>, seen: seq<Seen>, p: Pass, i: nat) returns (served: bool)
    requires |seen| == |was| && Candidates(p.loads, was, seen, WantsLoad) && Candidates(p.uploads, was, seen, WantsUpload)
    requires p.issued <= |p.loads| && p.done <= |p.uploads| && i < |was|
    ensures Final(ClassifiedAll(was, seen), p)[i] == PassOn(was[i], seen[i], served)
  {
    hide Classified, WantsLoad, WantsUpload, SetLoading, SetUploaded, Marked, Select, ByDistance;
    FinalNode(was, seen, p, i);
    NotBoth(was[i]);
    served := Final(ClassifiedAll(was, seen), p)[i] != Classified(was[i], seen[i]);
  }

  /** Selected, not on the GPU, nothing under way for it, not represented by its parts. */
  predicate Idle(n: Node) { n.io == NoIo && !n.uploaded && n.fade != FadeOut && !n.monolithFreed }

  /** Its buffers are made and it is not on the GPU. */
  predicate Ready(n: Node) { n.io == Loaded && !n.uploaded }

  /** What the conversion leaves in the node. */
  function Converted(n: Node, d: Decoded): Node { n.(convertDone := true, decoded := d, gpuBytes := ChargedBytes(d)) }

  /** From selection to the GPU: a pass that serves it starts the load of an idle node; the pass that finds it
      ready starts the conversion; and the pass after the conversion has ended makes it a candidate and, if it
      serves it, puts it on the GPU and lets the buffers go. Empty units go back to where they started. */
  lemma NodeReachesTheGpu(n: Node, first: Seen, second: Seen, d: Decoded, third: Seen)
    requires Idle(n) && second.ready
    ensures
      var loading := PassOn(n, first, true);
      var converting := PassOn(loading, second, true);
      var converted := Converted(converting, d);
      && loading.io == Loading && converting.io == Converting && !converting.convertDone
      && (d.points > 0 ==>
            && PassOn(converted, third, true).uploaded && PassOn(converted, third, true).decoded == NOTHING
            && PassOn(converted, third, true).gpuBytes == ChargedBytes(d)
            && Ready(PassOn(converted, third, false)) && PassOn(converted, third, false).decoded == d)
      && (d.points == 0 ==> Idle(PassOn(converted, third, true)))
  {
    hide ChargedBytes;
  }

  function Passes(n: Node, es: seq<Seen>): Node
    decreases |es|
  {
    if es == [] then n else Passes(PassOn(n, es[0], false), es[1..])
  }

  /** A node that is not served waits where it is, for any number of passes: idle, on its way, or ready with
      its buffers. */
  lemma {:induction false} UnservedNodesWait(n: Node, es: seq<Seen>)
    requires Idle(n) || Ready(n) || (n.io == Converting && !n.convertDone) || (n.io == Loading && forall k :: 0 <= k < |es| ==> !es[k].ready)
    ensures
      var m := Passes(n, es);
      && m.io == n.io && m.uploaded == n.uploaded && m.decoded == n.decoded && m.convertDone == n.convertDone
      && (Idle(n) ==> WantsLoad(m)) && (Ready(n) ==> WantsUpload(m))
    decreases |es|
  {
    if es != [] {
      UnservedNodesWait(PassOn(n, es[0], false), es[1..]);
    }
  }

  /** A pass starts loads for idle nodes only, and puts only ready or just converted nodes on the GPU. */
  lemma OnlyWantedIsServed(n: Node, e: Seen, served: bool)
    ensures var m := PassOn(n, e, served);
      && (m.io == Loading && n.io != Loading ==> Idle(n))
      && (m.uploaded && !n.uploaded ==>
            m.decoded == NOTHING && (Ready(n) || (n.io == Converting && n.convertDone && n.decoded.points > 0)))
      && (n.uploaded ==> m.uploaded && m.gpuBytes == n.gpuBytes)
  {
  }

  // ---- loads under way ----------------------------------------------------------------------------------

  function Loads(list: seq<Node>): nat {
    if list == [] then 0 else Loads(list[..|list| - 1]) + (if list[|list| - 1].io == Loading then 1 else 0)
  }

  lemma {:induction false} ScanCountsLoads(was: seq<Node>, seen: seq<Seen>)
    requires |seen| == |was|
    ensures CountInFlight(was, seen) == Loads(ClassifiedAll(was, seen))
    decreases |was|
  {
    if was != [] {
      var n := |was| - 1;
      ScanCountsLoads(was[..n], seen[..n]);
      assert ClassifiedAll(was, seen)[..n] == ClassifiedAll(was[..n], seen[..n]);
    }
  }

  lemma {:induction false} LoadsUpdate(list: seq<Node>, i: nat, x: Node)
    requires i < |list|
    ensures Loads(list[i := x]) == Loads(list) - (if list[i].io == Loading then 1 else 0) + (if x.io == Loading then 1 else 0)
    decreases |list|
  {
    var n := |list| - 1;
    if i == n {
      assert list[i := x][..n] == list[..n];
    } else {
      assert list[i := x][..n] == list[..n][i := x];
      LoadsUpdate(list[..n], i, x);
    }
  }

  lemma {:induction false} IssuedLoadsCount(list: seq<Node>, es: seq<Entry>, k: nat)
    requires IndicesOf(es, |list|) && k <= |es| && forall j :: 0 <= j < |es| ==> list[es[j].index].io != Loading
    ensures Loads(Marked(list, es, k, SetLoading)) == Loads(list) + k
    decreases k
  {
    hide Loads, Marked;
    if k == 0 {
      MarkedNone(list, es, SetLoading);
    } else {
      var r, i := Marked(list, es, k - 1, SetLoading), es[k - 1].index;
      IssuedLoadsCount(list, es, k - 1);
      MarkedSnoc(list, es, k - 1, SetLoading);
      MarkedAt(list, es, k - 1, SetLoading, i);
      LoadsUpdate(r, i, SetLoading(r[i]));
    }
  }

  lemma {:induction false} UploadsAreNoLoads(list: seq<Node>, es: seq<Entry>, k: nat)
    requires IndicesOf(es, |list|) && k <= |es|
    ensures Loads(Marked(list, es, k, SetUploaded)) == Loads(list)
    decreases k
  {
    hide Loads, Marked;
    if k == 0 {
      MarkedNone(list, es, SetUploaded);
    } else {
      var r, i := Marked(list, es, k - 1, SetUploaded), es[k - 1].index;
      UploadsAreNoLoads(list, es, k - 1);
      MarkedSnoc(list, es, k - 1, SetUploaded);
      LoadsUpdate(r, i, SetUploaded(r[i]));
    }
  }

  /** The count of loads under way is exact after every pass, and a pass that issues one leaves no more than
      the limit. */
  lemma LoadsUnderWayAreCounted(r: Round, l: Limits)
    requires RoundOf(r, l)
    ensures
      var costs := Costs(ClassifiedAll(r.was, r.seen), r.p.loads);
      && AfterLoads(ScanStats(r.was, r.seen, l.deferred), costs[..r.p.issued]).inFlight == Loads(After(r))
      && (r.p.issued > 0 ==> Loads(After(r)) <= l.maxConcurrent)
  {
    hide Loads, Marked, Sum, Select, AfterLoads, Classified, CostOf, Waiting, Decide, LetsUpload, Lets, SetLoading, SetUploaded, AllConsistent, AllCovered;
    var scanned, s := ClassifiedAll(r.was, r.seen), ScanStats(r.was, r.seen, l.deferred);
    CandidatesWait(r, l);
    ScanCountsLoads(r.was, r.seen);
    IssuedLoadsCount(scanned, r.p.loads, r.p.issued);
    UploadsAreNoLoads(Marked(scanned, r.p.loads, r.p.issued, SetLoading), r.p.uploads, r.p.done);
    LoadsAddUp(s, Costs(scanned, r.p.loads)[..r.p.issued]);
    if r.p.issued > 0 {
      LetsAdmits(s, Costs(scanned, r.p.loads), l, r.virtualUsed, r.p.issued);
    }
  }

  lemma LetsAdmits(s: Stats, costs: seq<Cost>, l: Limits, virtualUsed: nat, k: nat)
    requires Lets(s, costs, l, virtualUsed, k) && k > 0
    ensures AfterLoads(s, costs[..k]).inFlight <= l.maxConcurrent
  {
    AdmittedLoadsFit(s, costs, l, virtualUsed, k);
  }

  // ---- memory on the way --------------------------------------------------------------------------------

  /** Nothing is under way for the node. */
  predicate AtRest(n: Node) { n.io == NoIo || (n.io == Loaded && n.uploaded) }

  /** The main memory a node may take: its estimate until the conversion has ended, what was made and read
      from then until its upload. */
  function Memory(n: Node): nat {
    if n.io == Loading || (n.io == Converting && !n.convertDone) then CpuBytes(n.walker.view)
    else if AtRest(n) then 0
    else HeldBytes(n.decoded, n.walker.view)
  }

  /** The conversion made no more than was estimated for it. */
  predicate KeptEstimate(n: Node) { n.io == Converting && n.convertDone ==> HeldBytes(n.decoded, n.walker.view) <= CpuBytes(n.walker.view) }

  lemma ScanKeepsMemory(n: Node, e: Seen)
    requires Consistent(n) && KeptEstimate(n)
    ensures Memory(Classified(n, e)) <= Memory(n) <= CpuCharge(n)
    ensures AtRest(n) ==> CpuCharge(n) == 0
  {
    hide CpuBytes, InputBytes;
  }

  lemma LoadTakesItsCost(n: Node)
    requires Blank(n)
    ensures Memory(SetLoading(n)) == Memory(n) + CostOf(n).cpu
  {
    hide GpuBytes, CpuBytes;
  }

  lemma UploadTakesNothing(n: Node)
    requires Waiting(n)
    ensures Memory(SetUploaded(n)) == 0
  {
  }

  lemma {:induction false} LoadsTakeTheirCosts(list: seq<Node>, es: seq<Entry>, k: nat)
    requires IndicesOf(es, |list|) && k <= |es| && forall j :: 0 <= j < |es| ==> Blank(list[es[j].index])
    ensures Sum(Marked(list, es, k, SetLoading), Memory) == Sum(list, Memory) + TotalCpu(Costs(list, es)[..k])
    decreases k
  {
    hide Sum, TotalCpu, Marked, Memory, SetLoading, Blank, CostOf;
    if k == 0 {
      MarkedNone(list, es, SetLoading);
      NoCpu(Costs(list, es));
    } else {
      var r, i := Marked(list, es, k - 1, SetLoading), es[k - 1].index;
      LoadsTakeTheirCosts(list, es, k - 1);
      TotalCpuSnoc(Costs(list, es), k - 1);
      MarkedSnoc(list, es, k - 1, SetLoading);
      MarkedAt(list, es, k - 1, SetLoading, i);
      LoadTakesItsCost(list[i]);
      SumUpdate(r, i, SetLoading(r[i]), Memory);
    }
  }

  lemma NoCpu(costs: seq<Cost>)
    ensures TotalCpu(costs[..0]) == 0
  {
  }

  lemma TotalCpuSnoc(costs: seq<Cost>, i: nat)
    requires i < |costs|
    ensures TotalCpu(costs[..i + 1]) == TotalCpu(costs[..i]) + costs[i].cpu
  {
    assert costs[..i + 1][..i] == costs[..i];
  }

  lemma {:induction false} UploadsTakeNothing(list: seq<Node>, es: seq<Entry>, k: nat)
    requires IndicesOf(es, |list|) && k <= |es| && forall j :: 0 <= j < |es| ==> Waiting(list[es[j].index])
    ensures Sum(Marked(list, es, k, SetUploaded), Memory) <= Sum(list, Memory)
    decreases k
  {
    hide Sum, Marked, Memory, SetUploaded, Waiting;
    if k == 0 {
      MarkedNone(list, es, SetUploaded);
    } else {
      var r, i := Marked(list, es, k - 1, SetUploaded), es[k - 1].index;
      UploadsTakeNothing(list, es, k - 1);
      MarkedSnoc(list, es, k - 1, SetUploaded);
      MarkedAt(list, es, k - 1, SetUploaded, i);
      UploadTakesNothing(list[i]);
      SumUpdate(r, i, SetUploaded(r[i]), Memory);
    }
  }

  /** The backlog a pass reports bounds the memory of all nodes on their way to the GPU after it, beside the
      deferred bytes, when no conversion made more than was estimated; a list at rest is charged nothing. */
  lemma BacklogBoundsMemory(r: Round, l: Limits)
    requires RoundOf(r, l) && forall i :: 0 <= i < |r.was| ==> KeptEstimate(r.was[i])
    ensures
      var costs := Costs(ClassifiedAll(r.was, r.seen), r.p.loads);
      l.deferred + Sum(After(r), Memory) <= AfterLoads(ScanStats(r.was, r.seen, l.deferred), costs[..r.p.issued]).backlog
    ensures (forall i :: 0 <= i < |r.was| ==> AtRest(r.was[i])) ==> ScanStats(r.was, r.seen, l.deferred).backlog == l.deferred
  {
    hide Marked, Sum, Select, TotalCpu, AfterLoads, Classified, CostOf, Waiting, Decide, LetsUpload, Lets, SetLoading, SetUploaded, Memory,
         CpuCharge, KeptEstimate, AtRest, Consistent, Covered;
    var scanned, s := ClassifiedAll(r.was, r.seen), ScanStats(r.was, r.seen, l.deferred);
    CandidatesWait(r, l);
    forall i | 0 <= i < |r.was|
      ensures Memory(scanned[i]) <= CpuCharge(r.was[i]) && (AtRest(r.was[i]) ==> CpuCharge(r.was[i]) == 0)
    {
      ScanKeepsMemory(r.was[i], r.seen[i]);
    }
    SumAtMost(scanned, r.was, Memory, CpuCharge);
    LoadsTakeTheirCosts(scanned, r.p.loads, r.p.issued);
    UploadsTakeNothing(Marked(scanned, r.p.loads, r.p.issued, SetLoading), r.p.uploads, r.p.done);
    LoadsAddUp(s, Costs(scanned, r.p.loads)[..r.p.issued]);
    if forall i :: 0 <= i < |r.was| ==> AtRest(r.was[i]) {
      SumOfNothing(r.was, CpuCharge);
    }
  }

  lemma {:induction false} SumOfNothing(list: seq<Node>, f: Node -> nat)
    requires forall i :: 0 <= i < |list| ==> f(list[i]) == 0
    ensures Sum(list, f) == 0
    decreases |list|
  {
    if list != [] {
      SumOfNothing(list[..|list| - 1], f);
    }
  }

  // ---- nodes that are given up --------------------------------------------------------------------------

  /** A worker's write to a node: the end of its conversion, of its resident build or of its virtual loads. */
  predicate WorkerWrites(a: Node, b: Node) {
    || (a.io == Converting && !a.convertDone && b == a.(convertDone := true, decoded := b.decoded, gpuBytes := b.gpuBytes))
    || (a.residentBuilding && !a.residentReady && b == a.(residentReady := true))
    || (a.virtualInFlight && b == a.(virtualInFlight := false))
  }

  /** A node is busy exactly when some worker may still write to it; such a node is never destroyed, so the
      render thread never waits for a worker. */
  lemma BusyIsPendingWork(n: Node)
    ensures Busy(n) <==> exists b :: WorkerWrites(n, b)
  {
    if Busy(n) {
      if n.io == Converting && !n.convertDone {
        assert WorkerWrites(n, n.(convertDone := true));
      } else if n.residentBuilding && !n.residentReady {
        assert WorkerWrites(n, n.(residentReady := true));
      } else {
        assert WorkerWrites(n, n.(virtualInFlight := false));
      }
    }
  }

  /** A destroyed node holds nothing: no buffers, no GPU memory, no charge, nobody working on it. */
  lemma DestroyedHoldsNothing(n: Node)
    ensures
      var d := Destroyed(n);
      && !d.uploaded && d.decoded == NOTHING && !d.residentBuilding && !d.virtualInFlight
      && AtRest(d) && Committed(d) == 0 && CpuCharge(d) == 0 && !Busy(d) && d.Key() == n.Key()
  {
    hide CpuBytes, GpuBytes;
  }
}
