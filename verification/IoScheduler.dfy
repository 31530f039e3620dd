/** The byte-gated IO pass over the render list: scan and classify, issue loads nearest first, upload
    nearest first. */
module IoScheduler {
  import opened RenderList

  // ---- byte estimates ---------------------------------------------------------------------------------

  function RawStride(v: View): nat { if v.attribute.Attribute? then v.attribute.rawStride else 0 }

  function InputBytes(v: View): nat { v.points * (v.positionStride + RawStride(v)) }

  function CpuBytes(v: View): nat { InputBytes(v) + v.points * (12 + RawStride(v) + 1) }

  const UNIFORM_BYTES := 64 + 16

  /** Attributes other than 16-bit rgb may be widened to one float a component; for a node without the
      attribute nothing is foreseen. */
  function GpuStride(v: View): nat {
    match v.attribute
    case NoAttribute => 0
    case Attribute(raw, components, rgb16) => if rgb16 || raw >= components * 4 then raw else components * 4
  }

  function GpuBytes(v: View): nat { v.points * (12 + GpuStride(v) + 1) + UNIFORM_BYTES }

  /** What the conversion records for the buffers it made. */
  function ChargedBytes(d: Decoded): nat { d.vertexBytes + d.attributeBytes + d.repBytes + UNIFORM_BYTES }

  /** The attribute a node is drawn with: its own, or the constant byte a point that the decoder puts in
      where the node has none. */
  function Drawn(v: View): (a: Attribute)
    ensures a.Attribute?
  {
    if v.attribute.Attribute? then v.attribute else Attribute(1, 1, false)
  }

  /** The buffers the decoder makes of a unit of u points. It decodes the whole unit, of which the walker may
      have announced a part. */
  function Made(v: View, u: nat): Decoded { Decoded(u, u * 12, u * Drawn(v).rawStride, u) }

  /** The bytes the upload of such a unit transfers. When the value range is known every attribute but
      16-bit rgb is widened to floats, the substituted byte included. */
  function Sent(v: View, u: nat, rangeKnown: bool): nat {
    var a := Drawn(v);
    u * 12 + u * (if rangeKnown && !a.rgb16 then a.components * 4 else a.rawStride) + u + UNIFORM_BYTES
  }

  /** What a decoded unit holds in memory by the scheduler's account. */
  function HeldBytes(d: Decoded, v: View): nat { d.vertexBytes + d.attributeBytes + d.repBytes + InputBytes(v) }

  /** For any unit: where the GPU and CPU estimates made before the load cover what it is charged after. */
  lemma EstimatesCoverExactly(v: View, u: nat)
    ensures ChargedBytes(Made(v, u)) <= GpuBytes(v) <==> u * (13 + Drawn(v).rawStride) <= v.points * (13 + GpuStride(v))
    ensures HeldBytes(Made(v, u), v) <= CpuBytes(v) <==> u * (13 + Drawn(v).rawStride) <= v.points * (13 + RawStride(v))
  {
    Spread(u, Drawn(v).rawStride);
    Spread(v.points, GpuStride(v));
    Spread(v.points, RawStride(v));
  }

  /** A unit announced whole is covered by both estimates exactly when the node has the attribute. */
  lemma WholeUnitCoveredExactly(v: View)
    ensures ChargedBytes(Made(v, v.points)) <= GpuBytes(v) <==> v.points == 0 || v.attribute.Attribute?
    ensures HeldBytes(Made(v, v.points), v) <= CpuBytes(v) <==> v.points == 0 || v.attribute.Attribute?
  {
    EstimatesCoverExactly(v, v.points);
    TimesExactly(v.points, 13 + Drawn(v).rawStride, 13 + GpuStride(v));
    TimesExactly(v.points, 13 + Drawn(v).rawStride, 13 + RawStride(v));
  }

  /** Of a unit announced in part, an attribute that is not widened leaves no slack: the GPU estimate covers
      it exactly when no more than the announced points are decoded. The CPU estimate never has slack. */
  lemma SplitUnitCoveredExactly(v: View, u: nat)
    requires v.attribute.Attribute?
    ensures GpuStride(v) == RawStride(v) ==> (ChargedBytes(Made(v, u)) <= GpuBytes(v) <==> u <= v.points)
    ensures HeldBytes(Made(v, u), v) <= CpuBytes(v) <==> u <= v.points
    ensures u <= v.points ==> ChargedBytes(Made(v, u)) <= GpuBytes(v)
  {
    EstimatesCoverExactly(v, u);
    LeftExactly(u, v.points, 13 + RawStride(v));
    Times(v.points, 13 + RawStride(v), 13 + GpuStride(v));
  }

  /** The decode inputs of a unit of u points: its codes and, where the node has the attribute, its values. */
  function Inputs(v: View, u: nat): nat {
    u * v.positionStride + (match v.attribute case NoAttribute => 0 case Attribute(raw, _, _) => u * raw)
  }

  /** The memory a unit really takes until its upload: inputs and outputs of its decoding. */
  function Footprint(v: View, u: nat): nat {
    var d := Made(v, u);
    Inputs(v, u) + d.vertexBytes + d.attributeBytes + d.repBytes
  }

  /** What the account keeps for the inputs is what they are for a unit announced whole, and the CPU estimate
      made before the load covers the memory such a unit takes exactly when the node has the attribute. Of a
      unit announced in part both fall short. */
  lemma FootprintCoveredExactly(v: View, u: nat)
    ensures InputBytes(v) == Inputs(v, v.points)
    ensures Footprint(v, v.points) <= CpuBytes(v) <==> v.points == 0 || v.attribute.Attribute?
    ensures u > v.points ==> Footprint(v, u) > CpuBytes(v)
  {
    hide Drawn;
    InputsSpread(v, v.points);
    InputsSpread(v, u);
    Spread(v.points, RawStride(v));
    WholeUnitCoveredExactly(v);
    if u > v.points {
      DrawnAtLeastRaw(v);
      var a, b := v.positionStride + RawStride(v), 13 + RawStride(v);
      Times(a, v.points, u);
      MoreTimes(v.points, u, b);
      Times(u, 13 + RawStride(v), 13 + Drawn(v).rawStride);
      Spread(u, Drawn(v).rawStride);
    }
  }

  lemma InputsSpread(v: View, u: nat)
    ensures Inputs(v, u) == u * (v.positionStride + RawStride(v)) == (v.positionStride + RawStride(v)) * u
  {
  }

  lemma DrawnAtLeastRaw(v: View)
    ensures RawStride(v) <= Drawn(v).rawStride
  {
  }

  lemma MoreTimes(a: nat, b: nat, n: nat)
    requires a < b && n > 0
    ensures a * n < b * n
  {
    LeftExactly(b, a, n);
  }

  /** The charge, which counts the raw attribute, covers the transfer exactly when nothing is widened or the
      raw values are no narrower than floats. */
  lemma ChargeCoversTransferExactly(v: View, u: nat, rangeKnown: bool)
    ensures Sent(v, u, rangeKnown) <= ChargedBytes(Made(v, u)) <==>
              u == 0 || !rangeKnown || Drawn(v).rgb16 || Drawn(v).components * 4 <= Drawn(v).rawStride
  {
    TimesExactly(u, Drawn(v).components * 4, Drawn(v).rawStride);
  }

  /** The estimate of a unit announced whole covers the transfer too exactly when the node has the
      attribute. */
  lemma EstimateCoversTransferExactly(v: View, rangeKnown: bool)
    ensures Sent(v, v.points, rangeKnown) <= GpuBytes(v) <==> v.points == 0 || v.attribute.Attribute?
  {
    var a := Drawn(v);
    var width := if rangeKnown && !a.rgb16 then a.components * 4 else a.rawStride;
    Spread(v.points, width);
    Spread(v.points, GpuStride(v));
    TimesExactly(v.points, width, GpuStride(v));
  }

  /** And it is no larger than it has to be: for a node with the attribute it is the charge or the widened
      transfer of the unit, whichever is more. */
  lemma EstimateIsTight(v: View)
    requires v.attribute.Attribute?
    ensures
      var charge, transfer := ChargedBytes(Made(v, v.points)), Sent(v, v.points, true);
      GpuBytes(v) == if charge < transfer then transfer else charge
  {
    var a := v.attribute;
    var width := if !a.rgb16 then a.components * 4 else a.rawStride;
    Spread(v.points, width);
    Spread(v.points, a.rawStride);
    Spread(v.points, GpuStride(v));
    TimesExactly(v.points, width, a.rawStride);
    TimesExactly(v.points, a.rawStride, width);
  }

  lemma Spread(n: nat, s: nat)
    ensures n * (12 + s + 1) == n * 12 + n * s + n && n * (13 + s) == n * 12 + n * s + n
  {
  }

  lemma Times(n: nat, a: nat, b: nat)
    requires a <= b
    ensures n * a <= n * b
  {
    assert n * (b - a) >= 0;
    assert n * b == n * a + n * (b - a);
  }

  lemma TimesExactly(n: nat, a: nat, b: nat)
    ensures n * a <= n * b <==> n == 0 || a <= b
  {
    if a <= b {
      Times(n, a, b);
    } else if n > 0 {
      Times(n, b + 1, a);
      assert n * (b + 1) == n * b + n;
    }
  }

  lemma LeftExactly(a: nat, b: nat, n: nat)
    requires n > 0
    ensures a * n <= b * n <==> a <= b
  {
    TimesExactly(n, a, b);
    assert a * n == n * a && b * n == n * b;
  }

  /** A slim node: one point without the attribute is charged one byte and transfers four bytes more than
      was estimated. */
  lemma SlimNodeIsUnderestimated(v: View)
    requires v.attribute == NoAttribute && v.points == 1
    ensures ChargedBytes(Made(v, 1)) == GpuBytes(v) + 1 && Sent(v, 1, true) == GpuBytes(v) + 4
    ensures HeldBytes(Made(v, 1), v) == CpuBytes(v) + 1
  {
  }

  /** A split unit: one point announced of a unit of two, with 16-bit rgb. */
  lemma SplitUnitIsUnderestimated(v: View)
    requires v.attribute == Attribute(6, 3, true) && v.points == 1
    ensures ChargedBytes(Made(v, 2)) == GpuBytes(v) + 19
  {
  }

  /** One byte a point, widened: a single point transfers three bytes more than it is charged. */
  lemma WidenedByteIsUndercharged(v: View)
    requires v.attribute == Attribute(1, 1, false)
    ensures Sent(v, 1, true) == ChargedBytes(Made(v, 1)) + 3
  {
  }

  // ---- phase A ----------------------------------------------------------------------------------------

  datatype Limits = Limits(maxConcurrent: int, maxNew: int, maxUploadBytes: nat, gpuBudget: nat, backlogCap: nat, deferred: nat)

  datatype Stats = Stats(inFlight: nat, scheduled: nat, uploads: nat, deniedBacklog: nat, deniedGpu: nat,
                         used: nat, backlog: nat, projected: nat)

  datatype Entry = Entry(index: nat, distance: real)

  /** What a frame learns about a node from outside: whether its load is ready, and its distance. */
  datatype Seen = Seen(ready: bool, distance: real)

  function Classified(n: Node, e: Seen): Node {
    var m := n.(distance := e.distance);
    match n.io
    case Loading => if e.ready then m.(io := Converting, convertDone := false) else m
    case Converting => if !n.convertDone then m else m.(io := if n.decoded.points > 0 then Loaded else NoIo)
    case Loaded => m
    case NoIo => m
  }

  predicate Waiting(n: Node) { n.io == Loaded && !n.uploaded }

  function CpuCharge(n: Node): nat {
    if n.io == Loading || n.io == Converting then CpuBytes(n.walker.view)
    else if Waiting(n) then n.decoded.vertexBytes + n.decoded.attributeBytes + n.decoded.repBytes + InputBytes(n.walker.view)
    else 0
  }

  function GpuCharge(n: Node): nat {
    if n.io == Loading || n.io == Converting then GpuBytes(n.walker.view) else if Waiting(n) then n.gpuBytes else 0
  }

  function Used(n: Node): nat { if n.uploaded then n.gpuBytes else 0 }

  function InFlight(n: Node, e: Seen): nat { if n.io == Loading && !e.ready then 1 else 0 }

  predicate WantsLoad(n: Node) { n.io == NoIo && !n.uploaded && n.fade != FadeOut && !n.monolithFreed }

  predicate WantsUpload(n: Node) { (n.io == Converting && n.convertDone && n.decoded.points > 0) || Waiting(n) }

  /** A node on its way in is not on the GPU yet. */
  predicate Consistent(n: Node) { n.io == Loading || n.io == Converting ==> !n.uploaded }

  function Sum(list: seq<Node>, f: Node -> nat): nat {
    if list == [] then 0 else Sum(list[..|list| - 1], f) + f(list[|list| - 1])
  }

  function CountInFlight(list: seq<Node>, seen: seq<Seen>): nat
    requires |seen| == |list|
  {
    if list == [] then 0 else CountInFlight(list[..|list| - 1], seen[..|list| - 1]) + InFlight(list[|list| - 1], seen[|list| - 1])
  }

  /** The nodes with a property, in list order, with their distances. */
  function Select(list: seq<Node>, seen: seq<Seen>, want: Node -> bool): seq<Entry>
    requires |seen| == |list|
  {
    if list == [] then []
    else
      var n := |list| - 1;
      Select(list[..n], seen[..n], want) + (if want(list[n]) then [Entry(n, seen[n].distance)] else [])
  }

  function ScanStats(list: seq<Node>, seen: seq<Seen>, deferred: nat): Stats
    requires |seen| == |list|
  {
    Stats(CountInFlight(list, seen), 0, 0, 0, 0, Sum(list, Used), deferred + Sum(list, CpuCharge), Sum(list, GpuCharge))
  }

  /** Stats with one more node's charges. */
  function Charged(stats: Stats, n: Node, e: Seen): Stats {
    stats.(inFlight := stats.inFlight + InFlight(n, e), used := stats.used + Used(n),
           backlog := stats.backlog + CpuCharge(n), projected := stats.projected + GpuCharge(n))
  }

  /** The body of the pass for one node. */
  method ClassifyNode(n: Node, e: Seen, before: Stats) returns (m: Node, stats: Stats, load: bool, upload: bool)
    ensures m == Classified(n, e) && stats == Charged(before, n, e) && load == WantsLoad(n) && upload == WantsUpload(n)
  {
    var v := n.walker.view;
    m, stats, load, upload := n.(distance := e.distance), before, false, false;
    if n.uploaded {
      stats := stats.(used := stats.used + n.gpuBytes);
    }
    match n.io {
      case Loading =>
        if e.ready {
          m := m.(io := Converting, convertDone := false);
        } else {
          stats := stats.(inFlight := stats.inFlight + 1);
        }
        stats := stats.(backlog := stats.backlog + CpuBytes(v), projected := stats.projected + GpuBytes(v));
      case Converting =>
        if n.convertDone {
          upload := n.decoded.points > 0;
          m := m.(io := if upload then Loaded else NoIo);
        }
        stats := stats.(backlog := stats.backlog + CpuBytes(v), projected := stats.projected + GpuBytes(v));
      case Loaded =>
        if !n.uploaded {
          upload := true;
          stats := stats.(backlog := stats.backlog + n.decoded.vertexBytes + n.decoded.attributeBytes + n.decoded.repBytes + InputBytes(v),
                          projected := stats.projected + n.gpuBytes);
        }
      case NoIo =>
        load := !n.uploaded && n.fade != FadeOut && !n.monolithFreed;
    }
  }

  lemma ScanSnoc(list: seq<Node>, seen: seq<Seen>, i: nat, deferred: nat)
    requires i < |list| == |seen|
    ensures ScanStats(list[..i + 1], seen[..i + 1], deferred) == Charged(ScanStats(list[..i], seen[..i], deferred), list[i], seen[i])
  {
    hide CpuCharge, GpuCharge, Used, InFlight;
    assert list[..i + 1][..i] == list[..i] && seen[..i + 1][..i] == seen[..i];
  }

  lemma SelectSnoc(list: seq<Node>, seen: seq<Seen>, i: nat, want: Node -> bool)
    requires i < |list| == |seen|
    ensures Select(list[..i + 1], seen[..i + 1], want)
         == Select(list[..i], seen[..i], want) + (if want(list[i]) then [Entry(i, seen[i].distance)] else [])
  {
    assert list[..i + 1][..i] == list[..i] && seen[..i + 1][..i] == seen[..i];
  }

  /** One pass: charge every node for what it holds, advance its state, and collect the candidates. */
  method Scan(list: seq<RenderNode>, seen: seq<Seen>, deferred: nat) returns (stats: Stats, loads: seq<Entry>, uploads: seq<Entry>)
    requires Distinct(list) && |seen| == |list|
    modifies list
    ensures forall i :: 0 <= i < |list| ==> list[i].s == Classified(old(list[i].s), seen[i])
    ensures stats == ScanStats(old(Snap(list)), seen, deferred)
    ensures loads == Select(old(Snap(list)), seen, WantsLoad)
    ensures uploads == Select(old(Snap(list)), seen, WantsUpload)
  {
    hide Classified, WantsLoad, WantsUpload, Charged;
    ghost var was := Snap(list);
    stats, loads, uploads := Stats(0, 0, 0, 0, 0, 0, deferred, 0), [], [];
    for i := 0 to |list|
      invariant forall k :: 0 <= k < |list| ==> list[k].s == if k < i then Classified(was[k], seen[k]) else was[k]
      invariant stats == ScanStats(was[..i], seen[..i], deferred)
      invariant loads == Select(was[..i], seen[..i], WantsLoad) && uploads == Select(was[..i], seen[..i], WantsUpload)
    {
      ScanSnoc(was, seen, i, deferred);
      SelectSnoc(was, seen, i, WantsLoad);
      SelectSnoc(was, seen, i, WantsUpload);
      var load, upload;
      list[i].s, stats, load, upload := ClassifyNode(list[i].s, seen[i], stats);
      loads := loads + (if load then [Entry(i, seen[i].distance)] else []);
      uploads := uploads + (if upload then [Entry(i, seen[i].distance)] else []);
    }
    assert was[..|list|] == was && seen[..|list|] == seen;
  }

  // ---- phase B ----------------------------------------------------------------------------------------

  ghost predicate ByDistance(es: seq<Entry>) { forall i, j :: 0 <= i < j < |es| ==> es[i].distance <= es[j].distance }

  function Insert(e: Entry, s: seq<Entry>): seq<Entry> {
    if s == [] || e.distance <= s[0].distance then [e] + s else [s[0]] + Insert(e, s[1..])
  }

  predicate NotNearer(s: seq<Entry>, d: real) { forall k :: 0 <= k < |s| ==> d <= s[k].distance }

  lemma ConsByDistance(e: Entry, s: seq<Entry>)
    requires ByDistance(s) && NotNearer(s, e.distance)
    ensures ByDistance([e] + s)
  {
  }

  lemma {:induction false} InsertSorts(e: Entry, s: seq<Entry>, d: real)
    requires ByDistance(s) && NotNearer(s, d) && d <= e.distance
    ensures ByDistance(Insert(e, s)) && NotNearer(Insert(e, s), d)
  {
    if s == [] || e.distance <= s[0].distance {
      ConsByDistance(e, s);
    } else {
      InsertSorts(e, s[1..], s[0].distance);
      ConsByDistance(s[0], Insert(e, s[1..]));
    }
  }

  lemma {:induction false} InsertAdds(e: Entry, s: seq<Entry>)
    ensures multiset(Insert(e, s)) == multiset(s) + multiset{e}
  {
    if s != [] && e.distance > s[0].distance {
      InsertAdds(e, s[1..]);
      assert s == [s[0]] + s[1..];
    }
  }

  /** std::sort by distance; the order of equal distances is left open. */
  method SortEntries(es: seq<Entry>) returns (r: seq<Entry>)
    ensures ByDistance(r) && multiset(r) == multiset(es)
  {
    hide Insert;
    r := [];
    for n := 0 to |es|
      invariant ByDistance(r) && multiset(r) == multiset(es[..n])
    {
      InsertSorts(es[n], r, if r == [] || es[n].distance <= r[0].distance then es[n].distance else r[0].distance);
      InsertAdds(es[n], r);
      assert es[..n + 1] == es[..n] + [es[n]];
      r := Insert(es[n], r);
    }
    assert es[..|es|] == es;
  }

  /** The estimated cost of one load. */
  datatype Cost = Cost(cpu: nat, gpu: nat)

  function CostOf(n: Node): Cost { Cost(CpuBytes(n.walker.view), GpuBytes(n.walker.view)) }

  datatype Decision = Admit | Full | OverBacklog | OverGpu

  predicate PipelineEmpty(s: Stats, l: Limits) { s.inFlight == 0 && s.backlog == l.deferred }

  /** The gates a load has to pass, in order. */
  function Decide(s: Stats, c: Cost, l: Limits, virtualUsed: nat): Decision {
    if s.inFlight >= l.maxConcurrent || s.scheduled >= l.maxNew then Full
    else if !PipelineEmpty(s, l) && s.backlog + c.cpu > l.backlogCap then OverBacklog
    else if s.used + virtualUsed + s.projected + c.gpu > l.gpuBudget then OverGpu
    else Admit
  }

  function Admitted(s: Stats, c: Cost): Stats {
    s.(inFlight := s.inFlight + 1, scheduled := s.scheduled + 1, backlog := s.backlog + c.cpu, projected := s.projected + c.gpu)
  }

  function AfterLoads(s: Stats, costs: seq<Cost>): Stats {
    if costs == [] then s else Admitted(AfterLoads(s, costs[..|costs| - 1]), costs[|costs| - 1])
  }

  lemma AfterLoadsSnoc(s: Stats, costs: seq<Cost>, i: nat)
    requires i < |costs|
    ensures AfterLoads(s, costs[..i + 1]) == Admitted(AfterLoads(s, costs[..i]), costs[i])
  {
    assert costs[..i + 1][..i] == costs[..i];
  }

  /** `k` is how many of the loads the gates let through: each passed all gates in its turn, and the next
      one, if there is one, was refused. */
  ghost predicate Lets(s: Stats, costs: seq<Cost>, l: Limits, virtualUsed: nat, k: nat) {
    && k <= |costs|
    && (forall i :: 0 <= i < k ==> Decide(AfterLoads(s, costs[..i]), costs[i], l, virtualUsed) == Admit)
    && (k < |costs| ==> Decide(AfterLoads(s, costs[..k]), costs[k], l, virtualUsed) != Admit)
  }

  function Refused(s: Stats, d: Decision): Stats {
    if d == OverBacklog then s.(deniedBacklog := s.deniedBacklog + 1) else if d == OverGpu then s.(deniedGpu := s.deniedGpu + 1) else s
  }

  ghost predicate IndicesOf(es: seq<Entry>, n: nat) {
    && (forall k :: 0 <= k < |es| ==> es[k].index < n)
    && (forall j, k :: 0 <= j < k < |es| ==> es[j].index != es[k].index)
  }

  ghost function Costs(list: seq<Node>, es: seq<Entry>): (r: seq<Cost>)
    requires IndicesOf(es, |list|)
    ensures |r| == |es| && forall k :: 0 <= k < |es| ==> r[k] == CostOf(list[es[k].index])
  {
    seq(|es|, k requires 0 <= k < |es| => CostOf(list[es[k].index]))
  }

  function SetLoading(n: Node): Node { n.(io := Loading) }
  function SetUploaded(n: Node): Node { n.(uploaded := true, decoded := NOTHING) }

  /** The list after `f` at the first k entries. */
  function Marked(list: seq<Node>, es: seq<Entry>, k: nat, f: Node -> Node): (r: seq<Node>)
    requires k <= |es| && forall i :: 0 <= i < |es| ==> es[i].index < |list|
    ensures |r| == |list|
  {
    if k == 0 then list
    else
      var r := Marked(list, es, k - 1, f);
      r[es[k - 1].index := f(r[es[k - 1].index])]
  }

  lemma MarkedNone(list: seq<Node>, es: seq<Entry>, f: Node -> Node)
    requires forall i :: 0 <= i < |es| ==> es[i].index < |list|
    ensures Marked(list, es, 0, f) == list
  {
  }

  lemma MarkedSnoc(list: seq<Node>, es: seq<Entry>, k: nat, f: Node -> Node)
    requires k < |es| && forall i :: 0 <= i < |es| ==> es[i].index < |list|
    ensures var r := Marked(list, es, k, f); Marked(list, es, k + 1, f) == r[es[k].index := f(r[es[k].index])]
  {
  }

  lemma {:induction false} MarkedAt(list: seq<Node>, es: seq<Entry>, k: nat, f: Node -> Node, i: nat)
    requires IndicesOf(es, |list|) && k <= |es| && i < |list|
    ensures (forall j :: 0 <= j < k ==> es[j].index != i) ==> Marked(list, es, k, f)[i] == list[i]
    ensures (exists j :: 0 <= j < k && es[j].index == i) ==> Marked(list, es, k, f)[i] == f(list[i])
  {
    if k > 0 {
      MarkedAt(list, es, k - 1, f, i);
    }
  }

  method SetNode(list: seq<RenderNode>, i: nat, n: Node)
    requires Distinct(list) && i < |list|
    modifies list[i]
    ensures Snap(list) == old(Snap(list))[i := n]
  {
    list[i].s := n;
  }

  /** Issue loads in the given order until a gate refuses one. */
  method Schedule(list: seq<RenderNode>, loads: seq<Entry>, before: Stats, l: Limits, virtualUsed: nat) returns (stats: Stats, issued: nat)
    requires Distinct(list) && IndicesOf(loads, |list|)
    modifies list
    ensures issued <= |loads| && Lets(before, Costs(old(Snap(list)), loads), l, virtualUsed, issued)
    ensures
      var costs := Costs(old(Snap(list)), loads);
      var after := AfterLoads(before, costs[..issued]);
      stats == if issued < |loads| then Refused(after, Decide(after, costs[issued], l, virtualUsed)) else after
    ensures Snap(list) == Marked(old(Snap(list)), loads, issued, SetLoading)
  {
    hide CpuBytes, GpuBytes, Decide, Admitted, AfterLoads, Marked, SetLoading;
    ghost var was := Snap(list);
    ghost var costs := Costs(was, loads);
    NoLoads(before, costs);
    MarkedNone(was, loads, SetLoading);
    stats, issued := before, 0;
    while issued < |loads|
      invariant issued <= |loads| && stats == AfterLoads(before, costs[..issued])
      invariant forall i :: 0 <= i < issued ==> Decide(AfterLoads(before, costs[..i]), costs[i], l, virtualUsed) == Admit
      invariant Snap(list) == Marked(was, loads, issued, SetLoading)
    {
      var index := loads[issued].index;
      MarkedAt(was, loads, issued, SetLoading, index);
      assert list[index].s == was[index];
      var cost := CostOf(list[index].s);
      AfterLoadsSnoc(before, costs, issued);
      var decision := Decide(stats, cost, l, virtualUsed);
      if decision != Admit {
        stats := Refused(stats, decision);
        return;
      }
      MarkedSnoc(was, loads, issued, SetLoading);
      SetNode(list, index, SetLoading(list[index].s));
      stats := Admitted(stats, cost);
      issued := issued + 1;
    }
    assert costs[..issued] == costs;
  }

  lemma NoLoads(s: Stats, costs: seq<Cost>)
    ensures AfterLoads(s, costs[..0]) == s
  {
  }

  /** The loads of a frame are a prefix of the candidates in order of distance, and once one is admitted
      everything on the GPU or bound for it fits the budget. The backlog stays within its cap, or the one
      load is the closest candidate, let through because nothing else was under way. */
  lemma {:induction false} AdmittedLoadsFit(s: Stats, costs: seq<Cost>, l: Limits, virtualUsed: nat, k: nat)
    requires 0 < k <= |costs|
    requires forall i :: 0 <= i < k ==> Decide(AfterLoads(s, costs[..i]), costs[i], l, virtualUsed) == Admit
    ensures
      var t := AfterLoads(s, costs[..k]);
      && t.used == s.used && t.inFlight == s.inFlight + k && t.scheduled == s.scheduled + k
      && t.used + virtualUsed + t.projected <= l.gpuBudget
      && t.inFlight <= l.maxConcurrent && t.scheduled <= l.maxNew
      && (t.backlog <= l.backlogCap || (k == 1 && PipelineEmpty(s, l) && t.backlog == l.deferred + costs[0].cpu))
    decreases k
  {
    AfterLoadsSnoc(s, costs, k - 1);
    if k == 1 {
      NoLoads(s, costs);
    } else {
      hide AfterLoads;
      AdmittedLoadsFit(s, costs, l, virtualUsed, k - 1);
    }
  }

  /** The closest candidate is never starved: with nothing under way and room on the GPU it is admitted,
      however large it is. */
  lemma ClosestIsNotStarved(s: Stats, costs: seq<Cost>, l: Limits, virtualUsed: nat, k: nat)
    requires Lets(s, costs, l, virtualUsed, k) && costs != [] && PipelineEmpty(s, l) && s.scheduled == 0
    requires l.maxConcurrent > 0 && l.maxNew > 0 && s.used + virtualUsed + s.projected + costs[0].gpu <= l.gpuBudget
    ensures k > 0
  {
    NoLoads(s, costs);
  }

  // ---- phase C ----------------------------------------------------------------------------------------

  function Total(bytes: seq<nat>): nat { if bytes == [] then 0 else Total(bytes[..|bytes| - 1]) + bytes[|bytes| - 1] }

  lemma TotalSnoc(bytes: seq<nat>, i: nat)
    requires i < |bytes|
    ensures Total(bytes[..i + 1]) == Total(bytes[..i]) + bytes[i]
  {
    assert bytes[..i + 1][..i] == bytes[..i];
  }

  predicate Uploads(sent: nat, used: nat, size: nat, l: Limits, virtualUsed: nat) {
    sent < l.maxUploadBytes && used + virtualUsed + size <= l.gpuBudget
  }

  /** `k` is how many of the uploads go through. */
  ghost predicate LetsUpload(used: nat, bytes: seq<nat>, l: Limits, virtualUsed: nat, k: nat) {
    && k <= |bytes|
    && (forall i :: 0 <= i < k ==> Uploads(Total(bytes[..i]), used + Total(bytes[..i]), bytes[i], l, virtualUsed))
    && (k < |bytes| ==> !Uploads(Total(bytes[..k]), used + Total(bytes[..k]), bytes[k], l, virtualUsed))
  }

  ghost function Sizes(list: seq<Node>, es: seq<Entry>): (r: seq<nat>)
    requires IndicesOf(es, |list|)
    ensures |r| == |es| && forall k :: 0 <= k < |es| ==> r[k] == list[es[k].index].gpuBytes
  {
    seq(|es|, k requires 0 <= k < |es| => list[es[k].index].gpuBytes)
  }

  method Upload(list: seq<RenderNode>, uploads: seq<Entry>, before: Stats, l: Limits, virtualUsed: nat) returns (stats: Stats, done: nat)
    requires Distinct(list) && IndicesOf(uploads, |list|)
    modifies list
    ensures done <= |uploads| && LetsUpload(before.used, Sizes(old(Snap(list)), uploads), l, virtualUsed, done)
    ensures stats == before.(used := before.used + Total(Sizes(old(Snap(list)), uploads)[..done]), uploads := before.uploads + done)
    ensures Snap(list) == Marked(old(Snap(list)), uploads, done, SetUploaded)
  {
    hide Total, SetUploaded, Uploads, Marked;
    ghost var was := Snap(list);
    ghost var sizes := Sizes(was, uploads);
    NoBytes(sizes);
    MarkedNone(was, uploads, SetUploaded);
    stats, done := before, 0;
    var sent := 0;
    while done < |uploads|
      invariant done <= |uploads| && sent == Total(sizes[..done])
      invariant stats == before.(used := before.used + sent, uploads := before.uploads + done)
      invariant forall i :: 0 <= i < done ==> Uploads(Total(sizes[..i]), before.used + Total(sizes[..i]), sizes[i], l, virtualUsed)
      invariant Snap(list) == Marked(was, uploads, done, SetUploaded)
    {
      var index := uploads[done].index;
      MarkedAt(was, uploads, done, SetUploaded, index);
      assert list[index].s == was[index];
      var size := list[index].s.gpuBytes;
      TotalSnoc(sizes, done);
      if !Uploads(sent, stats.used, size, l, virtualUsed) {
        return;
      }
      MarkedSnoc(was, uploads, done, SetUploaded);
      SetNode(list, index, SetUploaded(list[index].s));
      sent := sent + size;
      stats := stats.(used := stats.used + size, uploads := stats.uploads + 1);
      done := done + 1;
    }
    assert sizes[..done] == sizes;
  }

  lemma NoBytes(bytes: seq<nat>)
    ensures Total(bytes[..0]) == 0
  {
  }

  /** Uploads never carry real plus virtual memory past the budget. */
  lemma UploadsStayInBudget(used: nat, bytes: seq<nat>, l: Limits, virtualUsed: nat, k: nat)
    requires LetsUpload(used, bytes, l, virtualUsed, k)
    ensures k > 0 ==> used + Total(bytes[..k]) + virtualUsed <= l.gpuBudget
    ensures k > 0 ==> Total(bytes[..k - 1]) < l.maxUploadBytes
  {
    if k > 0 {
      TotalSnoc(bytes, k - 1);
    }
  }

  /** Nothing is decoded just to stall: when the projected bytes of all uploads fit beside what is used,
      only the per-frame transfer limit can hold an upload back. */
  lemma ProjectedUploadsAreNotRefused(used: nat, bytes: seq<nat>, l: Limits, virtualUsed: nat, k: nat)
    requires LetsUpload(used, bytes, l, virtualUsed, k) && used + virtualUsed + Total(bytes) <= l.gpuBudget
    ensures k == |bytes| || Total(bytes[..k]) >= l.maxUploadBytes
  {
    if k < |bytes| {
      TotalSnoc(bytes, k);
      TotalGrows(bytes, k + 1);
    }
  }

  lemma {:induction false} TotalGrows(bytes: seq<nat>, k: nat)
    requires k <= |bytes|
    ensures Total(bytes[..k]) <= Total(bytes)
    decreases |bytes|
  {
    if k < |bytes| {
      TotalGrows(bytes[..|bytes| - 1], k);
      assert bytes[..|bytes| - 1][..k] == bytes[..k];
    } else {
      assert bytes[..k] == bytes;
    }
  }

  // ---- the accounts balance -----------------------------------------------------------------------------

  lemma {:induction false} SumUpdate(list: seq<Node>, i: nat, x: Node, f: Node -> nat)
    requires i < |list|
    ensures Sum(list[i := x], f) + f(list[i]) == Sum(list, f) + f(x)
    decreases |list|
  {
    var n := |list| - 1;
    if i == n {
      assert list[i := x][..n] == list[..n];
    } else {
      assert list[i := x][..n] == list[..n][i := x];
      SumUpdate(list[..n], i, x, f);
    }
  }

  lemma UploadUses(n: Node)
    requires !n.uploaded
    ensures Used(SetUploaded(n)) == Used(n) + n.gpuBytes
  {
  }

  /** Uploading adds exactly the uploaded nodes' bytes. */
  lemma {:induction false} SumUploaded(list: seq<Node>, es: seq<Entry>, k: nat)
    requires IndicesOf(es, |list|) && k <= |es| && forall j :: 0 <= j < |es| ==> !list[es[j].index].uploaded
    ensures Sum(Marked(list, es, k, SetUploaded), Used) == Sum(list, Used) + Total(Sizes(list, es)[..k])
    decreases k
  {
    hide Sum, Total, Marked, Used, SetUploaded;
    if k == 0 {
      MarkedNone(list, es, SetUploaded);
      NoBytes(Sizes(list, es));
    } else {
      var r, i := Marked(list, es, k - 1, SetUploaded), es[k - 1].index;
      SumUploaded(list, es, k - 1);
      TotalSnoc(Sizes(list, es), k - 1);
      MarkedSnoc(list, es, k - 1, SetUploaded);
      MarkedAt(list, es, k - 1, SetUploaded, i);
      UploadUses(list[i]);
      SumUpdate(r, i, SetUploaded(r[i]), Used);
    }
  }

  /** So the memory really used stays within the reported use when every uploaded node's charge covers its
      transfer. */
  lemma {:induction false} ReportedUseCoversTransfers(list: seq<Node>, transferred: Node -> nat)
    requires forall i :: 0 <= i < |list| ==> transferred(list[i]) <= Used(list[i])
    ensures Sum(list, transferred) <= Sum(list, Used)
    decreases |list|
  {
    if list != [] {
      ReportedUseCoversTransfers(list[..|list| - 1], transferred);
    }
  }

  lemma {:induction false} SelectIsExact(list: seq<Node>, seen: seq<Seen>, want: Node -> bool)
    requires |seen| == |list|
    ensures
      var es := Select(list, seen, want);
      && IndicesOf(es, |list|)
      && (forall k :: 0 <= k < |es| ==> want(list[es[k].index]) && es[k].distance == seen[es[k].index].distance)
      && (forall i :: 0 <= i < |list| && want(list[i]) ==> Entry(i, seen[i].distance) in es)
    decreases |list|
  {
    if list != [] {
      SelectIsExact(list[..|list| - 1], seen[..|list| - 1], want);
    }
  }

  lemma CountTwice<T>(s: seq<T>, j: nat, k: nat)
    requires j < k < |s| && s[j] == s[k]
    ensures multiset(s)[s[j]] >= 2
  {
    assert s == s[..k] + ([s[k]] + s[k + 1..]);
    assert s[..k][j] in multiset(s[..k]);
  }

  lemma CountOnce<T>(s: seq<T>, i: nat)
    requires i < |s| && forall j :: 0 <= j < |s| && j != i ==> s[j] != s[i]
    ensures multiset(s)[s[i]] <= 1
  {
    assert s == s[..i] + ([s[i]] + s[i + 1..]);
    assert s[i] !in multiset(s[..i]) && s[i] !in multiset(s[i + 1..]);
  }

  /** Sorting keeps the entries apart. */
  lemma SortKeepsIndices(es: seq<Entry>, r: seq<Entry>, n: nat)
    requires IndicesOf(es, n) && multiset(r) == multiset(es)
    ensures IndicesOf(r, n) && forall k :: 0 <= k < |r| ==> r[k] in es
  {
    forall k | 0 <= k < |r|
      ensures r[k] in es && r[k].index < n
    {
      assert r[k] in multiset(r);
    }
    forall j, k | 0 <= j < k < |r|
      ensures r[j].index != r[k].index
    {
      if r[j].index == r[k].index {
        var x :| 0 <= x < |es| && es[x] == r[j];
        assert r[k] == es[x];
        CountTwice(r, j, k);
        CountOnce(es, x);
        assert false;
      }
    }
  }

  // ---- the whole pass ---------------------------------------------------------------------------------

  function ClassifiedAll(list: seq<Node>, seen: seq<Seen>): (r: seq<Node>)
    requires |seen| == |list|
    ensures |r| == |list| && forall i :: 0 <= i < |list| ==> r[i] == Classified(list[i], seen[i])
  {
    seq(|list|, i requires 0 <= i < |list| => Classified(list[i], seen[i]))
  }

  ghost predicate AllConsistent(list: seq<Node>) { forall i :: 0 <= i < |list| ==> Consistent(list[i]) }

  /** The outcome of a pass: which candidates were served, in which order. */
  datatype Pass = Pass(loads: seq<Entry>, issued: nat, uploads: seq<Entry>, done: nat)

  /** The candidates are exactly the nodes that want it, nearest first. */
  ghost predicate Candidates(es: seq<Entry>, list: seq<Node>, seen: seq<Seen>, want: Node -> bool)
    requires |seen| == |list|
  {
    IndicesOf(es, |list|) && ByDistance(es) && multiset(es) == multiset(Select(list, seen, want))
  }

  /** The same loads under way. */
  predicate SameLoad(a: Stats, b: Stats) {
    a.inFlight == b.inFlight && a.scheduled == b.scheduled && a.backlog == b.backlog && a.projected == b.projected
  }

  function Final(list: seq<Node>, p: Pass): seq<Node>
    requires p.issued <= |p.loads| && p.done <= |p.uploads|
    requires (forall k :: 0 <= k < |p.loads| ==> p.loads[k].index < |list|) && (forall k :: 0 <= k < |p.uploads| ==> p.uploads[k].index < |list|)
  {
    Marked(Marked(list, p.loads, p.issued, SetLoading), p.uploads, p.done, SetUploaded)
  }

  lemma {:induction false} SumSame(a: seq<Node>, b: seq<Node>, f: Node -> nat)
    requires |a| == |b| && forall i :: 0 <= i < |a| ==> f(a[i]) == f(b[i])
    ensures Sum(a, f) == Sum(b, f)
    decreases |a|
  {
    if a != [] {
      SumSame(a[..|a| - 1], b[..|b| - 1], f);
    }
  }

  /** What the pass does to the node at index i. */
  lemma FinalNode(was: seq<Node>, seen: seq<Seen>, p: Pass, i: nat)
    requires |seen| == |was| && Candidates(p.loads, was, seen, WantsLoad) && Candidates(p.uploads, was, seen, WantsUpload)
    requires p.issued <= |p.loads| && p.done <= |p.uploads| && i < |was|
    ensures
      var m := Classified(was[i], seen[i]);
      var r := Final(ClassifiedAll(was, seen), p)[i];
      r == m || (WantsLoad(was[i]) && r == SetLoading(m)) || (WantsUpload(was[i]) && r == SetUploaded(m))
  {
    hide Marked, Classified, WantsLoad, WantsUpload, SetLoading, SetUploaded, Select;
    var scanned := ClassifiedAll(was, seen);
    var scheduled := Marked(scanned, p.loads, p.issued, SetLoading);
    MarkedAt(scanned, p.loads, p.issued, SetLoading, i);
    MarkedAt(scheduled, p.uploads, p.done, SetUploaded, i);
    CandidateWants(p.loads, was, seen, WantsLoad);
    CandidateWants(p.uploads, was, seen, WantsUpload);
    NotBoth(was[i]);
  }

  lemma NotBoth(n: Node)
    ensures !(WantsLoad(n) && WantsUpload(n))
  {
  }

  lemma CandidateWants(es: seq<Entry>, list: seq<Node>, seen: seq<Seen>, want: Node -> bool)
    requires |seen| == |list| && Candidates(es, list, seen, want)
    ensures forall k :: 0 <= k < |es| ==> want(list[es[k].index])
  {
    SelectIsExact(list, seen, want);
    SortKeepsIndices(Select(list, seen, want), es, |list|);
  }

  /** The reported GPU use is what the nodes on the GPU really take, and nodes under way stay off it. */
  lemma AccountsBalance(was: seq<Node>, seen: seq<Seen>, p: Pass)
    requires |seen| == |was| && Candidates(p.loads, was, seen, WantsLoad) && Candidates(p.uploads, was, seen, WantsUpload)
    requires p.issued <= |p.loads| && p.done <= |p.uploads| && AllConsistent(was)
    ensures
      var scanned := ClassifiedAll(was, seen);
      && AllConsistent(Final(scanned, p))
      && Sum(Final(scanned, p), Used) == Sum(was, Used) + Total(Sizes(scanned, p.uploads)[..p.done])
  {
    hide Marked, Sum, Total, Select;
    var scanned := ClassifiedAll(was, seen);
    var scheduled := Marked(scanned, p.loads, p.issued, SetLoading);
    forall i | 0 <= i < |was|
      ensures Consistent(Final(scanned, p)[i])
    {
      FinalNode(was, seen, p, i);
    }
    CandidateWants(p.uploads, was, seen, WantsUpload);
    forall i | 0 <= i < |was|
      ensures Used(scheduled[i]) == Used(was[i]) && scheduled[i].uploaded == was[i].uploaded
    {
      MarkedAt(scanned, p.loads, p.issued, SetLoading, i);
    }
    SumSame(was, scheduled, Used);
    SumUploaded(scheduled, p.uploads, p.done);
    LoadsKeepSizes(scanned, p.loads, p.issued, p.uploads);
  }

  method ProcessIo(list: seq<RenderNode>, seen: seq<Seen>, l: Limits, virtualUsed: nat) returns (stats: Stats, p: Pass)
    requires Distinct(list) && |seen| == |list|
    modifies list
    ensures Candidates(p.loads, old(Snap(list)), seen, WantsLoad) && Candidates(p.uploads, old(Snap(list)), seen, WantsUpload)
    ensures
      var scanned := ClassifiedAll(old(Snap(list)), seen);
      && Lets(ScanStats(old(Snap(list)), seen, l.deferred), Costs(scanned, p.loads), l, virtualUsed, p.issued)
      && LetsUpload(Sum(old(Snap(list)), Used), Sizes(scanned, p.uploads), l, virtualUsed, p.done)
      && Snap(list) == Final(scanned, p)
      && stats.uploads == p.done
      && SameLoad(stats, AfterLoads(ScanStats(old(Snap(list)), seen, l.deferred), Costs(scanned, p.loads)[..p.issued]))
    ensures AllConsistent(old(Snap(list))) ==> AllConsistent(Snap(list)) && stats.used == Sum(Snap(list), Used)
  {
    hide Lets, LetsUpload, Select, Sum, Total, Marked, AfterLoads, Decide, CostOf, Classified, ByDistance, WantsLoad, WantsUpload,
         Sizes, Costs, ClassifiedAll, IndicesOf, AllConsistent, InFlight, CpuCharge, GpuCharge, Used, Refused;
    ghost var was := Snap(list);
    var loads, uploads;
    stats, loads, uploads := Scan(list, seen, l.deferred);
    ghost var scanned := ClassifiedAll(was, seen);
    assert Snap(list) == scanned;
    SelectIsExact(was, seen, WantsLoad);
    SelectIsExact(was, seen, WantsUpload);
    var sortedLoads := SortEntries(loads);
    SortKeepsIndices(loads, sortedLoads, |list|);
    var issued, done;
    stats, issued := Schedule(list, sortedLoads, stats, l, virtualUsed);
    RefusedKeepsLoad();
    var sortedUploads := SortEntries(uploads);
    SortKeepsIndices(uploads, sortedUploads, |list|);
    LoadsKeepSizes(scanned, sortedLoads, issued, sortedUploads);
    AfterLoadsUsed(ScanStats(was, seen, l.deferred), Costs(scanned, sortedLoads), issued);
    stats, done := Upload(list, sortedUploads, stats, l, virtualUsed);
    p := Pass(sortedLoads, issued, sortedUploads, done);
    if AllConsistent(was) {
      AccountsBalance(was, seen, p);
    }
  }

  lemma LoadsKeepSizes(list: seq<Node>, loads: seq<Entry>, k: nat, uploads: seq<Entry>)
    requires IndicesOf(loads, |list|) && IndicesOf(uploads, |list|) && k <= |loads|
    ensures Sizes(Marked(list, loads, k, SetLoading), uploads) == Sizes(list, uploads)
  {
    hide Marked;
    forall j | 0 <= j < |uploads|
      ensures Marked(list, loads, k, SetLoading)[uploads[j].index].gpuBytes == list[uploads[j].index].gpuBytes
    {
      MarkedAt(list, loads, k, SetLoading, uploads[j].index);
    }
  }

  lemma RefusedKeepsLoad()
    ensures forall s, d :: var r := Refused(s, d); SameLoad(r, s) && r.used == s.used && r.uploads == s.uploads
  {
  }

  lemma {:induction false} AfterLoadsUsed(s: Stats, costs: seq<Cost>, k: nat)
    requires k <= |costs|
    ensures AfterLoads(s, costs[..k]).used == s.used && AfterLoads(s, costs[..k]).uploads == s.uploads
    decreases k
  {
    if k > 0 {
      AfterLoadsSnoc(s, costs, k - 1);
      AfterLoadsUsed(s, costs, k - 1);
    }
  }

  /** The IO pass leaves keys and fades alone, and uploads no node that is fading out: on the list a merge
      has just built, a pass is one frame of the fading theorem. */
  lemma PassMakesAFrame(list: seq<Node>, ws: seq<Walker>, seen: seq<Seen>, p: Pass, delta: real, duration: real)
    requires delta >= 0.0 && |seen| == |NextList(ws, list, duration)|
    requires Candidates(p.loads, NextList(ws, list, duration), seen, WantsLoad)
    requires Candidates(p.uploads, NextList(ws, list, duration), seen, WantsUpload)
    requires p.issued <= |p.loads| && p.done <= |p.uploads|
    ensures FrameOf(list, Frame(ws, Final(ClassifiedAll(NextList(ws, list, duration), seen), p), delta), duration)
  {
    hide NextList, Marked, Select;
    var built := NextList(ws, list, duration);
    var io := Final(ClassifiedAll(built, seen), p);
    forall i | 0 <= i < |built|
      ensures IoKeeps(built[i], io[i])
    {
      FinalNode(built, seen, p, i);
      if built[i].fade == FadeOut {
        FadingNodesAreUploaded(ws, list, duration, i);
      }
    }
  }

  // ---- what is admitted can be uploaded -------------------------------------------------------------------

  /** The GPU bytes a node has or is going to have by the scheduler's account. */
  function Committed(n: Node): nat { Used(n) + GpuCharge(n) }

  /** A decoded node is charged no more than was estimated for it. */
  predicate Covered(n: Node) { n.io == Converting && n.convertDone && n.decoded.points > 0 ==> n.gpuBytes <= GpuBytes(n.walker.view) }

  ghost predicate AllCovered(list: seq<Node>) { forall i :: 0 <= i < |list| ==> Covered(list[i]) }

  lemma {:induction false} SumSplit(list: seq<Node>)
    ensures Sum(list, Committed) == Sum(list, Used) + Sum(list, GpuCharge)
    decreases |list|
  {
    hide Used, GpuCharge;
    if list != [] {
      SumSplit(list[..|list| - 1]);
    }
  }

  lemma {:induction false} SumAtMost(a: seq<Node>, b: seq<Node>, f: Node -> nat, g: Node -> nat)
    requires |a| == |b| && forall i :: 0 <= i < |a| ==> f(a[i]) <= g(b[i])
    ensures Sum(a, f) <= Sum(b, g)
    decreases |a|
  {
    if a != [] {
      SumAtMost(a[..|a| - 1], b[..|b| - 1], f, g);
    }
  }

  lemma ClassifyCommitsNothing(n: Node, e: Seen)
    requires Consistent(n) && Covered(n)
    ensures Committed(Classified(n, e)) <= Committed(n)
  {
    hide GpuBytes;
  }

  lemma ScanCommitsNothing(was: seq<Node>, seen: seq<Seen>)
    requires |seen| == |was| && AllConsistent(was) && AllCovered(was)
    ensures Sum(ClassifiedAll(was, seen), Committed) <= Sum(was, Committed)
  {
    hide Sum, Committed, Consistent, Covered, Classified;
    forall i | 0 <= i < |was|
      ensures Committed(ClassifiedAll(was, seen)[i]) <= Committed(was[i])
    {
      ClassifyCommitsNothing(was[i], seen[i]);
    }
    SumAtMost(ClassifiedAll(was, seen), was, Committed, Committed);
  }

  function TotalGpu(costs: seq<Cost>): nat { if costs == [] then 0 else TotalGpu(costs[..|costs| - 1]) + costs[|costs| - 1].gpu }

  lemma {:induction false} AfterLoadsProjected(s: Stats, costs: seq<Cost>)
    ensures AfterLoads(s, costs).projected == s.projected + TotalGpu(costs) && AfterLoads(s, costs).used == s.used
    decreases |costs|
  {
    if costs != [] {
      AfterLoadsProjected(s, costs[..|costs| - 1]);
    }
  }

  lemma TotalGpuSnoc(costs: seq<Cost>, i: nat)
    requires i < |costs|
    ensures TotalGpu(costs[..i + 1]) == TotalGpu(costs[..i]) + costs[i].gpu
  {
    assert costs[..i + 1][..i] == costs[..i];
  }

  /** A node about to be loaded has nothing committed yet. */
  predicate Blank(n: Node) { n.io == NoIo && !n.uploaded }

  lemma LoadCommitsItsCost(n: Node)
    requires Blank(n)
    ensures Committed(SetLoading(n)) == Committed(n) + CostOf(n).gpu
  {
    hide GpuBytes, CpuBytes;
  }

  lemma UploadCommitsNothing(n: Node)
    requires Waiting(n)
    ensures Committed(SetUploaded(n)) == Committed(n)
  {
    hide GpuBytes;
  }

  lemma {:induction false} LoadsCommitTheirCosts(list: seq<Node>, es: seq<Entry>, k: nat)
    requires IndicesOf(es, |list|) && k <= |es| && forall j :: 0 <= j < |es| ==> Blank(list[es[j].index])
    ensures Sum(Marked(list, es, k, SetLoading), Committed) == Sum(list, Committed) + TotalGpu(Costs(list, es)[..k])
    decreases k
  {
    hide Sum, TotalGpu, Marked, Committed, SetLoading, Blank, CostOf;
    if k == 0 {
      MarkedNone(list, es, SetLoading);
      NoGpu(Costs(list, es));
    } else {
      var r, i := Marked(list, es, k - 1, SetLoading), es[k - 1].index;
      LoadsCommitTheirCosts(list, es, k - 1);
      TotalGpuSnoc(Costs(list, es), k - 1);
      MarkedSnoc(list, es, k - 1, SetLoading);
      MarkedAt(list, es, k - 1, SetLoading, i);
      LoadCommitsItsCost(list[i]);
      SumUpdate(r, i, SetLoading(r[i]), Committed);
    }
  }

  lemma {:induction false} UploadsCommitNothing(list: seq<Node>, es: seq<Entry>, k: nat)
    requires IndicesOf(es, |list|) && k <= |es| && forall j :: 0 <= j < |es| ==> Waiting(list[es[j].index])
    ensures Sum(Marked(list, es, k, SetUploaded), Committed) == Sum(list, Committed)
    decreases k
  {
    hide Sum, Marked, Committed, SetUploaded, Waiting;
    if k == 0 {
      MarkedNone(list, es, SetUploaded);
    } else {
      var r, i := Marked(list, es, k - 1, SetUploaded), es[k - 1].index;
      UploadsCommitNothing(list, es, k - 1);
      MarkedSnoc(list, es, k - 1, SetUploaded);
      MarkedAt(list, es, k - 1, SetUploaded, i);
      UploadCommitsNothing(list[i]);
      SumUpdate(r, i, SetUploaded(r[i]), Committed);
    }
  }

  /** One pass over a list, with the virtual nodes' use at its time. */
  datatype Round = Round(was: seq<Node>, seen: seq<Seen>, p: Pass, virtualUsed: nat)

  ghost predicate RoundOf(r: Round, l: Limits) {
    && |r.seen| == |r.was| && AllConsistent(r.was) && AllCovered(r.was)
    && Candidates(r.p.loads, r.was, r.seen, WantsLoad) && Candidates(r.p.uploads, r.was, r.seen, WantsUpload)
    && r.p.issued <= |r.p.loads| && r.p.done <= |r.p.uploads|
    && Lets(ScanStats(r.was, r.seen, l.deferred), Costs(ClassifiedAll(r.was, r.seen), r.p.loads), l, r.virtualUsed, r.p.issued)
    && LetsUpload(Sum(r.was, Used), Sizes(ClassifiedAll(r.was, r.seen), r.p.uploads), l, r.virtualUsed, r.p.done)
  }

  ghost predicate Fits(r: Round, l: Limits) { Sum(r.was, Committed) + r.virtualUsed <= l.gpuBudget }

  function After(r: Round): seq<Node>
    requires |r.seen| == |r.was| && r.p.issued <= |r.p.loads| && r.p.done <= |r.p.uploads|
    requires (forall k :: 0 <= k < |r.p.loads| ==> r.p.loads[k].index < |r.was|) && (forall k :: 0 <= k < |r.p.uploads| ==> r.p.uploads[k].index < |r.was|)
  {
    Final(ClassifiedAll(r.was, r.seen), r.p)
  }

  /** Scanned and scheduled, the upload candidates wait for their upload. */
  lemma CandidatesWait(r: Round, l: Limits)
    requires RoundOf(r, l)
    ensures
      var scanned := ClassifiedAll(r.was, r.seen);
      && (forall j :: 0 <= j < |r.p.loads| ==> Blank(scanned[r.p.loads[j].index]))
      && (forall j :: 0 <= j < |r.p.uploads| ==> Waiting(scanned[r.p.uploads[j].index]))
      && (forall j :: 0 <= j < |r.p.uploads| ==>
            Waiting(Marked(scanned, r.p.loads, r.p.issued, SetLoading)[r.p.uploads[j].index]))
  {
    hide Marked, Sum, Lets, LetsUpload, Select, GpuBytes, CpuBytes;
    var scanned := ClassifiedAll(r.was, r.seen);
    CandidateWants(r.p.loads, r.was, r.seen, WantsLoad);
    CandidateWants(r.p.uploads, r.was, r.seen, WantsUpload);
    forall j | 0 <= j < |r.p.uploads|
      ensures Waiting(scanned[r.p.uploads[j].index])
      ensures Waiting(Marked(scanned, r.p.loads, r.p.issued, SetLoading)[r.p.uploads[j].index])
    {
      var i := r.p.uploads[j].index;
      assert WantsUpload(r.was[i]) && Consistent(r.was[i]);
      MarkedAt(scanned, r.p.loads, r.p.issued, SetLoading, i);
      NotBoth(r.was[i]);
    }
  }

  /** Whatever a pass admits fits: after it the commitments are within the budget if they were before, and in
      any case if it issued a load. */
  lemma PassKeepsCommitments(r: Round, l: Limits)
    requires RoundOf(r, l) && (Fits(r, l) || r.p.issued > 0)
    ensures Sum(After(r), Committed) + r.virtualUsed <= l.gpuBudget
  {
    CandidatesWait(r, l);
    hide Marked, Sum, Select, TotalGpu, AfterLoads, Classified, CostOf, Waiting, Blank, Decide;
    var scanned := ClassifiedAll(r.was, r.seen);
    var costs, s := Costs(scanned, r.p.loads), ScanStats(r.was, r.seen, l.deferred);
    ScanCommitsNothing(r.was, r.seen);
    LoadsCommitTheirCosts(scanned, r.p.loads, r.p.issued);
    UploadsCommitNothing(Marked(scanned, r.p.loads, r.p.issued, SetLoading), r.p.uploads, r.p.done);
    SumSplit(r.was);
    if r.p.issued > 0 {
      AdmittedLoadsFit(s, costs, l, r.virtualUsed, r.p.issued);
      AfterLoadsProjected(s, costs[..r.p.issued]);
    } else {
      NoGpu(costs);
    }
  }

  lemma NoGpu(costs: seq<Cost>)
    ensures TotalGpu(costs[..0]) == 0
  {
  }

  /** When the commitments fit, the budget refuses no upload: only the per-frame transfer limit can. */
  lemma CommittedUploadsAreNotRefused(r: Round, l: Limits)
    requires RoundOf(r, l) && Fits(r, l)
    ensures
      var sizes := Sizes(ClassifiedAll(r.was, r.seen), r.p.uploads);
      r.p.done == |sizes| || Total(sizes[..r.p.done]) >= l.maxUploadBytes
  {
    CandidatesWait(r, l);
    var scanned := ClassifiedAll(r.was, r.seen);
    var sizes, n := Sizes(scanned, r.p.uploads), |r.p.uploads|;
    forall j | 0 <= j < n
      ensures !scanned[r.p.uploads[j].index].uploaded
    {
      assert Waiting(scanned[r.p.uploads[j].index]);
    }
    UsedIsKept(r.was, r.seen);
    hide Marked, Sum, Select, Total, Classified, Waiting, Blank, Lets, LetsUpload, Used, GpuCharge;
    ScanCommitsNothing(r.was, r.seen);
    UploadsCommitNothing(scanned, r.p.uploads, n);
    SumUploaded(scanned, r.p.uploads, n);
    var all := Marked(scanned, r.p.uploads, n, SetUploaded);
    SumSplit(all);
    assert sizes[..n] == sizes;
    ProjectedUploadsAreNotRefused(Sum(r.was, Used), sizes, l, r.virtualUsed, r.p.done);
  }

  lemma UsedIsKept(was: seq<Node>, seen: seq<Seen>)
    requires |seen| == |was|
    ensures Sum(ClassifiedAll(was, seen), Used) == Sum(was, Used)
  {
    SumSame(was, ClassifiedAll(was, seen), Used);
  }

  /** A run of passes. Between two of them finished decodes, departures and the virtual nodes may change the
      list, but commit nothing: that is the schedule's alone. */
  ghost predicate RoundsOf(rs: seq<Round>, l: Limits) {
    && (forall i :: 0 <= i < |rs| ==> RoundOf(rs[i], l))
    && (forall i :: 0 < i < |rs| ==>
          Sum(rs[i].was, Committed) + rs[i].virtualUsed <= Sum(After(rs[i - 1]), Committed) + rs[i - 1].virtualUsed)
  }

  /** NOTHING IS DECODED JUST TO STALL. Once a load has been admitted, or everything fits to begin with, no
      later pass of the run refuses an upload for the budget, as long as decoded nodes are charged no more
      than was estimated. */
  lemma {:induction false} AdmittedLoadsAreUploaded(rs: seq<Round>, l: Limits, i: nat)
    requires RoundsOf(rs, l) && 0 < i < |rs| && (Fits(rs[0], l) || rs[0].p.issued > 0)
    ensures
      var sizes := Sizes(ClassifiedAll(rs[i].was, rs[i].seen), rs[i].p.uploads);
      && Fits(rs[i], l)
      && (rs[i].p.done == |sizes| || Total(sizes[..rs[i].p.done]) >= l.maxUploadBytes)
    decreases i
  {
    hide RoundOf, Sum, Total, After;
    assert RoundOf(rs[i - 1], l) && RoundOf(rs[i], l);
    if i > 1 {
      AdmittedLoadsAreUploaded(rs, l, i - 1);
    }
    PassKeepsCommitments(rs[i - 1], l);
    CommittedUploadsAreNotRefused(rs[i], l);
  }
}
