/** Assembling a region request's result: the selected nodes are read in batches, each node is decoded
    and clipped on its own, and the parts are appended in walk order. */
module RegionResult {
  import opened Bytes
  import opened RegionWalk
  import opened PointClip
  import Morton
  import PointPacking

  // ---- what storage holds for a selected node -------------------------------------------------------

  datatype Fetched = NoBlob | BlobError | Blob(bytes: seq<byte>)

  /** A requested attribute at one node: not among the node's attributes, or stored with some stride. */
  datatype Column = Lacking | Carried(stride: nat, fetched: Fetched)

  /** An error has a code other than zero. */
  type ErrorCode = c: int | c != 0 witness 1

  /** Slot 0. A unit whose point format is unknown still says how many points it has. */
  datatype Slot = NoSlot | ReadError(code: ErrorCode) | SplitError(code: ErrorCode) | BadFormat(total: nat) | Unit(header: Header, codes: seq<nat>)

  datatype Selected = Selected(node: Node, resident: bool, slot: Slot, columns: seq<Column>)
  {
    function Column(a: nat): Column { if a < |columns| then columns[a] else Lacking }
    function Offset(): nat { node.subset.offset }
    function Count(): nat { node.subset.count }
  }

  datatype Job = Job(format: Format, config: Config, box: Box, clip: bool, whole: bool)

  // ---- one node -------------------------------------------------------------------------------------

  /** The stride of attribute `a`: that of the first selected node that carries it, zero if none does. */
  function StrideOf(nodes: seq<Selected>, a: nat): nat {
    if nodes == [] then 0
    else if nodes[0].Column(a).Carried? then nodes[0].Column(a).stride
    else StrideOf(nodes[1..], a)
  }

  function Strides(nodes: seq<Selected>, attributes: nat): (r: seq<nat>)
    ensures |r| == attributes && forall a :: 0 <= a < attributes ==> r[a] == StrideOf(nodes, a)
  {
    seq(attributes, a requires a >= 0 => StrideOf(nodes, a))
  }

  predicate Available(c: Column, stride: nat, offset: nat, count: nat) {
    c.Carried? && c.fetched.Blob? && (offset + count) * stride <= |c.fetched.bytes|
  }

  lemma RangeFits(offset: nat, count: nat, stride: nat)
    ensures 0 <= offset * stride <= offset * stride + count * stride == (offset + count) * stride
  {
  }

  /** A node's values of one attribute before clipping; zeros where it has none. */
  function Staged(c: Column, stride: nat, offset: nat, count: nat): (r: seq<byte>)
    ensures |r| == count * stride
  {
    RangeFits(offset, count, stride);
    if Available(c, stride, offset, count) then c.fetched.bytes[offset * stride..offset * stride + count * stride]
    else Zeros(count * stride)
  }

  predicate Clips(job: Job, n: Node) { job.clip && !job.whole && !n.fullyInside }

  /** A node whose points can be read at all. */
  predicate Issued(n: Selected) { n.Count() != 0 && n.resident && !n.slot.NoSlot? }

  predicate Readable(n: Selected) { Issued(n) && n.slot.Unit? && n.Offset() + n.Count() <= |n.slot.codes| }

  /** A node's points before clipping. */
  function Points(job: Job, n: Selected): (r: seq<Position>)
    ensures |r| == if Readable(n) then n.Count() else 0
  {
    if !Readable(n) then [] else Decoded(n.slot.header, n.slot.codes[n.Offset()..n.Offset() + n.Count()], job.format, job.config)
  }

  function WorldOrigin(job: Job, n: Selected): Vec {
    if !Readable(n) then job.config.offset else ToWorld(Origin(n.slot.header), job.config)
  }

  function UpTo(n: nat): (r: seq<nat>)
    ensures |r| == n && forall k :: 0 <= k < n ==> r[k] == k
  {
    seq(n, k requires k >= 0 => k)
  }

  /** The points of a node that reach the result. */
  function Picked(job: Job, n: Selected): (r: seq<nat>)
    ensures |r| <= |Points(job, n)| <= n.Count() && forall k :: 0 <= k < |r| ==> r[k] < |Points(job, n)|
  {
    var points := Points(job, n);
    if Clips(job, n.node) then Kept(points, |points|, WorldOrigin(job, n), job.config.scale, job.box)
    else UpTo(|points|)
  }

  datatype Share = Nothing | Fault(code: int) | Part(origin: Vec, positions: seq<Position>, columns: seq<seq<byte>>)

  function StagedRows(n: Selected, a: nat, stride: nat): (r: seq<seq<byte>>)
    ensures |r| == n.Count() && Sized(r, stride)
  {
    Rows(Staged(n.Column(a), stride, n.Offset(), n.Count()), n.Count(), stride)
  }

  function ColumnPart(job: Job, n: Selected, a: nat, stride: nat): seq<byte> {
    Flatten(Gather(StagedRows(n, a, stride), Picked(job, n)))
  }

  function ColumnParts(job: Job, strides: seq<nat>, n: Selected): (r: seq<seq<byte>>)
    ensures |r| == |strides| && forall a :: 0 <= a < |strides| ==> r[a] == ColumnPart(job, n, a, strides[a])
  {
    seq(|strides|, a requires 0 <= a < |strides| => ColumnPart(job, n, a, strides[a]))
  }

  /** What one node contributes: decode, then clip. */
  function ShareOf(job: Job, strides: seq<nat>, n: Selected): Share {
    if !Issued(n) then Nothing
    else match n.slot
      case ReadError(code) => Fault(code)
      case SplitError(code) => Fault(code)
      case BadFormat(total) => if n.Offset() + n.Count() > total then Nothing else Fault(1)
      case NoSlot => Nothing
      case Unit(_, _) =>
        if !Readable(n) then Nothing
        else Part(WorldOrigin(job, n), Gather(Points(job, n), Picked(job, n)), ColumnParts(job, strides, n))
  }

  // ---- the result -----------------------------------------------------------------------------------

  datatype Entry = Entry(node: Node, first: nat, count: nat, origin: Vec)
  datatype Output = Output(positions: seq<Position>, columns: seq<seq<byte>>, table: seq<Entry>, count: nat)

  datatype Outcome = Done(out: Output) | Faulted(code: int, out: Output)

  function Empty(attributes: nat): Output { Output([], seq(attributes, _ => []), [], 0) }

  function Joined(a: seq<seq<byte>>, b: seq<seq<byte>>): (r: seq<seq<byte>>)
    ensures |r| == |a| && forall k :: 0 <= k < |a| ==> r[k] == if k < |b| then a[k] + b[k] else a[k]
  {
    seq(|a|, k requires 0 <= k < |a| => if k < |b| then a[k] + b[k] else a[k])
  }

  function Append(out: Output, n: Node, part: Share): Output
    requires part.Part?
  {
    Output(out.positions + part.positions, Joined(out.columns, part.columns),
           out.table + [Entry(n, out.count, |part.positions|, part.origin)], out.count + |part.positions|)
  }

  function Step(job: Job, strides: seq<nat>, acc: Outcome, n: Selected): Outcome {
    if acc.Faulted? then acc
    else match ShareOf(job, strides, n)
      case Nothing => acc
      case Fault(code) => Faulted(code, acc.out)
      case Part(o, ps, cs) => if ps == [] then acc else Done(Append(acc.out, n.node, Part(o, ps, cs)))
  }

  /** Node after node, in walk order. */
  function Fold(job: Job, strides: seq<nat>, acc: Outcome, nodes: seq<Selected>): Outcome
    decreases |nodes|
  {
    if nodes == [] then acc else Fold(job, strides, Step(job, strides, acc, nodes[0]), nodes[1..])
  }

  function Assemble(job: Job, attributes: nat, nodes: seq<Selected>): Outcome {
    Fold(job, Strides(nodes, attributes), Done(Empty(attributes)), nodes)
  }

  lemma {:induction false} FoldAppend(job: Job, strides: seq<nat>, acc: Outcome, a: seq<Selected>, b: seq<Selected>)
    ensures Fold(job, strides, acc, a + b) == Fold(job, strides, Fold(job, strides, acc, a), b)
    decreases |a|
  {
    hide Step;
    if a == [] {
      assert a + b == b;
    } else {
      assert (a + b)[1..] == a[1..] + b;
      FoldAppend(job, strides, Step(job, strides, acc, a[0]), a[1..], b);
    }
  }

  lemma FoldSnoc(job: Job, strides: seq<nat>, acc: Outcome, a: seq<Selected>, n: Selected)
    ensures Fold(job, strides, acc, a + [n]) == Step(job, strides, Fold(job, strides, acc, a), n)
  {
    hide Step;
    FoldAppend(job, strides, acc, a, [n]);
    assert [n][1..] == [];
  }

  lemma {:induction false} FoldFaulted(job: Job, strides: seq<nat>, acc: Outcome, nodes: seq<Selected>)
    requires acc.Faulted?
    ensures Fold(job, strides, acc, nodes) == acc
    decreases |nodes|
  {
    if nodes != [] {
      FoldFaulted(job, strides, acc, nodes[1..]);
    }
  }

  // ---- what the result means ------------------------------------------------------------------------

  /** One stored point: a selected node and an index into its subset. */
  datatype Source = Source(n: Selected, i: nat)

  function PointAt(job: Job, p: Source): Position {
    if p.i < |Points(job, p.n)| then Points(job, p.n)[p.i] else Absolute(Vec(0.0, 0.0, 0.0))
  }

  function ValueAt(p: Source, a: nat, stride: nat): (v: seq<byte>)
    ensures |v| == stride
  {
    if p.i < p.n.Count() then StagedRows(p.n, a, stride)[p.i] else Zeros(stride)
  }

  /** The stored points a node gives, in order. */
  function SourcesOf(job: Job, n: Selected): (r: seq<Source>)
    ensures |r| == |Picked(job, n)| && forall k :: 0 <= k < |r| ==> r[k] == Source(n, Picked(job, n)[k])
  {
    var idx := Picked(job, n);
    seq(|idx|, k requires 0 <= k < |idx| => Source(n, idx[k]))
  }

  /** The stored points of the whole result: the nodes' points, one node after the other. */
  function Sources(job: Job, nodes: seq<Selected>): seq<Source> {
    if nodes == [] then [] else Sources(job, nodes[..|nodes| - 1]) + SourcesOf(job, nodes[|nodes| - 1])
  }

  function PositionsAt(job: Job, src: seq<Source>): (r: seq<Position>)
    ensures |r| == |src| && forall k :: 0 <= k < |src| ==> r[k] == PointAt(job, src[k])
  {
    seq(|src|, k requires 0 <= k < |src| => PointAt(job, src[k]))
  }

  function ValuesAt(src: seq<Source>, a: nat, stride: nat): (r: seq<seq<byte>>)
    ensures |r| == |src| && Sized(r, stride) && forall k :: 0 <= k < |src| ==> r[k] == ValueAt(src[k], a, stride)
  {
    seq(|src|, k requires 0 <= k < |src| => ValueAt(src[k], a, stride))
  }

  /** Position k and value k of every attribute belong to the k-th source point, and nothing else is in
      the buffers. */
  ghost predicate Traces(job: Job, strides: seq<nat>, out: Output, src: seq<Source>)
  {
    && out.count == |src|
    && out.positions == PositionsAt(job, src)
    && |out.columns| == |strides|
    && (forall a :: 0 <= a < |strides| ==> out.columns[a] == Flatten(ValuesAt(src, a, strides[a])))
  }

  /** The table's entries lie end to end from 0 to `count`, none empty. */
  ghost predicate Tiles(table: seq<Entry>, count: nat) {
    && (table == [] ==> count == 0)
    && (table != [] ==> table[0].first == 0 && table[|table| - 1].first + table[|table| - 1].count == count)
    && (forall k :: 0 <= k < |table| ==> table[k].count > 0)
    && (forall k :: 0 < k < |table| ==> table[k - 1].first + table[k - 1].count == table[k].first)
  }

  /** Every table entry names the node of the points it covers and the origin they were decoded against. */
  ghost predicate Places(job: Job, table: seq<Entry>, src: seq<Source>) {
    forall j :: 0 <= j < |table| ==>
      && table[j].first + table[j].count <= |src|
      && forall k :: table[j].first <= k < table[j].first + table[j].count ==> Covers(job, table[j], src[k])
  }

  predicate Covers(job: Job, e: Entry, p: Source) {
    e.node == p.n.node && p.n.slot.Unit? && e.origin == ToWorld(Origin(p.n.slot.header), job.config)
  }

  lemma ShareCovers(job: Job, strides: seq<nat>, n: Selected)
    ensures
      var share := ShareOf(job, strides, n);
      share.Part? ==> forall e: Entry, p: Source :: e.node == n.node && e.origin == share.origin && p.n == n ==> Covers(job, e, p)
  {
    hide Points, Picked, StagedRows, Flatten, Gather;
  }

  lemma AppendPlaces(job: Job, out: Output, src: seq<Source>, n: Selected, part: Share, more: seq<Source>)
    requires part.Part? && out.count == |src| && |part.positions| == |more| && Places(job, out.table, src)
    requires forall k :: 0 <= k < |more| ==> more[k].n == n
    requires forall e: Entry, p: Source :: e.node == n.node && e.origin == part.origin && p.n == n ==> Covers(job, e, p)
    ensures Places(job, Append(out, n.node, part).table, src + more)
  {
    hide Covers, Joined;
    var table, all := Append(out, n.node, part).table, src + more;
    forall j | 0 <= j < |table|
      ensures table[j].first + table[j].count <= |all|
      ensures forall k :: table[j].first <= k < table[j].first + table[j].count ==> Covers(job, table[j], all[k])
    {
      if j < |out.table| {
        assert table[j] == out.table[j];
      }
    }
  }

  lemma ShareTraces(job: Job, strides: seq<nat>, n: Selected)
    ensures
      var src, share := SourcesOf(job, n), ShareOf(job, strides, n);
      && (!share.Part? ==> src == [])
      && (share.Part? ==>
            && share.positions == PositionsAt(job, src)
            && |share.columns| == |strides|
            && forall a :: 0 <= a < |strides| ==> share.columns[a] == Flatten(ValuesAt(src, a, strides[a])))
  {
    hide Points, Picked, StagedRows, Flatten;
    var src, share := SourcesOf(job, n), ShareOf(job, strides, n);
    if share.Part? {
      var idx := Picked(job, n);
      assert share.positions == PositionsAt(job, src);
      forall a | 0 <= a < |strides|
        ensures share.columns[a] == Flatten(ValuesAt(src, a, strides[a]))
      {
        assert Gather(StagedRows(n, a, strides[a]), idx) == ValuesAt(src, a, strides[a]);
      }
    }
  }

  lemma AppendTraces(job: Job, strides: seq<nat>, out: Output, src: seq<Source>, n: Node, part: Share, more: seq<Source>)
    requires Traces(job, strides, out, src) && part.Part? && part.positions == PositionsAt(job, more) && |part.columns| == |strides|
    requires forall a :: 0 <= a < |strides| ==> part.columns[a] == Flatten(ValuesAt(more, a, strides[a]))
    ensures Traces(job, strides, Append(out, n, part), src + more)
  {
    hide PointAt, ValueAt, Flatten;
    var both := src + more;
    assert PositionsAt(job, both) == PositionsAt(job, src) + PositionsAt(job, more);
    forall a | 0 <= a < |strides|
      ensures Append(out, n, part).columns[a] == Flatten(ValuesAt(both, a, strides[a]))
    {
      assert ValuesAt(both, a, strides[a]) == ValuesAt(src, a, strides[a]) + ValuesAt(more, a, strides[a]);
      FlattenAppend(ValuesAt(src, a, strides[a]), ValuesAt(more, a, strides[a]));
    }
  }

  lemma AppendTiles(out: Output, n: Node, part: Share)
    requires part.Part? && part.positions != [] && Tiles(out.table, out.count)
    ensures Tiles(Append(out, n, part).table, Append(out, n, part).count)
  {
  }

  /** The positions and attributes are the sources', and the table tiles and places them. */
  ghost predicate Holds(job: Job, strides: seq<nat>, out: Output, src: seq<Source>) {
    Traces(job, strides, out, src) && Tiles(out.table, out.count) && Places(job, out.table, src)
  }

  lemma StepHolds(job: Job, strides: seq<nat>, acc: Outcome, src: seq<Source>, n: Selected)
    requires acc.Done? && Holds(job, strides, acc.out, src)
    ensures
      var r := Step(job, strides, acc, n);
      && (r.Faulted? <==> Breaks(n))
      && (r.Faulted? ==> r == Faulted(BreakCode(n), acc.out))
      && (r.Done? ==> Holds(job, strides, r.out, src + SourcesOf(job, n)))
  {
    hide SourcesOf, ShareOf, Traces, Tiles, Append, PositionsAt, ValuesAt, Places, Covers, Breaks;
    ShareTraces(job, strides, n);
    ShareCovers(job, strides, n);
    ShareBreaks(job, strides, n);
    var share, more := ShareOf(job, strides, n), SourcesOf(job, n);
    if share.Part? && share.positions != [] {
      AppendTraces(job, strides, acc.out, src, n.node, share, more);
      AppendTiles(acc.out, n.node, share);
      AppendHas(job, strides, acc.out, src, n, share, more);
    } else {
      assert src + [] == src;
    }
  }

  lemma AppendHas(job: Job, strides: seq<nat>, out: Output, src: seq<Source>, n: Selected, part: Share, more: seq<Source>)
    requires part.Part? && Traces(job, strides, out, src) && part.positions == PositionsAt(job, more) && Places(job, out.table, src)
    requires more == SourcesOf(job, n)
    requires forall e: Entry, p: Source :: e.node == n.node && e.origin == part.origin && p.n == n ==> Covers(job, e, p)
    ensures Places(job, Append(out, n.node, part).table, src + more)
  {
    hide Covers, Places, Append, Picked;
    AppendPlaces(job, out, src, n, part, more);
  }

  // ---- when the assembly fails ------------------------------------------------------------------------

  /** A node that has points to give and a slot that cannot be used: its read failed, its header cannot be
      split off, or its points lie inside a unit of an unknown format. */
  predicate Breaks(n: Selected) {
    && n.Count() > 0 && n.resident
    && match n.slot
       case ReadError(_) => true
       case SplitError(_) => true
       case BadFormat(total) => n.Offset() + n.Count() <= total
       case NoSlot => false
       case Unit(_, _) => false
  }

  /** The error it is reported with. */
  function BreakCode(n: Selected): int {
    match n.slot
    case ReadError(code) => code
    case SplitError(code) => code
    case _ => 1
  }

  lemma ShareBreaks(job: Job, strides: seq<nat>, n: Selected)
    ensures var share := ShareOf(job, strides, n); (share.Fault? <==> Breaks(n)) && (share.Fault? ==> share.code == BreakCode(n))
  {
    hide Points, Picked, StagedRows, Flatten, Gather;
  }

  /** A request fails exactly when some selected node's slot cannot be used. */
  lemma AssemblyFailsExactly(job: Job, attributes: nat, nodes: seq<Selected>)
    ensures Assemble(job, attributes, nodes).Faulted? <==> exists k :: 0 <= k < |nodes| && Breaks(nodes[k])
  {
    hide Fold, Breaks, Holds;
    AssemblyTraces(job, Strides(nodes, attributes), nodes);
  }

  /** It fails with the error of the first such node, and what it holds then are the nodes before that one. */
  lemma FirstBreakIsReported(job: Job, attributes: nat, nodes: seq<Selected>, k: nat)
    requires k < |nodes| && Breaks(nodes[k]) && forall j :: 0 <= j < k ==> !Breaks(nodes[j])
    ensures
      var r := Assemble(job, attributes, nodes);
      && r.Faulted? && r.code == BreakCode(nodes[k])
      && Holds(job, Strides(nodes, attributes), r.out, Sources(job, nodes[..k]))
  {
    hide Fold, Step, Breaks, BreakCode, Holds, Sources, StrideOf;
    var strides, none, front := Strides(nodes, attributes), Done(Empty(attributes)), nodes[..k];
    AssemblyTraces(job, strides, front);
    assert nodes[..k + 1] == front + [nodes[k]];
    FoldSnoc(job, strides, none, front, nodes[k]);
    StepHolds(job, strides, Fold(job, strides, none, front), Sources(job, front), nodes[k]);
    FoldStops(job, strides, none, nodes, k + 1);
  }

  /** The assembly fails exactly when some node's slot cannot be used. When it succeeds, the buffers hold
      exactly the nodes' points in walk order, positions and attributes in step, and the node table tiles
      them and names the node and the origin of each. */
  lemma {:induction false} AssemblyTraces(job: Job, strides: seq<nat>, nodes: seq<Selected>)
    ensures
      var r := Fold(job, strides, Done(Empty(|strides|)), nodes);
      && (r.Done? <==> forall k :: 0 <= k < |nodes| ==> !Breaks(nodes[k]))
      && (r.Done? ==> Holds(job, strides, r.out, Sources(job, nodes)))
    decreases |nodes|
  {
    hide *;
    var none := Done(Empty(|strides|));
    if nodes == [] {
      EmptyTraces(job, strides);
    } else {
      var init, n := nodes[..|nodes| - 1], nodes[|nodes| - 1];
      AssemblyTraces(job, strides, init);
      assert nodes == init + [n];
      FoldSnoc(job, strides, none, init, n);
      SourcesSnoc(job, nodes);
      assert forall k :: 0 <= k < |init| ==> nodes[k] == init[k];
      var acc := Fold(job, strides, none, init);
      if acc.Faulted? {
        StepFaulted(job, strides, acc, n);
      } else {
        StepHolds(job, strides, acc, Sources(job, init), n);
      }
    }
  }

  lemma EmptyTraces(job: Job, strides: seq<nat>)
    ensures
      var r := Fold(job, strides, Done(Empty(|strides|)), []);
      r.Done? && Holds(job, strides, r.out, Sources(job, []))
  {
    hide ShareOf, SourcesOf, Step;
  }

  lemma SourcesSnoc(job: Job, nodes: seq<Selected>)
    requires nodes != []
    ensures Sources(job, nodes) == Sources(job, nodes[..|nodes| - 1]) + SourcesOf(job, nodes[|nodes| - 1])
  {
    hide SourcesOf;
  }

  lemma StepFaulted(job: Job, strides: seq<nat>, acc: Outcome, n: Selected)
    requires acc.Faulted?
    ensures Step(job, strides, acc, n) == acc
  {
  }

  /** Every resolved attribute buffer has the result's point count times its stride in bytes. */
  lemma BuffersAreAligned(job: Job, strides: seq<nat>, nodes: seq<Selected>, a: nat)
    requires Fold(job, strides, Done(Empty(|strides|)), nodes).Done? && a < |strides|
    ensures
      var out := Fold(job, strides, Done(Empty(|strides|)), nodes).out;
      |out.positions| == out.count && |out.columns| == |strides| && |out.columns[a]| == out.count * strides[a]
  {
    hide Fold, Sources;
    AssemblyTraces(job, strides, nodes);
    FlattenLength(ValuesAt(Sources(job, nodes), a, strides[a]), strides[a]);
  }

  // ---- decoding one node ----------------------------------------------------------------------------

  /** The staged values of one attribute: zero-filled, then copied over when the blob reaches far enough. */
  method StageColumn(c: Column, stride: nat, offset: nat, count: nat) returns (data: array<byte>)
    ensures fresh(data) && data[..] == Staged(c, stride, offset, count)
  {
    RangeFits(offset, count, stride);
    var size, from := count * stride, offset * stride;
    data := new byte[size](_ => 0);
    if Available(c, stride, offset, count) {
      var bytes := c.fetched.bytes;
      for i := 0 to size
        invariant forall k :: 0 <= k < i ==> data[k] == bytes[from + k]
      {
        data[i] := bytes[from + i];
      }
    }
  }

  ghost predicate StagesColumns(spans: seq<Span>, strides: seq<nat>, n: Selected)
    reads set a | 0 <= a < |spans| && spans[a].data != null :: spans[a].data
  {
    && |spans| == |strides| && Apart(spans, n.Count())
    && forall a :: 0 <= a < |spans| ==> spans[a].stride == strides[a] && (strides[a] > 0 ==> Live(spans[a]) && spans[a].data.Length == n.Count() * strides[a])
  }

  method StageSpan(n: Selected, a: nat, stride: nat) returns (span: Span)
    ensures span.stride == stride && (span.data != null ==> fresh(span.data))
    ensures stride > 0 ==> Live(span) && span.data.Length == n.Count() * stride && RowsOf(span, n.Count()) == StagedRows(n, a, stride)
  {
    hide Staged, Rows;
    if stride == 0 {
      span := Span(null, 0);
    } else {
      var data := StageColumn(n.Column(a), stride, n.Offset(), n.Count());
      span := Span(data, stride);
    }
  }

  method StageColumns(strides: seq<nat>, n: Selected) returns (spans: seq<Span>)
    ensures StagesColumns(spans, strides, n) && fresh(Arrays(spans))
    ensures forall a :: 0 <= a < |strides| && strides[a] > 0 ==> RowsOf(spans[a], n.Count()) == StagedRows(n, a, strides[a])
  {
    hide StagedRows, RowsOf;
    spans := [];
    for a := 0 to |strides|
      modifies {}
      invariant StagesColumns(spans, strides[..a], n) && fresh(Arrays(spans))
      invariant forall b :: 0 <= b < a && strides[b] > 0 ==> RowsOf(spans[b], n.Count()) == StagedRows(n, b, strides[b])
    {
      var span := StageSpan(n, a, strides[a]);
      spans := spans + [span];
    }
    assert strides[..|strides|] == strides;
  }

  lemma RowsPrefix(s: seq<byte>, n: nat, k: nat, stride: nat)
    requires k <= n && n * stride <= |s|
    ensures k * stride <= n * stride && s[..k * stride] == Flatten(Rows(s, n, stride)[..k])
  {
    assert (n - k) * stride >= 0 && n * stride == k * stride + (n - k) * stride;
    FlattenRows(s, k, stride);
    assert Rows(s, n, stride)[..k] == Rows(s, k, stride);
  }

  /** One staged buffer cut back to the kept points. */
  method CutColumn(span: Span, n: nat, kept: nat) returns (column: seq<byte>)
    requires kept <= n && Live(span) && n * span.stride <= span.data.Length
    ensures column == Flatten(RowsOf(span, n)[..kept])
  {
    hide Flatten, Rows;
    RowsPrefix(span.data[..], n, kept, span.stride);
    column := span.data[..kept * span.stride];
  }

  method CutColumns(spans: seq<Span>, n: nat, kept: nat, strides: seq<nat>) returns (columns: seq<seq<byte>>)
    requires Apart(spans, n) && kept <= n && |spans| == |strides|
    requires forall a :: 0 <= a < |spans| ==> spans[a].stride == strides[a] && (strides[a] > 0 ==> Live(spans[a]))
    ensures |columns| == |strides|
    ensures forall a :: 0 <= a < |strides| && strides[a] == 0 ==> columns[a] == []
    ensures forall a :: 0 <= a < |strides| && strides[a] > 0 ==> columns[a] == Flatten(RowsOf(spans[a], n)[..kept])
  {
    hide Flatten, RowsOf;
    columns := [];
    for a := 0 to |strides|
      invariant |columns| == a
      invariant forall b :: 0 <= b < a && strides[b] == 0 ==> columns[b] == []
      invariant forall b :: 0 <= b < a && strides[b] > 0 ==> columns[b] == Flatten(RowsOf(spans[b], n)[..kept])
    {
      var column := [];
      if strides[a] != 0 {
        column := CutColumn(spans[a], n, kept);
      }
      columns := columns + [column];
    }
  }

  /** One node's job: decode, stage the attributes, clip in place, cut. */
  method DecodeNode(job: Job, strides: seq<nat>, n: Selected) returns (share: Share)
    requires Issued(n)
    ensures share == ShareOf(job, strides, n)
  {
    match n.slot
    case NoSlot => share := Nothing;
    case ReadError(code) => share := Fault(code);
    case SplitError(code) => share := Fault(code);
    case BadFormat(total) => share := if n.Offset() + n.Count() > total then Nothing else Fault(1);
    case Unit(header, codes) =>
      if n.Offset() + n.Count() > |codes| {
        share := Nothing;
      } else {
        share := DecodeUnit(job, strides, n);
      }
  }

  lemma UnitShare(job: Job, strides: seq<nat>, n: Selected)
    requires Readable(n)
    ensures ShareOf(job, strides, n) == Part(WorldOrigin(job, n), Gather(Points(job, n), Picked(job, n)), ColumnParts(job, strides, n))
  {
  }

  method DecodeUnit(job: Job, strides: seq<nat>, n: Selected) returns (share: Share)
    requires Readable(n)
    ensures share == ShareOf(job, strides, n)
  {
    hide Kept, Flatten, StagedRows, Decoded, ShareOf, ColumnParts;
    UnitShare(job, strides, n);
    var count := n.Count();
    var positions, origin := DecodePositions(n.slot.header, n.slot.codes[n.Offset()..n.Offset() + count], job.format, job.config);
    var spans := StageColumns(strides, n);
    ghost var was := positions[..];
    assert was == Points(job, n);
    var kept := count;
    if Clips(job, n.node) {
      kept := ClipToBox(positions, origin, job.config.scale, job.box, spans);
    } else {
      assert was == Gather(was, UpTo(count));
    }
    ghost var idx := Picked(job, n);
    assert kept == |idx| && positions[..kept] == Gather(was, idx);
    var columns := CutColumns(spans, count, kept, strides);
    forall a | 0 <= a < |strides|
      ensures columns[a] == ColumnPart(job, n, a, strides[a])
    {
      if strides[a] == 0 {
        NoBytes(Gather(StagedRows(n, a, 0), idx));
      } else {
        assert RowsOf(spans[a], count)[..kept] == Gather(StagedRows(n, a, strides[a]), idx);
      }
    }
    share := Part(origin, positions[..kept], columns);
    assert columns == ColumnParts(job, strides, n);
  }

  lemma {:induction false} NoBytes(rows: seq<seq<byte>>)
    requires Sized(rows, 0)
    ensures Flatten(rows) == []
  {
    FlattenLength(rows, 0);
  }

  // ---- the request ----------------------------------------------------------------------------------

  datatype Verdict = Complete | Canceled | Error(code: int)

  function IssuedOf(nodes: seq<Selected>): seq<Selected> {
    if nodes == [] then [] else IfIssued(nodes[0]) + IssuedOf(nodes[1..])
  }

  function IfIssued(n: Selected): seq<Selected> { if Issued(n) then [n] else [] }

  /** Nodes without a read contribute nothing, so leaving them out of the batch changes nothing. */
  lemma {:induction false} FoldIssued(job: Job, strides: seq<nat>, acc: Outcome, nodes: seq<Selected>)
    ensures Fold(job, strides, acc, IssuedOf(nodes)) == Fold(job, strides, acc, nodes)
    decreases |nodes|
  {
    hide Step;
    if nodes != [] {
      var rest := nodes[1..];
      StepUnissued(job, strides, acc, nodes[0]);
      var next := Step(job, strides, acc, nodes[0]);
      if Issued(nodes[0]) {
        FoldIssued(job, strides, next, rest);
        assert IssuedOf(nodes) == [nodes[0]] + IssuedOf(rest);
        assert IssuedOf(nodes)[0] == nodes[0] && IssuedOf(nodes)[1..] == IssuedOf(rest);
      } else {
        assert next == acc && IssuedOf(nodes) == IssuedOf(rest);
        FoldIssued(job, strides, acc, rest);
      }
    }
  }

  lemma StepUnissued(job: Job, strides: seq<nat>, acc: Outcome, n: Selected)
    ensures !Issued(n) ==> Step(job, strides, acc, n) == acc
  {
  }

  lemma {:induction false} IssuedOfAppend(a: seq<Selected>, n: Selected)
    ensures IssuedOf(a + [n]) == IssuedOf(a) + IfIssued(n)
    decreases |a|
  {
    hide IfIssued;
    if a == [] {
      assert [n][1..] == [] && a + [n] == [n] && IssuedOf([]) == [];
    } else {
      assert (a + [n])[1..] == a[1..] + [n] && (a + [n])[0] == a[0];
      IssuedOfAppend(a[1..], n);
    }
  }

  lemma BatchFits(a: nat, m: nat)
    requires m > 0
    ensures a / m * m <= a < (a / m + 1) * m && (a / m < 1 ==> a < 2 * m)
  {
    var q := a / m;
    assert a == q * m + a % m;
    assert (q + 1) * m == q * m + m;
  }

  /** How many nodes a batch may hold: as many as the limit on reads allows, and at least one. */
  function BatchNodes(maxReads: nat, attributes: nat): (r: nat)
    ensures r >= 1 && (r == 1 || r * (1 + attributes) <= maxReads) && maxReads < (r + 1) * (1 + attributes)
  {
    BatchFits(maxReads, 1 + attributes);
    var n := maxReads / (1 + attributes);
    if n < 1 then 1 else n
  }

  /** The fields of a request that its worker fills. */
  class Request {
    var positions: seq<Position>
    var columns: seq<seq<byte>>
    var strides: seq<nat>
    var table: seq<Entry>
    var pointCount: nat

    constructor ()
      ensures table == [] && pointCount == 0
    {
      positions, columns, strides, table, pointCount := [], [], [], [], 0;
    }

    function Filled(): Output
      reads this
    {
      Output(positions, columns, table, pointCount)
    }

    /** Resolve each attribute's stride across all selected nodes, with one scan per attribute. */
    method ResolveStrides(nodes: seq<Selected>, attributes: nat)
      modifies this`strides
      ensures strides == Strides(nodes, attributes)
    {
      strides := [];
      for a := 0 to attributes
        invariant |strides| == a && forall b :: 0 <= b < a ==> strides[b] == StrideOf(nodes, b)
      {
        var stride, i := 0, 0;
        while i < |nodes|
          invariant i <= |nodes|
          invariant StrideOf(nodes, a) == if i == |nodes| && stride == 0 then 0 else StrideOf(nodes[i..], a)
          invariant stride == 0
        {
          assert nodes[i..][0] == nodes[i] && nodes[i..][1..] == nodes[i + 1..];
          if nodes[i].Column(a).Carried? {
            stride := nodes[i].Column(a).stride;
            break;
          }
          i := i + 1;
        }
        strides := strides + [stride];
      }
    }

    /** Append one staged part. */
    method AppendPart(n: Node, part: Share)
      requires part.Part? && |part.columns| == |columns|
      modifies this`positions, this`columns, this`table, this`pointCount
      ensures Filled() == Append(old(Filled()), n, part) && |columns| == old(|columns|)
    {
      positions := positions + part.positions;
      ghost var was := columns;
      for a := 0 to |columns|
        modifies this`columns
        invariant |columns| == |was|
        invariant forall b :: 0 <= b < |was| ==> columns[b] == if b < a then was[b] + part.columns[b] else was[b]
      {
        columns := columns[a := columns[a] + part.columns[a]];
      }
      table := table + [Entry(n, pointCount, |part.positions|, part.origin)];
      pointCount := pointCount + |part.positions|;
    }

    /** The reads of one batch. */
    method IssueBatch(nodes: seq<Selected>) returns (pending: seq<Selected>)
      ensures pending == IssuedOf(nodes)
      ensures forall i :: 0 <= i < |pending| ==> Issued(pending[i])
    {
      pending := [];
      for i := 0 to |nodes|
        invariant pending == IssuedOf(nodes[..i])
        invariant forall k :: 0 <= k < |pending| ==> Issued(pending[k])
      {
        PrefixSnoc(nodes, i);
        IssuedOfAppend(nodes[..i], nodes[i]);
        if Issued(nodes[i]) {
          pending := pending + [nodes[i]];
        }
      }
      assert nodes[..|nodes|] == nodes;
    }

    /** Decode every node of a batch into a stage of its own, then append the stages in order. */
    method RunBatch(job: Job, nodes: seq<Selected>) returns (r: Verdict)
      requires |columns| == |strides|
      modifies this`positions, this`columns, this`table, this`pointCount
      ensures |columns| == |strides| && !r.Canceled?
      ensures Fold(job, strides, Done(old(Filled())), nodes) == Ended(r, Filled())
    {
      hide Step, ShareOf, Fold;
      var pending := IssueBatch(nodes);
      ghost var start := Done(Filled());
      FoldIssued(job, strides, start, nodes);
      var stages: seq<Share> := [];
      for i := 0 to |pending|
        modifies {}
        invariant |stages| == i && forall k :: 0 <= k < i ==> stages[k] == ShareOf(job, strides, pending[k])
      {
        var stage := DecodeNode(job, strides, pending[i]);
        stages := stages + [stage];
      }
      r := Complete;
      assert pending[..0] == [];
      FoldNone(job, strides, start);
      for i := 0 to |pending|
        invariant |columns| == |strides|
        invariant Fold(job, strides, start, pending[..i]) == Done(Filled())
      {
        PrefixSnoc(pending, i);
        FoldSnoc(job, strides, start, pending[..i], pending[i]);
        StepIs(job, strides, Filled(), pending[i]);
        if stages[i].Fault? {
          FoldStops(job, strides, start, pending, i + 1);
          return Error(stages[i].code);
        }
        if stages[i].Part? && stages[i].positions != [] {
          AppendPart(pending[i].node, stages[i]);
        }
      }
      assert pending[..|pending|] == pending;
    }

    /** run_region_request after the walk, for any limit on reads in flight; `canceled(i)` is what the
        status shows at the batch that starts with node i. */
    method RunRegion(job: Job, nodes: seq<Selected>, attributes: nat, maxReads: nat, canceled: nat -> bool)
      returns (r: Verdict)
      requires table == [] && pointCount == 0
      modifies this
      ensures !r.Canceled? ==> Assemble(job, attributes, nodes) == Ended(r, Filled())
      ensures r.Canceled? ==> exists i: nat :: i < |nodes| && canceled(i)
    {
      hide Fold;
      positions, columns := [], seq(attributes, _ => []);
      ResolveStrides(nodes, attributes);
      ghost var none := Done(Empty(attributes));
      var batch := BatchNodes(maxReads, attributes);
      var begin := 0;
      FoldNone(job, strides, none);
      while begin < |nodes|
        invariant begin <= |nodes| && strides == Strides(nodes, attributes) && |columns| == |strides|
        invariant Fold(job, strides, none, nodes[..begin]) == Done(Filled())
      {
        if canceled(begin) {
          return Canceled;
        }
        var end := if begin + batch < |nodes| then begin + batch else |nodes|;
        FoldAppend(job, strides, none, nodes[..begin], nodes[begin..end]);
        assert nodes[..begin] + nodes[begin..end] == nodes[..end];
        r := RunBatch(job, nodes[begin..end]);
        if r != Complete {
          FoldStops(job, strides, none, nodes, end);
          return;
        }
        begin := end;
      }
      assert nodes[..|nodes|] == nodes;
      r := Complete;
    }
  }

  /** The assembly's outcome a verdict reports. */
  function Ended(r: Verdict, out: Output): Outcome
    requires !r.Canceled?
  {
    if r.Error? then Faulted(r.code, out) else Done(out)
  }

  lemma FoldNone(job: Job, strides: seq<nat>, acc: Outcome)
    ensures Fold(job, strides, acc, []) == acc
  {
  }

  lemma StepIs(job: Job, strides: seq<nat>, out: Output, n: Selected)
    ensures
      var share, r := ShareOf(job, strides, n), Step(job, strides, Done(out), n);
      && (share.Nothing? ==> r == Done(out))
      && (share.Fault? ==> r == Faulted(share.code, out))
      && (share.Part? ==> |share.columns| == |strides| && r == if share.positions == [] then Done(out) else Done(Append(out, n.node, share)))
  {
  }

  /** An error found in a prefix is the outcome of the whole. */
  lemma FoldStops(job: Job, strides: seq<nat>, acc: Outcome, nodes: seq<Selected>, n: nat)
    requires n <= |nodes| && Fold(job, strides, acc, nodes[..n]).Faulted?
    ensures Fold(job, strides, acc, nodes) == Fold(job, strides, acc, nodes[..n])
  {
    assert nodes == nodes[..n] + nodes[n..];
    FoldAppend(job, strides, acc, nodes[..n], nodes[n..]);
    FoldFaulted(job, strides, Fold(job, strides, acc, nodes[..n]), nodes[n..]);
  }

  // ---- clipping across the whole result ---------------------------------------------------------------

  ghost predicate InBox(job: Job, p: Source) {
    HasPoint(job.box, World(PointAt(job, p), WorldOrigin(job, p.n), job.config.scale))
  }

  /** A node taken unclipped has all its points in the box. */
  ghost predicate InsideIsSound(job: Job, nodes: seq<Selected>) {
    forall k, i: nat :: 0 <= k < |nodes| && nodes[k].node.fullyInside && i < |Points(job, nodes[k])| ==> InBox(job, Source(nodes[k], i))
  }

  lemma SourcesOfAreInBox(job: Job, n: Selected, i: nat)
    requires job.clip && !job.whole && i < |Points(job, n)|
    requires n.node.fullyInside ==> InBox(job, Source(n, i))
    ensures Source(n, i) in SourcesOf(job, n) <==> InBox(job, Source(n, i))
  {
    hide World, HasPoint, Points;
    var idx, src := Picked(job, n), SourcesOf(job, n);
    if Clips(job, n.node) {
      KeptIsExact(Points(job, n), |Points(job, n)|, WorldOrigin(job, n), job.config.scale, job.box);
      assert i in idx <==> InBox(job, Source(n, i));
    } else {
      assert idx[i] == i;
    }
    if i in idx {
      var k :| 0 <= k < |idx| && idx[k] == i;
      assert src[k] == Source(n, i);
    }
  }

  lemma {:induction false} FindSource(job: Job, nodes: seq<Selected>, p: Source) returns (k: nat)
    requires p in Sources(job, nodes)
    ensures k < |nodes| && p in SourcesOf(job, nodes[k])
    decreases |nodes|
  {
    hide *;
    SomeSource(job, nodes, p);
    SourcesSnoc(job, nodes);
    k := |nodes| - 1;
    if p !in SourcesOf(job, nodes[k]) {
      k := FindSource(job, nodes[..k], p);
    }
  }

  lemma SomeSource(job: Job, nodes: seq<Selected>, p: Source)
    requires p in Sources(job, nodes)
    ensures nodes != []
  {
  }

  lemma {:induction false} SourceOfNode(job: Job, nodes: seq<Selected>, k: nat, p: Source)
    requires k < |nodes| && p in SourcesOf(job, nodes[k])
    ensures p in Sources(job, nodes)
    decreases |nodes|
  {
    hide *;
    SourcesSnoc(job, nodes);
    if k < |nodes| - 1 {
      SourceOfNode(job, nodes[..|nodes| - 1], k, p);
    }
  }

  /** With point clipping, the result holds a stored point of a selected node exactly when the point is
      in the box. */
  lemma ClippedResultIsExact(job: Job, nodes: seq<Selected>, k: nat, i: nat)
    requires job.clip && !job.whole && InsideIsSound(job, nodes) && k < |nodes| && i < |Points(job, nodes[k])|
    ensures Source(nodes[k], i) in Sources(job, nodes) <==> InBox(job, Source(nodes[k], i))
  {
    hide InBox, SourcesOf, Points;
    var p := Source(nodes[k], i);
    SourcesOfAreInBox(job, nodes[k], i);
    if p in Sources(job, nodes) {
      var m := FindSource(job, nodes, p);
      OwnSources(job, nodes[m], p);
    }
    if p in SourcesOf(job, nodes[k]) {
      SourceOfNode(job, nodes, k, p);
    }
  }

  lemma OwnSources(job: Job, n: Selected, p: Source)
    requires p in SourcesOf(job, n)
    ensures p.n == n
  {
  }

  /** A point packed into its header's cell, as the converter stores it. */
  ghost predicate PackedIn(h: Header, code: nat, g: Grid) {
    && PointPacking.InRange(g) && PointPacking.InCell(h, PointPacking.Encode(g))
    && code == PointPacking.Narrow(PointPacking.Encode(g), Morton.Digits(h.codeType))
  }

  /** A packed point is tested against the box at the place it was stored from exactly when the position
      format can express it against the node's origin. */
  lemma ClipSeesTruePlace(h: Header, code: nat, g: Grid, f: Format, c: Config)
    requires PackedIn(h, code, g) && c.scale > 0.0
    ensures World(Written(f, PointPacking.DecodeAccess(h, code), Origin(h), c), ToWorld(Origin(h), c), c.scale) == ToWorld(g, c)
            <==> Fits(f, g, Origin(h))
  {
    hide PointPacking.DecodeAccess, PointPacking.Decode, PointPacking.Encode, PointPacking.Narrow, World, Written, ToWorld;
    PointPacking.AccessDecodes(h, g);
    WrittenKeepsWorld(f, g, Origin(h), c);
  }

  /** A resident node whose subset lies in its stored unit gives all its points when it is not clipped: point
      i is the code at the subset's offset plus i. */
  lemma WholeNodeIsReturned(job: Job, n: Selected, i: nat)
    requires n.resident && n.slot.Unit? && n.Offset() + n.Count() <= |n.slot.codes| && i < n.Count()
    ensures var h := n.slot.header;
      PointAt(job, Source(n, i)) == Written(job.format, PointPacking.DecodeAccess(h, n.slot.codes[n.Offset() + i]), Origin(h), job.config)
    ensures !job.clip || job.whole || n.node.fullyInside ==> |SourcesOf(job, n)| == n.Count() && SourcesOf(job, n)[i] == Source(n, i)
  {
    hide Written, Origin, Kept;
  }

  /** All other nodes give none. */
  lemma OtherNodesGiveNothing(job: Job, n: Selected)
    requires !n.resident || !n.slot.Unit? || n.Offset() + n.Count() > |n.slot.codes| || n.Count() == 0
    ensures SourcesOf(job, n) == []
  {
    hide Kept, Decoded;
  }

  lemma OwnIsServed(job: Job, n: Selected, p: Source)
    requires p in SourcesOf(job, n)
    ensures p.n == n && n.resident && n.slot.Unit? && n.Offset() + n.Count() <= |n.slot.codes| && p.i < n.Count()
  {
    hide Kept, Decoded;
  }

  /** The stored point is the packed form of g. */
  ghost predicate StoredFrom(p: Source, g: Grid) {
    && p.n.slot.Unit? && p.n.Offset() + p.i < |p.n.slot.codes|
    && PackedIn(p.n.slot.header, p.n.slot.codes[p.n.Offset() + p.i], g)
  }

  /** The node table puts the points back in place: a packed point of entry j's stretch, read against the
      entry's origin, is where it was stored from exactly when the format can express it. */
  lemma EntryPutsPointsInPlace(job: Job, strides: seq<nat>, nodes: seq<Selected>, j: nat, k: nat, g: Grid)
    requires
      var r := Fold(job, strides, Done(Empty(|strides|)), nodes);
      r.Done? && j < |r.out.table| && r.out.table[j].first <= k < r.out.table[j].first + r.out.table[j].count
    requires job.config.scale > 0.0 && k < |Sources(job, nodes)| && StoredFrom(Sources(job, nodes)[k], g)
    ensures
      var out, p := Fold(job, strides, Done(Empty(|strides|)), nodes).out, Sources(job, nodes)[k];
      && k < |out.positions| && out.table[j].node == p.n.node
      && (World(out.positions[k], out.table[j].origin, job.config.scale) == ToWorld(g, job.config)
          <==> Fits(job.format, g, Origin(p.n.slot.header)))
  {
    hide Fold, Sources, Origin, Written, World, ToWorld, Fits, PackedIn, PointAt, Tiles, ValuesAt;
    AssemblyTraces(job, strides, nodes);
    var p := Sources(job, nodes)[k];
    var m := FindSource(job, nodes, p);
    OwnIsServed(job, nodes[m], p);
    WholeNodeIsReturned(job, p.n, p.i);
    ClipSeesTruePlace(p.n.slot.header, p.n.slot.codes[p.n.Offset() + p.i], g, job.format, job.config);
    var out := Fold(job, strides, Done(Empty(|strides|)), nodes).out;
    assert Covers(job, out.table[j], p);
    assert out.positions[k] == PointAt(job, Source(p.n, p.i));
  }

  /** Up to span 62 no point lies below its node's origin, so relative positions always fit. */
  lemma OriginIsBelow(h: Header, code: nat, g: Grid)
    requires PackedIn(h, code, g) && h.lodSpan <= 62
    ensures PointPacking.Below(Origin(h), g)
  {
    hide PointPacking.Decode, PointPacking.Encode, PointPacking.Narrow;
    PointPacking.RenderDecodes(h, g);
  }

  // ---- attribute values as their node stores them -------------------------------------------------------

  /** The value of point i in a stored column, cut at the column's own stride. */
  ghost predicate Stores(c: Column, i: nat, v: seq<byte>) {
    && c.Carried? && c.fetched.Blob? && |v| == c.stride && i * c.stride + c.stride <= |c.fetched.bytes|
    && v == Row(c.fetched.bytes, i, c.stride)
  }

  lemma SliceRow(bytes: seq<byte>, offset: nat, count: nat, i: nat, stride: nat)
    requires i < count && (offset + count) * stride <= |bytes|
    ensures 0 <= offset * stride <= offset * stride + count * stride <= |bytes|
    ensures i * stride + stride <= count * stride && (offset + i) * stride + stride <= |bytes|
    ensures Row(bytes[offset * stride..offset * stride + count * stride], i, stride) == Row(bytes, offset + i, stride)
  {
    RangeFits(offset, count, stride);
    RangeFits(offset, i, stride);
    RowFits(i, count, stride);
    RowFits(offset + i, offset + count, stride);
    SliceOfSlice(bytes, offset * stride, offset * stride + count * stride, i * stride, i * stride + stride);
  }

  lemma SliceOfSlice(b: seq<byte>, x: nat, y: nat, p: nat, q: nat)
    requires x <= y <= |b| && p <= q <= y - x
    ensures b[x..y][p..q] == b[x + p..x + q]
  {
    assert forall k :: 0 <= k < q - p ==> b[x..y][p..q][k] == b[x + p + k];
  }

  /** The row a result holds for a point is the value its node stores exactly when the node stores the
      attribute with the resolved stride. */
  lemma RowIsStoredValueExactly(p: Source, a: nat, stride: nat)
    requires p.i < p.n.Count() && Available(p.n.Column(a), stride, p.n.Offset(), p.n.Count())
    ensures Stores(p.n.Column(a), p.n.Offset() + p.i, ValueAt(p, a, stride)) <==> p.n.Column(a).stride == stride
  {
    hide Row;
    SliceRow(p.n.Column(a).fetched.bytes, p.n.Offset(), p.n.Count(), p.i, stride);
  }

  /** All selected nodes that carry the attribute store it with one stride. */
  ghost predicate OneStride(nodes: seq<Selected>, a: nat) {
    forall k :: 0 <= k < |nodes| && nodes[k].Column(a).Carried? ==> nodes[k].Column(a).stride == StrideOf(nodes, a)
  }

  /** The node has the values of its subset's points. */
  predicate HasValues(n: Selected, a: nat) {
    n.Column(a).Carried? && n.Column(a).fetched.Blob? && |n.Column(a).fetched.bytes| >= (n.Offset() + n.Count()) * n.Column(a).stride
  }

  /** Then every value of the result is the stored one where the node has its points' values, and zeros where
      it lacks them, could not read them or stores too few. */
  lemma ValuesAreStored(nodes: seq<Selected>, a: nat, k: nat, i: nat)
    requires OneStride(nodes, a) && k < |nodes| && i < nodes[k].Count()
    ensures
      var n, v := nodes[k], ValueAt(Source(nodes[k], i), a, StrideOf(nodes, a));
      if HasValues(n, a) then Stores(n.Column(a), n.Offset() + i, v) else v == Zeros(StrideOf(nodes, a))
  {
    hide StrideOf, Row, Stores;
    var n, stride := nodes[k], StrideOf(nodes, a);
    assert HasValues(n, a) <==> Available(n.Column(a), stride, n.Offset(), n.Count());
    if Available(n.Column(a), stride, n.Offset(), n.Count()) {
      RowIsStoredValueExactly(Source(n, i), a, stride);
    } else {
      ZeroRow(n.Count(), i, stride);
    }
  }

  lemma ZeroRow(count: nat, i: nat, stride: nat)
    requires i < count
    ensures i * stride + stride <= count * stride && Row(Zeros(count * stride), i, stride) == Zeros(stride)
  {
    RowFits(i, count, stride);
  }

  /** A node that stores two bytes a value behind one that stores one: point 1 gets the second byte of
      point 0 instead of its own value. */
  lemma OtherStrideMisreads(first: Selected, n: Selected)
    requires first.columns == [Carried(1, Blob([5]))] && n.columns == [Carried(2, Blob([7, 8, 9, 10]))]
    requires n.Offset() == 0 && n.Count() == 2
    ensures StrideOf([first, n], 0) == 1
    ensures ValueAt(Source(n, 1), 0, 1) == [8] && Stores(n.Column(0), 1, [9, 10])
  {
    var bytes: seq<byte> := [7, 8, 9, 10];
    assert Staged(n.Column(0), 1, 0, 2) == bytes[0..2] == [7, 8];
    assert bytes[2..4] == [9, 10];
    assert [7 as byte, 8][1..2] == [8];
    hide StrideOf;
    assert Row(bytes, 1, 2) == [9, 10];
  }
}
