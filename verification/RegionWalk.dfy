/** The region walk: a breadth-first descent through a forest of five-level octrees, selecting one
    frontier of nodes and reporting the sub-trees it needed but could not find. */
module RegionWalk {

  // ---- boxes ----------------------------------------------------------------------------------

  datatype Vec = Vec(x: real, y: real, z: real)
  datatype Box = Box(min: Vec, max: Vec)

  predicate Overlaps(a: Box, b: Box) {
    && !(a.max.x < b.min.x || a.min.x > b.max.x)
    && !(a.max.y < b.min.y || a.min.y > b.max.y)
    && !(a.max.z < b.min.z || a.min.z > b.max.z)
  }

  predicate Contains(outer: Box, inner: Box) {
    && !(inner.min.x < outer.min.x || inner.max.x > outer.max.x)
    && !(inner.min.y < outer.min.y || inner.max.y > outer.max.y)
    && !(inner.min.z < outer.min.z || inner.max.z > outer.max.z)
  }

  predicate HasPoint(b: Box, p: Vec) {
    b.min.x <= p.x <= b.max.x && b.min.y <= p.y <= b.max.y && b.min.z <= p.z <= b.max.z
  }

  function Half(lo: real, hi: real, high: bool): (real, real) {
    var mid := (lo + hi) * 0.5;
    if high then (mid, hi) else (lo, mid)
  }

  /** aabb_child: bit i of the octant selects the high half on axis i. */
  function ChildBox(parent: Box, octant: nat): Box {
    var (x0, x1) := Half(parent.min.x, parent.max.x, Bit(octant, 0));
    var (y0, y1) := Half(parent.min.y, parent.max.y, Bit(octant, 1));
    var (z0, z1) := Half(parent.min.z, parent.max.z, Bit(octant, 2));
    Box(Vec(x0, y0, z0), Vec(x1, y1, z1))
  }

  // ---- bit masks ------------------------------------------------------------------------------

  function Shifted(mask: nat, i: nat): nat {
    if i == 0 then mask else Shifted(mask, i - 1) / 2
  }

  predicate Bit(mask: nat, i: nat) { Shifted(mask, i) % 2 == 1 }

  /** How many of the bits below `i` are set: the ordinal of bit `i` among the set bits. */
  function Rank(mask: nat, i: nat): nat {
    if i == 0 then 0 else Rank(mask, i - 1) + (if Bit(mask, i - 1) then 1 else 0)
  }

  // ---- the forest -----------------------------------------------------------------------------

  datatype Subset = Subset(inputId: nat, leafData: bool, offset: nat, count: nat)
  datatype Collection = Collection(tight: Box, subsets: seq<Subset>)

  /** One five-level tree. The arrays are indexed by level, then by node; `skips` gives the index of
      a node's first child on the next level, or into `subTrees` on level 4. An index the arrays do
      not have, which no stored tree contains, reads as an empty slot. */
  datatype Tree = Tree(id: nat, magnitude: nat, cell: Box, nodes: seq<seq<nat>>, skips: seq<seq<nat>>,
                       data: seq<seq<Collection>>, subTrees: seq<nat>)
  {
    function Mask(level: nat, skip: nat): nat {
      if level < |nodes| && skip < |nodes[level]| then nodes[level][skip] else 0
    }
    function Skip(level: nat, skip: nat): nat {
      if level < |skips| && skip < |skips[level]| then skips[level][skip] else 0
    }
    function Data(level: nat, skip: nat): Collection {
      if level < |data| && skip < |data[level]| then data[level][skip] else Collection(cell, [])
    }
    function SubTree(i: nat): nat {
      if i < |subTrees| then subTrees[i] else 0
    }
    /** morton_tree_level_to_lod */
    function Lod(level: nat): int { magnitude * 5 + 4 - level }
  }

  /** The trees that are resident. */
  datatype Registry = Registry(size: nat, root: nat, trees: map<nat, Tree>)

  datatype LodMode = Full | Level(lod: int) | PointBudget(maxPoints: nat)
  datatype Query = Query(box: Box, mode: LodMode, whole: bool)

  datatype Node = Node(tree: nat, path: seq<nat>, level: nat, lod: int, subset: Subset, cell: Box, tight: Box,
                       childMask: nat, isLeaf: bool, isLod: bool, fullyInside: bool)

  /** A worklist entry. The path, the octants taken from the root, stands for the node's place in
      the octree; its length is the depth. */
  datatype Pending = Pending(tree: Tree, skip: nat, cell: Box, inside: bool, path: seq<nat>)
  {
    function InTree(): nat { |path| % 5 }
    function Mask(): nat { tree.Mask(InTree(), skip) }
    function Data(): Collection { tree.Data(InTree(), skip) }
  }

  // ---- emitting -------------------------------------------------------------------------------

  predicate Takes(q: Query, p: Pending, s: Subset) {
    if q.mode.Full? then s.leafData else !(p.Mask() != 0 && s.leafData)
  }

  function MakeNode(q: Query, p: Pending, s: Subset): Node {
    Node(p.tree.id, p.path, p.InTree(), p.tree.Lod(p.InTree()), s, p.cell, p.Data().tight, p.Mask(), p.Mask() == 0,
         !s.leafData, p.inside || Contains(q.box, p.Data().tight))
  }

  function EmitSubsets(q: Query, p: Pending, subsets: seq<Subset>): seq<Node> {
    if subsets == [] then []
    else
      var init, s := subsets[..|subsets| - 1], subsets[|subsets| - 1];
      EmitSubsets(q, p, init) + (if Takes(q, p, s) then [MakeNode(q, p, s)] else [])
  }

  /** What a stop node contributes. */
  function Emit(q: Query, p: Pending): seq<Node> {
    if !q.whole && !Overlaps(p.Data().tight, q.box) then [] else EmitSubsets(q, p, p.Data().subsets)
  }

  function Points(nodes: seq<Node>): nat {
    if nodes == [] then 0 else Points(nodes[..|nodes| - 1]) + nodes[|nodes| - 1].subset.count
  }

  lemma PointsSnoc(a: seq<Node>, n: Node)
    ensures Points(a + [n]) == Points(a) + n.subset.count
  {
    assert (a + [n])[..|a|] == a;
  }

  function EmitAll(q: Query, stops: seq<Pending>): seq<Node> {
    if stops == [] then [] else EmitAll(q, stops[..|stops| - 1]) + Emit(q, stops[|stops| - 1])
  }

  // ---- descending -----------------------------------------------------------------------------

  predicate Descends(q: Query, p: Pending, total: nat) {
    && p.Mask() != 0
    && (q.mode.Level? ==> p.tree.Lod(p.InTree()) > q.mode.lod)
    && (q.mode.PointBudget? ==> total < q.mode.maxPoints)
  }

  datatype Octant = Absent | Pruned | NotResident(id: nat) | Child(pending: Pending)

  function ChildAt(reg: Registry, q: Query, p: Pending, i: nat): Octant {
    var cell := ChildBox(p.cell, i);
    var slot := p.tree.Skip(p.InTree(), p.skip) + Rank(p.Mask(), i);
    var inside := p.inside || Contains(q.box, cell);
    if !Bit(p.Mask(), i) then Absent
    else if !q.whole && !Overlaps(cell, q.box) then Pruned
    else if p.InTree() == 4 then
      var id := p.tree.SubTree(slot);
      if id !in reg.trees then NotResident(id)
      else Child(Pending(reg.trees[id], 0, cell, inside, p.path + [i]))
    else Child(Pending(p.tree, slot, cell, inside, p.path + [i]))
  }

  function ChildrenTo(reg: Registry, q: Query, p: Pending, n: nat): seq<Pending> {
    if n == 0 then []
    else ChildrenTo(reg, q, p, n - 1) +
         (match ChildAt(reg, q, p, n - 1) case Child(c) => [c] case _ => [])
  }

  function MissingTo(reg: Registry, q: Query, p: Pending, n: nat): seq<nat> {
    if n == 0 then []
    else MissingTo(reg, q, p, n - 1) +
         (match ChildAt(reg, q, p, n - 1) case NotResident(id) => [id] case _ => [])
  }

  // ---- the walk as a function -----------------------------------------------------------------

  /** `stops` are the nodes where the descent stopped; the rest is what the code keeps. */
  datatype State = State(stops: seq<Pending>, nodes: seq<Node>, total: nat, missing: seq<nat>, next: seq<Pending>)

  function Visit(reg: Registry, q: Query, p: Pending, s: State): State {
    if Descends(q, p, s.total)
    then s.(missing := s.missing + MissingTo(reg, q, p, 8), next := s.next + ChildrenTo(reg, q, p, 8))
    else s.(stops := s.stops + [p], nodes := s.nodes + Emit(q, p), total := s.total + Points(Emit(q, p)))
  }

  /** One level: every entry of the worklist in order. */
  function Pass(reg: Registry, q: Query, current: seq<Pending>, s: State): State {
    if current == [] then s
    else Visit(reg, q, current[|current| - 1], Pass(reg, q, current[..|current| - 1], s))
  }

  const MAX_DEPTH: nat := 40

  function Start(reg: Registry, q: Query): State {
    if reg.size == 0 then State([], [], 0, [], [])
    else if reg.root !in reg.trees then State([], [], 0, [reg.root], [])
    else
      var root := reg.trees[reg.root];
      if root.Data(0, 0).subsets == [] || (!q.whole && !Overlaps(root.cell, q.box)) then State([], [], 0, [], [])
      else State([], [], 0, [], [Pending(root, 0, root.cell, q.whole || Contains(q.box, root.cell), [])])
  }

  /** The walk after `depth` levels; `next` is the worklist of the level to come. */
  function Levels(reg: Registry, q: Query, depth: nat): State {
    if depth == 0 then Start(reg, q)
    else var s := Levels(reg, q, depth - 1); Pass(reg, q, s.next, s.(next := []))
  }

  function Walk(reg: Registry, q: Query): State { Levels(reg, q, MAX_DEPTH) }

  // ---- the walk as the code runs it -------------------------------------------------------------

  datatype Result = Result(nodes: seq<Node>, treesToLoad: seq<nat>, totalPoints: nat)

  lemma EmitStep(q: Query, p: Pending, subsets: seq<Subset>, i: nat)
    requires i < |subsets|
    ensures Takes(q, p, subsets[i]) ==>
      EmitSubsets(q, p, subsets[..i + 1]) == EmitSubsets(q, p, subsets[..i]) + [MakeNode(q, p, subsets[i])]
    ensures !Takes(q, p, subsets[i]) ==> EmitSubsets(q, p, subsets[..i + 1]) == EmitSubsets(q, p, subsets[..i])
  {
    assert subsets[..i + 1][..i] == subsets[..i];
  }

  /** emit_node */
  method EmitNode(q: Query, p: Pending, out: Result) returns (r: Result)
    ensures r == Result(out.nodes + Emit(q, p), out.treesToLoad, out.totalPoints + Points(Emit(q, p)))
  {
    r := out;
    var collection := p.Data();
    if collection.subsets == [] || (!q.whole && !Overlaps(collection.tight, q.box)) {
      assert Emit(q, p) == [];
      return;
    }
    var subsets := collection.subsets;
    for i := 0 to |subsets|
      invariant r.nodes == out.nodes + EmitSubsets(q, p, subsets[..i]) && r.treesToLoad == out.treesToLoad
      invariant r.totalPoints == out.totalPoints + Points(EmitSubsets(q, p, subsets[..i]))
    {
      EmitStep(q, p, subsets, i);
      var s := subsets[i];
      if q.mode.Full? {
        if !s.leafData {
          continue;
        }
      } else if p.Mask() != 0 && s.leafData {
        continue;
      }
      PointsSnoc(EmitSubsets(q, p, subsets[..i]), MakeNode(q, p, s));
      r := r.(totalPoints := r.totalPoints + s.count, nodes := r.nodes + [MakeNode(q, p, s)]);
    }
    assert subsets[..|subsets|] == subsets;
  }

  /** The octant loop: the child counter advances for every set bit, including the octants that are
      skipped. */
  method ExpandNode(reg: Registry, q: Query, p: Pending) returns (children: seq<Pending>, missing: seq<nat>)
    ensures children == ChildrenTo(reg, q, p, 8) && missing == MissingTo(reg, q, p, 8)
  {
    hide ChildBox, Overlaps, Contains;
    children, missing := [], [];
    var childCount, bits, i := 0, p.Mask(), 0;
    while i < 8
      invariant i <= 8 && bits == Shifted(p.Mask(), i) && childCount == Rank(p.Mask(), i)
      invariant children == ChildrenTo(reg, q, p, i) && missing == MissingTo(reg, q, p, i)
    {
      if bits % 2 == 1 {
        var thisChild := childCount;
        childCount := childCount + 1;
        var cell := ChildBox(p.cell, i);
        assert Bit(p.Mask(), i);
        if q.whole || Overlaps(cell, q.box) {
          var tree, skip, resident := p.tree, p.tree.Skip(p.InTree(), p.skip) + thisChild, true;
          if p.InTree() == 4 {
            var id := p.tree.SubTree(skip);
            if id !in reg.trees {
              missing := missing + [id];
              resident := false;
            } else {
              tree, skip := reg.trees[id], 0;
            }
          }
          if resident {
            children := children + [Pending(tree, skip, cell, p.inside || Contains(q.box, cell), p.path + [i])];
          }
        }
      }
      bits, i := bits / 2, i + 1;
    }
  }

  /** The result vectors show the state of the walk. */
  ghost predicate Shows(out: Result, s: State) {
    out == Result(s.nodes, s.missing, s.total)
  }

  /** The body of the worklist loop. */
  method VisitNode(reg: Registry, q: Query, p: Pending, out: Result, next: seq<Pending>, ghost s: State)
    returns (out': Result, next': seq<Pending>)
    requires Shows(out, s) && next == s.next
    ensures Shows(out', Visit(reg, q, p, s)) && next' == Visit(reg, q, p, s).next
  {
    var descend := p.Mask() != 0;
    if descend && q.mode.Level? && p.tree.Lod(p.InTree()) <= q.mode.lod {
      descend := false;
    }
    if descend && q.mode.PointBudget? && out.totalPoints >= q.mode.maxPoints {
      descend := false;
    }
    out', next' := out, next;
    if !descend {
      out' := EmitNode(q, p, out);
    } else {
      var children, missing := ExpandNode(reg, q, p);
      next' := next + children;
      out' := out.(treesToLoad := out.treesToLoad + missing);
    }
  }

  /** One level of the walk. */
  method RunLevel(reg: Registry, q: Query, current: seq<Pending>, out: Result, ghost s: State)
    returns (out': Result, next: seq<Pending>)
    requires Shows(out, s) && s.next == []
    ensures Shows(out', Pass(reg, q, current, s)) && next == Pass(reg, q, current, s).next
  {
    out', next := out, [];
    ghost var t := s;
    for k := 0 to |current|
      invariant t == Pass(reg, q, current[..k], s) && next == t.next && Shows(out', t)
    {
      assert current[..k + 1][..k] == current[..k];
      out', next := VisitNode(reg, q, current[k], out', next, t);
      t := Visit(reg, q, current[k], t);
    }
    assert current[..|current|] == current;
  }

  /** region_walk */
  method Run(reg: Registry, q: Query) returns (out: Result)
    ensures Shows(out, Walk(reg, q))
  {
    out := RunTo(reg, q, MAX_DEPTH);
  }

  /** The checks before the loop; an early return leaves the worklist empty. */
  method Begin(reg: Registry, q: Query) returns (out: Result, current: seq<Pending>)
    ensures Shows(out, Start(reg, q)) && current == Start(reg, q).next
  {
    out, current := Result([], [], 0), [];
    if reg.size == 0 {
      return;
    }
    if reg.root !in reg.trees {
      out := out.(treesToLoad := [reg.root]);
      return;
    }
    var root := reg.trees[reg.root];
    if root.Data(0, 0).subsets == [] || (!q.whole && !Overlaps(root.cell, q.box)) {
      return;
    }
    current := [Pending(root, 0, root.cell, q.whole || Contains(q.box, root.cell), [])];
  }

  method RunTo(reg: Registry, q: Query, maxDepth: nat) returns (out: Result)
    ensures Shows(out, Levels(reg, q, maxDepth))
  {
    var current;
    out, current := Begin(reg, q);
    var depth := 0;
    ghost var s := Start(reg, q);
    while depth < maxDepth && current != []
      invariant depth <= maxDepth && s == Levels(reg, q, depth)
      invariant current == s.next && Shows(out, s)
    {
      ghost var base := s.(next := []);
      assert Shows(out, base);
      out, current := RunLevel(reg, q, current, out, base);
      s := Pass(reg, q, s.next, base);
      depth := depth + 1;
      assert s == Levels(reg, q, depth);
    }
    assert s == Levels(reg, q, maxDepth) by { NothingLeft(reg, q, depth, maxDepth); }
  }

  /** Once the worklist is empty the remaining levels change nothing. */
  lemma {:induction false} NothingLeft(reg: Registry, q: Query, depth: nat, maxDepth: nat)
    requires depth <= maxDepth && (depth < maxDepth ==> Levels(reg, q, depth).next == [])
    ensures Levels(reg, q, depth) == Levels(reg, q, maxDepth)
    decreases maxDepth - depth
  {
    if depth < maxDepth {
      assert Levels(reg, q, depth + 1) == Levels(reg, q, depth);
      NothingLeft(reg, q, depth + 1, maxDepth);
    }
  }
}
