/** What the stored forest means. An octree is a tree of nodes with at most eight kids; a stored tree
    holds five of its levels, each level listed breadth first, and refers to the sub-trees below. The
    region walk, which finds a kid by the ordinal of its bit, visits exactly the octree's nodes. */
module OctreeForest {
  import opened Bytes
  import opened RegionWalk
  import opened RegionWalkTheorems
  import Morton

  // ---- octrees --------------------------------------------------------------------------------

  datatype Kid = Kid(octant: nat, node: Octree)
  datatype Octree = Octree(data: Collection, kids: seq<Kid>)

  function Height(o: Octree): (h: nat)
    ensures h > 0
    decreases o, |o.kids| + 1
  {
    1 + TallestKid(o, |o.kids|)
  }

  /** The greatest height of the first n kids. */
  function TallestKid(o: Octree, n: nat): nat
    requires n <= |o.kids|
    decreases o, n
  {
    if n == 0 then 0
    else
      var h, k := TallestKid(o, n - 1), Height(o.kids[n - 1].node);
      if h < k then k else h
  }

  lemma {:induction false} KidIsLower(o: Octree, j: nat, n: nat)
    requires j < n <= |o.kids|
    ensures Height(o.kids[j].node) <= TallestKid(o, n)
  {
    hide Height;
    if j < n - 1 {
      KidIsLower(o, j, n - 1);
    }
  }

  /** The kids come in rising octant order. */
  ghost predicate Ordered(kids: seq<Kid>) {
    && (forall j :: 0 <= j < |kids| ==> kids[j].octant < 8)
    && (forall i, j :: 0 <= i < j < |kids| ==> kids[i].octant < kids[j].octant)
  }

  ghost predicate HasKid(kids: seq<Kid>, octant: nat) { exists j :: 0 <= j < |kids| && kids[j].octant == octant }

  /** A mask with exactly the kids' bits. */
  ghost predicate MaskFor(mask: nat, kids: seq<Kid>) {
    mask < 256 && forall i: nat :: i < 8 ==> (Bit(mask, i) <==> HasKid(kids, i))
  }

  // ---- set-bit ordinals -----------------------------------------------------------------------

  /** The ordinal of a bit separates the kids below it from the rest. */
  lemma {:induction false} RankSplits(mask: nat, kids: seq<Kid>, i: nat)
    requires MaskFor(mask, kids) && Ordered(kids) && i <= 8
    ensures
      var r := Rank(mask, i);
      && r <= |kids| && (forall j :: 0 <= j < r ==> kids[j].octant < i) && (forall j :: r <= j < |kids| ==> kids[j].octant >= i)
  {
    hide Bit;
    if i > 0 {
      RankSplits(mask, kids, i - 1);
      var r := Rank(mask, i - 1);
      if Bit(mask, i - 1) {
        var j :| 0 <= j < |kids| && kids[j].octant == i - 1;
        assert r <= j;
        assert kids[r].octant >= i - 1;
        assert j == r;
      } else {
        assert !HasKid(kids, i - 1);
        forall j | r <= j < |kids|
          ensures kids[j].octant >= i
        {
          assert kids[j].octant != i - 1;
        }
      }
    }
  }

  /** So the kid in octant i, if there is one, is the kid with that ordinal. */
  lemma RankFindsKid(mask: nat, kids: seq<Kid>, i: nat)
    requires MaskFor(mask, kids) && Ordered(kids) && i < 8 && Bit(mask, i)
    ensures Rank(mask, i) < |kids| && kids[Rank(mask, i)].octant == i
  {
    hide Bit;
    RankSplits(mask, kids, i);
    RankSplits(mask, kids, i + 1);
  }

  lemma AllKids(mask: nat, kids: seq<Kid>)
    requires MaskFor(mask, kids) && Ordered(kids)
    ensures Rank(mask, 8) == |kids|
  {
    hide Rank;
    RankSplits(mask, kids, 8);
    if kids != [] {
      assert kids[|kids| - 1].octant < 8;
    }
  }

  lemma {:induction false} NoBits(mask: nat, n: nat)
    requires forall i: nat :: i < n ==> !Bit(mask, i)
    ensures Shifted(mask, n) * Morton.Pow2(n) == mask
  {
    if n > 0 {
      NoBits(mask, n - 1);
      var x := Shifted(mask, n - 1);
      assert !Bit(mask, n - 1);
      assert x == 2 * (x / 2);
      Regroup(x / 2, Morton.Pow2(n - 1));
    }
  }

  lemma Regroup(a: nat, p: nat)
    ensures a * (2 * p) == (2 * a) * p
  {
  }

  lemma EmptyMask(mask: nat, kids: seq<Kid>)
    requires MaskFor(mask, kids) && Ordered(kids)
    ensures mask == 0 <==> kids == []
  {
    if kids == [] {
      NoBits(mask, 8);
      assert Morton.Pow2(8) == 256;
    } else {
      assert Bit(mask, kids[0].octant);
      ZeroHasNoBits(kids[0].octant);
    }
  }

  lemma {:induction false} ZeroHasNoBits(i: nat)
    ensures Shifted(0, i) == 0
  {
    if i > 0 {
      ZeroHasNoBits(i - 1);
    }
  }

  // ---- a stored tree --------------------------------------------------------------------------

  /** A node and the octants that lead to it. */
  datatype Spot = Spot(path: seq<nat>, node: Octree)

  function KidSpots(s: Spot): (r: seq<Spot>)
    ensures |r| == |s.node.kids|
    ensures forall j :: 0 <= j < |r| ==> r[j] == Spot(s.path + [s.node.kids[j].octant], s.node.kids[j].node)
  {
    seq(|s.node.kids|, j requires 0 <= j < |s.node.kids| => Spot(s.path + [s.node.kids[j].octant], s.node.kids[j].node))
  }

  /** The level below: everybody's kids, one node's after the other's. */
  function Below(spots: seq<Spot>): seq<Spot> {
    if spots == [] then [] else Below(spots[..|spots| - 1]) + KidSpots(spots[|spots| - 1])
  }

  function LevelOf(u: Octree, l: nat): seq<Spot> {
    if l == 0 then [Spot([], u)] else Below(LevelOf(u, l - 1))
  }

  /** How many kids the first k nodes of a level have together. */
  function KidsBefore(spots: seq<Spot>, k: nat): nat
    requires k <= |spots|
  {
    if k == 0 then 0 else KidsBefore(spots, k - 1) + |spots[k - 1].node.kids|
  }

  lemma {:induction false} KidsBeforePrefix(spots: seq<Spot>, k: nat, n: nat)
    requires k <= n <= |spots|
    ensures KidsBefore(spots[..n], k) == KidsBefore(spots, k)
  {
    if k > 0 {
      KidsBeforePrefix(spots, k - 1, n);
    }
  }

  lemma {:induction false} BelowLength(spots: seq<Spot>)
    ensures |Below(spots)| == KidsBefore(spots, |spots|)
  {
    if spots != [] {
      BelowLength(spots[..|spots| - 1]);
      KidsBeforePrefix(spots, |spots| - 1, |spots| - 1);
    }
  }

  /** Where a node's j-th kid is on the level below. */
  lemma {:induction false} KidIndex(spots: seq<Spot>, k: nat, j: nat)
    requires k < |spots| && j < |spots[k].node.kids|
    ensures
      var at, kid := KidsBefore(spots, k) + j, spots[k].node.kids[j];
      at < |Below(spots)| && Below(spots)[at] == Spot(spots[k].path + [kid.octant], kid.node)
  {
    var init := spots[..|spots| - 1];
    BelowLength(init);
    if k < |spots| - 1 {
      KidIndex(init, k, j);
      KidsBeforePrefix(spots, k, |spots| - 1);
    } else {
      KidsBeforePrefix(spots, k, k);
    }
  }

  lemma {:induction false} LevelPaths(u: Octree, l: nat)
    ensures forall k :: 0 <= k < |LevelOf(u, l)| ==> |LevelOf(u, l)[k].path| == l
  {
    if l > 0 {
      LevelPaths(u, l - 1);
      BelowPaths(LevelOf(u, l - 1), l - 1);
    }
  }

  lemma {:induction false} BelowPaths(spots: seq<Spot>, l: nat)
    requires forall k :: 0 <= k < |spots| ==> |spots[k].path| == l
    ensures forall k :: 0 <= k < |Below(spots)| ==> |Below(spots)[k].path| == l + 1
  {
    if spots != [] {
      BelowPaths(spots[..|spots| - 1], l);
    }
  }

  /** Slot k of level l of a stored tree holds the k-th node of that level: its mask, its data, and the
      place of its first kid. */
  ghost predicate Slot(t: Tree, l: nat, k: nat, spots: seq<Spot>)
    requires k < |spots|
  {
    && l < |t.nodes| && k < |t.nodes[l]| && l < |t.skips| && k < |t.skips[l]| && l < |t.data| && k < |t.data[l]|
    && Ordered(spots[k].node.kids) && MaskFor(t.nodes[l][k], spots[k].node.kids)
    && t.data[l][k] == spots[k].node.data
    && t.skips[l][k] == KidsBefore(spots, k)
  }

  const LEVELS: nat := 5

  ghost predicate TreeEncodes(t: Tree, u: Octree, levels: nat) {
    && (forall l: nat, k: nat :: l < levels && k < |LevelOf(u, l)| ==> Slot(t, l, k, LevelOf(u, l)))
    && |t.subTrees| == |LevelOf(u, levels)|
  }

  /** A forest: the stored trees, the place in the octree of each tree's root, and the root tree's magnitude.
      That every id has one place says that it is referred to once. */
  datatype Forest = Forest(store: map<nat, Tree>, home: map<nat, seq<nat>>, magnitude: nat)
  {
    /** A tree of magnitude m spans 5 * (m + 1) levels; its root node's lod is the topmost of them. */
    function Lod(): int { LEVELS * (magnitude + 1) - 1 }
  }

  /** Tree `id` and the sub-trees below it encode the octree `u`, which hangs at the path `at`. A sub-tree's
      magnitude is one less than its parent's. */
  ghost predicate Encodes(f: Forest, id: nat, u: Octree, at: seq<nat>)
    decreases Height(u)
  {
    && id in f.store && f.store[id].id == id && id in f.home && f.home[id] == at
    && |at| % 5 == 0 && f.store[id].magnitude <= f.magnitude && |at| == LEVELS * (f.magnitude - f.store[id].magnitude)
    && TreeEncodes(f.store[id], u, LEVELS)
    && forall m: nat :: m < |LevelOf(u, LEVELS)| && m < |f.store[id].subTrees| ==>
         var s := LevelOf(u, LEVELS)[m];
         Height(s.node) < Height(u) && Encodes(f, f.store[id].subTrees[m], s.node, at + s.path)
  }

  // ---- finding a node ---------------------------------------------------------------------------

  /** The octree node at the end of a path. */
  function NodeAt(t: Octree, path: seq<nat>): Option<Octree> {
    if path == [] then Some(t)
    else match NodeAt(t, path[..|path| - 1])
      case None => None
      case Some(o) => KidAt(o, path[|path| - 1], |o.kids|)
  }

  function KidAt(o: Octree, octant: nat, n: nat): (r: Option<Octree>)
    requires n <= |o.kids|
  {
    if n == 0 then None else if o.kids[n - 1].octant == octant then Some(o.kids[n - 1].node) else KidAt(o, octant, n - 1)
  }

  lemma {:induction false} KidAtIs(o: Octree, j: nat, n: nat)
    requires j < n <= |o.kids| && Ordered(o.kids)
    ensures KidAt(o, o.kids[j].octant, n) == Some(o.kids[j].node)
  {
    if j < n - 1 {
      KidAtIs(o, j, n - 1);
    }
  }

  lemma {:induction false} NoKidAt(o: Octree, octant: nat, n: nat)
    requires n <= |o.kids| && !HasKid(o.kids, octant)
    ensures KidAt(o, octant, n) == None
  {
    if n > 0 {
      NoKidAt(o, octant, n - 1);
    }
  }

  lemma NodeAtKid(t: Octree, path: seq<nat>, o: Octree, j: nat)
    requires NodeAt(t, path) == Some(o) && Ordered(o.kids) && j < |o.kids|
    ensures NodeAt(t, path + [o.kids[j].octant]) == Some(o.kids[j].node)
  {
    assert (path + [o.kids[j].octant])[..|path|] == path;
    KidAtIs(o, j, |o.kids|);
  }

  /** A worklist entry sits on node `o`: its slot is the slot of that node in a tree that encodes the
      part `u` of the octree, and its path is where the node is. */
  ghost predicate SitsOn(f: Forest, p: Pending, u: Octree, at: seq<nat>, o: Octree) {
    var spots := LevelOf(u, p.InTree());
    && p.tree.id in f.store && p.tree == f.store[p.tree.id] && Encodes(f, p.tree.id, u, at)
    && p.skip < |spots| && spots[p.skip].node == o && p.path == at + spots[p.skip].path
  }

  /** What can be read off an entry's slot. */
  lemma SlotReads(f: Forest, p: Pending, u: Octree, at: seq<nat>, o: Octree)
    requires SitsOn(f, p, u, at, o)
    ensures MaskFor(p.Mask(), o.kids) && Ordered(o.kids) && p.Data() == o.data
    ensures p.tree.Skip(p.InTree(), p.skip) == KidsBefore(LevelOf(u, p.InTree()), p.skip)
    ensures p.Mask() == 0 <==> o.kids == []
    ensures p.tree.Lod(p.InTree()) == f.Lod() - |p.path|
  {
    hide LevelOf, MaskFor, Ordered, KidsBefore;
    var l := p.InTree();
    assert Slot(p.tree, l, p.skip, LevelOf(u, l));
    LevelPaths(u, l);
    EmptyMask(p.Mask(), o.kids);
  }

  lemma SubTreeEncodes(f: Forest, id: nat, u: Octree, at: seq<nat>, m: nat)
    requires Encodes(f, id, u, at) && m < |LevelOf(u, LEVELS)|
    ensures m < |f.store[id].subTrees|
    ensures var s := LevelOf(u, LEVELS)[m]; Encodes(f, f.store[id].subTrees[m], s.node, at + s.path)
  {
    hide LevelOf, Height;
  }

  lemma RootLevel(u: Octree)
    ensures LevelOf(u, 0) == [Spot([], u)]
  {
  }

  lemma NextLevel(u: Octree, l: nat)
    ensures LevelOf(u, l + 1) == Below(LevelOf(u, l))
  {
  }

  lemma EncodedTree(f: Forest, id: nat, u: Octree, at: seq<nat>)
    requires Encodes(f, id, u, at)
    ensures id in f.store && f.store[id].id == id && id in f.home && f.home[id] == at && |at| % 5 == 0
  {
  }

  /** The octree part and the place of the tree a child lives in: its own below the last level. */
  function RootFor(p: Pending, u: Octree, kid: Octree): Octree { if p.InTree() == 4 then kid else u }
  function HomeFor(p: Pending, at: seq<nat>, i: nat): seq<nat> { if p.InTree() == 4 then p.path + [i] else at }

  /** Where ChildAt looks for a child. */
  lemma ChildAtLooks(reg: Registry, q: Query, p: Pending, i: nat)
    ensures
      var slot := p.tree.Skip(p.InTree(), p.skip) + Rank(p.Mask(), i);
      var o := ChildAt(reg, q, p, i);
      && (o.Absent? <==> !Bit(p.Mask(), i))
      && (o.NotResident? ==> p.InTree() == 4 && o.id == p.tree.SubTree(slot) && o.id !in reg.trees)
      && (o.Child? ==> o.pending.path == p.path + [i])
      && (o.Child? && p.InTree() != 4 ==> o.pending.tree == p.tree && o.pending.skip == slot)
      && (o.Child? && p.InTree() == 4 ==>
            p.tree.SubTree(slot) in reg.trees && o.pending.tree == reg.trees[p.tree.SubTree(slot)] && o.pending.skip == 0)
  {
    hide Bit, Rank, ChildBox, Contains, Overlaps;
  }

  /** The slot of the kid in octant i, on the level below. */
  lemma KidSlot(f: Forest, p: Pending, u: Octree, at: seq<nat>, o: Octree, i: nat)
    requires SitsOn(f, p, u, at, o) && i < 8 && Bit(p.Mask(), i)
    ensures
      var j, below := Rank(p.Mask(), i), LevelOf(u, p.InTree() + 1);
      var slot := p.tree.Skip(p.InTree(), p.skip) + j;
      && j < |o.kids| && o.kids[j].octant == i
      && slot < |below| && below[slot].node == o.kids[j].node && at + below[slot].path == p.path + [i]
  {
    hide Encodes, LevelOf, Below, KidsBefore, Ordered, MaskFor, Rank, Bit;
    SlotReads(f, p, u, at, o);
    RankFindsKid(p.Mask(), o.kids, i);
    var spots := LevelOf(u, p.InTree());
    KidIndex(spots, p.skip, Rank(p.Mask(), i));
    NextLevel(u, p.InTree());
    assert at + (spots[p.skip].path + [i]) == p.path + [i];
  }

  lemma ChildInTree(f: Forest, p: Pending, u: Octree, at: seq<nat>, o: Octree, c: Pending, kid: Octree)
    requires SitsOn(f, p, u, at, o) && p.InTree() != 4
    requires c.tree == p.tree && |c.path| == |p.path| + 1 && c.skip < |LevelOf(u, p.InTree() + 1)|
    requires LevelOf(u, p.InTree() + 1)[c.skip].node == kid && at + LevelOf(u, p.InTree() + 1)[c.skip].path == c.path
    ensures SitsOn(f, c, u, at, kid)
  {
    hide Encodes, LevelOf;
    assert c.InTree() == p.InTree() + 1;
  }

  lemma ChildInSubTree(f: Forest, reg: Registry, p: Pending, u: Octree, at: seq<nat>, o: Octree, slot: nat, c: Pending)
    requires SitsOn(f, p, u, at, o) && p.InTree() == 4 && slot < |LevelOf(u, LEVELS)| && ResidentIn(reg, f)
    requires at + LevelOf(u, LEVELS)[slot].path == c.path && |c.path| == |p.path| + 1 && c.skip == 0
    requires p.tree.SubTree(slot) in reg.trees && c.tree == reg.trees[p.tree.SubTree(slot)]
    ensures SitsOn(f, c, LevelOf(u, LEVELS)[slot].node, c.path, LevelOf(u, LEVELS)[slot].node)
  {
    var kid := LevelOf(u, LEVELS)[slot].node;
    SubTreeEncodes(f, p.tree.id, u, at, slot);
    EncodedTree(f, p.tree.subTrees[slot], kid, c.path);
    hide Encodes, LevelOf;
    RootLevel(kid);
    assert c.InTree() == 0;
    assert c.path + [] == c.path;
  }

  /** THE ROUTING: the octant's bit is set exactly when the node has a kid there, and the slot computed
      from the bit's ordinal holds that kid, on the next level or at the root of a sub-tree. */
  lemma ChildIsKid(f: Forest, reg: Registry, q: Query, p: Pending, u: Octree, at: seq<nat>, o: Octree, i: nat)
    requires SitsOn(f, p, u, at, o) && i < 8 && ResidentIn(reg, f)
    ensures ChildAt(reg, q, p, i).Absent? <==> !HasKid(o.kids, i)
    ensures ChildAt(reg, q, p, i).Child? ==>
      var j := Rank(p.Mask(), i);
      && j < |o.kids| && o.kids[j].octant == i
      && SitsOn(f, ChildAt(reg, q, p, i).pending, RootFor(p, u, o.kids[j].node), HomeFor(p, at, i), o.kids[j].node)
    ensures ChildAt(reg, q, p, i).NotResident? ==> ChildAt(reg, q, p, i).id in f.store && ChildAt(reg, q, p, i).id !in reg.trees
  {
    hide Encodes, LevelOf, Below, KidsBefore, Ordered, MaskFor, Rank, Bit, ChildAt, SitsOn, HasKid;
    ChildAtLooks(reg, q, p, i);
    BitIsKid(f, p, u, at, o, i);
    if Bit(p.Mask(), i) {
      KidSlot(f, p, u, at, o, i);
      var r, slot := ChildAt(reg, q, p, i), p.tree.Skip(p.InTree(), p.skip) + Rank(p.Mask(), i);
      var kid := o.kids[Rank(p.Mask(), i)].node;
      if p.InTree() == 4 {
        StoredSubTree(f, p, u, at, o, slot);
        if r.Child? {
          ChildInSubTree(f, reg, p, u, at, o, slot, r.pending);
        }
      } else if r.Child? {
        ChildInTree(f, p, u, at, o, r.pending, kid);
      }
    }
  }

  lemma BitIsKid(f: Forest, p: Pending, u: Octree, at: seq<nat>, o: Octree, i: nat)
    requires SitsOn(f, p, u, at, o) && i < 8
    ensures Bit(p.Mask(), i) <==> HasKid(o.kids, i)
  {
    hide Encodes, LevelOf, Bit, HasKid;
    SlotReads(f, p, u, at, o);
  }

  lemma StoredSubTree(f: Forest, p: Pending, u: Octree, at: seq<nat>, o: Octree, slot: nat)
    requires SitsOn(f, p, u, at, o) && slot < |LevelOf(u, LEVELS)|
    ensures p.tree.SubTree(slot) in f.store
  {
    SubTreeEncodes(f, p.tree.id, u, at, slot);
    EncodedTree(f, p.tree.subTrees[slot], LevelOf(u, LEVELS)[slot].node, at + LevelOf(u, LEVELS)[slot].path);
  }

  /** Resident trees are stored trees. */
  ghost predicate ResidentIn(reg: Registry, f: Forest) {
    forall id :: id in reg.trees ==> id in f.store && reg.trees[id] == f.store[id]
  }

  // ---- every mode: the walk is always on the right node ------------------------------------------

  /** The entry sits on the octree's node at its own path. */
  ghost predicate Placed(f: Forest, t: Octree, p: Pending, u: Octree, at: seq<nat>, o: Octree) {
    SitsOn(f, p, u, at, o) && NodeAt(t, at) == Some(u) && NodeAt(t, p.path) == Some(o)
  }

  ghost predicate Routed(f: Forest, t: Octree, p: Pending) { exists u, at, o :: Placed(f, t, p, u, at, o) }

  lemma ChildIsPlaced(f: Forest, t: Octree, reg: Registry, q: Query, p: Pending, u: Octree, at: seq<nat>, o: Octree, i: nat)
    requires Placed(f, t, p, u, at, o) && i < 8 && ResidentIn(reg, f) && ChildAt(reg, q, p, i).Child?
    ensures
      var j := Rank(p.Mask(), i);
      && j < |o.kids| && o.kids[j].octant == i
      && Placed(f, t, ChildAt(reg, q, p, i).pending, RootFor(p, u, o.kids[j].node), HomeFor(p, at, i), o.kids[j].node)
  {
    hide ChildAt, Rank, NodeAt, SitsOn;
    ChildIsKid(f, reg, q, p, u, at, o, i);
    SlotReads(f, p, u, at, o);
    ChildAtLooks(reg, q, p, i);
    NodeAtKid(t, p.path, o, Rank(p.Mask(), i));
  }

  lemma {:induction false} ChildrenAreRouted(f: Forest, t: Octree, reg: Registry, q: Query, p: Pending, n: nat)
    requires Routed(f, t, p) && n <= 8 && ResidentIn(reg, f)
    ensures forall c :: c in ChildrenTo(reg, q, p, n) ==> Routed(f, t, c)
  {
    hide ChildAt, Placed, ResidentIn;
    if n > 0 {
      ChildrenAreRouted(f, t, reg, q, p, n - 1);
      if ChildAt(reg, q, p, n - 1).Child? {
        var u, at, o :| Placed(f, t, p, u, at, o);
        ChildIsPlaced(f, t, reg, q, p, u, at, o, n - 1);
      }
    }
  }

  ghost predicate AllRouted(f: Forest, t: Octree, ps: seq<Pending>) { forall p :: p in ps ==> Routed(f, t, p) }

  lemma {:induction false} PassIsRouted(f: Forest, t: Octree, reg: Registry, q: Query, current: seq<Pending>, s: State)
    requires ResidentIn(reg, f) && AllRouted(f, t, current) && AllRouted(f, t, s.stops) && AllRouted(f, t, s.next)
    ensures AllRouted(f, t, Pass(reg, q, current, s).stops) && AllRouted(f, t, Pass(reg, q, current, s).next)
  {
    hide Routed, ChildrenTo, MissingTo, Emit, ResidentIn;
    if current != [] {
      PassIsRouted(f, t, reg, q, current[..|current| - 1], s);
      ChildrenAreRouted(f, t, reg, q, current[|current| - 1], 8);
    }
  }

  lemma RootIsPlaced(f: Forest, t: Octree, p: Pending)
    requires Encodes(f, p.tree.id, t, []) && p.path == [] && p.skip == 0 && p.tree.id in f.store && p.tree == f.store[p.tree.id]
    ensures Placed(f, t, p, t, [], t)
  {
    hide Encodes, LevelOf;
    RootLevel(t);
    var e: seq<nat> := [];
    assert e + [] == e;
  }

  lemma {:induction false} WalkIsRouted(f: Forest, t: Octree, reg: Registry, q: Query, depth: nat)
    requires Encodes(f, reg.root, t, []) && ResidentIn(reg, f)
    ensures AllRouted(f, t, Levels(reg, q, depth).stops) && AllRouted(f, t, Levels(reg, q, depth).next)
  {
    hide Pass, Routed, Encodes;
    if depth == 0 {
      EncodedTree(f, reg.root, t, []);
      forall p | p in Levels(reg, q, 0).next
        ensures Routed(f, t, p)
      {
        RootIsPlaced(f, t, p);
        PlacedIsRouted(f, t, p, t, [], t);
      }
    } else {
      WalkIsRouted(f, t, reg, q, depth - 1);
      var s := Levels(reg, q, depth - 1);
      PassIsRouted(f, t, reg, q, s.next, s.(next := []));
    }
  }

  lemma PlacedIsRouted(f: Forest, t: Octree, p: Pending, u: Octree, at: seq<nat>, o: Octree)
    requires Placed(f, t, p, u, at, o)
    ensures Routed(f, t, p)
  {
    hide Placed;
  }

  /** What a routed entry reads is what the octree has at its path. */
  lemma RoutedReads(f: Forest, t: Octree, p: Pending)
    requires Routed(f, t, p)
    ensures NodeAt(t, p.path).Some?
    ensures
      var o := NodeAt(t, p.path).value;
      p.Data() == o.data && (p.Mask() == 0 <==> o.kids == []) && p.tree.Lod(p.InTree()) == f.Lod() - |p.path|
  {
    var u, at, o :| Placed(f, t, p, u, at, o);
    hide SitsOn, NodeAt;
    SlotReads(f, p, u, at, o);
  }

  /** In every mode, whatever is resident: each stop node and worklist entry reads the data, the kids and
      the level of detail of the octree node at its path. A slot computed without the bit's ordinal, or
      with an ordinal that skips pruned octants, would read a sibling's. */
  lemma WalkReadsTheOctree(f: Forest, t: Octree, reg: Registry, q: Query, depth: nat, p: Pending)
    requires Encodes(f, reg.root, t, []) && ResidentIn(reg, f)
    requires p in Levels(reg, q, depth).stops || p in Levels(reg, q, depth).next
    ensures NodeAt(t, p.path).Some?
    ensures
      var o := NodeAt(t, p.path).value;
      p.Data() == o.data && (p.Mask() == 0 <==> o.kids == []) && p.tree.Lod(p.InTree()) == f.Lod() - |p.path|
  {
    hide Encodes, Routed, Levels;
    WalkIsRouted(f, t, reg, q, depth);
    RoutedReads(f, t, p);
  }

  /** Where a node is stored. */
  datatype Address = Address(tree: nat, level: nat, skip: nat)

  function StoredAt(p: Pending): Address { Address(p.tree.id, p.InTree(), p.skip) }

  /** The address determines the path. */
  lemma SameAddressSamePath(f: Forest, t: Octree, p: Pending, p': Pending)
    requires Routed(f, t, p) && Routed(f, t, p') && StoredAt(p) == StoredAt(p')
    ensures p.path == p'.path
  {
    var u, at, o :| Placed(f, t, p, u, at, o);
    var u', at', o' :| Placed(f, t, p', u', at', o');
    EncodedTree(f, p.tree.id, u, at);
    EncodedTree(f, p.tree.id, u', at');
    hide Encodes, LevelOf, NodeAt;
  }

  /** In all three modes the walk stops at no stored node twice. */
  lemma StopsAreDistinctStoredNodes(f: Forest, t: Octree, reg: Registry, q: Query, depth: nat, i: nat, j: nat)
    requires Encodes(f, reg.root, t, []) && ResidentIn(reg, f)
    requires i < |Levels(reg, q, depth).stops| && j < |Levels(reg, q, depth).stops| && i != j
    ensures StoredAt(Levels(reg, q, depth).stops[i]) != StoredAt(Levels(reg, q, depth).stops[j])
  {
    hide Encodes, Routed, Levels;
    WalkIsRouted(f, t, reg, q, depth);
    SingleFrontier(reg, q, depth, i, j);
    var p, p' := Levels(reg, q, depth).stops[i], Levels(reg, q, depth).stops[j];
    if StoredAt(p) == StoredAt(p') {
      SameAddressSamePath(f, t, p, p');
      assert false;
    }
  }

  // ---- the recursive query over the octree ---------------------------------------------------------

  /** A selected unit, as a query over the octree describes it. */
  datatype Unit = Unit(path: seq<nat>, lod: int, subset: Subset, cell: Box, tight: Box, isLeaf: bool, isLod: bool, fullyInside: bool)

  /** A place in the octree: the node's cell, whether it lies inside the query box, its path and lod. */
  datatype Place = Place(cell: Box, inside: bool, path: seq<nat>, lod: int)

  function PlaceOfKid(q: Query, w: Place, octant: nat): Place {
    var cell := ChildBox(w.cell, octant);
    Place(cell, w.inside || Contains(q.box, cell), w.path + [octant], w.lod - 1)
  }

  predicate Wants(q: Query, o: Octree, s: Subset) {
    if q.mode.Full? then s.leafData else o.kids == [] || !s.leafData
  }

  function UnitsOf(q: Query, o: Octree, w: Place, subsets: seq<Subset>): seq<Unit> {
    if subsets == [] then []
    else
      var init, s := subsets[..|subsets| - 1], subsets[|subsets| - 1];
      UnitsOf(q, o, w, init) +
      (if Wants(q, o, s)
       then [Unit(w.path, w.lod, s, w.cell, o.data.tight, o.kids == [], !s.leafData, w.inside || Contains(q.box, o.data.tight))]
       else [])
  }

  /** The query: stop at leaves and at the level asked for, otherwise ask every kid whose cell meets the
      box. No worklist, no masks, no slots, no depth cap. */
  function Ask(q: Query, o: Octree, w: Place): seq<Unit>
    decreases o, |o.kids| + 1
  {
    if o.kids == [] || (q.mode.Level? && w.lod <= q.mode.lod)
    then if !q.whole && !Overlaps(o.data.tight, q.box) then [] else UnitsOf(q, o, w, o.data.subsets)
    else AskKids(q, o, w, |o.kids|)
  }

  function AskKids(q: Query, o: Octree, w: Place, n: nat): seq<Unit>
    requires n <= |o.kids|
    decreases o, n
  {
    if n == 0 then []
    else
      var k := PlaceOfKid(q, w, o.kids[n - 1].octant);
      AskKids(q, o, w, n - 1) + (if !q.whole && !Overlaps(k.cell, q.box) then [] else Ask(q, o.kids[n - 1].node, k))
  }

  function UnitOf(n: Node): Unit { Unit(n.path, n.lod, n.subset, n.cell, n.tight, n.isLeaf, n.isLod, n.fullyInside) }

  function Units(nodes: seq<Node>): seq<Unit> {
    if nodes == [] then [] else Units(nodes[..|nodes| - 1]) + [UnitOf(nodes[|nodes| - 1])]
  }

  lemma {:induction false} UnitsAppend(a: seq<Node>, b: seq<Node>)
    ensures Units(a + b) == Units(a) + Units(b)
    decreases |b|
  {
    if b == [] {
      assert a + b == a;
    } else {
      assert (a + b)[..|a + b| - 1] == a + b[..|b| - 1];
      UnitsAppend(a, b[..|b| - 1]);
    }
  }

  lemma {:induction false} EmitAllAppend(q: Query, a: seq<Pending>, b: seq<Pending>)
    ensures EmitAll(q, a + b) == EmitAll(q, a) + EmitAll(q, b)
    decreases |b|
  {
    hide Emit;
    if b == [] {
      assert a + b == a;
    } else {
      assert (a + b)[..|a + b| - 1] == a + b[..|b| - 1];
      EmitAllAppend(q, a, b[..|b| - 1]);
    }
  }

  /** The units a list of entries emits. */
  function Output(q: Query, ps: seq<Pending>): seq<Unit> { Units(EmitAll(q, ps)) }

  lemma OutputAppend(q: Query, a: seq<Pending>, b: seq<Pending>)
    ensures Output(q, a + b) == Output(q, a) + Output(q, b)
  {
    EmitAllAppend(q, a, b);
    UnitsAppend(EmitAll(q, a), EmitAll(q, b));
  }

  lemma OutputOne(q: Query, p: Pending)
    ensures Output(q, [p]) == Units(Emit(q, p))
  {
    hide Emit;
    assert [p][..0] == [];
    assert EmitAll(q, [p]) == [] + Emit(q, p) == Emit(q, p);
  }

  /** An entry and a place agree. */
  ghost predicate At(f: Forest, p: Pending, w: Place) {
    w == Place(p.cell, p.inside, p.path, f.Lod() - |p.path|)
  }

  lemma {:induction false} EmitMatches(f: Forest, q: Query, p: Pending, u: Octree, at: seq<nat>, o: Octree, w: Place, subsets: seq<Subset>)
    requires SitsOn(f, p, u, at, o) && At(f, p, w)
    ensures Units(EmitSubsets(q, p, subsets)) == UnitsOf(q, o, w, subsets)
    decreases |subsets|
  {
    hide SitsOn, Contains, Units;
    SlotReads(f, p, u, at, o);
    if subsets == [] {
      NoUnits();
    } else {
      var init, s := subsets[..|subsets| - 1], subsets[|subsets| - 1];
      EmitMatches(f, q, p, u, at, o, w, init);
      if Takes(q, p, s) {
        UnitsAppend(EmitSubsets(q, p, init), [MakeNode(q, p, s)]);
        UnitsOne(MakeNode(q, p, s));
      } else {
        assert EmitSubsets(q, p, subsets) == EmitSubsets(q, p, init);
      }
    }
  }

  lemma NoUnits()
    ensures Units([]) == []
  {
  }

  lemma UnitsOne(n: Node)
    ensures Units([n]) == [UnitOf(n)]
  {
    assert [n][..0] == [];
    assert Units([n]) == [] + [UnitOf(n)];
  }

  lemma StopMatches(f: Forest, q: Query, p: Pending, u: Octree, at: seq<nat>, o: Octree, w: Place)
    requires SitsOn(f, p, u, at, o) && At(f, p, w)
    ensures Units(Emit(q, p)) == if !q.whole && !Overlaps(o.data.tight, q.box) then [] else UnitsOf(q, o, w, o.data.subsets)
  {
    hide SitsOn, Overlaps, EmitSubsets;
    SlotReads(f, p, u, at, o);
    EmitMatches(f, q, p, u, at, o, w, o.data.subsets);
  }

  /** Everything stored is resident. */
  ghost predicate AllResident(reg: Registry, f: Forest) { reg.trees == f.store }

  /** What the recursion over stored entries finds below an entry is the query's answer there. */
  lemma {:induction false} FrontierMatches(f: Forest, reg: Registry, q: Query, p: Pending, u: Octree, at: seq<nat>, o: Octree,
                                           w: Place, depth: nat)
    requires SitsOn(f, p, u, at, o) && At(f, p, w) && AllResident(reg, f) && !q.mode.PointBudget? && Height(o) <= depth
    ensures Output(q, Frontier(reg, q, p, depth)) == Ask(q, o, w)
    decreases depth, 9
  {
    hide SitsOn, Emit, Output, ChildAt, ChildrenTo, Rank, Height, Units, UnitsOf, Overlaps;
    SlotReads(f, p, u, at, o);
    if Descends(q, p, 0) {
      AllKids(p.Mask(), o.kids);
      HeightOfKids(o);
      KidsMatch(f, reg, q, p, u, at, o, w, depth, 8);
    } else {
      OutputOne(q, p);
      StopMatches(f, q, p, u, at, o, w);
    }
  }

  lemma HeightOfKids(o: Octree)
    ensures forall j :: 0 <= j < |o.kids| ==> Height(o.kids[j].node) < Height(o)
  {
    forall j | 0 <= j < |o.kids|
      ensures Height(o.kids[j].node) < Height(o)
    {
      KidIsLower(o, j, |o.kids|);
    }
  }

  lemma {:induction false} KidsMatch(f: Forest, reg: Registry, q: Query, p: Pending, u: Octree, at: seq<nat>, o: Octree,
                                     w: Place, depth: nat, n: nat)
    requires SitsOn(f, p, u, at, o) && At(f, p, w) && AllResident(reg, f) && !q.mode.PointBudget? && depth > 0 && n <= 8
    requires forall j :: 0 <= j < |o.kids| ==> Height(o.kids[j].node) <= depth - 1
    ensures Rank(p.Mask(), n) <= |o.kids|
    ensures Output(q, FrontierAll(reg, q, ChildrenTo(reg, q, p, n), depth - 1)) == AskKids(q, o, w, Rank(p.Mask(), n))
    decreases depth, n
  {
    hide SitsOn, At, Output, ChildAt, ChildPart, Height, Ask, FrontierAll, Rank, Bit, MaskFor, Ordered, AllResident;
    if n == 0 {
      RankOfNone(p.Mask());
      NoOutput(reg, q, depth - 1);
    } else {
      KidsMatch(f, reg, q, p, u, at, o, w, depth, n - 1);
      OctantMatches(f, reg, q, p, u, at, o, w, depth, n - 1);
      var before, more := ChildrenTo(reg, q, p, n - 1), ChildPart(ChildAt(reg, q, p, n - 1));
      ChildrenSnoc(reg, q, p, n - 1);
      FrontierAllAppend(reg, q, before, more, depth - 1);
      OutputAppend(q, FrontierAll(reg, q, before, depth - 1), FrontierAll(reg, q, more, depth - 1));
    }
  }

  lemma RankOfNone(mask: nat)
    ensures Rank(mask, 0) == 0
  {
  }

  lemma ChildrenSnoc(reg: Registry, q: Query, p: Pending, n: nat)
    ensures ChildrenTo(reg, q, p, n + 1) == ChildrenTo(reg, q, p, n) + ChildPart(ChildAt(reg, q, p, n))
  {
    hide ChildAt;
  }

  /** One octant more on both sides. */
  lemma OctantMatches(f: Forest, reg: Registry, q: Query, p: Pending, u: Octree, at: seq<nat>, o: Octree, w: Place, depth: nat, i: nat)
    requires SitsOn(f, p, u, at, o) && At(f, p, w) && AllResident(reg, f) && !q.mode.PointBudget? && depth > 0 && i < 8
    requires Rank(p.Mask(), i) <= |o.kids| && forall j :: 0 <= j < |o.kids| ==> Height(o.kids[j].node) <= depth - 1
    ensures Rank(p.Mask(), i + 1) <= |o.kids|
    ensures AskKids(q, o, w, Rank(p.Mask(), i + 1))
            == AskKids(q, o, w, Rank(p.Mask(), i)) + Output(q, FrontierAll(reg, q, ChildPart(ChildAt(reg, q, p, i)), depth - 1))
    decreases depth, i
  {
    hide SitsOn, Output, ChildAt, Height, Ask, FrontierAll, Overlaps, ChildBox, Contains, Bit, MaskFor, Ordered;
    SlotReads(f, p, u, at, o);
    ChildAtLooks(reg, q, p, i);
    ChildAtCell(reg, q, p, i);
    NoOutput(reg, q, depth - 1);
    match ChildAt(reg, q, p, i)
    case Absent =>
    case Pruned => RankFindsKid(p.Mask(), o.kids, i);
    case NotResident(_) =>
      ChildIsKid(f, reg, q, p, u, at, o, i);
      assert false;
    case Child(c) =>
      ChildIsKid(f, reg, q, p, u, at, o, i);
      var kid := o.kids[Rank(p.Mask(), i)].node;
      FrontierMatches(f, reg, q, c, RootFor(p, u, kid), HomeFor(p, at, i), kid, PlaceOfKid(q, w, i), depth - 1);
      FrontierOne(reg, q, c, depth - 1);
  }

  lemma NoOutput(reg: Registry, q: Query, depth: nat)
    ensures Output(q, FrontierAll(reg, q, [], depth)) == []
  {
  }

  lemma FrontierOne(reg: Registry, q: Query, p: Pending, depth: nat)
    ensures FrontierAll(reg, q, [p], depth) == Frontier(reg, q, p, depth)
  {
    hide Frontier;
    assert [p][..0] == [];
    assert FrontierAll(reg, q, [p], depth) == [] + Frontier(reg, q, p, depth);
  }

  lemma ChildAtCell(reg: Registry, q: Query, p: Pending, i: nat)
    ensures
      var o, cell := ChildAt(reg, q, p, i), ChildBox(p.cell, i);
      && (o.Pruned? ==> Bit(p.Mask(), i) && !q.whole && !Overlaps(cell, q.box))
      && (o.Child? ==> Bit(p.Mask(), i) && (q.whole || Overlaps(cell, q.box)))
      && (o.Child? ==> o.pending.cell == cell && o.pending.inside == (p.inside || Contains(q.box, cell)))
  {
    hide Bit, Rank, ChildBox, Contains, Overlaps;
  }

  // ---- the walk is the query ------------------------------------------------------------------------

  lemma OutputWithout(q: Query, b: seq<Pending>, j: nat)
    requires j < |b|
    ensures multiset(Output(q, b)) == multiset(Output(q, b[..j] + b[j + 1..])) + multiset(Output(q, [b[j]]))
  {
    hide Output;
    assert b == b[..j] + ([b[j]] + b[j + 1..]);
    OutputAppend(q, b[..j], [b[j]] + b[j + 1..]);
    OutputAppend(q, [b[j]], b[j + 1..]);
    OutputAppend(q, b[..j], b[j + 1..]);
  }

  lemma MultisetWithout<T>(b: seq<T>, j: nat)
    requires j < |b|
    ensures multiset(b) == multiset(b[..j] + b[j + 1..]) + multiset{b[j]}
  {
    assert b == b[..j] + ([b[j]] + b[j + 1..]);
  }

  lemma RemoveOne<T>(a: seq<T>, b: seq<T>) returns (j: nat)
    requires a != [] && multiset(a) == multiset(b)
    ensures j < |b| && b[j] == a[|a| - 1] && multiset(a[..|a| - 1]) == multiset(b[..j] + b[j + 1..])
  {
    var n := |a| - 1;
    assert a[n] in multiset(b);
    j :| 0 <= j < |b| && b[j] == a[n];
    MultisetWithout(a, n);
    MultisetWithout(b, j);
    assert a[..n] + a[n + 1..] == a[..n];
    SameRemainder(multiset(a[..n]), multiset(b[..j] + b[j + 1..]), multiset{a[n]});
  }

  lemma SameRemainder<T>(x: multiset<T>, y: multiset<T>, z: multiset<T>)
    requires x + z == y + z
    ensures x == y
  {
    assert x == (x + z) - z && y == (y + z) - z;
  }

  /** The order of the entries does not change which units they emit. */
  lemma {:induction false} OutputOfBag(q: Query, a: seq<Pending>, b: seq<Pending>)
    requires multiset(a) == multiset(b)
    ensures multiset(Output(q, a)) == multiset(Output(q, b))
    decreases |a|
  {
    hide Output;
    if a == [] {
      assert |b| == |multiset(b)| == 0;
    } else {
      var init, x := a[..|a| - 1], a[|a| - 1];
      var j := RemoveOne(a, b);
      OutputOfBag(q, init, b[..j] + b[j + 1..]);
      OutputWithout(q, b, j);
      assert a == init + [x];
      OutputAppend(q, init, [x]);
    }
  }

  /** The query on the whole octree; an empty root or one outside the box has no answer. */
  function AskRoot(q: Query, t: Octree, cell: Box, lod: int): seq<Unit> {
    if t.data.subsets == [] || (!q.whole && !Overlaps(cell, q.box)) then []
    else Ask(q, t, Place(cell, q.whole || Contains(q.box, cell), [], lod))
  }

  lemma StartMatches(f: Forest, t: Octree, reg: Registry, q: Query, depth: nat)
    requires Encodes(f, reg.root, t, []) && AllResident(reg, f) && reg.size != 0 && !q.mode.PointBudget? && Height(t) <= depth
    ensures reg.root in f.store
    ensures Output(q, FrontierAll(reg, q, Start(reg, q).next, depth)) == AskRoot(q, t, f.store[reg.root].cell, f.Lod())
  {
    hide Encodes, Output, FrontierAll, Ask, Height, Overlaps, Contains, LevelOf;
    EncodedTree(f, reg.root, t, []);
    var root := f.store[reg.root];
    var p := Pending(root, 0, root.cell, q.whole || Contains(q.box, root.cell), []);
    RootIsPlaced(f, t, p);
    SlotReads(f, p, t, [], t);
    assert root.Data(0, 0) == t.data;
    NoOutput(reg, q, depth);
    if Start(reg, q).next != [] {
      FrontierOne(reg, q, p, depth);
      FrontierMatches(f, reg, q, p, t, [], t, Place(p.cell, p.inside, [], f.Lod()), depth);
    }
  }

  /** THE WALK IS THE QUERY. Over a forest that encodes an octree no higher than the walk is deep, a walk
      that misses no tree selects exactly the units of the recursive query over the octree, each as often. */
  lemma WalkIsTheOctreeQuery(f: Forest, t: Octree, reg: Registry, q: Query, depth: nat)
    requires Encodes(f, reg.root, t, []) && ResidentIn(reg, f) && reg.size != 0 && !q.mode.PointBudget? && Height(t) <= depth
    requires Levels(reg, q, depth).missing == []
    ensures reg.root in f.store
    ensures multiset(Units(Levels(reg, q, depth).nodes)) == multiset(AskRoot(q, t, f.store[reg.root].cell, f.Lod()))
  {
    hide Encodes, Levels, FrontierAll, Start, Units, EmitAll, AskRoot, Height;
    var all := reg.(trees := f.store);
    CompleteLevelsAreFinal(reg, all, q, depth);
    WalkEmitsItsStops(all, q, depth);
    WalkRefinesRecursion(all, q, depth);
    OutputOfBag(q, Levels(all, q, depth).stops, FrontierAll(all, q, Start(all, q).next, depth));
    StartMatches(f, t, all, q, depth);
  }

  // ---- every mode: the level-order query --------------------------------------------------------------

  /** The octree query level by level, with a running total that may stop the descent. In the other two
      modes the total has no say. */
  datatype Item = Item(o: Octree, w: Place)
  datatype Found = Found(units: seq<Unit>, total: nat, next: seq<Item>)

  predicate Opens(q: Query, x: Item, total: nat) {
    && x.o.kids != [] && (q.mode.Level? ==> x.w.lod > q.mode.lod) && (q.mode.PointBudget? ==> total < q.mode.maxPoints)
  }

  function KidItems(q: Query, x: Item, n: nat): seq<Item>
    requires n <= |x.o.kids|
  {
    if n == 0 then []
    else
      var k := PlaceOfKid(q, x.w, x.o.kids[n - 1].octant);
      KidItems(q, x, n - 1) + (if !q.whole && !Overlaps(k.cell, q.box) then [] else [Item(x.o.kids[n - 1].node, k)])
  }

  function StopUnits(q: Query, x: Item): seq<Unit> {
    if !q.whole && !Overlaps(x.o.data.tight, q.box) then [] else UnitsOf(q, x.o, x.w, x.o.data.subsets)
  }

  function UnitPoints(units: seq<Unit>): nat {
    if units == [] then 0 else UnitPoints(units[..|units| - 1]) + units[|units| - 1].subset.count
  }

  function Look(q: Query, x: Item, s: Found): Found {
    if Opens(q, x, s.total) then s.(next := s.next + KidItems(q, x, |x.o.kids|))
    else s.(units := s.units + StopUnits(q, x), total := s.total + UnitPoints(StopUnits(q, x)))
  }

  function LookAll(q: Query, xs: seq<Item>, s: Found): Found {
    if xs == [] then s else Look(q, xs[|xs| - 1], LookAll(q, xs[..|xs| - 1], s))
  }

  function LevelOrder(q: Query, start: seq<Item>, depth: nat): Found {
    if depth == 0 then Found([], 0, start)
    else var s := LevelOrder(q, start, depth - 1); LookAll(q, s.next, s.(next := []))
  }

  /** A worklist entry stands for an octree node at its place. */
  ghost predicate StandsFor(f: Forest, p: Pending, x: Item) {
    At(f, p, x.w) && exists u, at :: SitsOn(f, p, u, at, x.o)
  }

  ghost predicate AllStand(f: Forest, ps: seq<Pending>, xs: seq<Item>) {
    |ps| == |xs| && forall k :: 0 <= k < |ps| ==> StandsFor(f, ps[k], xs[k])
  }

  ghost predicate Agrees(f: Forest, s: State, r: Found) {
    Units(s.nodes) == r.units && s.total == r.total && AllStand(f, s.next, r.next)
  }

  lemma {:induction false} PointsOfUnits(nodes: seq<Node>)
    ensures UnitPoints(Units(nodes)) == Points(nodes)
    decreases |nodes|
  {
    if nodes != [] {
      PointsOfUnits(nodes[..|nodes| - 1]);
      assert Units(nodes)[..|Units(nodes)| - 1] == Units(nodes[..|nodes| - 1]);
    }
  }

  lemma KidStands(f: Forest, reg: Registry, q: Query, p: Pending, u: Octree, at: seq<nat>, x: Item, i: nat)
    requires SitsOn(f, p, u, at, x.o) && At(f, p, x.w) && AllResident(reg, f) && i < 8 && ChildAt(reg, q, p, i).Child?
    ensures Rank(p.Mask(), i) < |x.o.kids| && x.o.kids[Rank(p.Mask(), i)].octant == i
    ensures AllStand(f, [ChildAt(reg, q, p, i).pending], [Item(x.o.kids[Rank(p.Mask(), i)].node, PlaceOfKid(q, x.w, i))])
  {
    hide SitsOn, ChildAt, Overlaps, ChildBox, Contains, Bit, Rank;
    ChildIsKid(f, reg, q, p, u, at, x.o, i);
    ChildAtLooks(reg, q, p, i);
    ChildAtCell(reg, q, p, i);
    assert StandsFor(f, ChildAt(reg, q, p, i).pending, Item(x.o.kids[Rank(p.Mask(), i)].node, PlaceOfKid(q, x.w, i)));
  }

  function ChildPart(o: Octant): seq<Pending> { match o case Child(c) => [c] case _ => [] }

  /** One octant more on both sides. */
  lemma OctantStands(f: Forest, reg: Registry, q: Query, p: Pending, u: Octree, at: seq<nat>, x: Item, i: nat) returns (items: seq<Item>)
    requires SitsOn(f, p, u, at, x.o) && At(f, p, x.w) && AllResident(reg, f) && i < 8
    requires Rank(p.Mask(), i) <= |x.o.kids|
    ensures AllStand(f, ChildPart(ChildAt(reg, q, p, i)), items) && Rank(p.Mask(), i + 1) <= |x.o.kids|
    ensures KidItems(q, x, Rank(p.Mask(), i + 1)) == KidItems(q, x, Rank(p.Mask(), i)) + items
  {
    hide SitsOn, ChildAt, Overlaps, ChildBox, Contains, Bit, MaskFor, Ordered, StandsFor;
    SlotReads(f, p, u, at, x.o);
    ChildAtLooks(reg, q, p, i);
    ChildAtCell(reg, q, p, i);
    var r := Rank(p.Mask(), i);
    items := [];
    match ChildAt(reg, q, p, i)
    case Absent =>
    case Pruned => RankFindsKid(p.Mask(), x.o.kids, i);
    case NotResident(_) =>
      ChildIsKid(f, reg, q, p, u, at, x.o, i);
      assert false;
    case Child(c) =>
      KidStands(f, reg, q, p, u, at, x, i);
      items := [Item(x.o.kids[r].node, PlaceOfKid(q, x.w, i))];
  }

  lemma {:induction false} ChildrenStand(f: Forest, reg: Registry, q: Query, p: Pending, u: Octree, at: seq<nat>, x: Item, n: nat)
    requires SitsOn(f, p, u, at, x.o) && At(f, p, x.w) && AllResident(reg, f) && n <= 8
    ensures Rank(p.Mask(), n) <= |x.o.kids|
    ensures AllStand(f, ChildrenTo(reg, q, p, n), KidItems(q, x, Rank(p.Mask(), n)))
  {
    if n > 0 {
      assert ChildrenTo(reg, q, p, n) == ChildrenTo(reg, q, p, n - 1) + ChildPart(ChildAt(reg, q, p, n - 1));
      hide *;
      ChildrenStand(f, reg, q, p, u, at, x, n - 1);
      var items := OctantStands(f, reg, q, p, u, at, x, n - 1);
      StandAppend(f, ChildrenTo(reg, q, p, n - 1), KidItems(q, x, Rank(p.Mask(), n - 1)), ChildPart(ChildAt(reg, q, p, n - 1)), items);
    }
  }

  lemma Seat(f: Forest, p: Pending, x: Item) returns (u: Octree, at: seq<nat>)
    requires StandsFor(f, p, x)
    ensures SitsOn(f, p, u, at, x.o) && At(f, p, x.w)
  {
    hide SitsOn;
    u, at :| SitsOn(f, p, u, at, x.o);
  }

  lemma StandAppend(f: Forest, ps: seq<Pending>, xs: seq<Item>, more: seq<Pending>, items: seq<Item>)
    requires AllStand(f, ps, xs) && AllStand(f, more, items)
    ensures AllStand(f, ps + more, xs + items)
  {
    hide StandsFor;
  }

  lemma OpensAlike(f: Forest, q: Query, p: Pending, u: Octree, at: seq<nat>, x: Item, total: nat)
    requires SitsOn(f, p, u, at, x.o) && At(f, p, x.w)
    ensures Descends(q, p, total) <==> Opens(q, x, total)
  {
    hide SitsOn;
    SlotReads(f, p, u, at, x.o);
  }

  lemma AllChildrenStand(f: Forest, reg: Registry, q: Query, p: Pending, u: Octree, at: seq<nat>, x: Item)
    requires SitsOn(f, p, u, at, x.o) && At(f, p, x.w) && AllResident(reg, f)
    ensures AllStand(f, ChildrenTo(reg, q, p, 8), KidItems(q, x, |x.o.kids|))
  {
    hide SitsOn, ChildrenTo, KidItems, AllStand, Rank, MaskFor, Ordered;
    SlotReads(f, p, u, at, x.o);
    AllKids(p.Mask(), x.o.kids);
    ChildrenStand(f, reg, q, p, u, at, x, 8);
  }

  lemma VisitAgrees(f: Forest, reg: Registry, q: Query, p: Pending, s: State, x: Item, r: Found)
    requires AllResident(reg, f) && Agrees(f, s, r) && StandsFor(f, p, x)
    ensures Agrees(f, Visit(reg, q, p, s), Look(q, x, r))
  {
    hide SitsOn, ChildrenTo, MissingTo, Emit, KidItems, StandsFor, Units, UnitPoints, Points, StopUnits, AllStand, Descends, Opens, At;
    var u, at := Seat(f, p, x);
    OpensAlike(f, q, p, u, at, x, s.total);
    if Descends(q, p, s.total) {
      AllChildrenStand(f, reg, q, p, u, at, x);
      StandAppend(f, s.next, r.next, ChildrenTo(reg, q, p, 8), KidItems(q, x, |x.o.kids|));
    } else {
      StopUnitsMatch(f, q, p, u, at, x);
      UnitsAppend(s.nodes, Emit(q, p));
      PointsOfUnits(Emit(q, p));
    }
  }

  lemma StopUnitsMatch(f: Forest, q: Query, p: Pending, u: Octree, at: seq<nat>, x: Item)
    requires SitsOn(f, p, u, at, x.o) && At(f, p, x.w)
    ensures Units(Emit(q, p)) == StopUnits(q, x)
  {
    hide SitsOn, Units, Emit, UnitsOf, Overlaps, At;
    StopMatches(f, q, p, u, at, x.o, x.w);
  }

  lemma {:induction false} PassAgrees(f: Forest, reg: Registry, q: Query, current: seq<Pending>, s: State, xs: seq<Item>, r: Found)
    requires AllResident(reg, f) && Agrees(f, s, r) && AllStand(f, current, xs)
    ensures Agrees(f, Pass(reg, q, current, s), LookAll(q, xs, r))
    decreases |current|
  {
    hide Agrees, StandsFor, Visit, Look;
    if current != [] {
      var n := |current| - 1;
      PassAgrees(f, reg, q, current[..n], s, xs[..n], r);
      VisitAgrees(f, reg, q, current[n], Pass(reg, q, current[..n], s), xs[n], LookAll(q, xs[..n], r));
    }
  }

  lemma {:induction false} LevelsAgree(f: Forest, reg: Registry, q: Query, start: seq<Item>, depth: nat)
    requires AllResident(reg, f) && AllStand(f, Start(reg, q).next, start) && Start(reg, q).nodes == [] && Start(reg, q).total == 0
    ensures Agrees(f, Levels(reg, q, depth), LevelOrder(q, start, depth))
  {
    hide Pass, LookAll, StandsFor;
    if depth > 0 {
      LevelsAgree(f, reg, q, start, depth - 1);
      var s, r := Levels(reg, q, depth - 1), LevelOrder(q, start, depth - 1);
      PassAgrees(f, reg, q, s.next, s.(next := []), r.next, r.(next := []));
    }
  }

  /** The query's first item, if the root has data and meets the box. */
  function StartItems(q: Query, t: Octree, cell: Box, lod: int): seq<Item> {
    if t.data.subsets == [] || (!q.whole && !Overlaps(cell, q.box)) then []
    else [Item(t, Place(cell, q.whole || Contains(q.box, cell), [], lod))]
  }

  lemma StartStands(f: Forest, t: Octree, reg: Registry, q: Query)
    requires Encodes(f, reg.root, t, []) && AllResident(reg, f) && reg.size != 0
    ensures reg.root in f.store && Start(reg, q).nodes == [] && Start(reg, q).total == 0
    ensures AllStand(f, Start(reg, q).next, StartItems(q, t, f.store[reg.root].cell, f.Lod()))
  {
    hide Encodes, Overlaps, Contains, LevelOf;
    EncodedTree(f, reg.root, t, []);
    var root := f.store[reg.root];
    var p := Pending(root, 0, root.cell, q.whole || Contains(q.box, root.cell), []);
    RootIsPlaced(f, t, p);
    SlotReads(f, p, t, [], t);
    assert root.Data(0, 0) == t.data;
    assert SitsOn(f, p, t, [], t);
  }

  /** In every mode, the point budget included: over a forest that encodes an octree, a walk that misses no
      tree selects exactly the units of the level-order query over the octree, in the same order, with the
      same running total. */
  lemma WalkIsTheLevelOrderQuery(f: Forest, t: Octree, reg: Registry, q: Query, depth: nat)
    requires Encodes(f, reg.root, t, []) && ResidentIn(reg, f) && reg.size != 0 && Levels(reg, q, depth).missing == []
    ensures reg.root in f.store
    ensures
      var r := LevelOrder(q, StartItems(q, t, f.store[reg.root].cell, f.Lod()), depth);
      Units(Levels(reg, q, depth).nodes) == r.units && Levels(reg, q, depth).total == r.total
  {
    hide Encodes, Levels, LevelOrder, Start, StartItems, Units, AllStand;
    var all := reg.(trees := f.store);
    CompleteLevelsAreFinal(reg, all, q, depth);
    StartStands(f, t, all, q);
    LevelsAgree(f, all, q, StartItems(q, t, f.store[reg.root].cell, f.Lod()), depth);
  }

  // ---- a forest with a gap in its mask ------------------------------------------------------------------

  function Leaf(d: Collection): Octree { Octree(d, []) }

  /** A root with kids in octants 2 and 5: the second kid is in slot 1, not in slot 5. */
  function Gapped(d: Collection, a: Collection, b: Collection): Octree {
    Octree(d, [Kid(2, Leaf(a)), Kid(5, Leaf(b))])
  }

  function GappedTree(d: Collection, a: Collection, b: Collection): Tree {
    Tree(0, 0, d.tight, [[36], [0, 0]], [[0], [0, 0]], [[d], [a, b]], [])
  }

  lemma MaskOfGapped(a: Octree, b: Octree)
    ensures MaskFor(36, [Kid(2, a), Kid(5, b)]) && MaskFor(0, [])
  {
    var kids := [Kid(2, a), Kid(5, b)];
    assert kids[0].octant == 2 && kids[1].octant == 5;
    assert Shifted(36, 0) == 36 && Shifted(36, 1) == 18 && Shifted(36, 2) == 9 && Shifted(36, 3) == 4;
    assert Shifted(36, 4) == 2 && Shifted(36, 5) == 1 && Shifted(36, 6) == 0 && Shifted(36, 7) == 0;
    forall i: nat | i < 8
      ensures Bit(36, i) <==> HasKid(kids, i)
    {
      if i == 2 || i == 5 {
        assert HasKid(kids, i);
      } else {
        assert i == 0 || i == 1 || i == 3 || i == 4 || i == 6 || i == 7;
      }
    }
    forall i: nat | i < 8
      ensures !Bit(0, i)
    {
      ZeroHasNoBits(i);
    }
  }

  lemma {:induction false} NothingBelow(u: Octree, l: nat, deeper: nat)
    requires l <= deeper && LevelOf(u, l) == []
    ensures LevelOf(u, deeper) == []
    decreases deeper
  {
    if l < deeper {
      NothingBelow(u, l, deeper - 1);
    }
  }

  lemma GappedLevels(u: Octree, a: Octree, b: Octree)
    requires u.kids == [Kid(2, a), Kid(5, b)] && a.kids == [] && b.kids == []
    ensures LevelOf(u, 1) == [Spot([2], a), Spot([5], b)] && LevelOf(u, 2) == []
  {
    RootLevel(u);
    NextLevel(u, 0);
    NextLevel(u, 1);
    var top, one, two := Spot([], u), Spot([2], a), Spot([5], b);
    var e: seq<nat> := [];
    assert e + [2] == [2] && e + [5] == [5];
    assert KidSpots(top)[0] == one && KidSpots(top)[1] == two;
    assert [top][..0] == [] && KidSpots(top) == [one, two];
    assert Below([top]) == [] + KidSpots(top);
    assert [one, two][..1] == [one] && [one][..0] == [];
    assert KidSpots(one) == [] && KidSpots(two) == [];
  }

  /** Such a forest is well-formed: the premise of the theorems is met. */
  lemma GappedIsEncoded(d: Collection, a: Collection, b: Collection)
    ensures Encodes(Forest(map[0 := GappedTree(d, a, b)], map[0 := []], 0), 0, Gapped(d, a, b), [])
  {
    var u, t := Gapped(d, a, b), GappedTree(d, a, b);
    RootLevel(u);
    GappedLevels(u, Leaf(a), Leaf(b));
    MaskOfGapped(Leaf(a), Leaf(b));
    NothingBelow(u, 2, LEVELS);
    hide LevelOf, MaskFor;
    assert KidsBefore([Spot([2], Leaf(a)), Spot([5], Leaf(b))], 1) == 0;
    forall l: nat, k: nat | l < LEVELS && k < |LevelOf(u, l)|
      ensures Slot(t, l, k, LevelOf(u, l))
    {
      if l >= 2 {
        NothingBelow(u, 2, l);
      }
    }
  }
}
