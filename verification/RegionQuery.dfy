/** A whole region request over a stored octree: walk, tight boxes, assembly and clipping together return
    every stored in-box leaf point once. */
module RegionQuery {
  import opened Bytes
  import opened RegionWalk
  import opened RegionWalkTheorems
  import opened OctreeForest
  import OctreeCells
  import PointClip
  import RegionResult
  import Morton
  import PointPacking

  type Grid = OctreeCells.Grid
  type Cube = OctreeCells.Cube
  type Frames = OctreeCells.Frames

  // ---- counting units -----------------------------------------------------------------------------

  function CountAt(units: seq<Unit>, path: seq<nat>, s: Subset): nat {
    if units == [] then 0
    else
      var u := units[|units| - 1];
      CountAt(units[..|units| - 1], path, s) + (if u.path == path && u.subset == s then 1 else 0)
  }

  lemma {:induction false} CountAppend(a: seq<Unit>, b: seq<Unit>, path: seq<nat>, s: Subset)
    ensures CountAt(a + b, path, s) == CountAt(a, path, s) + CountAt(b, path, s)
    decreases |b|
  {
    if b == [] {
      assert a + b == a;
    } else {
      assert (a + b)[..|a + b| - 1] == a + b[..|b| - 1];
      CountAppend(a, b[..|b| - 1], path, s);
    }
  }

  lemma {:induction false} CountElsewhere(units: seq<Unit>, path: seq<nat>, s: Subset)
    requires forall k :: 0 <= k < |units| ==> units[k].path != path
    ensures CountAt(units, path, s) == 0
    decreases |units|
  {
    if units != [] {
      CountElsewhere(units[..|units| - 1], path, s);
    }
  }

  lemma CountWithout(b: seq<Unit>, j: nat, path: seq<nat>, s: Subset)
    requires j < |b|
    ensures CountAt(b, path, s) == CountAt(b[..j] + b[j + 1..], path, s) + CountAt([b[j]], path, s)
  {
    hide CountAt;
    assert b == b[..j] + ([b[j]] + b[j + 1..]);
    CountAppend(b[..j], [b[j]] + b[j + 1..], path, s);
    CountAppend([b[j]], b[j + 1..], path, s);
    CountAppend(b[..j], b[j + 1..], path, s);
  }

  lemma {:induction false} CountOfBag(a: seq<Unit>, b: seq<Unit>, path: seq<nat>, s: Subset)
    requires multiset(a) == multiset(b)
    ensures CountAt(a, path, s) == CountAt(b, path, s)
    decreases |a|
  {
    if a == [] {
      assert |b| == |multiset(b)| == 0;
    } else {
      hide CountAt;
      var init, x := a[..|a| - 1], a[|a| - 1];
      var j := RemoveOne(a, b);
      CountOfBag(init, b[..j] + b[j + 1..], path, s);
      CountWithout(b, j, path, s);
      assert a == init + [x];
      CountAppend(init, [x], path, s);
    }
  }

  function CountSubset(subsets: seq<Subset>, s: Subset): nat {
    if subsets == [] then 0 else CountSubset(subsets[..|subsets| - 1], s) + (if subsets[|subsets| - 1] == s then 1 else 0)
  }

  lemma CountOne(u: Unit, path: seq<nat>, s: Subset)
    ensures CountAt([u], path, s) == if u.path == path && u.subset == s then 1 else 0
  {
    assert [u][..0] == [];
  }

  lemma {:induction false} CountUnits(q: Query, o: Octree, w: Place, subsets: seq<Subset>, s: Subset)
    requires Wants(q, o, s)
    ensures CountAt(UnitsOf(q, o, w, subsets), w.path, s) == CountSubset(subsets, s)
    ensures forall k :: 0 <= k < |UnitsOf(q, o, w, subsets)| ==> UnitsOf(q, o, w, subsets)[k].path == w.path
    decreases |subsets|
  {
    hide Contains, CountAt;
    if subsets == [] {
      CountElsewhere([], w.path, s);
    } else {
      var init, x := subsets[..|subsets| - 1], subsets[|subsets| - 1];
      CountUnits(q, o, w, init, s);
      if Wants(q, o, x) {
        var u := UnitsOf(q, o, w, subsets)[|UnitsOf(q, o, w, init)|];
        CountAppend(UnitsOf(q, o, w, init), [u], w.path, s);
        CountOne(u, w.path, s);
      } else {
        assert UnitsOf(q, o, w, subsets) == UnitsOf(q, o, w, init);
      }
    }
  }

  // ---- what a level of detail is ------------------------------------------------------------------------

  /** The root tree of magnitude m spans a cube of side 2^(5 (m + 1)). Whatever is resident and however deep
      the walk: an entry of lod l is a cube of side 2^(l + 1), and no entry lies below lod zero. */
  lemma LodIsSide(f: Forest, t: Octree, root: Cube, reg: Registry, q: Query, depth: nat, p: Pending)
    requires Encodes(f, reg.root, t, []) && ResidentIn(reg, f) && root.size == Morton.Pow2(5 * (f.magnitude + 1))
    requires p in Levels(reg, q, depth).stops || p in Levels(reg, q, depth).next
    ensures
      var lod := p.tree.Lod(p.InTree());
      lod >= 0 && OctreeCells.CubeAt(root, p.path).size == Morton.Pow2(lod + 1)
  {
    hide Encodes, Levels, NodeAt, OctreeCells.CubeAt, Morton.Pow2;
    WalkReadsTheOctree(f, t, reg, q, depth, p);
    OctreeCells.CubeSize(root, 5 * (f.magnitude + 1), p.path);
  }

  // ---- where the query's units are ---------------------------------------------------------------------

  lemma UnitPaths(q: Query, o: Octree, w: Place, subsets: seq<Subset>)
    ensures forall k :: 0 <= k < |UnitsOf(q, o, w, subsets)| ==> UnitsOf(q, o, w, subsets)[k].path == w.path
    decreases |subsets|
  {
    if subsets != [] {
      UnitPaths(q, o, w, subsets[..|subsets| - 1]);
    }
  }

  /** Everything a query finds lies at or below where it was asked. */
  lemma {:induction false} AskPaths(q: Query, o: Octree, w: Place)
    ensures forall k :: 0 <= k < |Ask(q, o, w)| ==> w.path <= Ask(q, o, w)[k].path
    decreases o, |o.kids| + 1
  {
    UnitPaths(q, o, w, o.data.subsets);
    hide UnitsOf;
    if !(o.kids == [] || (q.mode.Level? && w.lod <= q.mode.lod)) {
      AskKidsPaths(q, o, w, |o.kids|);
    }
  }

  lemma {:induction false} AskKidsPaths(q: Query, o: Octree, w: Place, n: nat)
    requires n <= |o.kids|
    ensures forall k :: 0 <= k < |AskKids(q, o, w, n)| ==> w.path <= AskKids(q, o, w, n)[k].path
    decreases o, n
  {
    hide Ask, Overlaps, ChildBox, Contains;
    if n > 0 {
      AskKidsPaths(q, o, w, n - 1);
      AskPaths(q, o.kids[n - 1].node, PlaceOfKid(q, w, o.kids[n - 1].octant));
    }
  }

  // ---- a leaf with a point in the box -------------------------------------------------------------------

  ghost predicate Shaped(o: Octree) {
    Ordered(o.kids) && forall j :: 0 <= j < |o.kids| ==> Shaped(o.kids[j].node)
  }

  lemma {:induction false} NodeAtFront(o: Octree, i: nat, rest: seq<nat>)
    ensures NodeAt(o, [i] + rest) == (match KidAt(o, i, |o.kids|) case None => None case Some(k) => NodeAt(k, rest))
    decreases |rest|
  {
    hide KidAt;
    if rest == [] {
      assert ([i] + rest)[..0] == [];
      assert NodeAt(o, []) == Some(o);
    } else {
      assert ([i] + rest)[..|rest|] == [i] + rest[..|rest| - 1];
      NodeAtFront(o, i, rest[..|rest| - 1]);
    }
  }

  lemma {:induction false} CubeAtFront(cube: Cube, i: nat, rest: seq<nat>)
    ensures OctreeCells.CubeAt(cube, [i] + rest) == OctreeCells.CubeAt(OctreeCells.ChildCube(cube, i), rest)
    decreases |rest|
  {
    hide OctreeCells.ChildCube;
    if rest == [] {
      assert ([i] + rest)[..0] == [];
    } else {
      assert ([i] + rest)[..|rest|] == [i] + rest[..|rest| - 1];
      CubeAtFront(cube, i, rest[..|rest| - 1]);
    }
  }

  lemma {:induction false} KidAtIndex(o: Octree, octant: nat, n: nat) returns (j: nat)
    requires n <= |o.kids| && KidAt(o, octant, n).Some?
    ensures j < n && o.kids[j].octant == octant && KidAt(o, octant, n) == Some(o.kids[j].node)
  {
    if o.kids[n - 1].octant == octant {
      j := n - 1;
    } else {
      j := KidAtIndex(o, octant, n - 1);
    }
  }

  /** The grid point `g`, wanted by the query, lies in the cube `rest` octants below `cube`. */
  ghost predicate Under(fr: Frames, q: Query, cell: Box, cube: Cube, k: nat, rest: seq<nat>, g: Grid) {
    && OctreeCells.Proper(fr) && OctreeCells.Covers(fr, cell, cube) && cube.size == Morton.Pow2(k) && |rest| <= k
    && OctreeCells.InCube(OctreeCells.CubeAt(cube, rest), g) && OctreeCells.Wanted(fr, q, g)
  }

  lemma {:induction false} CubeInside(cube: Cube, rest: seq<nat>, g: Grid)
    requires OctreeCells.InCube(OctreeCells.CubeAt(cube, rest), g)
    ensures OctreeCells.InCube(cube, g)
    decreases |rest|
  {
    if rest != [] {
      OctreeCells.ChildCubeInside(OctreeCells.CubeAt(cube, rest[..|rest| - 1]), rest[|rest| - 1], g);
      CubeInside(cube, rest[..|rest| - 1], g);
    }
  }

  /** Going one octant down. */
  lemma UnderKid(fr: Frames, q: Query, cell: Box, cube: Cube, k: nat, i: nat, rest: seq<nat>, g: Grid)
    requires Under(fr, q, cell, cube, k, [i] + rest, g)
    ensures k > 0 && Under(fr, q, ChildBox(cell, i), OctreeCells.ChildCube(cube, i), k - 1, rest, g)
    ensures q.whole || Overlaps(ChildBox(cell, i), q.box)
  {
    hide OctreeCells.Covers, OctreeCells.InCube, OctreeCells.CubeAt, ChildBox, Overlaps, HasPoint, Bit;
    var child := OctreeCells.ChildCube(cube, i);
    CubeAtFront(cube, i, rest);
    OctreeCells.ChildCovers(fr, cell, cube, i);
    CubeInside(child, rest, g);
    OctreeCells.CoverHasPoints(fr, ChildBox(cell, i), child, g);
    if !q.whole {
      OctreeCells.SharedPointOverlaps(ChildBox(cell, i), q.box, OctreeCells.Position(fr, g));
    }
  }

  /** A full-resolution query finds the leaf's unit as often as the leaf stores it. */
  lemma {:induction false} AskFindsLeaf(fr: Frames, q: Query, o: Octree, w: Place, cube: Cube, k: nat, rest: seq<nat>, leaf: Octree,
                                        g: Grid, s: Subset)
    requires q.mode.Full? && s.leafData && Shaped(o) && NodeAt(o, rest) == Some(leaf) && leaf.kids == []
    requires Under(fr, q, w.cell, cube, k, rest, g) && HasPoint(leaf.data.tight, OctreeCells.Position(fr, g))
    ensures CountAt(Ask(q, o, w), w.path + rest, s) == CountSubset(leaf.data.subsets, s)
    decreases |rest|, |o.kids| + 1
  {
    if rest == [] {
      assert w.path + rest == w.path;
      if !q.whole {
        OctreeCells.SharedPointOverlaps(leaf.data.tight, q.box, OctreeCells.Position(fr, g));
      }
      CountUnits(q, o, w, o.data.subsets, s);
    } else {
      var i, below := rest[0], rest[1..];
      assert rest == [i] + below;
      NodeAtFront(o, i, below);
      var j := KidAtIndex(o, i, |o.kids|);
      hide Ask, Under, NodeAt, CountAt, CountSubset, Shaped;
      AskIsKids(q, o, w);
      AskKidsFindLeaf(fr, q, o, w, cube, k, rest, leaf, g, s, j, |o.kids|);
    }
  }

  lemma AskIsKids(q: Query, o: Octree, w: Place)
    requires q.mode.Full? && o.kids != []
    ensures Ask(q, o, w) == AskKids(q, o, w, |o.kids|)
  {
  }

  lemma {:induction false} AskKidsFindLeaf(fr: Frames, q: Query, o: Octree, w: Place, cube: Cube, k: nat, rest: seq<nat>, leaf: Octree,
                                           g: Grid, s: Subset, j: nat, n: nat)
    requires q.mode.Full? && s.leafData && Shaped(o) && leaf.kids == [] && n <= |o.kids|
    requires rest != [] && j < |o.kids| && o.kids[j].octant == rest[0] && NodeAt(o.kids[j].node, rest[1..]) == Some(leaf)
    requires Under(fr, q, w.cell, cube, k, rest, g) && HasPoint(leaf.data.tight, OctreeCells.Position(fr, g))
    ensures CountAt(AskKids(q, o, w, n), w.path + rest, s) == if j < n then CountSubset(leaf.data.subsets, s) else 0
    decreases |rest|, n
  {
    hide Ask, Under, NodeAt, CountAt, CountSubset, Overlaps, ChildBox, Contains, HasPoint;
    if n == 0 {
      CountElsewhere([], w.path + rest, s);
    } else {
      AskKidsFindLeaf(fr, q, o, w, cube, k, rest, leaf, g, s, j, n - 1);
      var kid := o.kids[n - 1];
      var place := PlaceOfKid(q, w, kid.octant);
      var found := if !q.whole && !Overlaps(place.cell, q.box) then [] else Ask(q, kid.node, place);
      CountAppend(AskKids(q, o, w, n - 1), found, w.path + rest, s);
      if n - 1 == j {
        assert rest == [kid.octant] + rest[1..];
        UnderKid(fr, q, w.cell, cube, k, kid.octant, rest[1..], g);
        AskFindsLeaf(fr, q, kid.node, place, OctreeCells.ChildCube(cube, kid.octant), k - 1, rest[1..], leaf, g, s);
        assert place.path + rest[1..] == w.path + rest;
      } else {
        AskPaths(q, kid.node, place);
        ElsewhereThan(found, w.path, kid.octant, rest);
        CountElsewhere(found, w.path + rest, s);
      }
    }
  }

  lemma ElsewhereThan(units: seq<Unit>, path: seq<nat>, octant: nat, rest: seq<nat>)
    requires rest != [] && rest[0] != octant && forall k :: 0 <= k < |units| ==> path + [octant] <= units[k].path
    ensures forall k :: 0 <= k < |units| ==> units[k].path != path + rest
  {
    forall k | 0 <= k < |units|
      ensures units[k].path != path + rest
    {
      assert units[k].path[|path|] == (path + [octant])[|path|] == octant;
      assert (path + rest)[|path|] == rest[0];
    }
  }

  // ---- a stored octree is well shaped -------------------------------------------------------------------

  ghost predicate AllShaped(spots: seq<Spot>) { forall k :: 0 <= k < |spots| ==> Shaped(spots[k].node) }

  lemma ShapedAbove(spots: seq<Spot>)
    requires AllShaped(Below(spots)) && forall k :: 0 <= k < |spots| ==> Ordered(spots[k].node.kids)
    ensures AllShaped(spots)
  {
    hide Below, KidsBefore, Ordered;
    forall k | 0 <= k < |spots|
      ensures Shaped(spots[k].node)
    {
      forall j | 0 <= j < |spots[k].node.kids|
        ensures Shaped(spots[k].node.kids[j].node)
      {
        KidIndex(spots, k, j);
      }
    }
  }

  lemma {:induction false} LevelsAreShaped(t: Tree, u: Octree, l: nat)
    requires l <= LEVELS && TreeEncodes(t, u, LEVELS) && AllShaped(LevelOf(u, LEVELS))
    ensures AllShaped(LevelOf(u, l))
    decreases LEVELS - l
  {
    hide LevelOf, Shaped, Ordered, Below;
    if l < LEVELS {
      LevelsAreShaped(t, u, l + 1);
      NextLevel(u, l);
      forall k | 0 <= k < |LevelOf(u, l)|
        ensures Ordered(LevelOf(u, l)[k].node.kids)
      {
        assert Slot(t, l, k, LevelOf(u, l));
      }
      ShapedAbove(LevelOf(u, l));
    }
  }

  lemma {:induction false} EncodedIsShaped(f: Forest, id: nat, u: Octree, at: seq<nat>)
    requires Encodes(f, id, u, at)
    ensures Shaped(u)
    decreases Height(u)
  {
    hide LevelOf, Shaped, Height;
    forall m | 0 <= m < |LevelOf(u, LEVELS)|
      ensures Shaped(LevelOf(u, LEVELS)[m].node)
    {
      SubTreeEncodes(f, id, u, at, m);
      EncodedIsShaped(f, f.store[id].subTrees[m], LevelOf(u, LEVELS)[m].node, at + LevelOf(u, LEVELS)[m].path);
    }
    LevelsAreShaped(f.store[id], u, 0);
    RootLevel(u);
    assert Shaped(LevelOf(u, 0)[0].node);
  }

  // ---- the request --------------------------------------------------------------------------------------

  /** A dataset: its forest and the octree it encodes, its root cube and its frames. */
  datatype Dataset = Dataset(f: Forest, t: Octree, reg: Registry, fr: Frames, root: Cube, k: nat)

  /** Everything is stored as the converter stores it, and the octree is no higher than the walk is deep. */
  ghost predicate WellFormed(d: Dataset, depth: nat) {
    && Encodes(d.f, d.reg.root, d.t, []) && ResidentIn(d.reg, d.f) && d.reg.size != 0 && d.t.data.subsets != []
    && Height(d.t) <= depth <= d.k && OctreeCells.Proper(d.fr) && d.root.size == Morton.Pow2(d.k)
    && d.reg.root in d.f.store && OctreeCells.Covers(d.fr, d.f.store[d.reg.root].cell, d.root)
  }

  /** The job asks for what the query asks for, at full resolution and clipped. */
  ghost predicate Clipped(q: Query, job: RegionResult.Job) {
    q.mode.Full? && !q.whole && !job.whole && job.clip && job.box == q.box
  }

  /** The request works on the walk's nodes. */
  ghost predicate WorksOn(nodes: seq<RegionResult.Selected>, walked: seq<Node>) {
    |nodes| == |walked| && forall m :: 0 <= m < |nodes| ==> nodes[m].node == walked[m]
  }

  /** A point of a node is a grid point of the node's cube, and within its tight box. */
  ghost predicate InPlace(d: Dataset, job: RegionResult.Job, n: RegionResult.Selected, i: nat, g: Grid) {
    && PointClip.World(RegionResult.PointAt(job, RegionResult.Source(n, i)), RegionResult.WorldOrigin(job, n), job.config.scale)
       == OctreeCells.Position(d.fr, g)
    && OctreeCells.InCube(OctreeCells.CubeAt(d.root, n.node.path), g)
    && HasPoint(n.node.tight, OctreeCells.Position(d.fr, g))
  }

  ghost predicate HasPlace(d: Dataset, job: RegionResult.Job, n: RegionResult.Selected, i: nat) {
    exists g :: InPlace(d, job, n, i, g)
  }

  ghost predicate AllInPlace(d: Dataset, job: RegionResult.Job, nodes: seq<RegionResult.Selected>) {
    forall m: nat, i: nat :: m < |nodes| && i < |RegionResult.Points(job, nodes[m])| ==> HasPlace(d, job, nodes[m], i)
  }

  /** A selected node comes from a stop node. */
  lemma {:induction false} NodeHasStop(q: Query, stops: seq<Pending>, n: Node) returns (p: Pending)
    requires n in EmitAll(q, stops)
    ensures p in stops && n.path == p.path && n.tight == p.Data().tight && n.fullyInside == (p.inside || Contains(q.box, n.tight))
    decreases |stops|
  {
    var init, last := stops[..|stops| - 1], stops[|stops| - 1];
    if n in Emit(q, last) {
      p := last;
      EmittedFields(q, p, p.Data().subsets, n);
    } else {
      p := NodeHasStop(q, init, n);
    }
  }

  lemma {:induction false} EmittedFields(q: Query, p: Pending, subsets: seq<Subset>, n: Node)
    requires n in EmitSubsets(q, p, subsets)
    ensures n.path == p.path && n.tight == p.Data().tight && n.fullyInside == (p.inside || Contains(q.box, n.tight))
    decreases |subsets|
  {
    var init := subsets[..|subsets| - 1];
    if n in EmitSubsets(q, p, init) {
      EmittedFields(q, p, init, n);
    }
  }

  lemma ContainedPoint(outer: Box, inner: Box, v: Vec)
    requires Contains(outer, inner) && HasPoint(inner, v)
    ensures HasPoint(outer, v)
  {
  }

  /** "Fully inside" is right: by the cell the walk inherited it from, or by a tight box that bounds. */
  lemma InsideIsRight(d: Dataset, q: Query, job: RegionResult.Job, depth: nat, nodes: seq<RegionResult.Selected>, m: nat, i: nat)
    requires WellFormed(d, depth) && Clipped(q, job) && WorksOn(nodes, Levels(d.reg, q, depth).nodes) && AllInPlace(d, job, nodes)
    requires m < |nodes| && nodes[m].node.fullyInside && i < |RegionResult.Points(job, nodes[m])|
    ensures RegionResult.InBox(job, RegionResult.Source(nodes[m], i))
  {
    hide Encodes, Levels, Height, EmitAll, OctreeCells.Covers, OctreeCells.InCube, OctreeCells.CubeAt, HasPoint, Contains,
         PointClip.World, RegionResult.PointAt, RegionResult.Points, RegionResult.WorldOrigin, OctreeCells.Position;
    var n := nodes[m];
    assert HasPlace(d, job, n, i);
    var g :| InPlace(d, job, n, i, g);
    WalkEmitsItsStops(d.reg, q, depth);
    assert n.node in Levels(d.reg, q, depth).nodes;
    var p := NodeHasStop(q, Levels(d.reg, q, depth).stops, n.node);
    OctreeCells.WalkIsSound(d.fr, d.root, d.k, d.reg, q, depth);
    if p.inside {
      assert OctreeCells.Sound(d.fr, d.root, q, p);
    } else {
      ContainedPoint(q.box, n.node.tight, OctreeCells.Position(d.fr, g));
    }
  }

  // ---- exactly once -------------------------------------------------------------------------------------

  lemma {:induction false} UnitsAt(nodes: seq<Node>)
    ensures |Units(nodes)| == |nodes| && forall m :: 0 <= m < |nodes| ==> Units(nodes)[m] == UnitOf(nodes[m])
    decreases |nodes|
  {
    if nodes != [] {
      UnitsAt(nodes[..|nodes| - 1]);
    }
  }

  /** A count of one has one witness. */
  lemma {:induction false} TheOne(units: seq<Unit>, path: seq<nat>, s: Subset) returns (k: nat)
    requires CountAt(units, path, s) == 1
    ensures k < |units| && units[k].path == path && units[k].subset == s
    ensures forall m :: 0 <= m < |units| && m != k ==> !(units[m].path == path && units[m].subset == s)
    decreases |units|
  {
    var init, u := units[..|units| - 1], units[|units| - 1];
    if u.path == path && u.subset == s {
      k := |units| - 1;
      NoneCounted(init, path, s);
    } else {
      k := TheOne(init, path, s);
    }
  }

  lemma {:induction false} NoneCounted(units: seq<Unit>, path: seq<nat>, s: Subset)
    requires CountAt(units, path, s) == 0
    ensures forall m :: 0 <= m < |units| ==> !(units[m].path == path && units[m].subset == s)
    decreases |units|
  {
    if units != [] {
      NoneCounted(units[..|units| - 1], path, s);
    }
  }

  /** The unit of a leaf with a wanted point is selected, as often as it is stored: once. */
  lemma LeafUnitIsSelectedOnce(d: Dataset, q: Query, depth: nat, path: seq<nat>, leaf: Octree, s: Subset, g: Grid) returns (k: nat)
    requires WellFormed(d, depth) && q.mode.Full? && Levels(d.reg, q, depth).missing == []
    requires NodeAt(d.t, path) == Some(leaf) && leaf.kids == [] && s.leafData && CountSubset(leaf.data.subsets, s) == 1 && |path| <= d.k
    requires OctreeCells.InCube(OctreeCells.CubeAt(d.root, path), g) && OctreeCells.Wanted(d.fr, q, g)
    requires HasPoint(leaf.data.tight, OctreeCells.Position(d.fr, g))
    ensures
      var walked := Levels(d.reg, q, depth).nodes;
      && k < |walked| && walked[k].path == path && walked[k].subset == s
      && forall m :: 0 <= m < |walked| && m != k ==> !(walked[m].path == path && walked[m].subset == s)
  {
    hide Encodes, Levels, Height, Ask, CountAt, CountSubset, NodeAt, Units, OctreeCells.Covers, OctreeCells.InCube, OctreeCells.CubeAt,
         HasPoint, Overlaps, Contains, OctreeCells.Position, Shaped;
    var cell := d.f.store[d.reg.root].cell;
    var walked := Levels(d.reg, q, depth).nodes;
    WalkIsTheOctreeQuery(d.f, d.t, d.reg, q, depth);
    RootMeetsBox(d, q, cell, path, g);
    EncodedIsShaped(d.f, d.reg.root, d.t, []);
    var w := Place(cell, q.whole || Contains(q.box, cell), [], d.f.Lod());
    AskFindsLeaf(d.fr, q, d.t, w, d.root, d.k, path, leaf, g, s);
    assert w.path + path == path;
    CountOfBag(Units(walked), Ask(q, d.t, w), path, s);
    UnitsAt(walked);
    k := TheOne(Units(walked), path, s);
    forall m | 0 <= m < |walked| && m != k
      ensures !(walked[m].path == path && walked[m].subset == s)
    {
      assert Units(walked)[m] == UnitOf(walked[m]);
    }
  }

  lemma RootMeetsBox(d: Dataset, q: Query, cell: Box, path: seq<nat>, g: Grid)
    requires OctreeCells.Proper(d.fr) && OctreeCells.Covers(d.fr, cell, d.root)
    requires OctreeCells.InCube(OctreeCells.CubeAt(d.root, path), g) && OctreeCells.Wanted(d.fr, q, g)
    ensures q.whole || Overlaps(cell, q.box)
  {
    CubeInside(d.root, path, g);
    OctreeCells.CoverHasPoints(d.fr, cell, d.root, g);
    if !q.whole {
      OctreeCells.SharedPointOverlaps(cell, q.box, OctreeCells.Position(d.fr, g));
    }
  }

  lemma {:induction false} CountAtMostOnce<T>(xs: seq<T>, x: T)
    requires forall i, j :: 0 <= i < j < |xs| ==> xs[i] != xs[j]
    ensures multiset(xs)[x] == if x in xs then 1 else 0
    decreases |xs|
  {
    if xs != [] {
      var init, last := xs[..|xs| - 1], xs[|xs| - 1];
      CountAtMostOnce(init, x);
      assert xs == init + [last];
      assert last !in init;
    }
  }

  /** A node gives each of its points at most once. */
  lemma SourcesOfDistinct(job: RegionResult.Job, n: RegionResult.Selected)
    ensures var src := RegionResult.SourcesOf(job, n); forall i, j :: 0 <= i < j < |src| ==> src[i] != src[j]
  {
    hide RegionResult.Points, PointClip.World, HasPoint;
    var points := RegionResult.Points(job, n);
    PointClip.KeptIsExact(points, |points|, RegionResult.WorldOrigin(job, n), job.config.scale, job.box);
    assert forall i, j :: 0 <= i < j < |RegionResult.Picked(job, n)| ==> RegionResult.Picked(job, n)[i] != RegionResult.Picked(job, n)[j];
  }

  lemma NoSourcesOfOthers(job: RegionResult.Job, nodes: seq<RegionResult.Selected>, n: RegionResult.Selected, i: nat)
    requires n !in nodes
    ensures multiset(RegionResult.Sources(job, nodes))[RegionResult.Source(n, i)] == 0
  {
    var p := RegionResult.Source(n, i);
    hide RegionResult.Sources, RegionResult.SourcesOf;
    if p in RegionResult.Sources(job, nodes) {
      var m := RegionResult.FindSource(job, nodes, p);
      RegionResult.OwnSources(job, nodes[m], p);
      assert false;
    }
  }

  /** A node selected once gives each of its points to the result at most once. */
  lemma {:induction false} SourceCount(job: RegionResult.Job, nodes: seq<RegionResult.Selected>, k: nat, i: nat)
    requires k < |nodes| && forall m :: 0 <= m < |nodes| && m != k ==> nodes[m] != nodes[k]
    ensures multiset(RegionResult.Sources(job, nodes))[RegionResult.Source(nodes[k], i)]
            == if RegionResult.Source(nodes[k], i) in RegionResult.SourcesOf(job, nodes[k]) then 1 else 0
    decreases |nodes|
  {
    var init, last := nodes[..|nodes| - 1], nodes[|nodes| - 1];
    var p := RegionResult.Source(nodes[k], i);
    var a, b := RegionResult.Sources(job, init), RegionResult.SourcesOf(job, last);
    hide *;
    RegionResult.SourcesSnoc(job, nodes);
    assert multiset(a + b) == multiset(a) + multiset(b);
    if k == |nodes| - 1 {
      NoSourcesOfOthers(job, init, last, i);
      SourcesOfDistinct(job, last);
      CountAtMostOnce(b, p);
    } else {
      SourceCount(job, init, k, i);
      if p in b {
        RegionResult.OwnSources(job, last, p);
        assert false;
      }
    }
  }

  /** A successful full-resolution clipped request over a well-formed dataset whose tight boxes bound their
      points: a leaf's unit that has a point in the box is selected by exactly one node of the request, and
      each of its points is in the result exactly once if it is in the box and not at all if it is not. */
  lemma InBoxLeafPointsAreReturnedOnce(d: Dataset, q: Query, job: RegionResult.Job, depth: nat, nodes: seq<RegionResult.Selected>,
                                       path: seq<nat>, leaf: Octree, s: Subset, g: Grid) returns (k: nat)
    requires WellFormed(d, depth) && Clipped(q, job) && Levels(d.reg, q, depth).missing == []
    requires WorksOn(nodes, Levels(d.reg, q, depth).nodes) && AllInPlace(d, job, nodes)
    requires NodeAt(d.t, path) == Some(leaf) && leaf.kids == [] && s.leafData && CountSubset(leaf.data.subsets, s) == 1 && |path| <= d.k
    requires OctreeCells.InCube(OctreeCells.CubeAt(d.root, path), g) && OctreeCells.Wanted(d.fr, q, g)
    requires HasPoint(leaf.data.tight, OctreeCells.Position(d.fr, g))
    ensures k < |nodes| && nodes[k].node.path == path && nodes[k].node.subset == s
    ensures forall m :: 0 <= m < |nodes| && m != k ==> !(nodes[m].node.path == path && nodes[m].node.subset == s)
    ensures forall i: nat :: i < |RegionResult.Points(job, nodes[k])| ==>
      var p := RegionResult.Source(nodes[k], i);
      multiset(RegionResult.Sources(job, nodes))[p] == if RegionResult.InBox(job, p) then 1 else 0
  {
    hide Encodes, Levels, Height, CountSubset, NodeAt, OctreeCells.Covers, OctreeCells.InCube, OctreeCells.CubeAt, HasPoint,
         OctreeCells.Position, InPlace, RegionResult.Points, RegionResult.Sources, RegionResult.SourcesOf, RegionResult.InBox;
    k := LeafUnitIsSelectedOnce(d, q, depth, path, leaf, s, g);
    forall i: nat | i < |RegionResult.Points(job, nodes[k])|
      ensures
        var p := RegionResult.Source(nodes[k], i);
        multiset(RegionResult.Sources(job, nodes))[p] == if RegionResult.InBox(job, p) then 1 else 0
    {
      SourceCount(job, nodes, k, i);
      if nodes[k].node.fullyInside {
        InsideIsRight(d, q, job, depth, nodes, k, i);
      }
      RegionResult.SourcesOfAreInBox(job, nodes[k], i);
    }
  }

  // ---- the premises hold together -------------------------------------------------------------------------

  /** The dataset's frames are those of the job's configuration. */
  ghost predicate SameFrames(fr: Frames, c: PointClip.Config) {
    && fr.x.scale == fr.y.scale == fr.z.scale == c.scale
    && c.offset == Vec(fr.x.offset, fr.y.offset, fr.z.offset)
  }

  /** A point packed as the converter packs it, in a format that can express it, is in place. */
  lemma PackedPointIsInPlace(d: Dataset, job: RegionResult.Job, n: RegionResult.Selected, i: nat, g: Grid)
    requires RegionResult.Readable(n) && i < n.Count() && SameFrames(d.fr, job.config) && job.config.scale > 0.0
    requires RegionResult.PackedIn(n.slot.header, n.slot.codes[n.Offset() + i], g)
    requires PointClip.Fits(job.format, g, PointClip.Origin(n.slot.header))
    requires OctreeCells.InCube(OctreeCells.CubeAt(d.root, n.node.path), g) && HasPoint(n.node.tight, OctreeCells.Position(d.fr, g))
    ensures InPlace(d, job, n, i, g)
  {
    hide OctreeCells.InCube, OctreeCells.CubeAt, HasPoint, RegionResult.PackedIn, PointClip.Fits, PointClip.World, PointClip.Written,
         PointClip.Origin, PointPacking.DecodeAccess;
    var h, codes := n.slot.header, n.slot.codes[n.Offset()..n.Offset() + n.Count()];
    RegionResult.ClipSeesTruePlace(h, n.slot.codes[n.Offset() + i], g, job.format, job.config);
    assert codes[i] == n.slot.codes[n.Offset() + i];
    assert PointClip.ToWorld(g, job.config) == OctreeCells.Position(d.fr, g);
  }

  /** A selected node has the tight box of the octree node at its path. */
  lemma WalkedTight(d: Dataset, q: Query, depth: nat, n: Node)
    requires WellFormed(d, depth) && n in Levels(d.reg, q, depth).nodes
    ensures NodeAt(d.t, n.path).Some? && n.tight == NodeAt(d.t, n.path).value.data.tight
  {
    hide Encodes, Levels, Height, EmitAll, OctreeCells.Covers, NodeAt;
    WalkEmitsItsStops(d.reg, q, depth);
    var p := NodeHasStop(q, Levels(d.reg, q, depth).stops, n);
    WalkReadsTheOctree(d.f, d.t, d.reg, q, depth, p);
  }

  const UNIT_FRAME := OctreeCells.Frame(1.0, 0.0)
  const FRAMES := OctreeCells.Frames(UNIT_FRAME, UNIT_FRAME, UNIT_FRAME)

  function PointBox(g: Grid): Box { Box(OctreeCells.Position(FRAMES, g), OctreeCells.Position(FRAMES, g)) }

  const ROOT_BOX := Box(OctreeCells.Position(FRAMES, Morton.Grid(0, 0, 0)), OctreeCells.Position(FRAMES, Morton.Grid(3, 3, 3)))
  const POINT := Morton.Grid(0, 2, 0)
  const UNIT := Subset(1, true, 0, 1)
  const ROOT_DATA := Collection(ROOT_BOX, [Subset(0, false, 0, 1)])
  const LEAF_DATA := Collection(PointBox(POINT), [UNIT])
  const TREE := GappedTree(ROOT_DATA, LEAF_DATA, LEAF_DATA)

  /** The forest with a gap in its mask over a root cube of side four; the leaf in octant 2 stores one point. */
  const SMALL := Dataset(Forest(map[0 := TREE], map[0 := []], 0), Gapped(ROOT_DATA, LEAF_DATA, LEAF_DATA),
                         Registry(1, 0, map[0 := TREE]), FRAMES, OctreeCells.Cube(Morton.Grid(0, 0, 0), 4), 2)
  const ASK := Query(PointBox(POINT), Full, false)
  const JOB := RegionResult.Job(PointClip.R64Absolute, PointClip.Config(1.0, Vec(0.0, 0.0, 0.0)), PointBox(POINT), true, false)

  lemma SmallIsWellFormed()
    ensures WellFormed(SMALL, 2) && Clipped(ASK, JOB) && SameFrames(SMALL.fr, JOB.config)
  {
    GappedIsEncoded(ROOT_DATA, LEAF_DATA, LEAF_DATA);
    OctreeCells.CornersCover(FRAMES, SMALL.root);
    assert Morton.Pow2(2) == 2 * Morton.Pow2(1) == 4;
    HeightOfGapped(SMALL.t);
    hide Encodes, Height, OctreeCells.Covers;
    assert Morton.Grid(0 + 4 - 1, 0 + 4 - 1, 0 + 4 - 1) == Morton.Grid(3, 3, 3);
  }

  lemma HeightOfGapped(t: Octree)
    requires |t.kids| == 2 && t.kids[0].node.kids == [] && t.kids[1].node.kids == []
    ensures Height(t) == 2
  {
    assert Height(t.kids[0].node) == 1 && Height(t.kids[1].node) == 1;
    assert TallestKid(t, 1) == 1 && TallestKid(t, 2) == 1;
  }

  lemma SmallMissesNothing()
    ensures Levels(SMALL.reg, ASK, 2).missing == []
  {
    assert CleanTo(SMALL.reg, ASK, 0);
    hide Levels;
    CleanOneLevel(SMALL.reg, ASK, 0);
    CleanOneLevel(SMALL.reg, ASK, 1);
  }

  lemma PointIsInItsBox(g: Grid)
    ensures HasPoint(PointBox(g), OctreeCells.Position(FRAMES, g))
  {
    hide OctreeCells.Position, FRAMES;
  }

  lemma OctantTwo(c: Cube, g: Grid)
    requires c == OctreeCells.Cube(Morton.Grid(0, 0, 0), 4) && g == Morton.Grid(0, 2, 0)
    ensures OctreeCells.InCube(OctreeCells.CubeAt(c, [2]), g)
  {
    var e: seq<nat> := [];
    assert [2][..0] == e && OctreeCells.CubeAt(c, e) == c;
    assert Shifted(2, 0) == 2 && Shifted(2, 1) == 1 && Shifted(2, 2) == 0;
  }

  lemma KidInOctantTwo(t: Octree, a: Octree, b: Octree)
    requires t.kids == [Kid(2, a), Kid(5, b)]
    ensures NodeAt(t, [2]) == Some(a)
  {
    var e: seq<nat> := [];
    assert e + [2] == [2] && NodeAt(t, e) == Some(t);
    NodeAtKid(t, e, t, 0);
  }

  lemma CountOfOne(s: Subset)
    ensures CountSubset([s], s) == 1
  {
    assert [s][..0] == [];
  }

  lemma PointIsInItsLeaf()
    ensures NodeAt(SMALL.t, [2]) == Some(Leaf(LEAF_DATA)) && CountSubset(LEAF_DATA.subsets, UNIT) == 1
    ensures OctreeCells.InCube(OctreeCells.CubeAt(SMALL.root, [2]), POINT) && OctreeCells.Wanted(FRAMES, ASK, POINT)
    ensures HasPoint(LEAF_DATA.tight, OctreeCells.Position(FRAMES, POINT))
  {
    hide NodeAt, CountSubset, OctreeCells.InCube, OctreeCells.CubeAt, HasPoint, OctreeCells.Position, FRAMES, PointBox, ROOT_BOX;
    KidInOctantTwo(SMALL.t, Leaf(LEAF_DATA), Leaf(LEAF_DATA));
    CountOfOne(UNIT);
    OctantTwo(SMALL.root, POINT);
    PointIsInItsBox(POINT);
  }

  const CODE: nat := PointPacking.Encode(POINT)
  const HEADER := PointPacking.Header(Morton.M32, CODE, CODE, 0)

  lemma CodeOfPoint(g: Grid)
    requires g == Morton.Grid(0, 2, 0)
    ensures PointPacking.Encode(g) == 16
  {
    PointPacking.EncodeStep(Morton.Grid(0, 1, 0));
    PointPacking.EncodeStep(g);
  }

  lemma Pow8Above(n: nat)
    requires n >= 2
    ensures Morton.Pow8(n) >= 64
  {
    PointPacking.Pow8Split(2, n);
    assert Morton.Pow8(2) == 64;
    hide Morton.Pow8;
    Morton.MulMonotone(1, Morton.Pow8(n - 2), 64);
  }

  lemma PointIsPacked()
    ensures RegionResult.PackedIn(HEADER, PointPacking.Narrow(CODE, 10), POINT)
  {
    hide PointPacking.Encode, Morton.Pow8, Morton.Drop, PointPacking.Narrow;
    CodeOfPoint(POINT);
    Pow8Above(64);
  }

  /** What the request reads for the node that was selected; the others are not resident. */
  function Reads(walked: seq<Node>, k: nat): (nodes: seq<RegionResult.Selected>)
    ensures |nodes| == |walked|
    ensures forall m :: 0 <= m < |walked| ==>
      nodes[m] == if m == k then RegionResult.Selected(walked[m], true, RegionResult.Unit(HEADER, [PointPacking.Narrow(CODE, 10)]), [])
                  else RegionResult.Selected(walked[m], false, RegionResult.NoSlot, [])
  {
    seq(|walked|, m requires 0 <= m < |walked| =>
      if m == k then RegionResult.Selected(walked[m], true, RegionResult.Unit(HEADER, [PointPacking.Narrow(CODE, 10)]), [])
      else RegionResult.Selected(walked[m], false, RegionResult.NoSlot, []))
  }

  /** The theorem has an instance with a point in it: all its premises hold of this dataset and query, for the
      leaf in octant 2, and the selected node has one point. */
  lemma SmallIsServed() returns (nodes: seq<RegionResult.Selected>, k: nat)
    ensures WellFormed(SMALL, 2) && Clipped(ASK, JOB) && Levels(SMALL.reg, ASK, 2).missing == []
    ensures WorksOn(nodes, Levels(SMALL.reg, ASK, 2).nodes) && AllInPlace(SMALL, JOB, nodes)
    ensures NodeAt(SMALL.t, [2]) == Some(Leaf(LEAF_DATA)) && CountSubset(LEAF_DATA.subsets, UNIT) == 1
    ensures k < |nodes| && nodes[k].node.path == [2] && nodes[k].node.subset == UNIT && |RegionResult.Points(JOB, nodes[k])| == 1
  {
    SmallIsWellFormed();
    SmallMissesNothing();
    PointIsInItsLeaf();
    PointIsPacked();
    assert UNIT.offset == 0 && UNIT.count == 1 && UNIT.leafData && ASK.mode.Full? && SMALL.k == 2 && JOB.config.scale == 1.0;
    hide WellFormed, Levels, NodeAt, CountSubset, OctreeCells.InCube, OctreeCells.CubeAt, OctreeCells.Wanted, HasPoint, OctreeCells.Position,
         SameFrames, RegionResult.PackedIn, PointPacking.Narrow, CODE, InPlace;
    k := LeafUnitIsSelectedOnce(SMALL, ASK, 2, [2], Leaf(LEAF_DATA), UNIT, POINT);
    var walked := Levels(SMALL.reg, ASK, 2).nodes;
    nodes := Reads(walked, k);
    WalkedTight(SMALL, ASK, 2, walked[k]);
    var n := nodes[k];
    assert RegionResult.Readable(n) && n.Count() == 1 && n.Offset() == 0;
    PackedPointIsInPlace(SMALL, JOB, n, 0, POINT);
    assert HasPlace(SMALL, JOB, n, 0);
    forall m: nat, i: nat | m < |nodes| && i < |RegionResult.Points(JOB, nodes[m])|
      ensures HasPlace(SMALL, JOB, nodes[m], i)
    {
      assert m == k && i == 0;
    }
  }
}
