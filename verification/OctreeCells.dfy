/** Real boxes against grid cubes: the walk halves real boxes, while the points live on the integer
    grid of a power-of-two cube whose stored corners are both grid points. */
module OctreeCells {
  import opened RegionWalk
  import opened RegionWalkTheorems
  import Morton
  import PointPacking

  // ---- one axis -------------------------------------------------------------------------------

  /** The grid step and offset of the dataset along one axis. */
  datatype Frame = Frame(scale: real, offset: real)

  function World(f: Frame, g: int): real { g as real * f.scale + f.offset }

  /** [lo, hi] reaches the first and last of `size` grid points from `g`, and less than a step past
      them on either side. */
  ghost predicate CoversAxis(f: Frame, lo: real, hi: real, g: int, size: nat) {
    && World(f, g - 1) <= lo <= World(f, g)
    && World(f, g + size - 1) <= hi <= World(f, g + size)
  }

  lemma WorldMonotone(f: Frame, a: int, b: int)
    requires f.scale > 0.0 && a <= b
    ensures World(f, a) <= World(f, b)
  {
    assert (b - a) as real * f.scale >= 0.0;
    assert World(f, b) - World(f, a) == (b - a) as real * f.scale;
  }

  lemma WorldMidpoint(f: Frame, a: int, b: int, m: int)
    requires a + b == 2 * m
    ensures (World(f, a) + World(f, b)) * 0.5 == World(f, m)
  {
    assert a as real + b as real == 2.0 * m as real;
    assert World(f, a) + World(f, b) == (a as real + b as real) * f.scale + 2.0 * f.offset;
    assert (2.0 * m as real) * f.scale == 2.0 * (m as real * f.scale);
  }

  /** Halving keeps the cover: the midpoint falls in the gap between the two half-ranges. */
  lemma HalfCovers(f: Frame, lo: real, hi: real, g: int, half: nat, high: bool)
    requires CoversAxis(f, lo, hi, g, 2 * half)
    ensures
      var (lo', hi') := Half(lo, hi, high);
      CoversAxis(f, lo', hi', if high then g + half else g, half)
  {
    WorldMidpoint(f, g - 1, g + 2 * half - 1, g + half - 1);
    WorldMidpoint(f, g, g + 2 * half, g + half);
  }

  // ---- cubes ----------------------------------------------------------------------------------

  type Grid = Morton.Grid
  datatype Frames = Frames(x: Frame, y: Frame, z: Frame)
  datatype Cube = Cube(min: Grid, size: nat)

  predicate InCube(c: Cube, p: Grid) {
    && c.min.x <= p.x < c.min.x + c.size && c.min.y <= p.y < c.min.y + c.size && c.min.z <= p.z < c.min.z + c.size
  }

  function Position(f: Frames, p: Grid): Vec { Vec(World(f.x, p.x), World(f.y, p.y), World(f.z, p.z)) }

  ghost predicate Covers(f: Frames, b: Box, c: Cube) {
    && CoversAxis(f.x, b.min.x, b.max.x, c.min.x, c.size)
    && CoversAxis(f.y, b.min.y, b.max.y, c.min.y, c.size)
    && CoversAxis(f.z, b.min.z, b.max.z, c.min.z, c.size)
  }

  predicate Proper(f: Frames) { f.x.scale > 0.0 && f.y.scale > 0.0 && f.z.scale > 0.0 }

  function ChildCube(c: Cube, octant: nat): Cube {
    var h := c.size / 2;
    Cube(Morton.Grid(c.min.x + (if Bit(octant, 0) then h else 0), c.min.y + (if Bit(octant, 1) then h else 0),
              c.min.z + (if Bit(octant, 2) then h else 0)), h)
  }

  /** The octant of `c` that holds `p`. */
  function OctantOf(c: Cube, p: Grid): nat {
    var h := c.size / 2;
    (if p.x >= c.min.x + h then 1 else 0) + (if p.y >= c.min.y + h then 2 else 0) + (if p.z >= c.min.z + h then 4 else 0)
  }

  lemma OctantHolds(c: Cube, p: Grid)
    requires InCube(c, p) && c.size % 2 == 0
    ensures OctantOf(c, p) < 8 && InCube(ChildCube(c, OctantOf(c, p)), p)
  {
    var o := OctantOf(c, p);
    assert Shifted(o, 0) == o && Shifted(o, 1) == o / 2 && Shifted(o, 2) == o / 2 / 2;
  }

  lemma ChildCovers(f: Frames, b: Box, c: Cube, octant: nat)
    requires Covers(f, b, c) && c.size % 2 == 0
    ensures Covers(f, ChildBox(b, octant), ChildCube(c, octant))
  {
    hide Bit;
    var h := c.size / 2;
    HalfCovers(f.x, b.min.x, b.max.x, c.min.x, h, Bit(octant, 0));
    HalfCovers(f.y, b.min.y, b.max.y, c.min.y, h, Bit(octant, 1));
    HalfCovers(f.z, b.min.z, b.max.z, c.min.z, h, Bit(octant, 2));
  }

  /** A box that covers a cube has all its grid points inside. */
  lemma CoverHasPoints(f: Frames, b: Box, c: Cube, p: Grid)
    requires Proper(f) && Covers(f, b, c) && InCube(c, p)
    ensures HasPoint(b, Position(f, p))
  {
    WorldMonotone(f.x, c.min.x, p.x);
    WorldMonotone(f.x, p.x, c.min.x + c.size - 1);
    WorldMonotone(f.y, c.min.y, p.y);
    WorldMonotone(f.y, p.y, c.min.y + c.size - 1);
    WorldMonotone(f.z, c.min.z, p.z);
    WorldMonotone(f.z, p.z, c.min.z + c.size - 1);
  }

  /** cell_from_morton of a cube's two stored corners covers the cube. */
  lemma CornersCover(f: Frames, c: Cube)
    requires Proper(f) && c.size > 0
    ensures Covers(f, Box(Position(f, c.min),
                          Position(f, Morton.Grid(c.min.x + c.size - 1, c.min.y + c.size - 1, c.min.z + c.size - 1))), c)
  {
    WorldMonotone(f.x, c.min.x - 1, c.min.x);
    WorldMonotone(f.x, c.min.x + c.size - 1, c.min.x + c.size);
    WorldMonotone(f.y, c.min.y - 1, c.min.y);
    WorldMonotone(f.y, c.min.y + c.size - 1, c.min.y + c.size);
    WorldMonotone(f.z, c.min.z - 1, c.min.z);
    WorldMonotone(f.z, c.min.z + c.size - 1, c.min.z + c.size);
  }

  // ---- the cube under a path --------------------------------------------------------------------

  function CubeAt(root: Cube, path: seq<nat>): Cube {
    if path == [] then root else ChildCube(CubeAt(root, path[..|path| - 1]), path[|path| - 1])
  }

  lemma {:induction false} CubeSize(root: Cube, k: nat, path: seq<nat>)
    requires root.size == Morton.Pow2(k) && |path| <= k
    ensures CubeAt(root, path).size == Morton.Pow2(k - |path|)
  {
    if path != [] {
      CubeSize(root, k, path[..|path| - 1]);
    }
  }

  /** What the walk knows about a worklist entry: its real box covers its grid cube, and if it is
      marked inside then every grid point below it is in the query box. */
  ghost predicate Sound(f: Frames, root: Cube, q: Query, p: Pending) {
    && Covers(f, p.cell, CubeAt(root, p.path))
    && (p.inside ==> q.whole || forall g :: InCube(CubeAt(root, p.path), g) ==> HasPoint(q.box, Position(f, g)))
  }

  lemma ContainedBox(f: Frames, b: Box, c: Cube, outer: Box)
    requires Proper(f) && Covers(f, b, c) && Contains(outer, b)
    ensures forall g :: InCube(c, g) ==> HasPoint(outer, Position(f, g))
  {
    forall g | InCube(c, g)
      ensures HasPoint(outer, Position(f, g))
    {
      CoverHasPoints(f, b, c, g);
    }
  }

  lemma ChildCubeInside(c: Cube, octant: nat, g: Grid)
    requires InCube(ChildCube(c, octant), g)
    ensures InCube(c, g)
  {
  }

  lemma ChildFields(reg: Registry, q: Query, p: Pending, i: nat)
    requires ChildAt(reg, q, p, i).Child?
    ensures
      var c := ChildAt(reg, q, p, i).pending;
      c.path == p.path + [i] && c.cell == ChildBox(p.cell, i) && c.inside == (p.inside || Contains(q.box, c.cell))
  {
  }

  lemma ChildIsSound(f: Frames, root: Cube, k: nat, reg: Registry, q: Query, p: Pending, i: nat)
    requires Proper(f) && root.size == Morton.Pow2(k) && |p.path| < k && Sound(f, root, q, p)
    requires ChildAt(reg, q, p, i).Child?
    ensures Sound(f, root, q, ChildAt(reg, q, p, i).pending)
  {
    hide ChildAt, ChildBox, ChildCube, Covers, Contains, HasPoint, InCube;
    ChildFields(reg, q, p, i);
    var c := ChildAt(reg, q, p, i).pending;
    var cube, child := CubeAt(root, p.path), CubeAt(root, c.path);
    assert c.path[..|p.path|] == p.path;
    assert child == ChildCube(cube, i);
    CubeSize(root, k, p.path);
    ChildCovers(f, p.cell, cube, i);
    if Contains(q.box, c.cell) {
      ContainedBox(f, c.cell, child, q.box);
    }
    forall g | p.inside && !q.whole && InCube(child, g)
      ensures HasPoint(q.box, Position(f, g))
    {
      ChildCubeInside(cube, i, g);
    }
  }

  lemma {:induction false} ChildrenAreSound(f: Frames, root: Cube, k: nat, reg: Registry, q: Query, p: Pending, n: nat)
    requires Proper(f) && root.size == Morton.Pow2(k) && |p.path| < k && Sound(f, root, q, p)
    ensures forall c :: c in ChildrenTo(reg, q, p, n) ==> Sound(f, root, q, c)
  {
    hide ChildAt, Sound;
    if n > 0 {
      ChildrenAreSound(f, root, k, reg, q, p, n - 1);
      if ChildAt(reg, q, p, n - 1).Child? {
        ChildIsSound(f, root, k, reg, q, p, n - 1);
      }
    }
  }

  ghost predicate AllSound(f: Frames, root: Cube, q: Query, ps: seq<Pending>) {
    forall p :: p in ps ==> Sound(f, root, q, p)
  }

  lemma {:induction false} PassIsSound(f: Frames, root: Cube, k: nat, reg: Registry, q: Query,
                                       current: seq<Pending>, s: State, depth: nat)
    requires Proper(f) && root.size == Morton.Pow2(k) && depth < k
    requires AllSound(f, root, q, current) && AllSound(f, root, q, s.stops) && AllSound(f, root, q, s.next)
    requires forall p :: p in current ==> |p.path| == depth
    ensures AllSound(f, root, q, Pass(reg, q, current, s).stops) && AllSound(f, root, q, Pass(reg, q, current, s).next)
  {
    hide Sound, ChildrenTo, MissingTo, Emit;
    if current != [] {
      PassIsSound(f, root, k, reg, q, current[..|current| - 1], s, depth);
      ChildrenAreSound(f, root, k, reg, q, current[|current| - 1], 8);
    }
  }

  /** At every depth of every walk: each stop node's and worklist entry's halved box still covers
      every grid point of its octant, and `fully inside` is never claimed wrongly. */
  lemma {:induction false} WalkIsSound(f: Frames, root: Cube, k: nat, reg: Registry, q: Query, depth: nat)
    requires Proper(f) && root.size == Morton.Pow2(k) && depth <= k
    requires reg.root in reg.trees ==> Covers(f, reg.trees[reg.root].cell, root)
    ensures AllSound(f, root, q, Levels(reg, q, depth).stops) && AllSound(f, root, q, Levels(reg, q, depth).next)
  {
    hide Pass;
    if depth == 0 {
      if reg.root in reg.trees && Contains(q.box, reg.trees[reg.root].cell) {
        ContainedBox(f, reg.trees[reg.root].cell, root, q.box);
      }
    } else {
      WalkIsSound(f, root, k, reg, q, depth - 1);
      PathLengths(reg, q, depth - 1);
      var s := Levels(reg, q, depth - 1);
      PassIsSound(f, root, k, reg, q, s.next, s.(next := []), depth - 1);
    }
  }

  // ---- pruning loses nothing --------------------------------------------------------------------

  lemma SharedPointOverlaps(a: Box, b: Box, p: Vec)
    requires HasPoint(a, p) && HasPoint(b, p)
    ensures Overlaps(a, b)
  {
  }

  lemma InBoxChild(f: Frames, b: Box, cube: Cube, box: Box, g: Grid)
    requires Proper(f) && Covers(f, b, cube) && cube.size % 2 == 0 && InCube(cube, g) && HasPoint(box, Position(f, g))
    ensures OctantOf(cube, g) < 8 && InCube(ChildCube(cube, OctantOf(cube, g)), g)
    ensures Overlaps(ChildBox(b, OctantOf(cube, g)), box)
  {
    hide *;
    var i := OctantOf(cube, g);
    OctantHolds(cube, g);
    ChildCovers(f, b, cube, i);
    CoverHasPoints(f, ChildBox(b, i), ChildCube(cube, i), g);
    SharedPointOverlaps(ChildBox(b, i), box, Position(f, g));
  }

  /** An octant that holds an in-box grid point is never pruned. */
  lemma InBoxOctantIsKept(f: Frames, root: Cube, k: nat, reg: Registry, q: Query, p: Pending, g: Grid)
    requires Proper(f) && root.size == Morton.Pow2(k) && |p.path| < k && Sound(f, root, q, p)
    requires InCube(CubeAt(root, p.path), g) && HasPoint(q.box, Position(f, g))
    ensures
      var i := OctantOf(CubeAt(root, p.path), g);
      i < 8 && ChildAt(reg, q, p, i) == ChildAt(reg, q.(whole := true), p, i)
      && InCube(CubeAt(root, p.path + [i]), g)
  {
    hide OctantOf, ChildCube, ChildBox, Overlaps, Covers, Rank, InCube;
    var cube := CubeAt(root, p.path);
    CubeSize(root, k, p.path);
    InBoxChild(f, p.cell, cube, q.box, g);
    assert (p.path + [OctantOf(cube, g)])[..|p.path|] == p.path;
  }

  lemma {:induction false} ChildInList(reg: Registry, q: Query, p: Pending, i: nat, n: nat)
    requires i < n && ChildAt(reg, q, p, i).Child?
    ensures ChildAt(reg, q, p, i).pending in ChildrenTo(reg, q, p, n)
  {
    hide ChildAt;
    if i < n - 1 {
      ChildInList(reg, q, p, i, n - 1);
    }
  }

  ghost predicate Holds(root: Cube, p: Pending, g: Grid) { InCube(CubeAt(root, p.path), g) }

  ghost predicate SomeHolds(root: Cube, ps: seq<Pending>, g: Grid) { exists p :: p in ps && Holds(root, p, g) }

  /** The entries of a level that the walk expanded rather than stopped at. */
  function Expanded(reg: Registry, q: Query, current: seq<Pending>, s: State): seq<Pending> {
    if current == [] then []
    else
      var init, p := current[..|current| - 1], current[|current| - 1];
      Expanded(reg, q, init, s) + (if Descends(q, p, Pass(reg, q, init, s).total) then [p] else [])
  }

  function ExpandedAt(reg: Registry, q: Query, depth: nat): seq<Pending> {
    var s := Levels(reg, q, depth);
    Expanded(reg, q, s.next, s.(next := []))
  }

  /** Node v has no octant where g lies, or only one whose tree is not resident. */
  ghost predicate EndsAt(reg: Registry, q: Query, root: Cube, v: Pending, g: Grid) {
    && Holds(root, v, g)
    && var o := ChildAt(reg, q, v, OctantOf(CubeAt(root, v.path), g)); o.Absent? || o.NotResident?
  }

  ghost predicate SomeEnds(reg: Registry, q: Query, root: Cube, vs: seq<Pending>, g: Grid) {
    exists v :: v in vs && EndsAt(reg, q, root, v, g)
  }

  /** Whether g counts for the query. */
  ghost predicate Wanted(f: Frames, q: Query, g: Grid) { q.whole || HasPoint(q.box, Position(f, g)) }

  lemma ExpandKeepsPoint(f: Frames, root: Cube, k: nat, reg: Registry, q: Query, p: Pending, g: Grid)
    requires Proper(f) && root.size == Morton.Pow2(k) && |p.path| < k && Sound(f, root, q, p) && Holds(root, p, g) && Wanted(f, q, g)
    ensures SomeHolds(root, ChildrenTo(reg, q, p, 8), g) || EndsAt(reg, q, root, p, g)
  {
    hide OctantOf, Sound, ChildAt, ChildrenTo, CubeAt, InCube, Morton.Pow2;
    var i := OctantOf(CubeAt(root, p.path), g);
    OctantOfPoint(root, k, p, g);
    if q.whole {
      WholeIsNotPruned(reg, q, p, i);
    } else {
      InBoxOctantIsKept(f, root, k, reg, q, p, g);
      WholeIsNotPruned(reg, q.(whole := true), p, i);
    }
    var o := ChildAt(reg, q, p, i);
    if o.Child? {
      ChildFields(reg, q, p, i);
      ChildInList(reg, q, p, i, 8);
      assert Holds(root, o.pending, g);
    }
  }

  lemma OctantOfPoint(root: Cube, k: nat, p: Pending, g: Grid)
    requires root.size == Morton.Pow2(k) && |p.path| < k && Holds(root, p, g)
    ensures var i := OctantOf(CubeAt(root, p.path), g); i < 8 && InCube(CubeAt(root, p.path + [i]), g)
  {
    hide OctantOf, InCube;
    var cube := CubeAt(root, p.path);
    var i := OctantOf(cube, g);
    CubeSize(root, k, p.path);
    OctantHolds(cube, g);
    assert (p.path + [i])[..|p.path|] == p.path;
  }

  lemma WholeIsNotPruned(reg: Registry, q: Query, p: Pending, i: nat)
    requires q.whole
    ensures !ChildAt(reg, q, p, i).Pruned?
  {
    hide ChildBox, Contains, Overlaps, Rank, Bit;
  }

  lemma HoldsMore(root: Cube, ps: seq<Pending>, more: seq<Pending>, g: Grid)
    ensures SomeHolds(root, ps, g) || SomeHolds(root, more, g) ==> SomeHolds(root, ps + more, g)
  {
    hide Holds;
    if SomeHolds(root, ps, g) {
      var p :| p in ps && Holds(root, p, g);
      assert p in ps + more;
    } else if SomeHolds(root, more, g) {
      var p :| p in more && Holds(root, p, g);
      assert p in ps + more;
    }
  }

  /** A level loses no point: what it held, or what its worklist held, is in a stop or the next
      worklist, or its place ended at an expanded node. */
  lemma {:induction false} PassKeepsPoint(f: Frames, root: Cube, k: nat, reg: Registry, q: Query, current: seq<Pending>,
                                          s: State, depth: nat, g: Grid)
    requires Proper(f) && root.size == Morton.Pow2(k) && depth < k && Wanted(f, q, g)
    requires AllSound(f, root, q, current) && forall p :: p in current ==> |p.path| == depth
    requires SomeHolds(root, current, g) || SomeHolds(root, s.stops, g) || SomeHolds(root, s.next, g)
    ensures
      var t := Pass(reg, q, current, s);
      SomeHolds(root, t.stops, g) || SomeHolds(root, t.next, g) || SomeEnds(reg, q, root, Expanded(reg, q, current, s), g)
  {
    hide Sound, ChildrenTo, MissingTo, Emit, Points, EndsAt, Holds, Wanted;
    if current != [] {
      var init, p := current[..|current| - 1], current[|current| - 1];
      var t := Pass(reg, q, init, s);
      if SomeHolds(root, init, g) || SomeHolds(root, s.stops, g) || SomeHolds(root, s.next, g) {
        PassKeepsPoint(f, root, k, reg, q, init, s, depth, g);
        if SomeEnds(reg, q, root, Expanded(reg, q, init, s), g) {
          var v :| v in Expanded(reg, q, init, s) && EndsAt(reg, q, root, v, g);
          assert v in Expanded(reg, q, current, s);
        }
      } else {
        LastHolds(root, current, g);
        if Descends(q, p, t.total) {
          ExpandKeepsPoint(f, root, k, reg, q, p, g);
          assert p in Expanded(reg, q, current, s);
        } else {
          assert SomeHolds(root, [p], g) by { assert p in [p]; }
        }
      }
      HoldsMore(root, t.stops, [p], g);
      HoldsMore(root, t.next, ChildrenTo(reg, q, p, 8), g);
    }
  }

  lemma LastHolds(root: Cube, ps: seq<Pending>, g: Grid)
    requires ps != [] && SomeHolds(root, ps, g) && !SomeHolds(root, ps[..|ps| - 1], g)
    ensures Holds(root, ps[|ps| - 1], g)
  {
    hide Holds;
    var p :| p in ps && Holds(root, p, g);
    if p != ps[|ps| - 1] {
      assert p in ps[..|ps| - 1];
    }
  }

  /** The walk has something to walk. */
  ghost predicate Begins(f: Frames, root: Cube, reg: Registry) {
    && reg.size != 0 && reg.root in reg.trees && reg.trees[reg.root].Data(0, 0).subsets != []
    && Covers(f, reg.trees[reg.root].cell, root)
  }

  ghost predicate EndsAbove(reg: Registry, q: Query, root: Cube, g: Grid, depth: nat) {
    exists d: nat :: d < depth && SomeEnds(reg, q, root, ExpandedAt(reg, q, d), g)
  }

  /** In every mode, after every level: a grid point of the root cube that the query wants lies under a
      stop node or a worklist entry, or under an expanded node that has no octant for it or one that is
      not resident. Pruning never comes between. */
  lemma {:induction false} WalkLosesNoPoint(f: Frames, root: Cube, k: nat, reg: Registry, q: Query, depth: nat, g: Grid)
    requires Proper(f) && root.size == Morton.Pow2(k) && depth <= k && Begins(f, root, reg) && InCube(root, g) && Wanted(f, q, g)
    ensures
      var s := Levels(reg, q, depth);
      SomeHolds(root, s.stops, g) || SomeHolds(root, s.next, g) || EndsAbove(reg, q, root, g, depth)
  {
    hide Pass, Expanded, EndsAt, SomeEnds;
    if depth == 0 {
      RootIsKept(f, root, reg, q, g);
    } else {
      WalkLosesNoPoint(f, root, k, reg, q, depth - 1, g);
      var s := Levels(reg, q, depth - 1);
      if EndsAbove(reg, q, root, g, depth - 1) {
        var d: nat :| d < depth - 1 && SomeEnds(reg, q, root, ExpandedAt(reg, q, d), g);
        assert d < depth;
      } else {
        WalkIsSound(f, root, k, reg, q, depth - 1);
        PathLengths(reg, q, depth - 1);
        PassKeepsPoint(f, root, k, reg, q, s.next, s.(next := []), depth - 1, g);
        if SomeEnds(reg, q, root, ExpandedAt(reg, q, depth - 1), g) {
          assert depth - 1 < depth;
        }
      }
    }
  }

  lemma {:induction false} MissingListed(reg: Registry, q: Query, p: Pending, i: nat, n: nat)
    requires i < n && ChildAt(reg, q, p, i).NotResident?
    ensures ChildAt(reg, q, p, i).id in MissingTo(reg, q, p, n)
  {
    hide ChildAt;
    if i < n - 1 {
      MissingListed(reg, q, p, i, n - 1);
    }
  }

  lemma {:induction false} ExpandedReports(reg: Registry, q: Query, current: seq<Pending>, s: State, v: Pending, i: nat)
    requires v in Expanded(reg, q, current, s) && i < 8 && ChildAt(reg, q, v, i).NotResident?
    ensures Pass(reg, q, current, s).missing != []
    decreases |current|
  {
    hide ChildAt, MissingTo, ChildrenTo, Emit, Points;
    var init, p := current[..|current| - 1], current[|current| - 1];
    if v in Expanded(reg, q, init, s) {
      ExpandedReports(reg, q, init, s, v, i);
    } else {
      MissingListed(reg, q, v, i, 8);
    }
  }

  /** A walk that misses no tree ends a point's place only where the octree itself ends. */
  lemma CompleteWalkEndsAtGaps(reg: Registry, q: Query, depth: nat, d: nat, v: Pending, i: nat)
    requires Levels(reg, q, depth).missing == [] && d < depth && v in ExpandedAt(reg, q, d) && i < 8
    ensures !ChildAt(reg, q, v, i).NotResident?
  {
    hide ChildAt, Pass, Expanded;
    if ChildAt(reg, q, v, i).NotResident? {
      var s := Levels(reg, q, d);
      ExpandedReports(reg, q, s.next, s.(next := []), v, i);
      MissingIsPrefix(reg, q, d + 1, depth);
      assert false;
    }
  }

  lemma RootIsKept(f: Frames, root: Cube, reg: Registry, q: Query, g: Grid)
    requires Proper(f) && Begins(f, root, reg) && InCube(root, g) && Wanted(f, q, g)
    ensures SomeHolds(root, Levels(reg, q, 0).next, g)
  {
    var tree := reg.trees[reg.root];
    CoverHasPoints(f, tree.cell, root, g);
    if !q.whole {
      SharedPointOverlaps(tree.cell, q.box, Position(f, g));
    }
    var p := Pending(tree, 0, tree.cell, q.whole || Contains(q.box, tree.cell), []);
    assert Levels(reg, q, 0).next == [p];
    assert Holds(root, p, g);
  }

  // ---- the tight box ----------------------------------------------------------------------------

  /** emit_node drops a stop node whose tight box misses the query box. That is safe for every query
      box exactly when the tight box bounds the node's points. */
  lemma TightTestIsSafeExactlyWhenItBounds(tight: Box, points: set<Vec>)
    ensures (forall box, p :: p in points && HasPoint(box, p) ==> Overlaps(tight, box))
            <==> (forall p :: p in points ==> HasPoint(tight, p))
  {
    if forall box, p :: p in points && HasPoint(box, p) ==> Overlaps(tight, box) {
      forall p | p in points
        ensures HasPoint(tight, p)
      {
        assert HasPoint(Box(p, p), p);
        assert Overlaps(tight, Box(p, p));
      }
    }
  }

  /** Marking a node fully inside because its tight box is, and so skipping the per-point clip, is
      right for every query box under exactly the same condition. */
  lemma TightContainmentIsSafeExactlyWhenItBounds(tight: Box, points: set<Vec>)
    ensures (forall box, p :: p in points && Contains(box, tight) ==> HasPoint(box, p))
            <==> (forall p :: p in points ==> HasPoint(tight, p))
  {
    assert Contains(tight, tight);
  }

  /** A node with points (0, 1, 0), (3, 0, 0) and (0, 2, 0): the first and the last are its Morton extremes,
      so its tight box is the one they span, and a query around the second drops the node. */
  lemma NodeIsDroppedDespiteItsPoint(f: Frames, q: Query, p: Pending)
    requires Proper(f) && !q.whole
    requires p.Data().tight == Box(Position(f, Morton.Grid(0, 1, 0)), Position(f, Morton.Grid(0, 2, 0)))
    requires q.box == Box(Position(f, Morton.Grid(3, 0, 0)), Position(f, Morton.Grid(3, 0, 0)))
    ensures
      var a, b, c := Morton.Grid(0, 1, 0), Morton.Grid(3, 0, 0), Morton.Grid(0, 2, 0);
      PointPacking.Encode(a) < PointPacking.Encode(b) < PointPacking.Encode(c) && HasPoint(q.box, Position(f, b))
    ensures Emit(q, p) == []
  {
    PointPacking.ExtremesDoNotBound();
    hide PointPacking.Encode;
    assert World(f.x, 0) < World(f.x, 3);
  }
}
