/** What the region walk selects, and why the walk-and-load loop ends. */
module RegionWalkTheorems {
  import opened RegionWalk

  // ---- the emitted nodes are those of the stop nodes ----------------------------------------------

  lemma {:induction false} PointsAppend(a: seq<Node>, b: seq<Node>)
    ensures Points(a + b) == Points(a) + Points(b)
  {
    if b == [] {
      assert a + b == a;
    } else {
      assert (a + b)[..|a + b| - 1] == a + b[..|b| - 1];
      PointsAppend(a, b[..|b| - 1]);
    }
  }

  ghost predicate Coherent(q: Query, s: State) {
    s.nodes == EmitAll(q, s.stops) && s.total == Points(s.nodes)
  }

  lemma {:induction false} PassCoherent(reg: Registry, q: Query, current: seq<Pending>, s: State)
    requires Coherent(q, s)
    ensures Coherent(q, Pass(reg, q, current, s))
  {
    if current != [] {
      var t, p := Pass(reg, q, current[..|current| - 1], s), current[|current| - 1];
      PassCoherent(reg, q, current[..|current| - 1], s);
      PointsAppend(t.nodes, Emit(q, p));
      assert (t.stops + [p])[..|t.stops|] == t.stops;
    }
  }

  /** In every mode the walk's nodes are, in order, what its stop nodes emit, and the running total
      that steers the budget mode is their point count. */
  lemma {:induction false} WalkEmitsItsStops(reg: Registry, q: Query, depth: nat)
    ensures Coherent(q, Levels(reg, q, depth))
  {
    if depth > 0 {
      WalkEmitsItsStops(reg, q, depth - 1);
      var s := Levels(reg, q, depth - 1);
      PassCoherent(reg, q, s.next, s.(next := []));
    }
  }

  // ---- breadth first equals recursion ---------------------------------------------------------

  /** The recursive octree query: the stop nodes below `p`, at most `depth` levels down. */
  function Frontier(reg: Registry, q: Query, p: Pending, depth: nat): seq<Pending>
    decreases depth, 0
  {
    if depth == 0 then []
    else if !Descends(q, p, 0) then [p]
    else FrontierAll(reg, q, ChildrenTo(reg, q, p, 8), depth - 1)
  }

  function FrontierAll(reg: Registry, q: Query, ps: seq<Pending>, depth: nat): seq<Pending>
    decreases depth, |ps| + 1
  {
    if ps == [] then [] else FrontierAll(reg, q, ps[..|ps| - 1], depth) + Frontier(reg, q, ps[|ps| - 1], depth)
  }

  lemma {:induction false} FrontierAllAppend(reg: Registry, q: Query, a: seq<Pending>, b: seq<Pending>, depth: nat)
    ensures FrontierAll(reg, q, a + b, depth) == FrontierAll(reg, q, a, depth) + FrontierAll(reg, q, b, depth)
  {
    if b == [] {
      assert a + b == a;
    } else {
      assert (a + b)[..|a + b| - 1] == a + b[..|b| - 1];
      FrontierAllAppend(reg, q, a, b[..|b| - 1], depth);
    }
  }

  lemma {:induction false} FrontierAllOutOfDepth(reg: Registry, q: Query, ps: seq<Pending>)
    ensures FrontierAll(reg, q, ps, 0) == []
  {
    if ps != [] {
      FrontierAllOutOfDepth(reg, q, ps[..|ps| - 1]);
    }
  }

  /** The stops found plus those still to come from the worklist. */
  ghost function Bag(reg: Registry, q: Query, s: State, depth: nat): multiset<Pending> {
    multiset(s.stops) + multiset(FrontierAll(reg, q, s.next, depth))
  }

  lemma VisitSplitsFrontier(reg: Registry, q: Query, p: Pending, s: State, depth: nat)
    requires !q.mode.PointBudget?
    ensures Bag(reg, q, Visit(reg, q, p, s), depth) == Bag(reg, q, s, depth) + multiset(Frontier(reg, q, p, depth + 1))
  {
    if Descends(q, p, s.total) {
      var children := ChildrenTo(reg, q, p, 8);
      assert Frontier(reg, q, p, depth + 1) == FrontierAll(reg, q, children, depth);
      FrontierAllAppend(reg, q, s.next, children, depth);
      assert Visit(reg, q, p, s).next == s.next + children;
    } else {
      assert Frontier(reg, q, p, depth + 1) == [p];
    }
  }

  /** One level of the walk trades the worklist for the stops it found and the worklist below. */
  lemma {:induction false} PassSplitsFrontier(reg: Registry, q: Query, current: seq<Pending>, s: State, depth: nat)
    requires !q.mode.PointBudget?
    ensures Bag(reg, q, Pass(reg, q, current, s), depth)
            == Bag(reg, q, s, depth) + multiset(FrontierAll(reg, q, current, depth + 1))
  {
    if current == [] {
      assert FrontierAll(reg, q, current, depth + 1) == [];
    } else {
      var init, p := current[..|current| - 1], current[|current| - 1];
      PassSplitsFrontier(reg, q, init, s, depth);
      VisitSplitsFrontier(reg, q, p, Pass(reg, q, init, s), depth);
      assert FrontierAll(reg, q, current, depth + 1)
             == FrontierAll(reg, q, init, depth + 1) + Frontier(reg, q, p, depth + 1);
    }
  }

  lemma StartBag(reg: Registry, q: Query, left: nat)
    ensures Bag(reg, q, Levels(reg, q, 0), left) == multiset(FrontierAll(reg, q, Start(reg, q).next, left))
  {
    assert Levels(reg, q, 0).stops == [];
  }

  lemma LevelSplitsFrontier(reg: Registry, q: Query, done: nat, left: nat)
    requires !q.mode.PointBudget?
    ensures Bag(reg, q, Levels(reg, q, done + 1), left) == Bag(reg, q, Levels(reg, q, done), left + 1)
  {
    var s := Levels(reg, q, done);
    var base := s.(next := []);
    PassSplitsFrontier(reg, q, s.next, base, left);
    assert FrontierAll(reg, q, base.next, left) == [];
  }

  lemma {:induction false} LevelsSplitFrontier(reg: Registry, q: Query, done: nat, left: nat)
    requires !q.mode.PointBudget?
    ensures Bag(reg, q, Levels(reg, q, done), left) == multiset(FrontierAll(reg, q, Start(reg, q).next, done + left))
  {
    hide *;
    if done == 0 {
      StartBag(reg, q, left);
    } else {
      LevelsSplitFrontier(reg, q, done - 1, left + 1);
      LevelSplitsFrontier(reg, q, done - 1, left);
    }
  }

  /** The breadth-first walk stops at exactly the nodes where the recursive query stops, each as
      often, whatever is resident. */
  lemma WalkRefinesRecursion(reg: Registry, q: Query, depth: nat)
    requires !q.mode.PointBudget?
    ensures multiset(Levels(reg, q, depth).stops) == multiset(FrontierAll(reg, q, Start(reg, q).next, depth))
  {
    LevelsSplitFrontier(reg, q, depth, 0);
    FrontierAllOutOfDepth(reg, q, Levels(reg, q, depth).next);
  }

  /** Every descent below `p` ends within `depth` levels. */
  ghost predicate Shallow(reg: Registry, q: Query, p: Pending, depth: nat)
    decreases depth
  {
    depth > 0 && (Descends(q, p, 0) ==> forall c :: c in ChildrenTo(reg, q, p, 8) ==> Shallow(reg, q, c, depth - 1))
  }

  /** In a forest shallower than the cap, the cap cuts nothing off: any deeper recursion finds the
      same stop nodes. */
  lemma {:induction false} CapIsHarmless(reg: Registry, q: Query, p: Pending, depth: nat, deeper: nat)
    requires Shallow(reg, q, p, depth) && depth <= deeper
    ensures Frontier(reg, q, p, deeper) == Frontier(reg, q, p, depth)
    decreases depth, 0
  {
    hide Descends, ChildrenTo, FrontierAll;
    if Descends(q, p, 0) {
      CapIsHarmlessAll(reg, q, ChildrenTo(reg, q, p, 8), depth - 1, deeper - 1);
    }
  }

  lemma {:induction false} CapIsHarmlessAll(reg: Registry, q: Query, ps: seq<Pending>, depth: nat, deeper: nat)
    requires depth <= deeper && forall c :: c in ps ==> Shallow(reg, q, c, depth)
    ensures FrontierAll(reg, q, ps, deeper) == FrontierAll(reg, q, ps, depth)
    decreases depth, |ps| + 1
  {
    if ps != [] {
      CapIsHarmlessAll(reg, q, ps[..|ps| - 1], depth, deeper);
      CapIsHarmless(reg, q, ps[|ps| - 1], depth, deeper);
    }
  }

  // ---- one frontier: no node twice, no ancestor with its descendant ------------------------------

  predicate Unrelated(a: Pending, b: Pending) { !(a.path <= b.path) && !(b.path <= a.path) }

  ghost predicate AllUnrelated(ps: seq<Pending>) {
    forall i, j :: 0 <= i < j < |ps| ==> Unrelated(ps[i], ps[j])
  }

  ghost predicate CrossUnrelated(ps: seq<Pending>, qs: seq<Pending>) {
    forall i, j :: 0 <= i < |ps| && 0 <= j < |qs| ==> Unrelated(ps[i], qs[j])
  }

  lemma ChildPath(reg: Registry, q: Query, p: Pending, i: nat)
    ensures ChildAt(reg, q, p, i).Child? ==> ChildAt(reg, q, p, i).pending.path == p.path + [i]
  {
  }

  lemma {:induction false} ChildrenAreUnrelated(reg: Registry, q: Query, p: Pending, n: nat)
    ensures AllUnrelated(ChildrenTo(reg, q, p, n))
    ensures forall c :: c in ChildrenTo(reg, q, p, n) ==>
              |c.path| == |p.path| + 1 && p.path == c.path[..|p.path|] && c.path[|p.path|] < n
  {
    hide ChildAt;
    if n > 0 {
      ChildrenAreUnrelated(reg, q, p, n - 1);
      ChildPath(reg, q, p, n - 1);
      var before := ChildrenTo(reg, q, p, n - 1);
      if ChildAt(reg, q, p, n - 1).Child? {
        var c := ChildAt(reg, q, p, n - 1).pending;
        forall i | 0 <= i < |before|
          ensures Unrelated(before[i], c)
        {
          assert before[i] in before;
          assert before[i].path[|p.path|] != c.path[|p.path|];
        }
      }
    }
  }

  lemma PrefixOfExtension(x: seq<nat>, p: seq<nat>, c: seq<nat>)
    requires |c| == |p| + 1 && p == c[..|p|]
    ensures x <= c ==> x <= p || p <= x
    ensures c <= x ==> p <= x
  {
    if x <= c && |x| <= |p| {
      assert x == c[..|x|] == p[..|x|];
    }
  }

  /** Stops found, worklist built and worklist left, all mutually unrelated. */
  ghost predicate Spread(s: State, left: seq<Pending>) {
    && AllUnrelated(s.stops) && AllUnrelated(s.next) && AllUnrelated(left)
    && CrossUnrelated(s.stops, s.next) && CrossUnrelated(s.stops, left) && CrossUnrelated(s.next, left)
  }

  lemma ExpansionStaysUnrelated(xs: seq<Pending>, p: Pending, children: seq<Pending>)
    requires forall i :: 0 <= i < |xs| ==> Unrelated(xs[i], p)
    requires forall c :: c in children ==> |c.path| == |p.path| + 1 && p.path == c.path[..|p.path|]
    ensures CrossUnrelated(xs, children) && CrossUnrelated(children, xs)
  {
    forall i, j | 0 <= i < |xs| && 0 <= j < |children|
      ensures Unrelated(xs[i], children[j]) && Unrelated(children[j], xs[i])
    {
      assert children[j] in children;
      PrefixOfExtension(xs[i].path, p.path, children[j].path);
    }
  }

  lemma VisitStaysSpread(reg: Registry, q: Query, p: Pending, s: State, left: seq<Pending>)
    requires Spread(s, [p] + left)
    ensures Spread(Visit(reg, q, p, s), left)
  {
    hide ChildrenTo, MissingTo, Emit, Points;
    var all := [p] + left;
    assert all[0] == p && forall j :: 0 <= j < |left| ==> all[j + 1] == left[j];
    var children := ChildrenTo(reg, q, p, 8);
    ChildrenAreUnrelated(reg, q, p, 8);
    ExpansionStaysUnrelated(s.stops, p, children);
    ExpansionStaysUnrelated(s.next, p, children);
    forall j | 0 <= j < |left|
      ensures Unrelated(left[j], p) && Unrelated(p, left[j])
    {
      assert Unrelated(all[0], all[j + 1]);
    }
    ExpansionStaysUnrelated(left, p, children);
  }

  lemma {:induction false} PassStaysSpread(reg: Registry, q: Query, current: seq<Pending>, s: State, left: seq<Pending>)
    requires Spread(s, current + left)
    ensures Spread(Pass(reg, q, current, s), left)
  {
    if current == [] {
      assert current + left == left;
    } else {
      var init, p := current[..|current| - 1], current[|current| - 1];
      assert current + left == init + ([p] + left);
      PassStaysSpread(reg, q, init, s, [p] + left);
      VisitStaysSpread(reg, q, p, Pass(reg, q, init, s), left);
    }
  }

  lemma {:induction false} LevelsStaySpread(reg: Registry, q: Query, depth: nat)
    ensures Spread(Levels(reg, q, depth), [])
  {
    hide Pass;
    if depth > 0 {
      LevelsStaySpread(reg, q, depth - 1);
      var s := Levels(reg, q, depth - 1);
      assert s.next + [] == s.next;
      PassStaysSpread(reg, q, s.next, s.(next := []), []);
    }
  }

  /** In all three modes the walk emits a single frontier. */
  lemma SingleFrontier(reg: Registry, q: Query, depth: nat, i: nat, j: nat)
    requires i < |Levels(reg, q, depth).stops| && j < |Levels(reg, q, depth).stops| && i != j
    ensures Unrelated(Levels(reg, q, depth).stops[i], Levels(reg, q, depth).stops[j])
  {
    LevelsStaySpread(reg, q, depth);
  }

  // ---- a walk that misses nothing is final --------------------------------------------------------

  predicate Grows(reg: Registry, reg': Registry) {
    && reg.size == reg'.size && reg.root == reg'.root
    && forall id :: id in reg.trees ==> id in reg'.trees && reg'.trees[id] == reg.trees[id]
  }

  lemma {:induction false} MissingOnlyGrows(reg: Registry, q: Query, current: seq<Pending>, s: State)
    ensures s.missing <= Pass(reg, q, current, s).missing
  {
    if current != [] {
      MissingOnlyGrows(reg, q, current[..|current| - 1], s);
    }
  }

  lemma {:induction false} MissingIsPrefix(reg: Registry, q: Query, depth: nat, deeper: nat)
    requires depth <= deeper
    ensures Levels(reg, q, depth).missing <= Levels(reg, q, deeper).missing
    decreases deeper - depth
  {
    hide Pass;
    if depth < deeper {
      MissingIsPrefix(reg, q, depth, deeper - 1);
      var s := Levels(reg, q, deeper - 1);
      MissingOnlyGrows(reg, q, s.next, s.(next := []));
    }
  }

  lemma SameChild(reg: Registry, reg': Registry, q: Query, p: Pending, i: nat)
    requires Grows(reg, reg')
    ensures !ChildAt(reg, q, p, i).NotResident? ==> ChildAt(reg', q, p, i) == ChildAt(reg, q, p, i)
    ensures ChildAt(reg, q, p, i).NotResident? && ChildAt(reg, q, p, i).id in reg'.trees ==> !ChildAt(reg', q, p, i).NotResident?
  {
  }

  lemma {:induction false} SameChildren(reg: Registry, reg': Registry, q: Query, p: Pending, n: nat)
    requires Grows(reg, reg') && MissingTo(reg, q, p, n) == []
    ensures ChildrenTo(reg', q, p, n) == ChildrenTo(reg, q, p, n) && MissingTo(reg', q, p, n) == []
  {
    hide ChildAt;
    if n > 0 {
      SameChildren(reg, reg', q, p, n - 1);
      SameChild(reg, reg', q, p, n - 1);
    }
  }

  lemma {:induction false} SamePass(reg: Registry, reg': Registry, q: Query, current: seq<Pending>, s: State)
    requires Grows(reg, reg') && Pass(reg, q, current, s).missing == []
    ensures Pass(reg', q, current, s) == Pass(reg, q, current, s)
  {
    if current != [] {
      var init, p := current[..|current| - 1], current[|current| - 1];
      var t := Pass(reg, q, init, s);
      assert t.missing <= Pass(reg, q, current, s).missing;
      SamePass(reg, reg', q, init, s);
      if Descends(q, p, t.total) {
        SameChildren(reg, reg', q, p, 8);
      }
    }
  }

  /** As long as nothing was missing, more resident trees change nothing: not the stops, not the
      running total, not the worklist. */
  lemma {:induction false} CompleteLevelsAreFinal(reg: Registry, reg': Registry, q: Query, depth: nat)
    requires Grows(reg, reg') && Levels(reg, q, depth).missing == []
    ensures Levels(reg', q, depth) == Levels(reg, q, depth)
  {
    hide Pass;
    if depth > 0 {
      MissingIsPrefix(reg, q, depth - 1, depth);
      CompleteLevelsAreFinal(reg, reg', q, depth - 1);
      var s := Levels(reg, q, depth - 1);
      SamePass(reg, reg', q, s.next, s.(next := []));
    }
  }

  // ---- convergence ----------------------------------------------------------------------------

  lemma {:induction false} PathLengths(reg: Registry, q: Query, depth: nat)
    ensures forall p :: p in Levels(reg, q, depth).next ==> |p.path| == depth
  {
    if depth > 0 {
      PathLengths(reg, q, depth - 1);
      var s := Levels(reg, q, depth - 1);
      PassPathLengths(reg, q, s.next, s.(next := []), depth - 1);
    }
  }

  lemma {:induction false} PassPathLengths(reg: Registry, q: Query, current: seq<Pending>, s: State, depth: nat)
    requires forall p :: p in current ==> |p.path| == depth
    requires forall p :: p in s.next ==> |p.path| == depth + 1
    ensures forall p :: p in Pass(reg, q, current, s).next ==> |p.path| == depth + 1
  {
    if current != [] {
      PassPathLengths(reg, q, current[..|current| - 1], s, depth);
      ChildrenAreUnrelated(reg, q, current[|current| - 1], 8);
    }
  }

  /** Sub-trees are only entered from the last level of a tree. */
  lemma {:induction false} NoHopInsideTree(reg: Registry, q: Query, p: Pending, n: nat)
    requires p.InTree() != 4
    ensures MissingTo(reg, q, p, n) == []
  {
    if n > 0 {
      NoHopInsideTree(reg, q, p, n - 1);
    }
  }

  lemma {:induction false} PassInsideTree(reg: Registry, q: Query, current: seq<Pending>, s: State)
    requires forall p :: p in current ==> p.InTree() != 4
    ensures Pass(reg, q, current, s).missing == s.missing
  {
    if current != [] {
      PassInsideTree(reg, q, current[..|current| - 1], s);
      NoHopInsideTree(reg, q, current[|current| - 1], 8);
    }
  }

  ghost predicate CleanTo(reg: Registry, q: Query, depth: nat) { Levels(reg, q, depth).missing == [] }

  lemma CleanOneLevel(reg: Registry, q: Query, depth: nat)
    requires CleanTo(reg, q, depth) && depth % 5 != 4
    ensures CleanTo(reg, q, depth + 1)
  {
    PathLengths(reg, q, depth);
    var s := Levels(reg, q, depth);
    PassInsideTree(reg, q, s.next, s.(next := []));
  }

  lemma CleanThroughTree(reg: Registry, q: Query, depth: nat)
    requires CleanTo(reg, q, depth) && depth % 5 == 0
    ensures CleanTo(reg, q, depth + 4)
  {
    CleanOneLevel(reg, q, depth);
    CleanOneLevel(reg, q, depth + 1);
    CleanOneLevel(reg, q, depth + 2);
    CleanOneLevel(reg, q, depth + 3);
  }

  lemma {:induction false} LoadedChildren(reg: Registry, reg': Registry, q: Query, p: Pending, n: nat)
    requires Grows(reg, reg') && forall id :: id in MissingTo(reg, q, p, n) ==> id in reg'.trees
    ensures MissingTo(reg', q, p, n) == []
  {
    hide ChildAt;
    if n > 0 {
      LoadedChildren(reg, reg', q, p, n - 1);
      SameChild(reg, reg', q, p, n - 1);
      if ChildAt(reg, q, p, n - 1).NotResident? {
        assert ChildAt(reg, q, p, n - 1).id in MissingTo(reg, q, p, n);
      }
    }
  }

  /** Residency decides neither where a level stops nor its running total, so loading what the
      level missed leaves it missing nothing. */
  lemma {:induction false} LoadedPass(reg: Registry, reg': Registry, q: Query, current: seq<Pending>, s: State)
    requires Grows(reg, reg') && s.missing == []
    requires forall id :: id in Pass(reg, q, current, s).missing ==> id in reg'.trees
    ensures
      var t, t' := Pass(reg, q, current, s), Pass(reg', q, current, s);
      t'.missing == [] && t'.stops == t.stops && t'.total == t.total
  {
    if current != [] {
      var init, p := current[..|current| - 1], current[|current| - 1];
      var t := Pass(reg, q, init, s);
      assert t.missing <= Pass(reg, q, current, s).missing;
      LoadedPass(reg, reg', q, init, s);
      if Descends(q, p, t.total) {
        LoadedChildren(reg, reg', q, p, 8);
      }
    }
  }

  lemma LoadedLevel(reg: Registry, reg': Registry, q: Query, depth: nat)
    requires Grows(reg, reg') && CleanTo(reg, q, depth)
    requires forall id :: id in Levels(reg, q, depth + 1).missing ==> id in reg'.trees
    ensures CleanTo(reg', q, depth + 1)
  {
    CompleteLevelsAreFinal(reg, reg', q, depth);
    var s := Levels(reg, q, depth);
    LoadedPass(reg, reg', q, s.next, s.(next := []));
  }

  /** Each round makes one more layer of sub-trees resident: the next miss is five levels deeper. */
  lemma RoundAdvances(reg: Registry, reg': Registry, q: Query, depth: nat)
    requires Grows(reg, reg') && CleanTo(reg, q, depth) && depth % 5 == 4
    requires forall id :: id in Levels(reg, q, depth + 1).missing ==> id in reg'.trees
    ensures CleanTo(reg', q, depth + 5)
  {
    hide *;
    LoadedLevel(reg, reg', q, depth);
    assert (depth + 1) % 5 == 0;
    CleanThroughTree(reg', q, depth + 1);
  }

  lemma FirstRound(reg: Registry, reg': Registry, q: Query)
    requires Grows(reg, reg') && forall id :: id in Levels(reg, q, 0).missing ==> id in reg'.trees
    ensures CleanTo(reg', q, 4)
  {
    assert CleanTo(reg', q, 0);
    CleanThroughTree(reg', q, 0);
  }

  /** tree_set_t::load for each id in turn; `store` is what storage would answer. */
  method LoadAll(reg: Registry, store: map<nat, Tree>, ids: seq<nat>) returns (ok: bool, r: Registry, failed: nat)
    requires forall id :: id in reg.trees ==> id in store && store[id] == reg.trees[id]
    ensures Grows(reg, r) && forall id :: id in r.trees ==> id in store && store[id] == r.trees[id]
    ensures ok ==> forall id :: id in ids ==> id in r.trees
    ensures !ok ==> failed in ids && failed !in store
  {
    r, ok, failed := reg, true, 0;
    for i := 0 to |ids|
      invariant Grows(reg, r) && forall id :: id in r.trees ==> id in store && store[id] == r.trees[id]
      invariant forall k :: 0 <= k < i ==> ids[k] in r.trees
    {
      if ids[i] !in r.trees {
        if ids[i] !in store {
          return false, r, ids[i];
        }
        r := r.(trees := r.trees[ids[i] := store[ids[i]]]);
      }
    }
  }

  /** From round to round; `maxDepth` is the walk's depth cap. */
  lemma NextRound(reg: Registry, reg': Registry, q: Query, round: nat, maxDepth: nat)
    requires Grows(reg, reg') && forall id :: id in Levels(reg, q, maxDepth).missing ==> id in reg'.trees
    requires 5 * round <= maxDepth && (round >= 1 ==> CleanTo(reg, q, 5 * round - 1))
    ensures CleanTo(reg', q, 5 * (round + 1) - 1)
  {
    hide Levels;
    var depth := 5 * round;
    MissingIsPrefix(reg, q, depth, maxDepth);
    assert forall id :: id in Levels(reg, q, depth).missing ==> id in reg'.trees;
    if round == 0 {
      FirstRound(reg, reg', q);
    } else {
      RoundAdvances(reg, reg', q, depth - 1);
    }
  }

  /** co_walk_to_convergence: at most ten walks in every mode. Either some load failed, or the answer
      is the walk over the fully resident forest; running out of rounds is impossible. */
  method WalkToConvergence(reg: Registry, store: map<nat, Tree>, q: Query)
    returns (ok: bool, out: Result, r: Registry, walks: nat, loadFailed: bool, failed: nat)
    requires forall id :: id in reg.trees ==> id in store && store[id] == reg.trees[id]
    ensures walks <= 10 && Grows(reg, r)
    ensures ok ==> out.treesToLoad == [] && Shows(out, Walk(r, q))
    ensures ok ==> Walk(reg.(trees := store), q) == Walk(r, q)
    ensures !ok <==> loadFailed
    ensures loadFailed ==> failed !in store
  {
    ok, out, r, walks, loadFailed, failed := ConvergeTo(reg, store, q, MAX_DEPTH);
  }

  /** The loop for any depth cap: one walk for the root, one per layer of sub-trees below it, one
      to confirm. */
  method ConvergeTo(reg: Registry, store: map<nat, Tree>, q: Query, maxDepth: nat)
    returns (ok: bool, out: Result, r: Registry, walks: nat, loadFailed: bool, failed: nat)
    requires forall id :: id in reg.trees ==> id in store && store[id] == reg.trees[id]
    requires maxDepth <= 300
    ensures walks <= maxDepth / 5 + 2 && Grows(reg, r)
    ensures ok ==> out.treesToLoad == [] && Shows(out, Levels(r, q, maxDepth))
    ensures ok ==> Levels(reg.(trees := store), q, maxDepth) == Levels(r, q, maxDepth)
    ensures !ok <==> loadFailed
    ensures loadFailed ==> failed !in store
  {
    hide Levels;
    r, walks, ok, out, loadFailed, failed := reg, 0, false, Result([], [], 0), false, 0;
    var maxRounds := 64;
    var round := 0;
    while round < maxRounds
      invariant round == walks <= maxDepth / 5 + 1 && Grows(reg, r)
      invariant forall id :: id in r.trees ==> id in store && store[id] == r.trees[id]
      invariant round >= 1 ==> CleanTo(r, q, 5 * round - 1)
      decreases maxRounds - round
    {
      out := RunTo(r, q, maxDepth);
      walks := walks + 1;
      if out.treesToLoad == [] {
        CompleteLevelsAreFinal(r, reg.(trees := store), q, maxDepth);
        return true, out, r, walks, false, 0;
      }
      if 5 * round > maxDepth {
        MissingIsPrefix(r, q, maxDepth, 5 * round - 1);
      }
      var loaded, r';
      loaded, r', failed := LoadAll(r, store, out.treesToLoad);
      if !loaded {
        return false, out, r', walks, true, failed;
      }
      NextRound(r, r', q, round, maxDepth);
      r, round := r', round + 1;
    }
  }
}
