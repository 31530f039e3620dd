/** The renderer's node list: merging the walker's selection with last frame's list, and fading departed
    nodes out. */
module RenderList {
  import RegionWalk

  type Box = RegionWalk.Box

  // ---- nodes ----------------------------------------------------------------------------------------

  datatype Key = Key(lod: int, tree: nat, level: nat, index: nat, data: nat, sub: nat)

  type pos = n: nat | n > 0 witness 1

  /** The colour attribute of a node, when it has one; every format has a size and a component. */
  datatype Attribute = NoAttribute | Attribute(rawStride: pos, components: pos, rgb16: bool)

  /** What a match refreshes. */
  datatype View = View(visible: bool, points: nat, positionStride: nat, attribute: Attribute, cell: Box, tight: Box)

  datatype Walker = Walker(key: Key, view: View, parent: Key, offset: nat, isLeaf: bool)

  datatype Io = NoIo | Loading | Converting | Loaded
  datatype Fade = FadeIn | Steady | FadeOut

  /** Decoded buffers waiting for upload. */
  datatype Decoded = Decoded(points: nat, vertexBytes: nat, attributeBytes: nat, repBytes: nat)

  datatype Node = Node(
    walker: Walker, io: Io, uploaded: bool, fade: Fade, fadeMs: real,
    convertDone: bool, residentBuilding: bool, residentReady: bool, virtualInFlight: bool,
    monolithFreed: bool, decoded: Decoded, gpuBytes: nat, distance: real)
  {
    function Key(): Key { walker.key }
  }

  /** A render node lives in one place; lists hold references to it. */
  class RenderNode {
    var s: Node

    constructor (s: Node)
      ensures this.s == s
    {
      this.s := s;
    }
  }

  predicate NodeLess(a: Key, b: Key) {
    if a.tree != b.tree then a.tree < b.tree else if a.level != b.level then a.level < b.level else a.index < b.index
  }

  predicate SameNode(a: Key, b: Key) { a.tree == b.tree && a.level == b.level && a.index == b.index }

  /** render_node_less_than */
  predicate Less(a: Key, b: Key) {
    if a.lod == b.lod then
      if SameNode(a, b) then a.data < b.data || (a.data == b.data && a.sub < b.sub) else NodeLess(a, b)
    else a.lod < b.lod
  }

  /** A strict total order: the merge's third branch is reached by equal keys only. */
  lemma LessIsTotal(a: Key, b: Key, c: Key)
    ensures !Less(a, a)
    ensures Less(a, b) && Less(b, c) ==> Less(a, c)
    ensures Less(a, b) || Less(b, a) || a == b
    ensures !(Less(a, b) && Less(b, a))
    ensures !Less(b, a) && !Less(c, b) ==> !Less(c, a)
  {
  }

  ghost predicate Sorted(keys: seq<Key>) {
    forall i, j :: 0 <= i < j < |keys| ==> !Less(keys[j], keys[i])
  }

  /** node_is_busy */
  predicate Busy(n: Node) {
    || (n.io == Converting && !n.convertDone)
    || (n.residentBuilding && !n.residentReady)
    || n.virtualInFlight
  }

  // ---- the merge ------------------------------------------------------------------------------------

  const NOTHING := Decoded(0, 0, 0, 0)

  function Fresh(w: Walker): Node {
    Node(w, NoIo, false, FadeIn, 0.0, false, false, false, false, false, NOTHING, 0, 0.0)
  }

  function Refreshed(p: Node, w: Walker): Node {
    var q := p.(walker := p.walker.(view := w.view));
    if p.fade == FadeOut then q.(fade := FadeIn, fadeMs := 0.0) else q
  }

  function Departing(p: Node): Node { if p.fade != FadeOut then p.(fade := FadeOut, fadeMs := 0.0) else p }

  datatype Fate = Stay | Defer | Destroy

  function FateOf(p: Node, duration: real): Fate {
    var d := Departing(p);
    if d.uploaded && d.fadeMs < duration then Stay else if Busy(d) then Defer else Destroy
  }

  function Destroyed(p: Node): Node {
    p.(io := NoIo, uploaded := false, residentBuilding := false, virtualInFlight := false, decoded := NOTHING)
  }

  /** What the merge does, in list order. */
  datatype Action = Create(w: Walker) | Match(p: Node, w: Walker) | Retire(p: Node)
  {
    function Key(): Key { if Create? then w.key else p.Key() }
  }

  function Plan(ws: seq<Walker>, ps: seq<Node>): seq<Action>
    decreases |ws| + |ps|
  {
    if ws == [] && ps == [] then []
    else if ps == [] || (ws != [] && Less(ws[0].key, ps[0].Key())) then [Create(ws[0])] + Plan(ws[1..], ps)
    else if ws == [] || Less(ps[0].Key(), ws[0].key) then [Retire(ps[0])] + Plan(ws, ps[1..])
    else [Match(ps[0], ws[0])] + Plan(ws[1..], ps[1..])
  }

  /** The walker entries and the previous nodes an action accounts for. */
  function WalkerOf(a: Action): seq<Walker> { if a.Retire? then [] else [a.w] }
  function NodeOf(a: Action): seq<Node> { if a.Create? then [] else [a.p] }

  function WalkersOf(plan: seq<Action>): seq<Walker> { if plan == [] then [] else WalkerOf(plan[0]) + WalkersOf(plan[1..]) }
  function NodesOf(plan: seq<Action>): seq<Node> { if plan == [] then [] else NodeOf(plan[0]) + NodesOf(plan[1..]) }

  function Keys(plan: seq<Action>): (r: seq<Key>)
    ensures |r| == |plan| && forall i :: 0 <= i < |plan| ==> r[i] == plan[i].Key()
  {
    seq(|plan|, i requires 0 <= i < |plan| => plan[i].Key())
  }

  function WalkerKeys(ws: seq<Walker>): (r: seq<Key>)
    ensures |r| == |ws| && forall i :: 0 <= i < |ws| ==> r[i] == ws[i].key
  {
    seq(|ws|, i requires 0 <= i < |ws| => ws[i].key)
  }

  function NodeKeys(ps: seq<Node>): (r: seq<Key>)
    ensures |r| == |ps| && forall i :: 0 <= i < |ps| ==> r[i] == ps[i].Key()
  {
    seq(|ps|, i requires 0 <= i < |ps| => ps[i].Key())
  }

  /** Each walker entry and each previous node is dealt with exactly once, in order; a match pairs equal
      keys. */
  lemma {:induction false} PlanAccountsForAll(ws: seq<Walker>, ps: seq<Node>)
    ensures WalkersOf(Plan(ws, ps)) == ws && NodesOf(Plan(ws, ps)) == ps
    ensures forall i :: 0 <= i < |Plan(ws, ps)| && Plan(ws, ps)[i].Match? ==> Plan(ws, ps)[i].p.Key() == Plan(ws, ps)[i].w.key
    decreases |ws| + |ps|
  {
    hide Less;
    var plan := Plan(ws, ps);
    if ws == [] && ps == [] {
    } else if ps == [] || (ws != [] && Less(ws[0].key, ps[0].Key())) {
      PlanAccountsForAll(ws[1..], ps);
      PlanStep(plan, Create(ws[0]), Plan(ws[1..], ps));
    } else if ws == [] || Less(ps[0].Key(), ws[0].key) {
      PlanAccountsForAll(ws, ps[1..]);
      PlanStep(plan, Retire(ps[0]), Plan(ws, ps[1..]));
    } else {
      LessIsTotal(ws[0].key, ps[0].Key(), ps[0].Key());
      PlanAccountsForAll(ws[1..], ps[1..]);
      PlanStep(plan, Match(ps[0], ws[0]), Plan(ws[1..], ps[1..]));
    }
  }

  lemma PlanStep(plan: seq<Action>, a: Action, rest: seq<Action>)
    requires plan == [a] + rest
    ensures plan[0] == a && plan[1..] == rest
    ensures WalkersOf(plan) == WalkerOf(a) + WalkersOf(rest) && NodesOf(plan) == NodeOf(a) + NodesOf(rest)
  {
  }

  /** Nothing in the plan comes before both inputs. */
  ghost predicate Bounds(k: Key, ws: seq<Walker>, ps: seq<Node>) {
    && (forall i :: 0 <= i < |ws| ==> !Less(ws[i].key, k))
    && (forall i :: 0 <= i < |ps| ==> !Less(ps[i].Key(), k))
  }

  lemma {:induction false} PlanBounded(ws: seq<Walker>, ps: seq<Node>, k: Key)
    requires Bounds(k, ws, ps)
    ensures forall i :: 0 <= i < |Plan(ws, ps)| ==> !Less(Plan(ws, ps)[i].Key(), k)
    decreases |ws| + |ps|
  {
    hide Less;
    if ws == [] && ps == [] {
    } else if ps == [] || (ws != [] && Less(ws[0].key, ps[0].Key())) {
      PlanBounded(ws[1..], ps, k);
    } else if ws == [] || Less(ps[0].Key(), ws[0].key) {
      PlanBounded(ws, ps[1..], k);
    } else {
      PlanBounded(ws[1..], ps[1..], k);
    }
  }

  /** The head of a sorted input bounds the rest. */
  lemma HeadBounds(keys: seq<Key>, k: Key)
    requires Sorted(keys) && (keys != [] ==> !Less(keys[0], k))
    ensures forall i :: 0 <= i < |keys| ==> !Less(keys[i], k)
  {
    forall i | 0 <= i < |keys|
      ensures !Less(keys[i], k)
    {
      LessIsTotal(k, keys[0], keys[i]);
    }
  }

  lemma SortedTail(keys: seq<Key>)
    requires Sorted(keys) && keys != []
    ensures Sorted(keys[1..])
  {
  }

  lemma SortedCons(k: Key, keys: seq<Key>)
    requires Sorted(keys) && forall i :: 0 <= i < |keys| ==> !Less(keys[i], k)
    ensures Sorted([k] + keys)
  {
  }

  /** For sorted inputs the plan, and with it the new list, is sorted. */
  lemma {:induction false} PlanIsSorted(ws: seq<Walker>, ps: seq<Node>)
    requires Sorted(WalkerKeys(ws)) && Sorted(NodeKeys(ps))
    ensures Sorted(Keys(Plan(ws, ps)))
    decreases |ws| + |ps|
  {
    hide Less, Sorted;
    if ws == [] && ps == [] {
      SortedShort(Keys(Plan(ws, ps)));
    } else if ps == [] || (ws != [] && Less(ws[0].key, ps[0].Key())) {
      Heads(ws, ps);
      SortedTail(WalkerKeys(ws));
      PlanIsSorted(ws[1..], ps);
      ConsSorted(Create(ws[0]), ws[1..], ps);
    } else if ws == [] || Less(ps[0].Key(), ws[0].key) {
      Heads(ws, ps);
      SortedTail(NodeKeys(ps));
      PlanIsSorted(ws, ps[1..]);
      ConsSorted(Retire(ps[0]), ws, ps[1..]);
    } else {
      Heads(ws, ps);
      SortedTail(WalkerKeys(ws));
      SortedTail(NodeKeys(ps));
      PlanIsSorted(ws[1..], ps[1..]);
      ConsSorted(Match(ps[0], ws[0]), ws[1..], ps[1..]);
    }
  }

  lemma SortedShort(keys: seq<Key>)
    requires |keys| <= 1
    ensures Sorted(keys)
  {
  }

  lemma Heads(ws: seq<Walker>, ps: seq<Node>)
    requires Sorted(WalkerKeys(ws)) && Sorted(NodeKeys(ps))
    ensures ws != [] ==> WalkerKeys(ws[1..]) == WalkerKeys(ws)[1..]
    ensures ps != [] ==> NodeKeys(ps[1..]) == NodeKeys(ps)[1..]
    ensures |ws| > 1 ==> !Less(ws[1].key, ws[0].key)
    ensures |ps| > 1 ==> !Less(ps[1].Key(), ps[0].Key())
    ensures ws != [] && ps != [] && Less(ws[0].key, ps[0].Key()) ==> !Less(ps[0].Key(), ws[0].key)
    ensures ws != [] && ps != [] && !Less(ws[0].key, ps[0].Key()) && !Less(ps[0].Key(), ws[0].key) ==> ws[0].key == ps[0].Key()
  {
    if |ws| > 1 {
      assert !Less(WalkerKeys(ws)[1], WalkerKeys(ws)[0]);
    }
    if |ps| > 1 {
      assert !Less(NodeKeys(ps)[1], NodeKeys(ps)[0]);
    }
    if ws != [] && ps != [] {
      LessIsTotal(ws[0].key, ps[0].Key(), ps[0].Key());
    }
  }

  lemma ConsSorted(a: Action, ws: seq<Walker>, ps: seq<Node>)
    requires Sorted(WalkerKeys(ws)) && Sorted(NodeKeys(ps)) && Sorted(Keys(Plan(ws, ps)))
    requires ws != [] ==> !Less(ws[0].key, a.Key())
    requires ps != [] ==> !Less(ps[0].Key(), a.Key())
    ensures Sorted(Keys([a] + Plan(ws, ps)))
  {
    hide Less, Sorted, Plan;
    HeadBounds(WalkerKeys(ws), a.Key());
    HeadBounds(NodeKeys(ps), a.Key());
    assert Bounds(a.Key(), ws, ps) by {
      assert forall i :: 0 <= i < |ws| ==> WalkerKeys(ws)[i] == ws[i].key;
      assert forall i :: 0 <= i < |ps| ==> NodeKeys(ps)[i] == ps[i].Key();
    }
    PlanBounded(ws, ps, a.Key());
    SortedCons(a.Key(), Keys(Plan(ws, ps)));
    assert Keys([a] + Plan(ws, ps)) == [a.Key()] + Keys(Plan(ws, ps));
  }

  // ---- matching is complete ---------------------------------------------------------------------------

  function CountKey(keys: seq<Key>, k: Key): nat { if keys == [] then 0 else (if keys[0] == k then 1 else 0) + CountKey(keys[1..], k) }

  function Created(plan: seq<Action>, k: Key): nat {
    if plan == [] then 0 else (if plan[0].Create? && plan[0].Key() == k then 1 else 0) + Created(plan[1..], k)
  }

  function Retired(plan: seq<Action>, k: Key): nat {
    if plan == [] then 0 else (if plan[0].Retire? && plan[0].Key() == k then 1 else 0) + Retired(plan[1..], k)
  }

  lemma {:induction false} CountAbsent(keys: seq<Key>, head: Key)
    requires forall i :: 0 <= i < |keys| ==> keys[i] != head
    ensures CountKey(keys, head) == 0
  {
    if keys != [] {
      CountAbsent(keys[1..], head);
    }
  }

  lemma SmallerIsAbsent(keys: seq<Key>, k: Key)
    requires Sorted(keys) && (keys != [] ==> Less(k, keys[0]))
    ensures CountKey(keys, k) == 0
  {
    forall i | 0 <= i < |keys|
      ensures keys[i] != k
    {
      LessIsTotal(k, keys[0], keys[i]);
    }
    CountAbsent(keys, k);
  }

  lemma CountCons(plan: seq<Action>, a: Action, rest: seq<Action>, k: Key)
    requires plan == [a] + rest
    ensures Created(plan, k) == (if a.Create? && a.Key() == k then 1 else 0) + Created(rest, k)
    ensures Retired(plan, k) == (if a.Retire? && a.Key() == k then 1 else 0) + Retired(rest, k)
  {
    assert plan[0] == a && plan[1..] == rest;
  }

  /** A node is created only where no previous node has the key, and retired only where no walker entry
      has it: with sorted inputs as many nodes as possible are carried over. */
  lemma {:induction false} PlanMatchesAllItCan(ws: seq<Walker>, ps: seq<Node>, k: Key)
    requires Sorted(WalkerKeys(ws)) && Sorted(NodeKeys(ps))
    ensures
      var w, p := CountKey(WalkerKeys(ws), k), CountKey(NodeKeys(ps), k);
      && Created(Plan(ws, ps), k) == (if w > p then w - p else 0)
      && Retired(Plan(ws, ps), k) == (if p > w then p - w else 0)
    decreases |ws| + |ps|
  {
    hide Less, Sorted;
    var plan := Plan(ws, ps);
    if ws == [] && ps == [] {
    } else if ps == [] || (ws != [] && Less(ws[0].key, ps[0].Key())) {
      Heads(ws, ps);
      SortedTail(WalkerKeys(ws));
      PlanMatchesAllItCan(ws[1..], ps, k);
      CountCons(plan, Create(ws[0]), Plan(ws[1..], ps), k);
      SmallerIsAbsent(NodeKeys(ps), ws[0].key);
    } else if ws == [] || Less(ps[0].Key(), ws[0].key) {
      Heads(ws, ps);
      SortedTail(NodeKeys(ps));
      PlanMatchesAllItCan(ws, ps[1..], k);
      CountCons(plan, Retire(ps[0]), Plan(ws, ps[1..]), k);
      SmallerIsAbsent(WalkerKeys(ws), ps[0].Key());
    } else {
      Heads(ws, ps);
      SortedTail(WalkerKeys(ws));
      SortedTail(NodeKeys(ps));
      PlanMatchesAllItCan(ws[1..], ps[1..], k);
      CountCons(plan, Match(ps[0], ws[0]), Plan(ws[1..], ps[1..]), k);
    }
  }

  // ---- the new list -----------------------------------------------------------------------------------

  /** What an action puts into the new list. */
  function Survivor(a: Action, duration: real): seq<Node> {
    match a
    case Create(w) => [Fresh(w)]
    case Match(p, w) => [Refreshed(p, w)]
    case Retire(p) => if FateOf(p, duration) == Stay then [Departing(p)] else []
  }

  function Survivors(plan: seq<Action>, duration: real): seq<Node> {
    if plan == [] then [] else Survivors(plan[..|plan| - 1], duration) + Survivor(plan[|plan| - 1], duration)
  }

  function NextList(ws: seq<Walker>, ps: seq<Node>, duration: real): seq<Node> { Survivors(Plan(ws, ps), duration) }

  lemma SurvivorsSnoc(plan: seq<Action>, a: Action, duration: real)
    ensures Survivors(plan + [a], duration) == Survivors(plan, duration) + Survivor(a, duration)
  {
    assert (plan + [a])[..|plan|] == plan;
  }

  /** The nodes of a list that are not fading out. */
  function Live(list: seq<Node>): seq<Node> {
    if list == [] then []
    else Live(list[..|list| - 1]) + (if list[|list| - 1].fade != FadeOut then [list[|list| - 1]] else [])
  }

  lemma {:induction false} LiveAppend(a: seq<Node>, b: seq<Node>)
    ensures Live(a + b) == Live(a) + Live(b)
    decreases |b|
  {
    if b == [] {
      assert a + b == a;
    } else {
      assert (a + b)[..|a + b| - 1] == a + b[..|b| - 1];
      LiveAppend(a, b[..|b| - 1]);
    }
  }

  lemma LiveOne(n: Node)
    ensures Live([n]) == if n.fade != FadeOut then [n] else []
  {
    assert [n][..0] == [];
  }

  /** Node i shows walker entry i as the walker now sees it. */
  ghost predicate Shows(list: seq<Node>, ws: seq<Walker>) {
    |list| == |ws| && forall i :: 0 <= i < |ws| ==> list[i].Key() == ws[i].key && list[i].walker.view == ws[i].view
  }

  ghost predicate MatchesAgree(plan: seq<Action>) {
    forall i :: 0 <= i < |plan| && plan[i].Match? ==> plan[i].p.Key() == plan[i].w.key
  }

  lemma {:induction false} WalkersOfSnoc(plan: seq<Action>, a: Action)
    ensures WalkersOf(plan + [a]) == WalkersOf(plan) + WalkerOf(a)
    ensures NodesOf(plan + [a]) == NodesOf(plan) + NodeOf(a)
    decreases |plan|
  {
    hide WalkerOf, NodeOf;
    if plan == [] {
      assert [a][1..] == [] && plan + [a] == [a];
    } else {
      assert (plan + [a])[1..] == plan[1..] + [a] && (plan + [a])[0] == plan[0];
      WalkersOfSnoc(plan[1..], a);
    }
  }

  lemma {:induction false} LivePlan(plan: seq<Action>, duration: real)
    requires MatchesAgree(plan)
    ensures Shows(Live(Survivors(plan, duration)), WalkersOf(plan))
    decreases |plan|
  {
    if plan != [] {
      var init, a := plan[..|plan| - 1], plan[|plan| - 1];
      LivePlan(init, duration);
      assert plan == init + [a];
      WalkersOfSnoc(init, a);
      LiveAppend(Survivors(init, duration), Survivor(a, duration));
      LiveSurvivor(a, duration);
    }
  }

  lemma LiveSurvivor(a: Action, duration: real)
    requires a.Match? ==> a.p.Key() == a.w.key
    ensures Shows(Live(Survivor(a, duration)), WalkerOf(a))
  {
    match a
    case Create(w) => LiveOne(Fresh(w));
    case Match(p, w) => LiveOne(Refreshed(p, w));
    case Retire(p) => LiveOne(Departing(p));
  }

  /** Every walker entry has exactly one node in the new list, in walker order and with the walker's
      current view; whatever else the list holds is fading out. */
  lemma EveryWalkerEntryHasItsNode(ws: seq<Walker>, ps: seq<Node>, duration: real)
    ensures Shows(Live(NextList(ws, ps, duration)), ws)
  {
    PlanAccountsForAll(ws, ps);
    LivePlan(Plan(ws, ps), duration);
  }

  /** A node of the new list has the key of the action that put it there. */
  lemma {:induction false} SurvivorAction(plan: seq<Action>, duration: real, i: nat) returns (j: nat)
    requires i < |Survivors(plan, duration)|
    ensures j < |plan| && Survivors(plan, duration)[i] in Survivor(plan[j], duration)
    ensures plan[j].Key() == Survivors(plan, duration)[i].Key()
    decreases |plan|
  {
    hide Survivor;
    var init, a := plan[..|plan| - 1], plan[|plan| - 1];
    if i < |Survivors(init, duration)| {
      j := SurvivorAction(init, duration, i);
    } else {
      j := |plan| - 1;
      SurvivorKey(a, duration);
    }
  }

  lemma SortedSnoc(keys: seq<Key>, k: Key)
    requires Sorted(keys) && forall i :: 0 <= i < |keys| ==> !Less(k, keys[i])
    ensures Sorted(keys + [k])
  {
  }

  lemma SortedPrefix(keys: seq<Key>, n: nat)
    requires Sorted(keys) && n <= |keys|
    ensures Sorted(keys[..n])
  {
  }

  lemma {:induction false} SurvivorsSorted(plan: seq<Action>, duration: real)
    requires Sorted(Keys(plan))
    ensures Sorted(NodeKeys(Survivors(plan, duration)))
    decreases |plan|
  {
    if plan == [] {
      SortedShort(NodeKeys(Survivors(plan, duration)));
    } else {
      var init, a := plan[..|plan| - 1], plan[|plan| - 1];
      assert Keys(init) == Keys(plan)[..|plan| - 1];
      SortedPrefix(Keys(plan), |plan| - 1);
      SurvivorsSorted(init, duration);
      SurvivorKey(a, duration);
      var list := Survivors(init, duration);
      forall i | 0 <= i < |list|
        ensures !Less(a.Key(), NodeKeys(list)[i])
      {
        var j := SurvivorAction(init, duration, i);
        assert !Less(Keys(plan)[|plan| - 1], Keys(plan)[j]);
      }
      SortedSnoc(NodeKeys(list), a.Key());
      var more := Survivor(a, duration);
      if more == [] {
        assert list + more == list;
      } else {
        assert NodeKeys(list + more) == NodeKeys(list) + [a.Key()];
      }
    }
  }

  lemma SurvivorKey(a: Action, duration: real)
    ensures var s: seq<Node> := Survivor(a, duration); |s| == 0 || (|s| == 1 && s[0].Key() == a.Key())
  {
  }

  lemma NextListIsSorted(ws: seq<Walker>, ps: seq<Node>, duration: real)
    requires Sorted(WalkerKeys(ws)) && Sorted(NodeKeys(ps))
    ensures Sorted(NodeKeys(NextList(ws, ps, duration)))
  {
    hide Sorted;
    PlanIsSorted(ws, ps);
    SurvivorsSorted(Plan(ws, ps), duration);
  }

  // ---- the merge on the list itself -------------------------------------------------------------------

  ghost function Snap(list: seq<RenderNode>): (r: seq<Node>)
    reads list
    ensures |r| == |list| && forall i :: 0 <= i < |list| ==> r[i] == list[i].s
  {
    seq(|list|, i requires 0 <= i < |list| reads list => list[i].s)
  }

  ghost predicate Distinct(list: seq<RenderNode>) { forall i, j :: 0 <= i < j < |list| ==> list[i] != list[j] }

  /** A departed node starts or goes on fading out, and is destroyed in place unless it may stay or a
      worker still uses it. */
  method RetireNode(node: RenderNode, duration: real) returns (fate: Fate)
    modifies node
    ensures fate == FateOf(old(node.s), duration)
    ensures node.s == if fate == Destroy then Destroyed(Departing(old(node.s))) else Departing(old(node.s))
  {
    if node.s.fade != FadeOut {
      node.s := node.s.(fade := FadeOut, fadeMs := 0.0);
    }
    if node.s.uploaded && node.s.fadeMs < duration {
      fate := Stay;
    } else if Busy(node.s) {
      fate := Defer;
    } else {
      node.s := Destroyed(node.s);
      fate := Destroy;
    }
  }

  /** The three places a previous node can end up in, and the created nodes. */
  datatype Places = Places(list: seq<RenderNode>, deferred: seq<RenderNode>, destroyed: seq<RenderNode>, created: seq<RenderNode>)

  /** Every node of `done` and every created one is in exactly one place. */
  ghost predicate Partition(done: seq<RenderNode>, p: Places) {
    multiset(done) + multiset(p.created) == multiset(p.list) + multiset(p.deferred) + multiset(p.destroyed)
  }

  function PutRetired(p: Places, node: RenderNode, fate: Fate): Places {
    match fate
    case Stay => p.(list := p.list + [node])
    case Defer => p.(deferred := p.deferred + [node])
    case Destroy => p.(destroyed := p.destroyed + [node])
  }

  lemma PartitionStep(done: seq<RenderNode>, p: Places, node: RenderNode, fate: Fate)
    requires Partition(done, p)
    ensures Partition(done + [node], PutRetired(p, node, fate))
    ensures Partition(done, p.(list := p.list + [node], created := p.created + [node]))
  {
    var one := multiset{node};
    assert multiset(done + [node]) == multiset(done) + one;
    assert multiset(p.list + [node]) == multiset(p.list) + one;
    assert multiset(p.deferred + [node]) == multiset(p.deferred) + one;
    assert multiset(p.destroyed + [node]) == multiset(p.destroyed) + one;
    assert multiset(p.created + [node]) == multiset(p.created) + one;
    Shuffle(multiset(done), multiset(p.created), multiset(p.list), multiset(p.deferred), multiset(p.destroyed), one);
  }

  lemma Shuffle<T>(a: multiset<T>, b: multiset<T>, c: multiset<T>, d: multiset<T>, e: multiset<T>, x: multiset<T>)
    requires a + b == c + d + e
    ensures (a + x) + b == (c + x) + d + e == c + (d + x) + e == c + d + (e + x)
    ensures a + (b + x) == (c + x) + d + e
  {
    assert (a + x) + b == (a + b) + x;
    assert (c + x) + d + e == (c + d + e) + x;
    assert c + (d + x) + e == (c + d + e) + x;
    assert c + d + (e + x) == (c + d + e) + x;
    assert a + (b + x) == (a + b) + x;
  }

  /** Progress of the merge: `done` is the part of the plan carried out, up to walker i and node j. */
  ghost predicate Merged(ws: seq<Walker>, ps: seq<Node>, i: nat, j: nat, done: seq<Action>) {
    i <= |ws| && j <= |ps| && Plan(ws, ps) == done + Plan(ws[i..], ps[j..])
  }

  lemma MergedStep(ws: seq<Walker>, ps: seq<Node>, i: nat, j: nat, done: seq<Action>)
    requires Merged(ws, ps, i, j, done) && (i < |ws| || j < |ps|)
    ensures (j == |ps| || (i < |ws| && Less(ws[i].key, ps[j].Key()))) ==> Merged(ws, ps, i + 1, j, done + [Create(ws[i])])
    ensures !(j == |ps| || (i < |ws| && Less(ws[i].key, ps[j].Key()))) && (i == |ws| || Less(ps[j].Key(), ws[i].key)) ==>
      Merged(ws, ps, i, j + 1, done + [Retire(ps[j])])
    ensures i < |ws| && j < |ps| && !Less(ws[i].key, ps[j].Key()) && !Less(ps[j].Key(), ws[i].key) ==>
      Merged(ws, ps, i + 1, j + 1, done + [Match(ps[j], ws[i])])
  {
    hide Less;
    assert i < |ws| ==> ws[i..][0] == ws[i] && ws[i..][1..] == ws[i + 1..];
    assert j < |ps| ==> ps[j..][0] == ps[j] && ps[j..][1..] == ps[j + 1..];
    var rest := Plan(ws[i..], ps[j..]);
    assert done + rest == (done + [rest[0]]) + rest[1..];
  }

  lemma MergedStart(ws: seq<Walker>, ps: seq<Node>)
    ensures Merged(ws, ps, 0, 0, [])
  {
    assert ws[0..] == ws && ps[0..] == ps;
  }

  lemma MergedEnd(ws: seq<Walker>, ps: seq<Node>, done: seq<Action>)
    requires Merged(ws, ps, |ws|, |ps|, done)
    ensures done == Plan(ws, ps)
  {
    assert Plan([], []) == [];
  }

  /** The merge after j previous nodes: the rest is untouched, the new list is what the plan says so far,
      and each node dealt with is where its fate puts it. */
  ghost predicate Placed(previous: seq<RenderNode>, ps: seq<Node>, j: nat, p: Places, done: seq<Action>, duration: real)
    reads previous, p.list
  {
    && |ps| == |previous| && j <= |ps| && Distinct(previous)
    && (forall k :: j <= k < |ps| ==> previous[k].s == ps[k] && previous[k] !in p.list)
    && Snap(p.list) == Survivors(done, duration)
    && Partition(previous[..j], p)
    && Fates(previous, ps, j, p, duration)
  }

  /** Parked and destroyed nodes are where their fate puts them. */
  ghost predicate Fates(previous: seq<RenderNode>, ps: seq<Node>, j: nat, p: Places, duration: real)
    requires |ps| == |previous|
  {
    && (forall k :: j <= k < |ps| ==> previous[k] !in p.deferred && previous[k] !in p.destroyed)
    && (forall k :: 0 <= k < |ps| && previous[k] in p.deferred ==> FateOf(ps[k], duration) == Defer)
    && (forall k :: 0 <= k < |ps| && previous[k] in p.destroyed ==> FateOf(ps[k], duration) == Destroy)
  }

  lemma FatesStep(previous: seq<RenderNode>, ps: seq<Node>, j: nat, p: Places, duration: real, fate: Fate)
    requires |ps| == |previous| && Distinct(previous) && j < |ps| && Fates(previous, ps, j, p, duration) && fate == FateOf(ps[j], duration)
    ensures Fates(previous, ps, j + 1, PutRetired(p, previous[j], fate), duration)
  {
    hide FateOf;
    assert forall k :: 0 <= k < |previous| && previous[k] == previous[j] ==> k == j;
  }

  /** A node that stays has no other fate. */
  lemma FatesLater(previous: seq<RenderNode>, ps: seq<Node>, j: nat, p: Places, duration: real)
    requires |ps| == |previous| && Fates(previous, ps, j, p, duration)
    ensures forall list :: Fates(previous, ps, j + 1, p.(list := list), duration)
  {
    hide FateOf;
  }

  method CreateNode(previous: seq<RenderNode>, ghost ps: seq<Node>, ghost j: nat, p: Places, ghost done: seq<Action>, duration: real, w: Walker)
    returns (q: Places)
    requires Placed(previous, ps, j, p, done, duration)
    ensures Placed(previous, ps, j, q, done + [Create(w)], duration)
    ensures forall n :: n in q.created ==> n in p.created || fresh(n)
  {
    var node := new RenderNode(Fresh(w));
    q := p.(list := p.list + [node], created := p.created + [node]);
    PartitionStep(previous[..j], p, node, Stay);
    SurvivorsSnoc(done, Create(w), duration);
  }

  method MatchNode(previous: seq<RenderNode>, ghost ps: seq<Node>, j: nat, p: Places, ghost done: seq<Action>, duration: real, w: Walker)
    returns (q: Places)
    requires Placed(previous, ps, j, p, done, duration) && j < |previous|
    modifies previous[j]
    ensures Placed(previous, ps, j + 1, q, done + [Match(ps[j], w)], duration)
    ensures q.created == p.created
  {
    hide Partition, Survivors, Fates;
    FatesLater(previous, ps, j, p, duration);
    var node := previous[j];
    node.s := node.s.(walker := node.s.walker.(view := w.view));
    if node.s.fade == FadeOut {
      node.s := node.s.(fade := FadeIn, fadeMs := 0.0);
    }
    q := p.(list := p.list + [node]);
    PartitionStep(previous[..j], p, node, Stay);
    assert previous[..j + 1] == previous[..j] + [node];
    SurvivorsSnoc(done, Match(ps[j], w), duration);
    assert Snap(p.list) == Survivors(done, duration);
    assert Snap(q.list) == Snap(p.list) + [node.s];
  }

  method PlaceRetired(previous: seq<RenderNode>, ghost ps: seq<Node>, j: nat, p: Places, ghost done: seq<Action>, duration: real)
    returns (q: Places)
    requires Placed(previous, ps, j, p, done, duration) && j < |previous|
    modifies previous[j]
    ensures Placed(previous, ps, j + 1, q, done + [Retire(ps[j])], duration)
    ensures q.created == p.created
  {
    hide Busy, Partition, Survivors, Fates;
    var node := previous[j];
    var fate := RetireNode(node, duration);
    q := PutRetired(p, node, fate);
    FatesStep(previous, ps, j, p, duration, fate);
    PartitionStep(previous[..j], p, node, fate);
    assert previous[..j + 1] == previous[..j] + [node];
    SurvivorsSnoc(done, Retire(ps[j]), duration);
    assert Snap(p.list) == Survivors(done, duration);
    if fate == Stay {
      assert Snap(q.list) == Snap(p.list) + [node.s];
    }
  }

  /** build_render_list */
  method BuildRenderList(ws: seq<Walker>, previous: seq<RenderNode>, duration: real) returns (q: Places)
    requires Distinct(previous)
    modifies previous
    ensures Snap(q.list) == NextList(ws, old(Snap(previous)), duration)
    ensures Partition(previous, q) && forall n :: n in q.created ==> fresh(n)
    ensures forall k :: 0 <= k < |previous| && previous[k] in q.destroyed ==> !Busy(old(previous[k].s))
    ensures forall k :: 0 <= k < |previous| && previous[k] in q.deferred ==> Busy(old(previous[k].s))
  {
    hide Placed, Merged, Less, Plan, Survivors;
    ghost var ps, done := Snap(previous), [];
    q := Places([], [], [], []);
    var i, j := 0, 0;
    MergedStart(ws, ps);
    PlacedStart(previous, ps, q, duration);
    while i < |ws| && j < |previous|
      invariant Placed(previous, ps, j, q, done, duration) && Merged(ws, ps, i, j, done) && i <= |ws| && j <= |previous|
      invariant forall n :: n in q.created ==> fresh(n)
    {
      MergedStep(ws, ps, i, j, done);
      PlacedNow(previous, ps, j, q, done, duration);
      if Less(ws[i].key, previous[j].s.Key()) {
        q := CreateNode(previous, ps, j, q, done, duration, ws[i]);
        done := done + [Create(ws[i])];
        i := i + 1;
      } else if Less(previous[j].s.Key(), ws[i].key) {
        q := PlaceRetired(previous, ps, j, q, done, duration);
        done := done + [Retire(ps[j])];
        j := j + 1;
      } else {
        q := MatchNode(previous, ps, j, q, done, duration, ws[i]);
        done := done + [Match(ps[j], ws[i])];
        i, j := i + 1, j + 1;
      }
    }
    while i < |ws|
      invariant i == |ws| || j == |previous|
      invariant Placed(previous, ps, j, q, done, duration) && Merged(ws, ps, i, j, done) && i <= |ws| && j <= |previous|
      invariant forall n :: n in q.created ==> fresh(n)
    {
      MergedStep(ws, ps, i, j, done);
      q := CreateNode(previous, ps, j, q, done, duration, ws[i]);
      done := done + [Create(ws[i])];
      i := i + 1;
    }
    while j < |previous|
      invariant Placed(previous, ps, j, q, done, duration) && Merged(ws, ps, i, j, done) && i == |ws| && j <= |previous|
      invariant forall n :: n in q.created ==> fresh(n)
    {
      MergedStep(ws, ps, i, j, done);
      q := PlaceRetired(previous, ps, j, q, done, duration);
      done := done + [Retire(ps[j])];
      j := j + 1;
    }
    MergedEnd(ws, ps, done);
    PlacedEnd(previous, ps, q, done, duration);
  }

  lemma PlacedStart(previous: seq<RenderNode>, ps: seq<Node>, q: Places, duration: real)
    requires Distinct(previous) && ps == Snap(previous) && q == Places([], [], [], [])
    ensures Placed(previous, ps, 0, q, [], duration)
  {
    assert previous[..0] == [];
  }

  lemma PlacedNow(previous: seq<RenderNode>, ps: seq<Node>, j: nat, q: Places, done: seq<Action>, duration: real)
    requires Placed(previous, ps, j, q, done, duration) && j < |previous|
    ensures |ps| == |previous| && previous[j].s == ps[j]
  {
  }

  lemma PlacedEnd(previous: seq<RenderNode>, ps: seq<Node>, q: Places, done: seq<Action>, duration: real)
    requires Placed(previous, ps, |previous|, q, done, duration)
    ensures |ps| == |previous| && Snap(q.list) == Survivors(done, duration) && Partition(previous, q)
    ensures forall k :: 0 <= k < |ps| && previous[k] in q.deferred ==> Busy(ps[k])
    ensures forall k :: 0 <= k < |ps| && previous[k] in q.destroyed ==> !Busy(ps[k])
  {
    assert previous[..|previous|] == previous;
  }

  // ---- fading -----------------------------------------------------------------------------------------

  /** One node's share of update_fades. */
  function Tick(n: Node, delta: real, duration: real): Node {
    if !n.uploaded then n
    else if n.fade == FadeIn && n.fadeMs + delta >= duration then n.(fade := Steady, fadeMs := duration)
    else n.(fadeMs := n.fadeMs + delta)
  }

  function Ticks(list: seq<Node>, delta: real, duration: real): (r: seq<Node>)
    ensures |r| == |list| && forall i :: 0 <= i < |list| ==> r[i] == Tick(list[i], delta, duration)
  {
    seq(|list|, i requires 0 <= i < |list| => Tick(list[i], delta, duration))
  }

  function TickAll(n: Node, deltas: seq<real>, duration: real): Node
    decreases |deltas|
  {
    if deltas == [] then n else TickAll(Tick(n, deltas[0], duration), deltas[1..], duration)
  }

  function Passed(deltas: seq<real>): real { if deltas == [] then 0.0 else deltas[0] + Passed(deltas[1..]) }

  /** The last frame is the one that completes the duration. */
  predicate Ends(fadeMs: real, deltas: seq<real>, duration: real)
    requires deltas != []
  {
    fadeMs + Passed(deltas[..|deltas| - 1]) < duration <= fadeMs + Passed(deltas)
  }

  lemma TickStep(n: Node, deltas: seq<real>, duration: real)
    requires deltas != []
    ensures TickAll(n, deltas, duration) == TickAll(Tick(n, deltas[0], duration), deltas[1..], duration)
    ensures Passed(deltas) == deltas[0] + Passed(deltas[1..])
  {
  }

  /** A node that is not fading in only counts on, if it is uploaded. */
  lemma {:induction false} OthersCountOn(n: Node, deltas: seq<real>, duration: real)
    requires !n.uploaded || n.fade != FadeIn
    ensures TickAll(n, deltas, duration) == if n.uploaded then n.(fadeMs := n.fadeMs + Passed(deltas)) else n
    decreases |deltas|
  {
    hide TickAll, Passed;
    if deltas == [] {
      NoTicks(n, duration);
    } else {
      TickStep(n, deltas, duration);
      OthersCountOn(Tick(n, deltas[0], duration), deltas[1..], duration);
    }
  }

  lemma NoTicks(n: Node, duration: real)
    ensures TickAll(n, [], duration) == n && Passed([]) == 0.0
  {
  }

  /** Over any frame times: an uploaded node fades in for exactly the duration. Before that it is fading in and
      has faded for the time passed; with the frame that completes it it becomes steady with the full duration,
      and counts on from there. */
  lemma {:induction false} FadeFollowsTime(n: Node, deltas: seq<real>, duration: real)
    requires n.uploaded && n.fade == FadeIn && forall k :: 0 <= k < |deltas| ==> deltas[k] >= 0.0
    ensures
      var m := TickAll(n, deltas, duration);
      && (n.fadeMs + Passed(deltas) < duration ==> m == n.(fadeMs := n.fadeMs + Passed(deltas)))
      && (deltas != [] && n.fadeMs + Passed(deltas) >= duration ==> m.fade == Steady && m.fadeMs >= duration)
      && (deltas != [] && Ends(n.fadeMs, deltas, duration) ==> m.fadeMs == duration)
    decreases |deltas|
  {
    hide *;
    NoTicks(n, duration);
    if deltas != [] {
      var m, rest := Tick(n, deltas[0], duration), deltas[1..];
      TickStep(n, deltas, duration);
      TickOfFade(n, deltas[0], duration);
      PassedIsTime(rest);
      EndsStep(n.fadeMs, deltas, duration);
      if m.fade == FadeIn {
        FadeFollowsTime(m, rest, duration);
        NoTicks(m, duration);
      } else {
        OthersCountOn(m, rest, duration);
      }
    }
  }

  lemma TickOfFade(n: Node, delta: real, duration: real)
    requires n.uploaded && n.fade == FadeIn
    ensures Tick(n, delta, duration)
         == if n.fadeMs + delta < duration then n.(fadeMs := n.fadeMs + delta) else n.(fade := Steady, fadeMs := duration)
  {
  }

  /** The first frame completes the duration or leaves it to the others. */
  lemma EndsStep(fadeMs: real, deltas: seq<real>, duration: real)
    requires deltas != [] && forall k :: 0 <= k < |deltas| ==> deltas[k] >= 0.0
    ensures
      var rest := deltas[1..];
      Ends(fadeMs, deltas, duration) ==>
        if rest == [] then fadeMs < duration <= fadeMs + deltas[0]
        else fadeMs + deltas[0] < duration && Ends(fadeMs + deltas[0], rest, duration)
  {
    var init, rest := deltas[..|deltas| - 1], deltas[1..];
    if rest != [] {
      assert init[1..] == rest[..|rest| - 1] && init[0] == deltas[0];
      PassedIsTime(rest[..|rest| - 1]);
    }
  }

  lemma {:induction false} PassedIsTime(deltas: seq<real>)
    requires forall k :: 0 <= k < |deltas| ==> deltas[k] >= 0.0
    ensures Passed(deltas) >= 0.0
  {
    if deltas != [] {
      PassedIsTime(deltas[1..]);
    }
  }

  method UpdateFades(list: seq<RenderNode>, delta: real, duration: real)
    requires Distinct(list)
    modifies list
    ensures Snap(list) == Ticks(old(Snap(list)), delta, duration)
  {
    for i := 0 to |list|
      invariant forall k :: 0 <= k < |list| ==> list[k].s == if k < i then Tick(old(list[k].s), delta, duration) else old(list[k].s)
    {
      var node := list[i];
      if node.s.uploaded {
        node.s := node.s.(fadeMs := node.s.fadeMs + delta);
        if node.s.fade == FadeIn && node.s.fadeMs >= duration {
          node.s := node.s.(fadeMs := duration, fade := Steady);
        }
      }
    }
  }

  /** A frame: the walker's selection, what the IO pass made of the new list, and the frame time. */
  datatype Frame = Frame(ws: seq<Walker>, io: seq<Node>, delta: real)

  /** The IO pass leaves keys and fades alone and never uploads a node that is fading out. */
  predicate IoKeeps(a: Node, b: Node) {
    b.Key() == a.Key() && b.fade == a.fade && b.fadeMs == a.fadeMs && (a.fade == FadeOut && b.uploaded ==> a.uploaded)
  }

  ghost predicate FrameOf(list: seq<Node>, f: Frame, duration: real) {
    var built := NextList(f.ws, list, duration);
    f.delta >= 0.0 && |f.io| == |built| && forall i :: 0 <= i < |built| ==> IoKeeps(built[i], f.io[i])
  }

  function AfterFrame(f: Frame, duration: real): seq<Node> { Ticks(f.io, f.delta, duration) }

  /** A run of frames from `list`. */
  ghost predicate FramesOf(list: seq<Node>, fs: seq<Frame>, duration: real)
    decreases |fs|
  {
    fs == [] || (FrameOf(list, fs[0], duration) && FramesOf(AfterFrame(fs[0], duration), fs[1..], duration))
  }

  function AfterFrames(list: seq<Node>, fs: seq<Frame>, duration: real): seq<Node>
    decreases |fs|
  {
    if fs == [] then list else AfterFrames(AfterFrame(fs[0], duration), fs[1..], duration)
  }

  function Elapsed(fs: seq<Frame>): real { if fs == [] then 0.0 else fs[0].delta + Elapsed(fs[1..]) }

  ghost predicate Absent(ws: seq<Walker>, k: Key) { forall i :: 0 <= i < |ws| ==> ws[i].key != k }

  lemma {:induction false} WalkerOfAction(plan: seq<Action>, j: nat)
    requires j < |plan| && !plan[j].Retire?
    ensures plan[j].w in WalkersOf(plan)
  {
    if j > 0 {
      WalkerOfAction(plan[1..], j - 1);
    }
  }

  lemma {:induction false} NodeOfAction(plan: seq<Action>, j: nat)
    requires j < |plan| && !plan[j].Create?
    ensures plan[j].p in NodesOf(plan)
  {
    if j > 0 {
      NodeOfAction(plan[1..], j - 1);
    }
  }

  /** A node whose key the walker does not select is in the new list only as a departing node that may
      stay. */
  lemma UnselectedNode(ws: seq<Walker>, ps: seq<Node>, duration: real, i: nat) returns (p: Node)
    requires i < |NextList(ws, ps, duration)| && Absent(ws, NextList(ws, ps, duration)[i].Key())
    ensures p in ps && p.Key() == NextList(ws, ps, duration)[i].Key()
    ensures FateOf(p, duration) == Stay && NextList(ws, ps, duration)[i] == Departing(p)
  {
    hide Plan, Survivors, FateOf;
    var plan := Plan(ws, ps);
    PlanAccountsForAll(ws, ps);
    var j := SurvivorAction(plan, duration, i);
    if !plan[j].Retire? {
      WalkerOfAction(plan, j);
      assert false;
    }
    NodeOfAction(plan, j);
    p := plan[j].p;
  }

  lemma {:induction false} ActionOfNode(plan: seq<Action>, p: Node) returns (j: nat)
    requires p in NodesOf(plan)
    ensures j < |plan| && !plan[j].Create? && plan[j].p == p
  {
    if p in NodeOf(plan[0]) {
      j := 0;
    } else {
      j := ActionOfNode(plan[1..], p);
      j := j + 1;
    }
  }

  lemma {:induction false} ActionOfWalker(plan: seq<Action>, w: Walker) returns (j: nat)
    requires w in WalkersOf(plan)
    ensures j < |plan| && !plan[j].Retire? && plan[j].w == w
  {
    if w in WalkerOf(plan[0]) {
      j := 0;
    } else {
      j := ActionOfWalker(plan[1..], w);
      j := j + 1;
    }
  }

  lemma {:induction false} SurvivorIsListed(plan: seq<Action>, duration: real, j: nat, n: Node)
    requires j < |plan| && n in Survivor(plan[j], duration)
    ensures n in Survivors(plan, duration)
    decreases |plan|
  {
    hide Survivor;
    if j < |plan| - 1 {
      SurvivorIsListed(plan[..|plan| - 1], duration, j, n);
    }
  }

  /** How long a departed node has been fading: from now on, if it departs just now. */
  function FadedFor(p: Node): real { if p.fade == FadeOut then p.fadeMs else 0.0 }

  /** A node the walker no longer selects stays, fading out and otherwise unchanged, exactly when it is
      uploaded and has faded for less than the duration. */
  lemma DepartedNodeStaysExactly(ws: seq<Walker>, ps: seq<Node>, duration: real, p: Node)
    requires p in ps && Absent(ws, p.Key())
    ensures p.(fade := FadeOut, fadeMs := FadedFor(p)) in NextList(ws, ps, duration) <==> p.uploaded && FadedFor(p) < duration
  {
    hide Plan, Survivors, Busy;
    var plan, q := Plan(ws, ps), p.(fade := FadeOut, fadeMs := FadedFor(p));
    PlanAccountsForAll(ws, ps);
    var j := ActionOfNode(plan, p);
    if plan[j].Match? {
      WalkerOfAction(plan, j);
      assert false;
    }
    assert Departing(p) == q;
    if p.uploaded && FadedFor(p) < duration {
      SurvivorIsListed(plan, duration, j, q);
    }
    if q in NextList(ws, ps, duration) {
      var i :| 0 <= i < |NextList(ws, ps, duration)| && NextList(ws, ps, duration)[i] == q;
      var other := UnselectedNode(ws, ps, duration, i);
    }
  }

  /** No two entries, and no two nodes, share a key. */
  ghost predicate Unique(ws: seq<Walker>, ps: seq<Node>) {
    && (forall i, j :: 0 <= i < j < |ws| ==> ws[i].key != ws[j].key)
    && (forall i, j :: 0 <= i < j < |ps| ==> ps[i].Key() != ps[j].Key())
  }

  /** A node the walker still selects is carried over with all it holds; only its view is refreshed, and a
      fade-out is turned into a fade-in from the start. */
  lemma SelectedNodeIsCarriedOver(ws: seq<Walker>, ps: seq<Node>, duration: real, w: Walker, p: Node)
    requires Sorted(WalkerKeys(ws)) && Sorted(NodeKeys(ps)) && Unique(ws, ps)
    requires w in ws && p in ps && w.key == p.Key()
    ensures
      var q := p.(walker := p.walker.(view := w.view), fade := if p.fade == FadeOut then FadeIn else p.fade,
                  fadeMs := if p.fade == FadeOut then 0.0 else p.fadeMs);
      q in NextList(ws, ps, duration)
  {
    hide Plan, Survivors, Sorted, Less;
    var plan := Plan(ws, ps);
    PlanAccountsForAll(ws, ps);
    PlanMatchesAllItCan(ws, ps, w.key);
    KeyOnce(ws, ps, w, p);
    var j := ActionOfWalker(plan, w);
    if plan[j].Create? {
      CreatedSome(plan, j);
      assert false;
    }
    NodeOfAction(plan, j);
    assert plan[j].p == p;
    SurvivorIsListed(plan, duration, j, Refreshed(p, w));
  }

  lemma KeyOnce(ws: seq<Walker>, ps: seq<Node>, w: Walker, p: Node)
    requires Unique(ws, ps) && w in ws && p in ps && w.key == p.Key()
    ensures CountKey(WalkerKeys(ws), w.key) == 1 && CountKey(NodeKeys(ps), w.key) == 1
  {
    var i :| 0 <= i < |ws| && ws[i] == w;
    var j :| 0 <= j < |ps| && ps[j] == p;
    CountOnce(WalkerKeys(ws), i);
    CountOnce(NodeKeys(ps), j);
  }

  lemma {:induction false} CountOnce(keys: seq<Key>, i: nat)
    requires i < |keys| && forall j, k :: 0 <= j < k < |keys| ==> keys[j] != keys[k]
    ensures CountKey(keys, keys[i]) == 1
  {
    if i == 0 {
      CountAbsent(keys[1..], keys[0]);
    } else {
      CountOnce(keys[1..], i - 1);
    }
  }

  lemma {:induction false} CreatedSome(plan: seq<Action>, j: nat)
    requires j < |plan| && plan[j].Create?
    ensures Created(plan, plan[j].Key()) > 0
  {
    if j > 0 {
      CreatedSome(plan[1..], j - 1);
    }
  }

  /** An entry the list did not have starts with nothing and fades in. */
  lemma NewEntryStartsFresh(ws: seq<Walker>, ps: seq<Node>, duration: real, w: Walker)
    requires w in ws && forall i :: 0 <= i < |ps| ==> ps[i].Key() != w.key
    ensures exists q :: q in NextList(ws, ps, duration) && q.walker == w && !q.uploaded && q.io == NoIo && q.fade == FadeIn
                        && q.fadeMs == 0.0 && q.decoded == NOTHING && !q.residentBuilding && !q.virtualInFlight
  {
    hide Plan, Survivors, Sorted, Less;
    var plan := Plan(ws, ps);
    PlanAccountsForAll(ws, ps);
    var j := ActionOfWalker(plan, w);
    if plan[j].Match? {
      NodeOfAction(plan, j);
      assert false;
    }
    SurvivorIsListed(plan, duration, j, Fresh(w));
  }

  /** Of the departed nodes only uploaded ones stay. */
  lemma FadingNodesAreUploaded(ws: seq<Walker>, ps: seq<Node>, duration: real, i: nat)
    requires i < |NextList(ws, ps, duration)| && NextList(ws, ps, duration)[i].fade == FadeOut
    ensures NextList(ws, ps, duration)[i].uploaded
  {
    hide Plan, Survivors, Busy;
    var j := SurvivorAction(Plan(ws, ps), duration, i);
  }

  /** Nodes with key k: once a frame has passed they are all fading out, and those still uploaded have
      faded for at least `ms`. */
  ghost predicate Aged(list: seq<Node>, k: Key, started: bool, ms: real) {
    forall i :: 0 <= i < |list| && list[i].Key() == k ==>
      && (started ==> list[i].fade == FadeOut)
      && (list[i].fade == FadeOut && list[i].uploaded ==> list[i].fadeMs >= ms)
  }

  lemma FrameAges(list: seq<Node>, f: Frame, k: Key, started: bool, ms: real, duration: real)
    requires FrameOf(list, f, duration) && Absent(f.ws, k) && Aged(list, k, started, ms) && ms >= 0.0 && (!started ==> ms == 0.0)
    ensures Aged(AfterFrame(f, duration), k, true, ms + f.delta) && f.delta >= 0.0
  {
    hide NextList;
    var built, next := NextList(f.ws, list, duration), AfterFrame(f, duration);
    forall i | 0 <= i < |next| && next[i].Key() == k
      ensures next[i].fade == FadeOut && (next[i].uploaded ==> next[i].fadeMs >= ms + f.delta)
    {
      assert IoKeeps(built[i], f.io[i]) && next[i] == Tick(f.io[i], f.delta, duration);
      var p := UnselectedNode(f.ws, list, duration, i);
    }
  }

  lemma {:induction false} FramesAge(list: seq<Node>, fs: seq<Frame>, k: Key, started: bool, ms: real, duration: real)
    requires FramesOf(list, fs, duration) && (forall i :: 0 <= i < |fs| ==> Absent(fs[i].ws, k))
    requires Aged(list, k, started, ms) && ms >= 0.0 && (!started ==> ms == 0.0)
    ensures Aged(AfterFrames(list, fs, duration), k, started || fs != [], ms + Elapsed(fs))
    decreases |fs|
  {
    hide Aged, AfterFrame, Absent, FrameOf;
    if fs != [] {
      FrameAges(list, fs[0], k, started, ms, duration);
      FramesAge(AfterFrame(fs[0], duration), fs[1..], k, true, ms + fs[0].delta, duration);
    }
  }

  /** A node the walker no longer selects leaves the list in bounded time: once the frame times since its
      departure add up to the fade duration, the next list does not have it, whatever else happens. */
  lemma DepartedNodesLeave(list: seq<Node>, fs: seq<Frame>, ws: seq<Walker>, k: Key, duration: real)
    requires FramesOf(list, fs, duration) && fs != [] && (forall i :: 0 <= i < |fs| ==> Absent(fs[i].ws, k)) && Absent(ws, k)
    requires forall i :: 0 <= i < |list| ==> list[i].fadeMs >= 0.0
    requires Elapsed(fs) >= duration
    ensures k !in NodeKeys(NextList(ws, AfterFrames(list, fs, duration), duration))
  {
    hide NextList, AfterFrames, FramesOf, Elapsed;
    FramesAge(list, fs, k, false, 0.0, duration);
    var last := AfterFrames(list, fs, duration);
    var next := NextList(ws, last, duration);
    forall i | 0 <= i < |next|
      ensures next[i].Key() != k
    {
      if next[i].Key() == k {
        var p := UnselectedNode(ws, last, duration, i);
        assert false;
      }
    }
  }

  lemma {:induction false} FramesAddUp(fs: seq<Frame>, delta: real)
    requires forall i :: 0 <= i < |fs| ==> fs[i].delta >= delta
    ensures Elapsed(fs) >= |fs| as real * delta
  {
    if fs != [] {
      FramesAddUp(fs[1..], delta);
      assert |fs| as real * delta == delta + (|fs| - 1) as real * delta;
    }
  }

  /** How many frames of at least `delta` a fade can last. */
  function FrameBound(duration: real, delta: real): (n: nat)
    requires delta > 0.0
    ensures n >= 1
  {
    if duration <= 0.0 then 1 else QuotientIsPositive(duration, delta); 1 + (duration / delta).Floor
  }

  lemma QuotientIsPositive(duration: real, delta: real)
    requires duration > 0.0 && delta > 0.0
    ensures duration / delta >= 0.0 && (duration / delta).Floor >= 0
  {
  }

  lemma BoundSuffices(duration: real, delta: real, n: nat)
    requires delta > 0.0 && n >= FrameBound(duration, delta)
    ensures n as real * delta >= duration
  {
    if duration > 0.0 {
      var q := duration / delta;
      assert n as real >= q;
      assert (n as real - q) * delta >= 0.0;
      assert q * delta == duration;
    } else {
      assert n as real * delta >= 0.0;
    }
  }

  /** In numbers of frames: when no frame is shorter than `delta`, a departed node is gone after
      1 + floor(duration / delta) frames. */
  lemma DepartedWithinFrames(list: seq<Node>, fs: seq<Frame>, ws: seq<Walker>, k: Key, duration: real, delta: real)
    requires FramesOf(list, fs, duration) && (forall i :: 0 <= i < |fs| ==> Absent(fs[i].ws, k)) && Absent(ws, k)
    requires forall i :: 0 <= i < |list| ==> list[i].fadeMs >= 0.0
    requires delta > 0.0 && (forall i :: 0 <= i < |fs| ==> fs[i].delta >= delta) && |fs| >= FrameBound(duration, delta)
    ensures k !in NodeKeys(NextList(ws, AfterFrames(list, fs, duration), duration))
  {
    hide NextList, AfterFrames, FramesOf, Elapsed, FrameBound;
    FramesAddUp(fs, delta);
    BoundSuffices(duration, delta, |fs|);
    DepartedNodesLeave(list, fs, ws, k, duration);
  }
}
