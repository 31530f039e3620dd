/** What the registry knows of a file is the history of the file: every field follows from the events that
    concerned it. */
module RegistryHistory {
  import opened Bytes
  import opened InputRegistry

  // ---- the events of a file -----------------------------------------------------------------------------

  predicate Settles(e: Event, id: nat) { e == FileFailed(id) || (e.PreInit? && e.id == id) }
  predicate Starts(e: Event, id: nat) { e == Dispatch(id) || e == FileFailed(id) }
  predicate Finishes(e: Event, id: nat) { e == ReadingDone(id) || e == FileFailed(id) }
  predicate Brings(e: Event, id: nat) { e.SortedPoints? && e.id == id }

  function Times(es: seq<Event>, e: Event): nat {
    if es == [] then 0 else (if es[0] == e then 1 else 0) + Times(es[1..], e)
  }

  /** The order of the last pre-init result. */
  function LastOrder(es: seq<Event>, id: nat, order: nat): nat {
    if es == [] then order
    else LastOrder(es[1..], id, if es[0].PreInit? && es[0].id == id then es[0].order else order)
  }

  ghost predicate Flags(a: Item, b: Item, es: seq<Event>) {
    && (b.settled <==> a.settled || exists k :: 0 <= k < |es| && Settles(es[k], a.id))
    && (b.readStarted <==> a.readStarted || exists k :: 0 <= k < |es| && Starts(es[k], a.id))
    && (b.readFinished <==> a.readFinished || exists k :: 0 <= k < |es| && Finishes(es[k], a.id))
  }

  ghost predicate Counts(a: Item, b: Item, es: seq<Event>) {
    && b.subCount == a.subCount + Times(es, SubAdded(a.id)) && b.inserted == a.inserted + Times(es, TreeDone(a.id))
    && b.inputOrder == LastOrder(es, a.id, a.inputOrder)
  }

  /** The bounds are the extremes of the points that arrived. */
  ghost predicate Bounds(a: Item, b: Item, es: seq<Event>) {
    && b.mortonMin <= a.mortonMin && a.mortonMax <= b.mortonMax
    && (forall k :: 0 <= k < |es| && Brings(es[k], a.id) ==> b.mortonMin <= es[k].min && es[k].max <= b.mortonMax)
    && (b.mortonMin == a.mortonMin || exists k :: 0 <= k < |es| && Brings(es[k], a.id) && b.mortonMin == es[k].min)
    && (b.mortonMax == a.mortonMax || exists k :: 0 <= k < |es| && Brings(es[k], a.id) && b.mortonMax == es[k].max)
  }

  ghost predicate Tells(a: Item, b: Item, es: seq<Event>) {
    b.id == a.id && b.name == a.name && Flags(a, b, es) && Counts(a, b, es) && Bounds(a, b, es)
  }

  // ---- one step -------------------------------------------------------------------------------------

  lemma OneEvent(e: Event)
    ensures forall x: Event :: Times([e], x) == if e == x then 1 else 0
    ensures forall id, order :: LastOrder([e], id, order) == if e.PreInit? && e.id == id then e.order else order
  {
    assert [e][1..] == [];
  }

  lemma FileEventTells(s: State, e: Event)
    requires Inv(s) && Legal(s, e) && !e.Register? && !e.Dispatch? && !e.AskWatermark?
    ensures var i := Changed(s, e); Has(s.items, i.id) && Tells(Get(s, i.id), i, [e])
  {
    hide Inv, Get, Has, Times, LastOrder;
    OneEvent(e);
    assert [e][0] == e;
  }

  lemma ElsewhereTells(i: Item, e: Event)
    requires !Settles(e, i.id) && !Starts(e, i.id) && !Finishes(e, i.id) && !Brings(e, i.id)
    requires e != SubAdded(i.id) && e != TreeDone(i.id) && !(e.PreInit? && e.id == i.id)
    ensures Tells(i, i, [e])
  {
    OneEvent(e);
  }

  lemma DispatchTells(i: Item)
    ensures Tells(i, i.(readStarted := true), [Dispatch(i.id)])
  {
    var e := Dispatch(i.id);
    OneEvent(e);
    assert [e][0] == e;
  }

  lemma StepTells(s: State, e: Event, id: nat)
    requires Inv(s) && Legal(s, e) && Has(s.items, id)
    ensures Has(Apply(s, e).items, id) && Tells(Get(s, id), Get(Apply(s, e), id), [e])
  {
    hide Inv, Has, Get, Advance, Tells;
    match e
    case Register(name) =>
      RegisterFacts(s, name);
      ElsewhereTells(Get(s, id), e);
    case Dispatch(d) =>
      DispatchFacts(s, d);
      if d == id {
        DispatchTells(Get(s, id));
      } else {
        ElsewhereTells(Get(s, id), e);
      }
    case AskWatermark =>
      AdvanceKeepsInv(s);
      SameItems(s, Advance(s));
      ElsewhereTells(Get(s, id), e);
    case _ =>
      ChangedFacts(s, e);
      FileEventTells(s, e);
      if Changed(s, e).id != id {
        ElsewhereTells(Get(s, id), e);
      }
  }

  // ---- whole runs -----------------------------------------------------------------------------------

  lemma FlagsCompose(a: Item, b: Item, c: Item, e: Event, es: seq<Event>)
    requires b.id == a.id && Flags(a, b, [e]) && Flags(b, c, es)
    ensures Flags(a, c, [e] + es)
  {
    var all := [e] + es;
    assert all[0] == e && [e][0] == e;
    assert forall k :: 0 <= k < |es| ==> all[k + 1] == es[k];
    assert forall k :: 0 < k < |all| ==> all[k] == es[k - 1];
  }

  lemma CountsCompose(a: Item, b: Item, c: Item, e: Event, es: seq<Event>)
    requires b.id == a.id && Counts(a, b, [e]) && Counts(b, c, es)
    ensures Counts(a, c, [e] + es)
  {
    OneEvent(e);
    assert ([e] + es)[1..] == es;
  }

  lemma BoundsCompose(a: Item, b: Item, c: Item, e: Event, es: seq<Event>)
    requires b.id == a.id && Bounds(a, b, [e]) && Bounds(b, c, es)
    ensures Bounds(a, c, [e] + es)
  {
    var all := [e] + es;
    assert all[0] == e && [e][0] == e;
    assert forall k :: 0 <= k < |es| ==> all[k + 1] == es[k];
    assert forall k :: 0 < k < |all| ==> all[k] == es[k - 1];
  }

  lemma NothingTells(i: Item)
    ensures Tells(i, i, [])
  {
  }

  /** Over every run: a file is settled, started and finished exactly if an event did it, has as many chunks
      announced and inserted as there were events, the order of the last pre-init result, and the extremes of
      the points that arrived. */
  lemma {:induction false} FileTellsItsHistory(s: State, es: seq<Event>, id: nat)
    requires Inv(s) && LegalRun(s, es) && Has(s.items, id)
    ensures Has(Final(s, es).items, id) && Tells(Get(s, id), Get(Final(s, es), id), es)
    decreases |es|
  {
    hide Inv, Apply, Has, Get, Flags, Counts, Bounds;
    if es == [] {
      NothingTells(Get(s, id));
    } else {
      var t, u := Apply(s, es[0]), Final(s, es);
      StepKeepsInv(s, es[0]);
      StepTells(s, es[0], id);
      FileTellsItsHistory(t, es[1..], id);
      FlagsCompose(Get(s, id), Get(t, id), Get(u, id), es[0], es[1..]);
      CountsCompose(Get(s, id), Get(t, id), Get(u, id), es[0], es[1..]);
      BoundsCompose(Get(s, id), Get(t, id), Get(u, id), es[0], es[1..]);
      assert [es[0]] + es[1..] == es;
    }
  }

  // ---- names ------------------------------------------------------------------------------------------

  ghost predicate DistinctNames(items: seq<Item>) {
    forall j, k :: 0 <= j < k < |items| ==> items[j].name != items[k].name
  }

  ghost predicate HasName(items: seq<Item>, name: seq<byte>) { exists k :: 0 <= k < |items| && items[k].name == name }

  lemma StepKeepsNames(s: State, e: Event)
    requires Inv(s) && Legal(s, e) && DistinctNames(s.items)
    ensures DistinctNames(Apply(s, e).items)
    ensures e.Register? ==> HasName(Apply(s, e).items, e.name)
    ensures forall name :: HasName(s.items, name) ==> HasName(Apply(s, e).items, name)
  {
    var t := Apply(s, e);
    if e.AskWatermark? {
      AdvanceKeepsInv(s);
    } else if e.Register? {
      if NameIndex(s.items, e.name).None? {
        assert t.items[|s.items|].name == e.name;
        assert forall k :: 0 <= k < |s.items| ==> t.items[k] == s.items[k];
      }
    } else {
      assert forall k :: 0 <= k < |s.items| ==> t.items[k].name == s.items[k].name;
    }
  }

  /** However often names are registered, no two files of a run share one, and every registered name has its
      file. */
  lemma {:induction false} NamesStayDistinct(s: State, es: seq<Event>)
    requires Inv(s) && LegalRun(s, es) && DistinctNames(s.items)
    ensures DistinctNames(Final(s, es).items)
    ensures forall name :: HasName(s.items, name) ==> HasName(Final(s, es).items, name)
    ensures forall k :: 0 <= k < |es| && es[k].Register? ==> HasName(Final(s, es).items, es[k].name)
    decreases |es|
  {
    hide Inv, Apply, DistinctNames, HasName;
    if es != [] {
      StepKeepsInv(s, es[0]);
      StepKeepsNames(s, es[0]);
      NamesStayDistinct(Apply(s, es[0]), es[1..]);
      assert forall k :: 1 <= k < |es| ==> es[k] == es[1..][k - 1];
    }
  }
}
