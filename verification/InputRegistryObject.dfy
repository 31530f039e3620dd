/** input_data_source_registry_t as the object the converter holds: each method does to the fields
    what the corresponding event does to the registry state. */
module InputRegistryObject {
  import opened Bytes
  import opened InputRegistry

  class Registry {
    var items: seq<Item>
    var nextId: nat
    var subParts: nat
    var insertedParts: nat
    var doneCount: nat
    var unsorted: seq<nat>  // the dispatch heap
    var dirty: bool
    var sorted: seq<nat>
    var donePrefix: nat

    constructor ()
      ensures Abs() == INITIAL && Valid()
    {
      items, nextId, subParts, insertedParts, doneCount := [], 0, 0, 0, 0;
      unsorted, dirty, sorted, donePrefix := [], true, [], 0;
    }

    ghost function Abs(): State
      reads this
    {
      State(items, nextId, subParts, insertedParts, doneCount, (set x | x in unsorted), dirty, sorted, donePrefix)
    }

    /** The heap never holds a file twice; the rest is the state machine's invariant. */
    ghost predicate Valid()
      reads this
    {
      Inv(Abs()) && forall j, k :: 0 <= j < k < |unsorted| ==> unsorted[j] != unsorted[k]
    }

    method SetItem(id: nat, i: Item)
      requires Has(items, id) && i.id == id
      modifies `items
      ensures Abs() == Put(old(Abs()), i)
    {
      items := items[IndexOf(items, id) := i];
    }

    /** register_file: a known name is found again, with a note whether it is already complete. */
    method RegisterFile(name: seq<byte>) returns (id: nat, alreadyDone: bool)
      modifies `items, `nextId
      ensures Abs() == Apply(old(Abs()), Register(name))
      ensures old(Valid()) ==> Valid()
      ensures match NameIndex(old(items), name)
              case None => id == old(nextId) && !alreadyDone
              case Some(k) => id == old(items)[k].id && (alreadyDone <==> Complete(old(items)[k]))
    {
      KeptBy(Abs(), Register(name));
      var k := 0;
      while k < |items|
        invariant k <= |items| && items == old(items)
        invariant forall j :: 0 <= j < k ==> items[j].name != name
      {
        if items[k].name == name {
          var item := items[k];
          FirstName(items, name, k);
          return item.id, item.readFinished && item.inserted == item.subCount;
        }
        k := k + 1;
      }
      id, alreadyDone := nextId, false;
      nextId := nextId + 1;
      items := items + [NewItem(id, name)];
    }

    method RegisterPreInit(id: nat, foundMin: bool, corner: nat)
      requires Has(items, id)
      modifies `items, `dirty
      ensures Abs() == Apply(old(Abs()), PreInit(id, if foundMin then corner else 0))
      ensures old(Valid() && Legal(Abs(), PreInit(id, if foundMin then corner else 0))) ==> Valid()
    {
      KeptBy(Abs(), PreInit(id, if foundMin then corner else 0));
      var item := items[IndexOf(items, id)];
      SetItem(id, item.(inputOrder := if foundMin then corner else 0, settled := true));
      dirty := true;
    }

    method HandleSubAdded(id: nat)
      requires Has(items, id)
      modifies `items, `subParts
      ensures Abs() == Apply(old(Abs()), SubAdded(id))
      ensures old(Valid() && Legal(Abs(), SubAdded(id))) ==> Valid()
    {
      KeptBy(Abs(), SubAdded(id));
      var item := items[IndexOf(items, id)];
      SetItem(id, item.(subCount := item.subCount + 1));
      subParts := subParts + 1;
    }

    method HandleSortedPoints(id: nat, lo: nat, hi: nat)
      requires Has(items, id)
      modifies `items
      ensures Abs() == Apply(old(Abs()), SortedPoints(id, lo, hi))
      ensures old(Valid() && Legal(Abs(), SortedPoints(id, lo, hi))) ==> Valid()
    {
      KeptBy(Abs(), SortedPoints(id, lo, hi));
      var item := items[IndexOf(items, id)];
      if lo < item.mortonMin {
        item := item.(mortonMin := lo);
      }
      if hi > item.mortonMax {
        item := item.(mortonMax := hi);
      }
      SetItem(id, item);
    }

    method HandleReadingDone(id: nat)
      requires Has(items, id)
      modifies `items, `doneCount
      ensures Abs() == Apply(old(Abs()), ReadingDone(id))
      ensures old(Valid() && Legal(Abs(), ReadingDone(id))) ==> Valid()
    {
      KeptBy(Abs(), ReadingDone(id));
      var item := items[IndexOf(items, id)];
      if item.readFinished {
        return;
      }
      SetItem(id, item.(readFinished := true));
      doneCount := doneCount + 1;
    }

    method HandleFileFailed(id: nat)
      requires Has(items, id)
      modifies `items, `doneCount, `dirty
      ensures Abs() == Apply(old(Abs()), FileFailed(id))
      ensures old(Valid() && Legal(Abs(), FileFailed(id))) ==> Valid()
    {
      KeptBy(Abs(), FileFailed(id));
      var item := items[IndexOf(items, id)].(settled := true, readStarted := true);
      dirty := true;
      if item.readFinished {
        SetItem(id, item);
        return;
      }
      SetItem(id, item.(readFinished := true));
      doneCount := doneCount + 1;
    }

    method HandleTreeDone(id: nat)
      requires Has(items, id)
      modifies `items, `insertedParts
      ensures Abs() == Apply(old(Abs()), TreeDone(id))
      ensures old(Valid() && Legal(Abs(), TreeDone(id))) ==> Valid()
    {
      KeptBy(Abs(), TreeDone(id));
      var item := items[IndexOf(items, id)];
      SetItem(id, item.(inserted := item.inserted + 1));
      insertedParts := insertedParts + 1;
    }

    /** all_inserted_into_tree: the three counters answer for every file. */
    method AllInsertedIntoTree() returns (r: bool)
      requires Valid()
      ensures r <==> forall k :: 0 <= k < |items| ==> Done(items[k])
    {
      CompletionIsExact(Abs());
      r := |items| == doneCount && subParts == insertedParts;
    }

    /** Rebuild the heap from the registry when something changed. */
    method Rebuild()
      requires Valid()
      modifies `unsorted, `dirty
      ensures Abs() == Refresh(old(Abs())) && Valid() && !dirty
    {
      RefreshKeepsInv(Abs());
      if dirty {
        dirty := false;
        unsorted := CollectEligible(items);
      }
    }

    /** Take the file at one position of the heap. */
    method PopAt(best: nat) returns (id: nat)
      requires Valid() && !dirty && best < |unsorted| && Legal(Abs(), Dispatch(unsorted[best]))
      modifies `items, `unsorted, `sorted
      ensures Valid() && id == old(unsorted[best]) && Abs() == Apply(old(Abs()), Dispatch(id))
    {
      id := unsorted[best];
      StepKeepsInv(Abs(), Dispatch(id));
      DropOne(unsorted, best);
      hide Inv;
      unsorted := unsorted[..best] + unsorted[best + 1..];
      sorted := sorted + [id];
      SetItem(id, items[IndexOf(items, id)].(readStarted := true));
    }

    /** next_input_to_process: hand out an eligible file of least order, or nothing if there is none. */
    method NextInput() returns (r: Option<nat>)
      requires Valid()
      modifies `items, `unsorted, `dirty, `sorted
      ensures Valid()
      ensures r.Some? ==> Legal(old(Abs()), Dispatch(r.value)) && Abs() == Apply(old(Abs()), Dispatch(r.value))
      ensures r.None? ==> Abs() == Refresh(old(Abs()))
      ensures r.None? <==> EligibleIds(old(items)) == {}
      ensures r.Some? ==> LeastEligible(old(items), r.value)
    {
      hide LeastEligible;
      RefreshKeepsInv(Abs());
      Rebuild();
      hide Inv, EligibleIds;
      if unsorted == [] {
        assert Abs().heap == {};
        return None;
      }
      assert unsorted[0] in Abs().heap;
      HeapKnown(Abs());
      var best := LeastAt(items, unsorted);
      LeastIsLegal(old(Abs()), unsorted[best]);
      DispatchIsLeast(old(Abs()), unsorted[best]);
      LeastIsLegal(Abs(), unsorted[best]);
      var id := PopAt(best);
      r := Some(id);
    }

    method AdvancePrefix()
      requires Valid()
      modifies `donePrefix
      ensures Valid() && Abs() == Advance(old(Abs()))
    {
      hide Inv, Advance, Done;
      ghost var target := Advance(Abs());
      SortedKnown(Abs());
      while donePrefix < |sorted| && Done(items[IndexOf(items, sorted[donePrefix])])
        invariant Valid() && Advance(Abs()) == target
        invariant forall k :: 0 <= k < |sorted| ==> Has(items, sorted[k])
        invariant Abs() == old(Abs()).(donePrefix := donePrefix)
        decreases |sorted| - donePrefix
      {
        AdvanceOne(Abs());
        donePrefix := donePrefix + 1;
      }
      AdvanceStops(Abs());
    }

    /** get_done_morton */
    method GetDoneMorton() returns (r: Option<nat>)
      requires Valid()
      modifies `donePrefix
      ensures Valid() && Abs() == Apply(old(Abs()), AskWatermark)
      ensures r == Watermark(Abs())
    {
      hide Inv, Advance, Clamp, Done;
      AdvancePrefix();
      SortedKnown(Abs());
      if sorted == [] || donePrefix == 0 {
        return None;
      }
      var boundary := ALL_ONES;
      if donePrefix < |sorted| {
        var next := items[IndexOf(items, sorted[donePrefix])];
        boundary := if next.mortonMin < next.inputOrder then next.mortonMin else next.inputOrder;
      }
      boundary := ClampByUndispatched(items, boundary);
      r := if boundary > 0 then Some(boundary) else None;
    }
  }

  method CollectEligible(items: seq<Item>) returns (heap: seq<nat>)
    requires DistinctIds(items)
    ensures (set x | x in heap) == EligibleIds(items)
    ensures forall i, j :: 0 <= i < j < |heap| ==> heap[i] != heap[j]
  {
    heap := [];
    for k := 0 to |items|
      invariant (set x | x in heap) == EligibleIds(items[..k])
      invariant forall i, j :: 0 <= i < j < |heap| ==> heap[i] != heap[j]
    {
      EligibleSnoc(items, k);
      if Eligible(items[k]) {
        assert forall j :: 0 <= j < |heap| ==> heap[j] in (set x | x in heap);
        heap := heap + [items[k].id];
      }
    }
    assert items[..|items|] == items;
  }

  lemma EligibleSnoc(items: seq<Item>, k: nat)
    requires k < |items| && DistinctIds(items)
    ensures EligibleIds(items[..k + 1]) == EligibleIds(items[..k]) + (if Eligible(items[k]) then {items[k].id} else {})
    ensures items[k].id !in EligibleIds(items[..k])
  {
    assert items[..k + 1] == items[..k] + [items[k]];
  }

  method ClampByUndispatched(items: seq<Item>, start: nat) returns (boundary: nat)
    ensures boundary == Clamp(items, start)
  {
    boundary := start;
    for k := 0 to |items|
      invariant boundary == Clamp(items[..k], start)
    {
      assert items[..k + 1][..k] == items[..k];
      if !items[k].readStarted && items[k].inputOrder < boundary {
        boundary := items[k].inputOrder;
      }
    }
    assert items[..|items|] == items;
  }

  lemma SortedKnown(s: State)
    requires Inv(s)
    ensures forall k :: 0 <= k < |s.sorted| ==> Has(s.items, s.sorted[k])
  {
  }

  lemma AdvanceStops(s: State)
    requires s.donePrefix < |s.sorted| ==> Has(s.items, s.sorted[s.donePrefix]) && !Done(Get(s, s.sorted[s.donePrefix]))
    ensures Advance(s) == s
  {
  }

  lemma HeapKnown(s: State)
    requires Inv(s) && !s.dirty
    ensures forall x :: x in s.heap ==> Has(s.items, x)
  {
  }

  lemma LeastIsLegal(s: State, id: nat)
    requires Inv(s) && id in Refresh(s).heap && Has(s.items, id)
    requires forall x :: x in Refresh(s).heap && Has(s.items, x) ==>
               s.items[IndexOf(s.items, id)].inputOrder <= s.items[IndexOf(s.items, x)].inputOrder
    ensures Legal(s, Dispatch(id))
    ensures Apply(Refresh(s), Dispatch(id)) == Apply(s, Dispatch(id))
  {
    assert Refresh(s).items == s.items;
  }

  lemma KeptBy(s: State, e: Event)
    requires Known(s, e)
    ensures Inv(s) && Legal(s, e) ==> Inv(Apply(s, e))
  {
    if Inv(s) && Legal(s, e) {
      StepKeepsInv(s, e);
    }
  }

  lemma FirstName(items: seq<Item>, name: seq<byte>, k: nat)
    requires k < |items| && items[k].name == name && forall j :: 0 <= j < k ==> items[j].name != name
    ensures NameIndex(items, name) == Some(k)
    decreases |items|
  {
    if k > 0 {
      FirstName(items[1..], name, k - 1);
    }
  }

  /** The position of a least-order file in the heap. */
  method LeastAt(items: seq<Item>, heap: seq<nat>) returns (best: nat)
    requires heap != [] && forall j :: 0 <= j < |heap| ==> Has(items, heap[j])
    ensures best < |heap|
    ensures forall j :: 0 <= j < |heap| ==>
              items[IndexOf(items, heap[best])].inputOrder <= items[IndexOf(items, heap[j])].inputOrder
  {
    best := 0;
    for k := 1 to |heap|
      invariant best < k
      invariant forall j :: 0 <= j < k ==>
                  items[IndexOf(items, heap[best])].inputOrder <= items[IndexOf(items, heap[j])].inputOrder
    {
      if items[IndexOf(items, heap[k])].inputOrder < items[IndexOf(items, heap[best])].inputOrder {
        best := k;
      }
    }
  }

  lemma DropOne(heap: seq<nat>, k: nat)
    requires k < |heap| && forall i, j :: 0 <= i < j < |heap| ==> heap[i] != heap[j]
    ensures
      var rest := heap[..k] + heap[k + 1..];
      (set x | x in rest) == (set x | x in heap) - {heap[k]}
      && forall i, j :: 0 <= i < j < |rest| ==> rest[i] != rest[j]
  {
    var rest := heap[..k] + heap[k + 1..];
    forall x
      ensures x in rest <==> x in heap && x != heap[k]
    {
      if x in heap && x != heap[k] {
        var j :| 0 <= j < |heap| && heap[j] == x;
        assert rest[if j < k then j else j - 1] == x;
      }
    }
  }
}
