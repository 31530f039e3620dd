/** The registry of input files: registration, dispatch in rising Morton order, retirement, and the
    "done" watermark below which no input can add a point any more. */
module InputRegistry {
  import opened Bytes

  /** The largest 192-bit Morton code. */
  const ALL_ONES: nat := 0xFFFFFFFFFFFFFFFFFFFFFFFFFFFFFFFFFFFFFFFFFFFFFFFF

  datatype Item = Item(id: nat, name: seq<byte>, inputOrder: nat, mortonMin: nat, mortonMax: nat,
                       readStarted: bool, readFinished: bool, settled: bool, inserted: nat, subCount: nat)

  predicate Done(i: Item) { i.readFinished && i.inserted >= i.subCount }

  /** "Completed in an earlier session". */
  predicate Complete(i: Item) { i.readFinished && i.inserted == i.subCount }

  predicate Eligible(i: Item) { !i.readStarted && i.settled }

  /** The registry. `items` is in insertion order, as the dense map iterates; `heap` is the content
      of the dispatch heap. */
  datatype State = State(items: seq<Item>, nextId: nat, subParts: nat, insertedParts: nat, doneCount: nat,
                         heap: set<nat>, dirty: bool, sorted: seq<nat>, donePrefix: nat)

  const INITIAL := State([], 0, 0, 0, 0, {}, true, [], 0)

  // ---- looking things up --------------------------------------------------------------------------

  predicate Has(items: seq<Item>, id: nat) { exists k :: 0 <= k < |items| && items[k].id == id }

  ghost predicate DistinctIds(items: seq<Item>) {
    forall j, k :: 0 <= j < k < |items| ==> items[j].id != items[k].id
  }

  function IndexOf(items: seq<Item>, id: nat): (k: nat)
    requires Has(items, id)
    ensures k < |items| && items[k].id == id
  {
    if items[0].id == id then 0
    else
      assert Has(items[1..], id) by {
        var k :| 0 <= k < |items| && items[k].id == id;
        assert items[1..][k - 1].id == id;
      }
      1 + IndexOf(items[1..], id)
  }

  function Get(s: State, id: nat): (i: Item)
    requires Has(s.items, id)
    ensures i.id == id
  {
    s.items[IndexOf(s.items, id)]
  }

  function Put(s: State, i: Item): State
    requires Has(s.items, i.id)
  {
    s.(items := s.items[IndexOf(s.items, i.id) := i])
  }

  lemma IndexUnique(items: seq<Item>, k: nat)
    requires DistinctIds(items) && k < |items|
    ensures Has(items, items[k].id) && IndexOf(items, items[k].id) == k
  {
  }

  // ---- events ---------------------------------------------------------------------------------

  datatype Event =
    | Register(name: seq<byte>)
    | PreInit(id: nat, order: nat)
    | SubAdded(id: nat)
    | SortedPoints(id: nat, min: nat, max: nat)
    | ReadingDone(id: nat)
    | FileFailed(id: nat)
    | TreeDone(id: nat)
    | Dispatch(id: nat)
    | AskWatermark

  function NameIndex(items: seq<Item>, name: seq<byte>): (r: Option<nat>)
    ensures r.Some? ==> r.value < |items| && items[r.value].name == name
    ensures r.None? ==> forall k :: 0 <= k < |items| ==> items[k].name != name
  {
    if items == [] then None
    else if items[0].name == name then Some(0)
    else match NameIndex(items[1..], name)
      case None => None
      case Some(k) => Some(k + 1)
  }

  function NewItem(id: nat, name: seq<byte>): Item {
    Item(id, name, 0, ALL_ONES, 0, false, false, false, 0, 0)
  }

  function EligibleIds(items: seq<Item>): set<nat> {
    set k | 0 <= k < |items| && Eligible(items[k]) :: items[k].id
  }

  /** Rebuild the heap if something changed. */
  function Refresh(s: State): State {
    if s.dirty then s.(heap := EligibleIds(s.items), dirty := false) else s
  }

  /** Move the done prefix past every dispatched file that is done. */
  function Advance(s: State): State
    decreases |s.sorted| - s.donePrefix
  {
    if s.donePrefix < |s.sorted| && Has(s.items, s.sorted[s.donePrefix]) && Done(Get(s, s.sorted[s.donePrefix]))
    then Advance(s.(donePrefix := s.donePrefix + 1)) else s
  }

  function Retire(s: State, i: Item): State
    requires Has(s.items, i.id)
  {
    if i.readFinished then Put(s, i) else Put(s, i.(readFinished := true)).(doneCount := s.doneCount + 1)
  }

  /** What an event does; events about unknown files are not part of the machine. */
  function Apply(s: State, e: Event): State
    requires Known(s, e)
  {
    match e
    case Register(name) =>
      if NameIndex(s.items, name).Some? then s
      else s.(items := s.items + [NewItem(s.nextId, name)], nextId := s.nextId + 1)
    case PreInit(id, order) => Put(s, Get(s, id).(inputOrder := order, settled := true)).(dirty := true)
    case SubAdded(id) => var i := Get(s, id); Put(s, i.(subCount := i.subCount + 1)).(subParts := s.subParts + 1)
    case SortedPoints(id, lo, hi) =>
      var i := Get(s, id);
      Put(s, i.(mortonMin := if lo < i.mortonMin then lo else i.mortonMin,
                mortonMax := if hi > i.mortonMax then hi else i.mortonMax))
    case ReadingDone(id) => Retire(s, Get(s, id))
    case FileFailed(id) => Retire(s, Get(s, id).(settled := true, readStarted := true)).(dirty := true)
    case TreeDone(id) =>
      var i := Get(s, id); Put(s, i.(inserted := i.inserted + 1)).(insertedParts := s.insertedParts + 1)
    case Dispatch(id) =>
      var r := Refresh(s);
      Put(r, Get(r, id).(readStarted := true)).(heap := r.heap - {id}, sorted := r.sorted + [id])
    case AskWatermark => Advance(s)
  }

  predicate Known(s: State, e: Event) {
    match e
    case Register(_) => true
    case PreInit(id, _) => Has(s.items, id)
    case SubAdded(id) => Has(s.items, id)
    case SortedPoints(id, _, _) => Has(s.items, id)
    case ReadingDone(id) => Has(s.items, id)
    case FileFailed(id) => Has(s.items, id)
    case TreeDone(id) => Has(s.items, id)
    case Dispatch(id) => Has(s.items, id)
    case AskWatermark => true
  }

  /** What the environment promises. A pre-init corner bounds the file's points and a repeated
      pre-init does not lower it; chunks come from dispatched files, none after the read finished;
      a chunk is inserted at most once; a read ends only for a dispatched file. Dispatch picks a
      file of the heap with least order. */
  ghost predicate Legal(s: State, e: Event) {
    Known(s, e) &&
    match e
    case PreInit(id, order) => Get(s, id).inputOrder <= order <= Get(s, id).mortonMin
    case SubAdded(id) => id in s.sorted && !Get(s, id).readFinished
    case SortedPoints(id, lo, hi) => !Done(Get(s, id)) && Get(s, id).inputOrder <= lo <= ALL_ONES
    case ReadingDone(id) => id in s.sorted
    case TreeDone(id) => Get(s, id).inserted < Get(s, id).subCount
    case Dispatch(id) => Least(Refresh(s), id)
    case _ => true
  }

  ghost predicate Least(s: State, id: nat) {
    && id in s.heap && Has(s.items, id)
    && forall other :: other in s.heap && Has(s.items, other) ==> Get(s, id).inputOrder <= Get(s, other).inputOrder
  }

  // ---- the invariant --------------------------------------------------------------------------

  function SubSum(items: seq<Item>): nat {
    if items == [] then 0 else SubSum(items[..|items| - 1]) + items[|items| - 1].subCount
  }
  function InsertedSum(items: seq<Item>): nat {
    if items == [] then 0 else InsertedSum(items[..|items| - 1]) + items[|items| - 1].inserted
  }
  function FinishedCount(items: seq<Item>): nat {
    if items == [] then 0 else FinishedCount(items[..|items| - 1]) + (if items[|items| - 1].readFinished then 1 else 0)
  }

  ghost predicate Counted(s: State) {
    s.subParts == SubSum(s.items) && s.insertedParts == InsertedSum(s.items) && s.doneCount == FinishedCount(s.items)
  }

  ghost predicate ItemOk(s: State, i: Item) {
    && i.id < s.nextId && i.inserted <= i.subCount
    && i.inputOrder <= i.mortonMin <= ALL_ONES
    && (i.readFinished ==> i.readStarted)
    && (i.id in s.sorted ==> i.readStarted)
    && (i.id !in s.sorted ==> i.inserted == 0 && i.subCount == 0 && (i.readStarted ==> i.readFinished))
  }

  ghost predicate DispatchOk(s: State) {
    && (forall j, k :: 0 <= j < k < |s.sorted| ==> s.sorted[j] != s.sorted[k])
    && (forall k :: 0 <= k < |s.sorted| ==> Has(s.items, s.sorted[k]))
    && s.donePrefix <= |s.sorted|
    && (forall k :: 0 <= k < s.donePrefix ==> Done(Get(s, s.sorted[k])))
    && (!s.dirty ==> s.heap == EligibleIds(s.items))
  }

  ghost predicate Inv(s: State) {
    && DistinctIds(s.items) && Counted(s) && DispatchOk(s)
    && forall k :: 0 <= k < |s.items| ==> ItemOk(s, s.items[k])
  }

  // ---- every event keeps the invariant ------------------------------------------------------------

  lemma {:induction false} SumsUpdate(items: seq<Item>, k: nat, i: Item)
    requires k < |items|
    ensures SubSum(items[k := i]) == SubSum(items) - items[k].subCount + i.subCount
    ensures InsertedSum(items[k := i]) == InsertedSum(items) - items[k].inserted + i.inserted
    ensures FinishedCount(items[k := i])
            == FinishedCount(items) - (if items[k].readFinished then 1 else 0) + (if i.readFinished then 1 else 0)
  {
    var init, init' := items[..|items| - 1], items[k := i][..|items| - 1];
    if k == |items| - 1 {
      assert init == init';
    } else {
      assert init' == init[k := i];
      SumsUpdate(init, k, i);
    }
  }

  lemma PutFacts(s: State, i: Item)
    requires Has(s.items, i.id) && DistinctIds(s.items)
    ensures DistinctIds(Put(s, i).items) && |Put(s, i).items| == |s.items|
    ensures forall id :: Has(Put(s, i).items, id) <==> Has(s.items, id)
    ensures forall id :: Has(s.items, id) ==> Get(Put(s, i), id) == if id == i.id then i else Get(s, id)
  {
    var k, t := IndexOf(s.items, i.id), Put(s, i).items;
    assert forall j :: 0 <= j < |t| ==> t[j].id == s.items[j].id;
    forall id
      ensures Has(t, id) <==> Has(s.items, id)
      ensures Has(s.items, id) ==> Get(Put(s, i), id) == if id == i.id then i else Get(s, id)
    {
      if Has(s.items, id) {
        var j := IndexOf(s.items, id);
        assert t[j].id == id;
        IndexUnique(t, j);
      }
      if Has(t, id) {
        var j := IndexOf(t, id);
        assert s.items[j].id == id;
      }
    }
  }

  /** Item-wise view of the invariant, free of positions. */
  lemma ItemsOk(s: State)
    requires DistinctIds(s.items)
    ensures (forall k :: 0 <= k < |s.items| ==> ItemOk(s, s.items[k]))
            <==> (forall id :: Has(s.items, id) ==> ItemOk(s, Get(s, id)))
  {
    hide ItemOk;
    if forall id :: Has(s.items, id) ==> ItemOk(s, Get(s, id)) {
      forall k | 0 <= k < |s.items|
        ensures ItemOk(s, s.items[k])
      {
        IndexUnique(s.items, k);
      }
    }
  }

  lemma EligibleById(s: State, id: nat)
    requires DistinctIds(s.items)
    ensures id in EligibleIds(s.items) <==> Has(s.items, id) && Eligible(Get(s, id))
  {
    if id in EligibleIds(s.items) {
      var k :| 0 <= k < |s.items| && Eligible(s.items[k]) && s.items[k].id == id;
      IndexUnique(s.items, k);
    }
  }

  /** Changing one file keeps the invariant if the file stays well formed, a done file stays done,
      and the heap is refreshed whenever eligibility changed. */
  lemma PutKeepsInv(s: State, i: Item, t: State)
    requires Inv(s) && Has(s.items, i.id)
    requires t.items == Put(s, i).items && t.nextId == s.nextId && t.sorted == s.sorted && t.donePrefix == s.donePrefix
    requires t.heap == s.heap && (t.dirty || (!s.dirty && (Eligible(i) <==> Eligible(Get(s, i.id)))))
    requires Counted(t) && ItemOk(t, i) && (Done(Get(s, i.id)) ==> Done(i))
    ensures Inv(t)
  {
    PutFacts(s, i);
    ItemsOk(s);
    ItemsOk(t);
    forall id
      ensures Has(t.items, id) <==> Has(s.items, id)
      ensures Has(t.items, id) ==> Get(t, id) == if id == i.id then i else Get(s, id)
    {
      assert t.items == Put(s, i).items;
    }
    if !t.dirty {
      forall id
        ensures id in t.heap <==> id in EligibleIds(t.items)
      {
        EligibleById(s, id);
        EligibleById(t, id);
      }
    }
  }

  lemma CountedPut(s: State, i: Item, t: State)
    requires Counted(s) && Has(s.items, i.id) && t.items == Put(s, i).items
    requires t.subParts == s.subParts - Get(s, i.id).subCount + i.subCount
    requires t.insertedParts == s.insertedParts - Get(s, i.id).inserted + i.inserted
    requires t.doneCount == s.doneCount - (if Get(s, i.id).readFinished then 1 else 0) + (if i.readFinished then 1 else 0)
    ensures Counted(t)
  {
    SumsUpdate(s.items, IndexOf(s.items, i.id), i);
  }

  lemma GetOk(s: State, id: nat)
    requires Inv(s) && Has(s.items, id)
    ensures ItemOk(s, Get(s, id))
  {
  }

  lemma RegisterFacts(s: State, name: seq<byte>)
    requires Inv(s)
    ensures
      var t := Apply(s, Register(name));
      t.sorted == s.sorted && DistinctIds(t.items)
      && (forall id :: Has(s.items, id) ==> Has(t.items, id) && Get(t, id) == Get(s, id))
      && (forall id :: Has(t.items, id) && !Has(s.items, id) ==> id !in s.sorted && Get(t, id) == NewItem(s.nextId, name))
  {
    var t := Apply(s, Register(name));
    if NameIndex(s.items, name).None? {
      assert t.items == s.items + [NewItem(s.nextId, name)];
      forall k | 0 <= k < |s.items|
        ensures s.items[k].id < s.nextId
      {
        assert ItemOk(s, s.items[k]);
      }
      assert DistinctIds(t.items);
      forall id | Has(s.items, id)
        ensures Has(t.items, id) && Get(t, id) == Get(s, id)
      {
        var k := IndexOf(s.items, id);
        assert t.items[k].id == id;
        IndexUnique(t.items, k);
      }
      forall id | Has(t.items, id) && !Has(s.items, id)
        ensures id !in s.sorted && Get(t, id) == NewItem(s.nextId, name)
      {
        assert forall j :: 0 <= j < |s.items| ==> s.items[j].id != id;
      }
    }
  }

  lemma RegisterDispatchOk(s: State, name: seq<byte>)
    requires Inv(s) && NameIndex(s.items, name).None?
    ensures DispatchOk(Apply(s, Register(name)))
  {
    var t := Apply(s, Register(name));
    RegisterFacts(s, name);
    assert forall k :: 0 <= k < |s.items| ==> t.items[k] == s.items[k];
    assert EligibleIds(t.items) == EligibleIds(s.items);
    hide Get, Has, EligibleIds, Counted, ItemOk;
  }

  lemma RegisterKeepsInv(s: State, name: seq<byte>)
    requires Inv(s)
    ensures Inv(Apply(s, Register(name)))
  {
    hide DispatchOk, Has, Get, Counted, NameIndex;
    var t := Apply(s, Register(name));
    if NameIndex(s.items, name).None? {
      RegisterFacts(s, name);
      RegisterDispatchOk(s, name);
      RegisterCounted(s, name);
      FreshId(s);
      assert forall k :: 0 <= k < |s.items| ==> ItemOk(s, s.items[k]) && t.items[k] == s.items[k];
    }
  }

  lemma RegisterCounted(s: State, name: seq<byte>)
    requires Counted(s) && NameIndex(s.items, name).None?
    ensures Counted(Apply(s, Register(name)))
  {
    hide NameIndex;
    var t, i := Apply(s, Register(name)), NewItem(s.nextId, name);
    assert t.items[..|s.items|] == s.items && t.items[|s.items|] == i;
  }

  lemma FreshId(s: State)
    requires Inv(s)
    ensures s.nextId !in s.sorted
  {
    hide Counted;
    if Has(s.items, s.nextId) {
      GetOk(s, s.nextId);
    }
  }

  lemma RefreshKeepsInv(s: State)
    requires Inv(s)
    ensures Inv(Refresh(s)) && Refresh(s).items == s.items && Refresh(s).heap == EligibleIds(s.items)
  {
    assert forall id :: Has(s.items, id) ==> Get(Refresh(s), id) == Get(s, id);
  }

  lemma DispatchFacts(s: State, id: nat)
    requires Inv(s) && Legal(s, Dispatch(id))
    ensures
      var t := Apply(s, Dispatch(id));
      t.sorted == s.sorted + [id]
      && (forall x :: Has(t.items, x) <==> Has(s.items, x))
      && (forall x :: Has(s.items, x) ==> Get(t, x) == if x == id then Get(s, id).(readStarted := true) else Get(s, x))
    ensures forall x :: Has(s.items, x) && Eligible(Get(s, x)) ==> Get(s, id).inputOrder <= Get(s, x).inputOrder
    ensures Eligible(Get(s, id))
  {
    RefreshKeepsInv(s);
    var r := Refresh(s);
    assert forall x :: Has(s.items, x) ==> Get(r, x) == Get(s, x);
    PutFacts(r, Get(r, id).(readStarted := true));
    EligibleById(s, id);
    forall x | Has(s.items, x) && Eligible(Get(s, x))
      ensures Get(s, id).inputOrder <= Get(s, x).inputOrder
    {
      EligibleById(s, x);
    }
  }

  lemma DispatchItems(s: State, id: nat)
    requires Inv(s) && Legal(s, Dispatch(id))
    ensures var t := Apply(s, Dispatch(id)); DistinctIds(t.items) && Counted(t) && t.heap == EligibleIds(t.items)
    ensures id !in s.sorted
  {
    RefreshKeepsInv(s);
    DispatchFacts(s, id);
    var r, t := Refresh(s), Apply(s, Dispatch(id));
    var i := Get(r, id).(readStarted := true);
    GetOk(r, id);
    PutFacts(r, i);
    CountedPut(r, i, t);
    hide Inv, ItemOk, DispatchOk, Counted;
    forall x
      ensures x in t.heap <==> x in EligibleIds(t.items)
    {
      EligibleById(r, x);
      EligibleById(t, x);
    }
  }

  lemma DispatchKeepsInv(s: State, id: nat)
    requires Inv(s) && Legal(s, Dispatch(id))
    ensures Inv(Apply(s, Dispatch(id)))
    ensures id !in s.sorted && Eligible(Get(s, id))
  {
    hide Inv, Legal, Apply, Get, Has, Counted, EligibleIds;
    DispatchFacts(s, id);
    DispatchItems(s, id);
    DispatchFields(s, id);
    SortedSnocKeepsInv(s, id, Apply(s, Dispatch(id)));
  }

  lemma DispatchFields(s: State, id: nat)
    requires Inv(s) && Legal(s, Dispatch(id))
    ensures var t := Apply(s, Dispatch(id)); t.nextId == s.nextId && t.donePrefix == s.donePrefix && !t.dirty
    ensures Has(s.items, id)
  {
    hide Inv;
  }

  /** The invariant after a dispatch, from what the dispatch changes. */
  lemma SortedSnocKeepsInv(s: State, id: nat, t: State)
    requires Inv(s) && Has(s.items, id) && id !in s.sorted && Eligible(Get(s, id))
    requires DistinctIds(t.items) && Counted(t) && t.heap == EligibleIds(t.items)
    requires t.sorted == s.sorted + [id] && t.nextId == s.nextId && t.donePrefix == s.donePrefix && !t.dirty
    requires forall x :: Has(t.items, x) <==> Has(s.items, x)
    requires forall x :: Has(s.items, x) ==> Get(t, x) == if x == id then Get(s, id).(readStarted := true) else Get(s, x)
    ensures Inv(t)
  {
    hide Get, Has, Counted, EligibleIds, ItemOk;
    ItemsOk(s);
    ItemsOk(t);
    forall x | Has(t.items, x)
      ensures ItemOk(t, Get(t, x))
    {
      assert ItemOk(s, Get(s, x));
      SortedSnocItem(s, id, t, Get(s, x));
    }
  }

  lemma SortedSnocItem(s: State, id: nat, t: State, i: Item)
    requires t.sorted == s.sorted + [id] && t.nextId == s.nextId && ItemOk(s, i) && (i.id == id ==> id !in s.sorted && Eligible(i))
    ensures ItemOk(t, if i.id == id then i.(readStarted := true) else i)
  {
  }

  lemma SameItems(s: State, t: State)
    requires s.items == t.items
    ensures forall id :: Has(s.items, id) ==> Get(t, id) == Get(s, id)
  {
  }

  lemma AdvanceOne(s: State)
    requires Inv(s) && s.donePrefix < |s.sorted| && Done(Get(s, s.sorted[s.donePrefix]))
    ensures Advance(s) == Advance(s.(donePrefix := s.donePrefix + 1)) && Inv(s.(donePrefix := s.donePrefix + 1))
  {
    var t := s.(donePrefix := s.donePrefix + 1);
    assert Advance(s) == Advance(t);
    SameItems(s, t);
    hide Get, Has, SubSum, InsertedSum, FinishedCount, EligibleIds, Advance;
    assert DispatchOk(t);
    hide DispatchOk, Done;
    assert forall k :: 0 <= k < |s.items| ==> ItemOk(s, s.items[k]) && ItemOk(t, s.items[k]);
  }

  lemma {:induction false} AdvanceKeepsInv(s: State)
    requires Inv(s)
    ensures Inv(Advance(s)) && Advance(s) == s.(donePrefix := Advance(s).donePrefix)
    ensures Advance(s).donePrefix >= s.donePrefix
    ensures var t := Advance(s); t.donePrefix < |t.sorted| ==> !Done(Get(t, t.sorted[t.donePrefix]))
    decreases |s.sorted| - s.donePrefix
  {
    if s.donePrefix < |s.sorted| && Done(Get(s, s.sorted[s.donePrefix])) {
      AdvanceOne(s);
      AdvanceKeepsInv(s.(donePrefix := s.donePrefix + 1));
    }
  }

  /** Whatever legal event comes next, the invariant holds after it. */
  lemma StepKeepsInv(s: State, e: Event)
    requires Inv(s) && Legal(s, e)
    ensures Inv(Apply(s, e))
  {
    hide Inv, ItemOk, Counted, DispatchOk;
    match e
    case Register(name) => RegisterKeepsInv(s, name);
    case Dispatch(id) => DispatchKeepsInv(s, id);
    case AskWatermark => AdvanceKeepsInv(s);
    case _ => FileEventKeepsInv(s, e);
  }

  /** The file an event is about, as the event leaves it. */
  function Changed(s: State, e: Event): Item
    requires Known(s, e) && !e.Register? && !e.Dispatch? && !e.AskWatermark?
  {
    match e
    case PreInit(id, order) => Get(s, id).(inputOrder := order, settled := true)
    case SubAdded(id) => Get(s, id).(subCount := Get(s, id).subCount + 1)
    case SortedPoints(id, lo, hi) =>
      var i := Get(s, id);
      i.(mortonMin := if lo < i.mortonMin then lo else i.mortonMin,
         mortonMax := if hi > i.mortonMax then hi else i.mortonMax)
    case ReadingDone(id) => Get(s, id).(readFinished := true)
    case FileFailed(id) => Get(s, id).(settled := true, readStarted := true, readFinished := true)
    case TreeDone(id) => Get(s, id).(inserted := Get(s, id).inserted + 1)
  }

  lemma FileEventKeepsInv(s: State, e: Event)
    requires Inv(s) && Legal(s, e) && !e.Register? && !e.Dispatch? && !e.AskWatermark?
    ensures Inv(Apply(s, e))
    ensures Apply(s, e).items == Put(s, Changed(s, e)).items
  {
    var i, t := Changed(s, e), Apply(s, e);
    GetOk(s, i.id);
    assert t.items == Put(s, i).items;
    CountedPut(s, i, t);
    FileEventPut(s, e);
  }

  lemma FileEventPut(s: State, e: Event)
    requires Inv(s) && Legal(s, e) && !e.Register? && !e.Dispatch? && !e.AskWatermark?
    requires Counted(Apply(s, e)) && Apply(s, e).items == Put(s, Changed(s, e)).items
    ensures Inv(Apply(s, e))
  {
    var i, t := Changed(s, e), Apply(s, e);
    GetOk(s, i.id);
    PutKeepsInv(s, i, t);
  }

  // ---- runs -----------------------------------------------------------------------------------

  ghost predicate LegalRun(s: State, es: seq<Event>)
    decreases |es|
  {
    es == [] || (Legal(s, es[0]) && LegalRun(Apply(s, es[0]), es[1..]))
  }

  function Final(s: State, es: seq<Event>): State
    requires LegalRun(s, es)
    decreases |es|
  {
    if es == [] then s else Final(Apply(s, es[0]), es[1..])
  }

  lemma {:induction false} RunKeepsInv(s: State, es: seq<Event>)
    requires Inv(s) && LegalRun(s, es)
    ensures Inv(Final(s, es))
    decreases |es|
  {
    hide Inv, Apply;
    if es != [] {
      StepKeepsInv(s, es[0]);
      RunKeepsInv(Apply(s, es[0]), es[1..]);
    }
  }

  lemma EmptyRegistryOk()
    ensures Inv(INITIAL)
  {
  }

  // ---- completion -----------------------------------------------------------------------------

  predicate AllInserted(s: State) { |s.items| == s.doneCount && s.subParts == s.insertedParts }

  lemma {:induction false} FinishedAll(items: seq<Item>)
    ensures FinishedCount(items) <= |items|
    ensures FinishedCount(items) == |items| <==> forall k :: 0 <= k < |items| ==> items[k].readFinished
  {
    if items != [] {
      FinishedAll(items[..|items| - 1]);
      assert forall k :: 0 <= k < |items| - 1 ==> items[..|items| - 1][k] == items[k];
    }
  }

  lemma {:induction false} InsertedNeverAhead(items: seq<Item>)
    requires forall k :: 0 <= k < |items| ==> items[k].inserted <= items[k].subCount
    ensures InsertedSum(items) <= SubSum(items)
    ensures InsertedSum(items) == SubSum(items) <==> forall k :: 0 <= k < |items| ==> items[k].inserted == items[k].subCount
  {
    if items != [] {
      InsertedNeverAhead(items[..|items| - 1]);
      assert forall k :: 0 <= k < |items| - 1 ==> items[..|items| - 1][k] == items[k];
    }
  }

  /** In every reachable state, whichever retire paths fired: conversion is complete exactly when
      every file is done. */
  lemma CompletionIsExact(s: State)
    requires Inv(s)
    ensures AllInserted(s) <==> forall k :: 0 <= k < |s.items| ==> Done(s.items[k])
  {
    assert forall k :: 0 <= k < |s.items| ==> ItemOk(s, s.items[k]);
    FinishedAll(s.items);
    InsertedNeverAhead(s.items);
  }

  // ---- the watermark --------------------------------------------------------------------------

  function Min(a: nat, b: nat): nat { if a < b then a else b }

  /** The least order of the files that were never dispatched, capped by `b`. */
  function Clamp(items: seq<Item>, b: nat): nat {
    if items == [] then b
    else
      var c, i := Clamp(items[..|items| - 1], b), items[|items| - 1];
      if !i.readStarted && i.inputOrder < c then i.inputOrder else c
  }

  function Boundary(s: State): nat {
    var b :=
      if s.donePrefix < |s.sorted| && Has(s.items, s.sorted[s.donePrefix])
      then var n := Get(s, s.sorted[s.donePrefix]); Min(n.mortonMin, n.inputOrder)
      else ALL_ONES;
    Clamp(s.items, b)
  }

  /** get_done_morton's answer once the prefix has advanced. */
  function Watermark(s: State): Option<nat> {
    if s.sorted == [] || s.donePrefix == 0 || Boundary(s) == 0 then None else Some(Boundary(s))
  }

  /** The true bound: the least order of all files that are not done, all-ones if there are none. */
  function Floor(items: seq<Item>): nat {
    if items == [] then ALL_ONES
    else
      var f, i := Floor(items[..|items| - 1]), items[|items| - 1];
      if Done(i) then f else Min(f, i.inputOrder)
  }

  lemma {:induction false} FloorBounds(items: seq<Item>, k: nat)
    requires k < |items| && !Done(items[k])
    ensures Floor(items) <= items[k].inputOrder
  {
    if k < |items| - 1 {
      FloorBounds(items[..|items| - 1], k);
    }
  }

  lemma {:induction false} FloorIsGreatest(items: seq<Item>, b: nat)
    requires b <= ALL_ONES && forall k :: 0 <= k < |items| && !Done(items[k]) ==> b <= items[k].inputOrder
    ensures b <= Floor(items)
  {
    if items != [] {
      FloorIsGreatest(items[..|items| - 1], b);
    }
  }

  lemma {:induction false} ClampBounds(items: seq<Item>, b: nat)
    ensures Clamp(items, b) <= b
    ensures forall k :: 0 <= k < |items| && !items[k].readStarted ==> Clamp(items, b) <= items[k].inputOrder
    ensures Clamp(items, b) == b
            || exists k :: 0 <= k < |items| && !items[k].readStarted && Clamp(items, b) == items[k].inputOrder
  {
    if items != [] {
      var init := items[..|items| - 1];
      ClampBounds(init, b);
      assert forall k :: 0 <= k < |init| ==> init[k] == items[k];
      if Clamp(items, b) == Clamp(init, b) && Clamp(init, b) != b {
        var k :| 0 <= k < |init| && !init[k].readStarted && Clamp(init, b) == init[k].inputOrder;
        assert items[k].inputOrder == Clamp(items, b);
      }
    }
  }

  ghost predicate Advanced(s: State) {
    s.donePrefix < |s.sorted| ==> Has(s.items, s.sorted[s.donePrefix]) && !Done(Get(s, s.sorted[s.donePrefix]))
  }

  /** Some file that was never dispatched starts at or below `order`. */
  ghost predicate WaitingAtOrBelow(items: seq<Item>, order: nat) {
    exists k :: 0 <= k < |items| && !items[k].readStarted && items[k].inputOrder <= order
  }

  /** Every unfinished file dispatched after the first unfinished one starts at or above that one, or
      at or above some file that was never dispatched. */
  ghost predicate NoLateStart(s: State) {
    forall k :: s.donePrefix < k < |s.sorted| && Has(s.items, s.sorted[k]) && !Done(Get(s, s.sorted[k])) ==>
      var order := Get(s, s.sorted[k]).inputOrder;
      || (Has(s.items, s.sorted[s.donePrefix]) && Get(s, s.sorted[s.donePrefix]).inputOrder <= order)
      || WaitingAtOrBelow(s.items, order)
  }

  /** Where the first unfinished dispatched file bounds the boundary, an order is at or above it exactly
      when it is at or above that file's or a waiting file's. */
  lemma AboveBoundary(s: State, order: nat)
    requires Inv(s) && Advanced(s) && s.donePrefix < |s.sorted|
    ensures Boundary(s) <= order <==>
              Get(s, s.sorted[s.donePrefix]).inputOrder <= order || WaitingAtOrBelow(s.items, order)
  {
    var first := Get(s, s.sorted[s.donePrefix]);
    GetOk(s, s.sorted[s.donePrefix]);
    assert Boundary(s) == Clamp(s.items, first.inputOrder);
    ClampBounds(s.items, first.inputOrder);
  }

  lemma BoundaryNeverTooLow(s: State)
    requires Inv(s) && Advanced(s)
    ensures Floor(s.items) <= Boundary(s) <= ALL_ONES
  {
    var b := if s.donePrefix < |s.sorted| then Get(s, s.sorted[s.donePrefix]).inputOrder else ALL_ONES;
    if s.donePrefix < |s.sorted| {
      var id := s.sorted[s.donePrefix];
      GetOk(s, id);
      FloorBounds(s.items, IndexOf(s.items, id));
    } else {
      FloorAtMost(s.items);
    }
    ClampBounds(s.items, b);
    if Clamp(s.items, b) != b {
      var k :| 0 <= k < |s.items| && !s.items[k].readStarted && Clamp(s.items, b) == s.items[k].inputOrder;
      assert ItemOk(s, s.items[k]);
      FloorBounds(s.items, k);
    }
  }

  lemma {:induction false} FloorAtMost(items: seq<Item>)
    ensures Floor(items) <= ALL_ONES
  {
    if items != [] {
      FloorAtMost(items[..|items| - 1]);
    }
  }

  /** The boundary is the true bound over all unfinished files exactly when no file dispatched after
      the first unfinished one starts below it. */
  lemma BoundaryIsFloorExactly(s: State)
    requires Inv(s) && Advanced(s)
    ensures Boundary(s) == Floor(s.items) <==> NoLateStart(s)
  {
    BoundaryNeverTooLow(s);
    if NoLateStart(s) {
      forall k | 0 <= k < |s.items| && !Done(s.items[k])
        ensures Boundary(s) <= s.items[k].inputOrder
      {
        UnfinishedAboveBoundary(s, k);
      }
      FloorIsGreatest(s.items, Boundary(s));
    }
    if Boundary(s) == Floor(s.items) {
      forall k | s.donePrefix < k < |s.sorted| && Has(s.items, s.sorted[k]) && !Done(Get(s, s.sorted[k]))
        ensures Get(s, s.sorted[s.donePrefix]).inputOrder <= Get(s, s.sorted[k]).inputOrder
                || WaitingAtOrBelow(s.items, Get(s, s.sorted[k]).inputOrder)
      {
        FloorBounds(s.items, IndexOf(s.items, s.sorted[k]));
        AboveBoundary(s, Get(s, s.sorted[k]).inputOrder);
      }
    }
  }

  lemma UnfinishedAboveBoundary(s: State, k: nat)
    requires Inv(s) && Advanced(s) && NoLateStart(s) && k < |s.items| && !Done(s.items[k])
    ensures Boundary(s) <= s.items[k].inputOrder
  {
    var b := if s.donePrefix < |s.sorted| then Get(s, s.sorted[s.donePrefix]).inputOrder else ALL_ONES;
    if s.donePrefix < |s.sorted| {
      GetOk(s, s.sorted[s.donePrefix]);
    }
    ClampBounds(s.items, b);
    assert ItemOk(s, s.items[k]);
    IndexUnique(s.items, k);
    if s.items[k].readStarted {
      var j :| 0 <= j < |s.sorted| && s.sorted[j] == s.items[k].id;
      assert Get(s, s.sorted[j]) == s.items[k];
      assert j >= s.donePrefix;
      AboveBoundary(s, s.items[k].inputOrder);
    }
  }

  // ---- when dispatch order makes the watermark right ----------------------------------------------

  ghost predicate Open(s: State, id: nat) { id in s.sorted && Has(s.items, id) && !Done(Get(s, id)) }

  /** Unfinished dispatched files rise in dispatch order and lie at or below every eligible one. */
  ghost predicate Rising(s: State) {
    && (forall j, k :: 0 <= j < k < |s.sorted| && Open(s, s.sorted[j]) && Open(s, s.sorted[k]) ==>
          Get(s, s.sorted[j]).inputOrder <= Get(s, s.sorted[k]).inputOrder)
    && (forall d, x :: Open(s, d) && Has(s.items, x) && Eligible(Get(s, x)) ==>
          Get(s, d).inputOrder <= Get(s, x).inputOrder)
  }

  /** A pre-init result that lands late must not lie below a file still being read. */
  ghost predicate NotBelowOpen(s: State, e: Event) {
    e.PreInit? && Has(s.items, e.id) ==>
      if e.id in s.sorted then e.order == Get(s, e.id).inputOrder
      else forall d :: Open(s, d) ==> Get(s, d).inputOrder <= e.order
  }

  lemma RisingSuffices(s: State)
    requires Inv(s) && Advanced(s) && Rising(s)
    ensures Boundary(s) == Floor(s.items)
  {
    BoundaryNeverTooLow(s);
    if s.donePrefix < |s.sorted| {
      var first := s.sorted[s.donePrefix];
      GetOk(s, first);
      ClampBounds(s.items, Get(s, first).inputOrder);
      assert Open(s, first);
      forall k | s.donePrefix < k < |s.sorted| && !Done(Get(s, s.sorted[k]))
        ensures Boundary(s) <= Get(s, s.sorted[k]).inputOrder
      {
        assert Open(s, s.sorted[k]);
      }
    }
    BoundaryIsFloorExactly(s);
  }

  lemma OpenAfterDispatch(s: State, id: nat)
    requires Inv(s) && Legal(s, Dispatch(id))
    ensures
      var t := Apply(s, Dispatch(id));
      forall d :: Open(t, d) ==> Has(s.items, d) && Get(t, d).inputOrder == Get(s, d).inputOrder && (d == id || Open(s, d))
  {
    DispatchFacts(s, id);
    hide Inv, Legal, Apply, Get, Has;
  }

  lemma DispatchKeepsRising(s: State, id: nat)
    requires Inv(s) && Legal(s, Dispatch(id)) && Rising(s)
    ensures Rising(Apply(s, Dispatch(id)))
  {
    DispatchFacts(s, id);
    OpenAfterDispatch(s, id);
    hide Inv, Legal, Apply, Get, Has, Open;
    var t := Apply(s, Dispatch(id));
    forall j, k | 0 <= j < k < |t.sorted| && Open(t, t.sorted[j]) && Open(t, t.sorted[k])
      ensures Get(t, t.sorted[j]).inputOrder <= Get(t, t.sorted[k]).inputOrder
    {
      assert t.sorted[j] == s.sorted[j] && (k < |s.sorted| ==> t.sorted[k] == s.sorted[k]);
      DispatchedTwice(s, id, j);
    }
    forall d, x | Open(t, d) && Has(t.items, x) && Eligible(Get(t, x))
      ensures Get(t, d).inputOrder <= Get(t, x).inputOrder
    {
      assert x != id && Get(t, x) == Get(s, x);
    }
  }

  lemma DispatchedTwice(s: State, id: nat, j: nat)
    requires Inv(s) && Legal(s, Dispatch(id)) && j < |s.sorted|
    ensures s.sorted[j] != id
  {
    DispatchKeepsInv(s, id);
  }

  lemma PutKeepsRising(s: State, i: Item, t: State)
    requires DistinctIds(s.items) && Has(s.items, i.id) && Rising(s)
    requires t.items == Put(s, i).items && t.sorted == s.sorted
    requires i.id in s.sorted ==> i.inputOrder == Get(s, i.id).inputOrder && (Done(Get(s, i.id)) ==> Done(i))
    requires Eligible(i) ==>
               || (Eligible(Get(s, i.id)) && i.inputOrder == Get(s, i.id).inputOrder)
               || (forall d :: Open(s, d) ==> Get(s, d).inputOrder <= i.inputOrder)
    ensures Rising(t)
  {
    PutFacts(s, i);
    forall x
      ensures Has(t.items, x) <==> Has(s.items, x)
      ensures Has(t.items, x) ==> Get(t, x) == if x == i.id then i else Get(s, x)
    {
      assert t.items == Put(s, i).items;
    }
    forall d | Open(t, d)
      ensures Open(s, d) && Get(t, d).inputOrder == Get(s, d).inputOrder
    {
    }
  }

  lemma FileEventKeepsRising(s: State, e: Event)
    requires Inv(s) && Legal(s, e) && Rising(s) && NotBelowOpen(s, e)
    requires !e.Register? && !e.Dispatch? && !e.AskWatermark?
    ensures Rising(Apply(s, e))
  {
    FileEventKeepsInv(s, e);
    var i, t := Changed(s, e), Apply(s, e);
    GetOk(s, i.id);
    hide Rising, Counted, DispatchOk;
    assert t.sorted == s.sorted;
    PutKeepsRising(s, i, t);
  }

  lemma SameItemsKeepRising(s: State, t: State)
    requires Rising(s) && t.items == s.items && t.sorted == s.sorted
    ensures Rising(t)
  {
    assert forall id :: Has(s.items, id) ==> Get(t, id) == Get(s, id);
  }

  lemma RegisterKeepsRising(s: State, name: seq<byte>)
    requires Inv(s) && Rising(s)
    ensures Rising(Apply(s, Register(name)))
  {
    hide Inv, Apply, Get, Has, Done;
    RegisterFacts(s, name);
  }

  lemma StepKeepsRising(s: State, e: Event)
    requires Inv(s) && Legal(s, e) && Rising(s) && NotBelowOpen(s, e)
    ensures Rising(Apply(s, e))
  {
    hide Inv, Rising;
    match e
    case Register(name) => RegisterKeepsRising(s, name);
    case Dispatch(id) => DispatchKeepsRising(s, id);
    case AskWatermark =>
      AdvanceKeepsInv(s);
      SameItemsKeepRising(s, Advance(s));
    case _ => FileEventKeepsRising(s, e);
  }

  /** Asked in such a state, the watermark is the true bound over all unfinished files. */
  lemma WatermarkIsFloor(s: State)
    requires Inv(s) && Rising(s)
    ensures Watermark(Advance(s)).Some? ==> Watermark(Advance(s)).value == Floor(s.items)
  {
    AdvanceKeepsInv(s);
    SameItemsKeepRising(s, Advance(s));
    RisingSuffices(Advance(s));
  }

  ghost predicate LateOk(s: State, es: seq<Event>)
    requires LegalRun(s, es)
    decreases |es|
  {
    es == [] || (NotBelowOpen(s, es[0]) && LateOk(Apply(s, es[0]), es[1..]))
  }

  /** Over every run without such a late file, the watermark is the true bound over all unfinished
      files whenever it is asked for. */
  lemma {:induction false} RunKeepsRising(s: State, es: seq<Event>)
    requires Inv(s) && Rising(s) && LegalRun(s, es) && LateOk(s, es)
    ensures Inv(Final(s, es)) && Rising(Final(s, es))
    ensures
      var t := Final(s, es);
      Watermark(Advance(t)).Some? ==> Watermark(Advance(t)).value == Floor(t.items)
    decreases |es|
  {
    hide Inv, Rising, Apply, NotBelowOpen, Watermark, Floor, Advance;
    if es == [] {
      WatermarkIsFloor(s);
    } else {
      StepKeepsInv(s, es[0]);
      StepKeepsRising(s, es[0]);
      RunKeepsRising(Apply(s, es[0]), es[1..]);
    }
  }

  /** If no file has been dispatched yet, no pre-init result can be late. */
  lemma {:induction false} BeforeDispatch(s: State, es: seq<Event>)
    requires s.sorted == [] && LegalRun(s, es) && forall k :: 0 <= k < |es| ==> !es[k].Dispatch?
    ensures LateOk(s, es) && Final(s, es).sorted == []
    decreases |es|
  {
    if es != [] {
      AdvanceSorted(s);
      BeforeDispatch(Apply(s, es[0]), es[1..]);
    }
  }

  lemma {:induction false} AdvanceSorted(s: State)
    ensures Advance(s).sorted == s.sorted
    decreases |s.sorted| - s.donePrefix
  {
    if Advance(s) != s {
      AdvanceSorted(s.(donePrefix := s.donePrefix + 1));
    }
  }

  lemma {:induction false} AfterPreInits(s: State, es: seq<Event>)
    requires LegalRun(s, es) && forall k :: 0 <= k < |es| ==> !es[k].PreInit?
    ensures LateOk(s, es)
    decreases |es|
  {
    hide Apply;
    if es != [] {
      AfterPreInits(Apply(s, es[0]), es[1..]);
    }
  }

  /** When every pre-init result lands before the first dispatch, the watermark is right throughout. */
  lemma PreInitsFirst(setup: seq<Event>, work: seq<Event>)
    requires LegalRun(INITIAL, setup) && forall k :: 0 <= k < |setup| ==> !setup[k].Dispatch?
    requires LegalRun(Final(INITIAL, setup), work) && forall k :: 0 <= k < |work| ==> !work[k].PreInit?
    ensures
      var t := Final(Final(INITIAL, setup), work);
      Watermark(Advance(t)).Some? ==> Watermark(Advance(t)).value == Floor(t.items)
  {
    EmptyRegistryOk();
    BeforeDispatch(INITIAL, setup);
    RunKeepsInv(INITIAL, setup);
    var s := Final(INITIAL, setup);
    assert Rising(s);
    AfterPreInits(s, work);
    RunKeepsRising(s, work);
  }

  // ---- what the watermark promises --------------------------------------------------------------

  lemma {:induction false} FloorRises(before: seq<Item>, after: seq<Item>)
    requires |before| == |after|
    requires forall k :: 0 <= k < |before| ==> (Done(before[k]) ==> Done(after[k])) && before[k].inputOrder <= after[k].inputOrder
    ensures Floor(before) <= Floor(after)
  {
    if before != [] {
      FloorRises(before[..|before| - 1], after[..|after| - 1]);
      FloorAtMost(after[..|after| - 1]);
      FloorAtMost(before[..|before| - 1]);
    }
  }

  lemma StepRaisesFloor(s: State, e: Event)
    requires Inv(s) && Legal(s, e) && !e.Register?
    ensures Floor(s.items) <= Floor(Apply(s, e).items)
  {
    if e.AskWatermark? {
      AdvanceKeepsInv(s);
    } else if e.Dispatch? {
      RefreshKeepsInv(s);
      FloorRises(s.items, Apply(s, e).items);
    } else {
      FileEventKeepsInv(s, e);
      GetOk(s, Changed(s, e).id);
      FloorRises(s.items, Apply(s, e).items);
    }
  }

  /** A point lands at or above every watermark that was the true bound. */
  lemma PointAboveFloor(s: State, e: Event)
    requires Inv(s) && Legal(s, e) && e.SortedPoints?
    ensures Floor(s.items) <= e.min
  {
    FloorBounds(s.items, IndexOf(s.items, e.id));
  }

  /** Once the watermark is right, nothing that happens until the next registration, in any order
      and for any length, adds a point strictly below it, and the bound never falls. */
  lemma {:induction false} BelowWatermarkIsFinal(s: State, es: seq<Event>, b: nat)
    requires Inv(s) && LegalRun(s, es) && b <= Floor(s.items)
    requires forall k :: 0 <= k < |es| ==> !es[k].Register?
    ensures forall k :: 0 <= k < |es| && es[k].SortedPoints? ==> b <= es[k].min
    ensures b <= Floor(Final(s, es).items)
    decreases |es|
  {
    hide Inv, Apply, Floor;
    if es != [] {
      StepKeepsInv(s, es[0]);
      StepRaisesFloor(s, es[0]);
      if es[0].SortedPoints? {
        PointAboveFloor(s, es[0]);
      }
      BelowWatermarkIsFinal(Apply(s, es[0]), es[1..], b);
      assert forall k :: 1 <= k < |es| ==> es[k] == es[1..][k - 1];
    }
  }

  // ---- when there is an answer ------------------------------------------------------------------

  /** What get_done_morton answers in state s. */
  function Answer(s: State): Option<nat> { Watermark(Advance(s)) }

  /** The file is the first unfinished one in dispatch order. */
  ghost predicate FirstUnfinished(s: State, id: nat) {
    exists j :: 0 <= j < |s.sorted| && s.sorted[j] == id && DoneBefore(s, j)
  }

  ghost predicate DoneBefore(s: State, j: nat) {
    j <= |s.sorted| && forall i :: 0 <= i < j ==> Has(s.items, s.sorted[i]) && Done(Get(s, s.sorted[i]))
  }

  /** An unfinished file the watermark looks at: the first one in dispatch order, or one never dispatched. */
  ghost predicate Holds(s: State, i: Item) { !Done(i) && (i.id !in s.sorted || FirstUnfinished(s, i.id)) }

  /** The first dispatched file is done. */
  ghost predicate Begun(s: State) { s.sorted != [] && Has(s.items, s.sorted[0]) && Done(Get(s, s.sorted[0])) }

  lemma HoldsIs(s: State, k: nat)
    requires Inv(s) && Advanced(s) && k < |s.items|
    ensures Holds(s, s.items[k]) <==>
              !s.items[k].readStarted || (s.donePrefix < |s.sorted| && s.sorted[s.donePrefix] == s.items[k].id)
  {
    hide Counted, Has, Get;
    var i := s.items[k];
    assert ItemOk(s, i);
    IndexUnique(s.items, k);
    GetAt(s, k);
    if s.donePrefix < |s.sorted| {
      assert DoneBefore(s, s.donePrefix);
      if FirstUnfinished(s, i.id) && !Done(i) {
        var j :| 0 <= j < |s.sorted| && s.sorted[j] == i.id && DoneBefore(s, j);
        assert j >= s.donePrefix;
        assert j == s.donePrefix;
      }
    }
  }

  lemma GetAt(s: State, k: nat)
    requires DistinctIds(s.items) && k < |s.items|
    ensures Has(s.items, s.items[k].id) && Get(s, s.items[k].id) == s.items[k]
  {
    IndexUnique(s.items, k);
  }

  /** The boundary is the least order of the files it looks at, all-ones if there are none. */
  lemma BoundaryIsLeast(s: State)
    requires Inv(s) && Advanced(s)
    ensures forall k :: 0 <= k < |s.items| && Holds(s, s.items[k]) ==> Boundary(s) <= s.items[k].inputOrder
    ensures Boundary(s) == ALL_ONES || exists k :: 0 <= k < |s.items| && Holds(s, s.items[k]) && Boundary(s) == s.items[k].inputOrder
  {
    hide Counted, Holds, Clamp, Inv;
    var b := if s.donePrefix < |s.sorted| then Get(s, s.sorted[s.donePrefix]).inputOrder else ALL_ONES;
    if s.donePrefix < |s.sorted| {
      GetOk(s, s.sorted[s.donePrefix]);
    }
    ClampBounds(s.items, b);
    forall k | 0 <= k < |s.items|
      ensures Holds(s, s.items[k]) <==>
                !s.items[k].readStarted || (s.donePrefix < |s.sorted| && s.sorted[s.donePrefix] == s.items[k].id)
      ensures Holds(s, s.items[k]) ==> Boundary(s) <= s.items[k].inputOrder
    {
      HoldsIs(s, k);
      ItemAt(s, k);
    }
    if s.donePrefix < |s.sorted| && Clamp(s.items, b) == b {
      var k := IndexOf(s.items, s.sorted[s.donePrefix]);
      assert Holds(s, s.items[k]);
    }
  }

  lemma ItemAt(s: State, k: nat)
    requires Inv(s) && k < |s.items|
    ensures Has(s.items, s.items[k].id) && Get(s, s.items[k].id) == s.items[k]
  {
    GetAt(s, k);
  }

  lemma BegunIsAdvanced(s: State)
    requires Inv(s) && Advanced(s)
    ensures Begun(s) <==> s.donePrefix > 0
  {
    hide Counted, Has, Get;
  }

  /** When get_done_morton answers, told on the files: exactly when the first dispatched file is done and
      neither the first unfinished file in dispatch order nor a file never dispatched has order zero. The
      answer is the least order of those files, all-ones if there are none. */
  lemma AnsweredExactly(s: State)
    requires Inv(s)
    ensures Answer(s).Some? <==> Begun(s) && forall k :: 0 <= k < |s.items| && Holds(s, s.items[k]) ==> s.items[k].inputOrder > 0
    ensures Answer(s).Some? ==>
              && (forall k :: 0 <= k < |s.items| && Holds(s, s.items[k]) ==> Answer(s).value <= s.items[k].inputOrder)
              && (Answer(s).value == ALL_ONES
                  || exists k :: 0 <= k < |s.items| && Holds(s, s.items[k]) && Answer(s).value == s.items[k].inputOrder)
  {
    hide Inv, Advance, Holds, Begun, Boundary, Advanced;
    var t := Advance(s);
    AdvanceKeepsInv(s);
    AdvanceIsAdvanced(s);
    BoundaryIsLeast(t);
    BegunIsAdvanced(t);
    AdvanceKeepsFiles(s);
    BegunNeedsDispatch(t);
  }

  lemma BegunNeedsDispatch(s: State)
    requires Inv(s)
    ensures s.donePrefix > 0 ==> s.sorted != []
  {
    hide Counted;
  }

  lemma AdvanceKeepsFiles(s: State)
    requires Inv(s)
    ensures Advance(s).items == s.items && Advance(s).sorted == s.sorted
    ensures Begun(Advance(s)) <==> Begun(s)
    ensures forall i: Item :: Holds(Advance(s), i) <==> Holds(s, i)
  {
    hide Inv, Advance, Done;
    AdvanceKeepsInv(s);
    var t := Advance(s);
    SameItems(s, t);
    hide Get, Has;
    forall j: nat
      ensures DoneBefore(t, j) <==> DoneBefore(s, j)
    {
    }
  }

  /** At the end of a conversion, every file done and at least one dispatched, the answer is all-ones. */
  lemma AllDoneIsAnswered(s: State)
    requires Inv(s) && s.sorted != [] && forall k :: 0 <= k < |s.items| ==> Done(s.items[k])
    ensures Answer(s) == Some(ALL_ONES)
  {
    hide Answer, FirstUnfinished;
    AnsweredExactly(s);
    SortedIsKnown(s, 0);
  }

  lemma SortedIsKnown(s: State, k: nat)
    requires Inv(s) && k < |s.sorted|
    ensures Has(s.items, s.sorted[k])
  {
  }

  // ---- a failed file ------------------------------------------------------------------------------

  /** The file has been given up: finished, and out of reach of dispatch. */
  ghost predicate GivenUp(s: State, id: nat) { Has(s.items, id) && Get(s, id).readStarted && Get(s, id).readFinished }

  lemma ChangedFacts(s: State, e: Event)
    requires Inv(s) && Legal(s, e) && !e.Register? && !e.Dispatch? && !e.AskWatermark?
    ensures
      var t, i := Apply(s, e), Changed(s, e);
      forall x :: Has(s.items, x) ==> Has(t.items, x) && Get(t, x) == if x == i.id then i else Get(s, x)
  {
    var i, t := Changed(s, e), Apply(s, e);
    FileEventKeepsInv(s, e);
    PutFacts(s, i);
    hide Inv, Counted, Apply, Changed;
    SameItems(Put(s, i), t);
  }

  lemma StepKeepsGivenUp(s: State, e: Event, id: nat)
    requires Inv(s) && Legal(s, e) && (GivenUp(s, id) || e == FileFailed(id))
    ensures GivenUp(Apply(s, e), id) && e != Dispatch(id)
  {
    hide Inv, Has, Get, Advance;
    match e
    case Register(name) => RegisterFacts(s, name);
    case Dispatch(d) => DispatchFacts(s, d);
    case AskWatermark =>
      AdvanceKeepsInv(s);
      SameItems(s, Advance(s));
    case _ => ChangedFacts(s, e);
  }

  lemma {:induction false} GivenUpStays(s: State, id: nat, es: seq<Event>)
    requires Inv(s) && GivenUp(s, id) && LegalRun(s, es)
    ensures GivenUp(Final(s, es), id) && Inv(Final(s, es))
    ensures forall k :: 0 <= k < |es| ==> es[k] != Dispatch(id)
    decreases |es|
  {
    hide Inv, Apply, GivenUp;
    if es != [] {
      StepKeepsInv(s, es[0]);
      StepKeepsGivenUp(s, es[0], id);
      GivenUpStays(Apply(s, es[0]), id, es[1..]);
      assert forall k :: 1 <= k < |es| ==> es[k] == es[1..][k - 1];
    }
  }

  /** A file that fails has finished reading for good and is never dispatched again, whatever happens after;
      if it had not been dispatched, it is done. */
  lemma FailedIsFinal(s: State, id: nat, es: seq<Event>)
    requires Inv(s) && Legal(s, FileFailed(id)) && LegalRun(Apply(s, FileFailed(id)), es)
    ensures
      var t := Final(Apply(s, FileFailed(id)), es);
      Has(t.items, id) && Get(t, id).readFinished && (id !in t.sorted ==> Done(Get(t, id)))
    ensures forall k :: 0 <= k < |es| ==> es[k] != Dispatch(id)
  {
    hide Inv, Apply, LegalRun, Final, Get, Has;
    StepKeepsInv(s, FileFailed(id));
    StepKeepsGivenUp(s, FileFailed(id), id);
    GivenUpStays(Apply(s, FileFailed(id)), id, es);
    GetOk(Final(Apply(s, FileFailed(id)), es), id);
  }

  /** Between registrations the watermark never falls: after an answer that was right, and those are exactly
      the ones given without a late lower file, every later answer is at least as high. */
  lemma WatermarkNeverFalls(s: State, es: seq<Event>)
    requires Inv(s) && LegalRun(s, es) && forall k :: 0 <= k < |es| ==> !es[k].Register?
    requires NoLateStart(Advance(s)) && Answer(s).Some? && Answer(Final(s, es)).Some?
    ensures Answer(s).value <= Answer(Final(s, es)).value
  {
    var t := Final(s, es);
    RunKeepsInv(s, es);
    AdvanceKeepsInv(s);
    AdvanceKeepsInv(t);
    AdvanceIsAdvanced(s);
    AdvanceIsAdvanced(t);
    hide Inv, Floor, Boundary, NoLateStart, LegalRun, Final, Advance, Advanced;
    BoundaryIsFloorExactly(Advance(s));
    BelowWatermarkIsFinal(s, es, Floor(s.items));
    BoundaryNeverTooLow(Advance(t));
  }

  lemma AdvanceIsAdvanced(s: State)
    requires Inv(s)
    ensures Advanced(Advance(s))
  {
    AdvanceKeepsInv(s);
  }

  /** The ids a run dispatches, in order. */
  function DispatchedIn(es: seq<Event>): seq<nat> {
    if es == [] then [] else (if es[0].Dispatch? then [es[0].id] else []) + DispatchedIn(es[1..])
  }

  /** No file is dispatched twice in a run; the sorted list records the dispatches. */
  lemma {:induction false} DispatchedOnce(s: State, es: seq<Event>)
    requires Inv(s) && LegalRun(s, es)
    ensures Final(s, es).sorted == s.sorted + DispatchedIn(es)
    ensures forall j, k :: 0 <= j < k < |DispatchedIn(es)| ==> DispatchedIn(es)[j] != DispatchedIn(es)[k]
  {
    hide *;
    RunKeepsInv(s, es);
    DispatchedInOrder(s, es);
    SortedDistinct(Final(s, es));
    var t, d := Final(s, es), DispatchedIn(es);
    forall j, k | 0 <= j < k < |d|
      ensures d[j] != d[k]
    {
      assert t.sorted[|s.sorted| + j] == d[j] && t.sorted[|s.sorted| + k] == d[k];
    }
  }

  lemma SortedDistinct(s: State)
    requires Inv(s)
    ensures forall j, k :: 0 <= j < k < |s.sorted| ==> s.sorted[j] != s.sorted[k]
  {
  }

  lemma ApplySorted(s: State, e: Event)
    requires Known(s, e)
    ensures Apply(s, e).sorted == s.sorted + (if e.Dispatch? then [e.id] else [])
  {
    AdvanceSorted(s);
  }

  lemma {:induction false} DispatchedInOrder(s: State, es: seq<Event>)
    requires LegalRun(s, es)
    ensures Final(s, es).sorted == s.sorted + DispatchedIn(es)
    decreases |es|
  {
    if es != [] {
      ApplySorted(s, es[0]);
      hide Apply, Legal;
      var t, head := Apply(s, es[0]), if es[0].Dispatch? then [es[0].id] else [];
      DispatchedInOrder(t, es[1..]);
      assert s.sorted + head + DispatchedIn(es[1..]) == s.sorted + (head + DispatchedIn(es[1..]));
    }
  }

  /** An eligible file, and none eligible is of lower order. */
  ghost predicate LeastEligible(items: seq<Item>, id: nat) {
    && Has(items, id) && Eligible(items[IndexOf(items, id)])
    && forall k :: 0 <= k < |items| && Eligible(items[k]) ==> items[IndexOf(items, id)].inputOrder <= items[k].inputOrder
  }

  lemma DispatchIsLeast(s: State, id: nat)
    requires Inv(s) && Legal(s, Dispatch(id))
    ensures LeastEligible(s.items, id)
  {
    RefreshKeepsInv(s);
    EligibleById(s, id);
    var r := Refresh(s);
    forall k | 0 <= k < |s.items| && Eligible(s.items[k])
      ensures Get(s, id).inputOrder <= s.items[k].inputOrder
    {
      IndexUnique(s.items, k);
      EligibleById(s, s.items[k].id);
      assert Get(r, s.items[k].id) == s.items[k] && Get(r, id) == Get(s, id);
    }
  }

  /** Every dispatch of every run is of an eligible file of least order at its time. */
  lemma {:induction false} EveryDispatchIsLeast(s: State, es: seq<Event>, k: nat)
    requires Inv(s) && LegalRun(s, es) && k < |es| && es[k].Dispatch?
    ensures LegalRun(s, es[..k]) && LeastEligible(Final(s, es[..k]).items, es[k].id)
    decreases k
  {
    hide Inv, Apply, LeastEligible;
    if k == 0 {
      assert es[0] == Dispatch(es[0].id) && es[..0] == [];
      DispatchIsLeast(s, es[0].id);
    } else {
      StepKeepsInv(s, es[0]);
      EveryDispatchIsLeast(Apply(s, es[0]), es[1..], k - 1);
      assert es[..k][0] == es[0] && es[..k][1..] == es[1..][..k - 1];
    }
  }

  // ---- a late file makes the watermark overclaim --------------------------------------------------

  function Sample(id: byte, order: nat, finished: bool): Item {
    Item(id, [id], order, ALL_ONES, 0, true, finished, true, 0, 0)
  }

  /** Files 0 and 1 (orders 1 and 5) were dispatched and 0 is finished when file 2 (order 3) arrives
      and is dispatched behind 1. */
  const LATE := State([Sample(0, 1, true), Sample(1, 5, false), Sample(2, 3, false)], 3, 0, 0, 1, {}, false, [0, 1, 2], 1)

  const LATE_RUN := [Register([0]), Register([1]), PreInit(0, 1), PreInit(1, 5), Dispatch(0), Dispatch(1),
                     ReadingDone(0), Register([2]), PreInit(2, 3), Dispatch(2), AskWatermark]

  /** The watermark says 5 where the true bound is 3, and file 2 may indeed still add a point at 3. */
  lemma LateFileOverclaims()
    ensures Advanced(LATE) && Watermark(LATE) == Some(5) && Floor(LATE.items) == 3
    ensures Legal(LATE, SortedPoints(2, 3, 3))
  {
    var i0, i1, i2 := LATE.items[0], LATE.items[1], LATE.items[2];
    assert LATE.items == [i0] + [i1] + [i2] && [] + [i0] == [i0];
    IndexUnique(LATE.items, 1);
    IndexUnique(LATE.items, 2);
    Snoc([], i0, 5);
    Snoc([i0], i1, 5);
    Snoc([i0] + [i1], i2, 5);
    assert Get(LATE, 1) == i1 && Get(LATE, 2) == i2;
  }

  lemma Snoc(items: seq<Item>, i: Item, b: nat)
    ensures Floor(items + [i]) == if Done(i) then Floor(items) else Min(Floor(items), i.inputOrder)
    ensures i.readStarted ==> Clamp(items + [i], b) == Clamp(items, b)
  {
    assert (items + [i])[..|items|] == items;
  }

  ghost predicate Goes(s: State, e: Event, t: State) { Legal(s, e) && Apply(s, e) == t }

  function Fresh(id: byte, order: nat, settled: bool, started: bool): Item {
    NewItem(id, [id]).(inputOrder := order, settled := settled, readStarted := started)
  }

  const L1 := INITIAL.(items := [Fresh(0, 0, false, false)], nextId := 1)
  const L2 := L1.(items := L1.items + [Fresh(1, 0, false, false)], nextId := 2)
  const L3 := L2.(items := [Fresh(0, 1, true, false), Fresh(1, 0, false, false)])
  const L4 := L2.(items := [Fresh(0, 1, true, false), Fresh(1, 5, true, false)])
  const L5 := L4.(items := [Fresh(0, 1, true, true), Fresh(1, 5, true, false)], heap := {1}, dirty := false, sorted := [0])
  const L6 := L5.(items := [Fresh(0, 1, true, true), Fresh(1, 5, true, true)], heap := {}, sorted := [0, 1])
  const L7 := L6.(items := [Sample(0, 1, true), Sample(1, 5, false)], doneCount := 1)
  const L8 := L7.(items := L7.items + [Fresh(2, 0, false, false)], nextId := 3)
  const L9 := L8.(items := L7.items + [Fresh(2, 3, true, false)], dirty := true)
  const L10 := LATE.(donePrefix := 0)

  lemma LateSetup()
    ensures Goes(INITIAL, LATE_RUN[0], L1) && Goes(L1, LATE_RUN[1], L2)
    ensures Goes(L2, LATE_RUN[2], L3) && Goes(L3, LATE_RUN[3], L4)
  {
    assert L1.items[1..] == [];
    assert Has(L2.items, 0) by { assert L2.items[0].id == 0; }
    assert Has(L3.items, 1) by { assert L3.items[1].id == 1; }
  }

  lemma LateFirstDispatch()
    ensures Goes(L4, LATE_RUN[4], L5)
  {
    IndexUnique(L4.items, 0);
    IndexUnique(L4.items, 1);
    assert L4.items[0].id == 0 && L4.items[1].id == 1;
    assert EligibleIds(L4.items) == {0, 1};
  }

  lemma LateSecondDispatch()
    ensures Goes(L5, LATE_RUN[5], L6) && Goes(L6, LATE_RUN[6], L7)
  {
    IndexUnique(L5.items, 1);
    IndexUnique(L6.items, 0);
  }

  lemma LateArrival()
    ensures Goes(L7, LATE_RUN[7], L8) && Goes(L8, LATE_RUN[8], L9)
  {
    IndexUnique(L8.items, 2);
  }

  lemma LateDispatch()
    ensures Goes(L9, LATE_RUN[9], L10)
  {
    IndexUnique(L9.items, 2);
    assert EligibleIds(L9.items) == {2};
  }

  lemma LateQuestion()
    ensures Goes(L10, LATE_RUN[10], LATE)
  {
    IndexUnique(L10.items, 0);
    IndexUnique(L10.items, 1);
  }

  /** A chain of steps is a run. */
  lemma {:induction false} Chain(states: seq<State>, es: seq<Event>)
    requires |states| == |es| + 1 && forall k :: 0 <= k < |es| ==> Goes(states[k], es[k], states[k + 1])
    ensures LegalRun(states[0], es) && Final(states[0], es) == states[|es|]
    decreases |es|
  {
    hide Legal, Apply;
    if es != [] {
      forall k | 0 <= k < |es[1..]|
        ensures Goes(states[1..][k], es[1..][k], states[1..][k + 1])
      {
        assert Goes(states[k + 1], es[k + 1], states[k + 1 + 1]);
      }
      Chain(states[1..], es[1..]);
      assert Goes(states[0], es[0], states[0 + 1]);
    }
  }

  const LATE_STATES := [INITIAL, L1, L2, L3, L4, L5, L6, L7, L8, L9, L10, LATE]

  lemma LateGoes(k: nat)
    requires k < 11
    ensures Goes(LATE_STATES[k], LATE_RUN[k], LATE_STATES[k + 1])
  {
    hide Goes, INITIAL, LATE, L1, L2, L3, L4, L5, L6, L7, L8, L9, L10;
    if k < 4 {
      LateSetup();
    } else if k < 7 {
      LateFirstDispatch();
      LateSecondDispatch();
    } else {
      LateArrival();
      LateDispatch();
      LateQuestion();
    }
  }

  /** That state is reached by a legal run from the empty registry. */
  lemma LateFileIsReachable()
    ensures LegalRun(INITIAL, LATE_RUN) && Final(INITIAL, LATE_RUN) == LATE
  {
    assert |LATE_RUN| == 11 && |LATE_STATES| == 12 && LATE_STATES[0] == INITIAL && LATE_STATES[11] == LATE;
    hide *;
    forall k | 0 <= k < 11
      ensures Goes(LATE_STATES[k], LATE_RUN[k], LATE_STATES[k + 1])
    {
      LateGoes(k);
    }
    Chain(LATE_STATES, LATE_RUN);
  }
}
