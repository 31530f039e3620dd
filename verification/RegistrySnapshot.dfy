/** The registry's binary snapshot ('ISR1'): what a conversion persists to be resumed. */
module RegistrySnapshot {
  import opened Bytes
  import opened SpillFiles
  import opened InputRegistry

  const MAGIC: nat := 0x31525349

  // ---- writing --------------------------------------------------------------------------------

  function U32(n: nat): (b: seq<byte>)
    ensures |b| == 4
  {
    LittleEndian(n, 4)
  }

  function Code(n: nat): (b: seq<byte>)
    ensures |b| == 24
  {
    LittleEndian(n, 24)
  }

  function Flag(f: bool): (b: seq<byte>)
    ensures |b| == 1
  {
    [if f then 1 else 0]
  }

  /** The fields of one file in the order they are written. */
  function ItemBytes(i: Item): seq<byte> {
    U32(i.id) + (U32(|i.name|) + (i.name + (Code(i.inputOrder) + (Code(i.mortonMin) + (Code(i.mortonMax)
      + (U32(i.subCount) + (U32(i.inserted) + (Flag(i.readStarted) + Flag(i.readFinished)))))))))
  }

  function ItemsBytes(items: seq<Item>): seq<byte> {
    if items == [] then [] else ItemBytes(items[0]) + ItemsBytes(items[1..])
  }

  function IdsBytes(ids: seq<nat>): seq<byte> {
    if ids == [] then [] else U32(ids[0]) + IdsBytes(ids[1..])
  }

  function Encode(s: State): seq<byte> {
    U32(MAGIC) + (U32(|s.items|) + (ItemsBytes(s.items) + (U32(|s.sorted|) + (IdsBytes(s.sorted) + U32(s.donePrefix)))))
  }

  /** serialize's precomputed size. */
  function ItemSize(i: Item): nat { 4 + (4 + |i.name|) + 3 * 24 + 2 * 4 + 2 * 1 }

  function SizeOf(items: seq<Item>): nat {
    if items == [] then 0 else ItemSize(items[0]) + SizeOf(items[1..])
  }

  function SnapshotSize(s: State): nat { 4 + 4 + SizeOf(s.items) + (4 + |s.sorted| * 4) + 4 }

  lemma {:induction false} ItemsBytesLength(items: seq<Item>)
    ensures |ItemsBytes(items)| == SizeOf(items)
  {
    if items != [] {
      ItemsBytesLength(items[1..]);
    }
  }

  lemma {:induction false} IdsBytesLength(ids: seq<nat>)
    ensures |IdsBytes(ids)| == 4 * |ids|
  {
    if ids != [] {
      IdsBytesLength(ids[1..]);
    }
  }

  /** The precomputed size is exactly the number of bytes written. */
  lemma SizeIsExact(s: State)
    ensures |Encode(s)| == SnapshotSize(s)
  {
    ItemsBytesLength(s.items);
    IdsBytesLength(s.sorted);
  }

  /** write_memory: refuse to write past the end. */
  method Write(out: array<byte>, ptr: nat, bytes: seq<byte>) returns (ok: bool, next: nat)
    requires ptr <= out.Length
    modifies out
    ensures ok <==> ptr + |bytes| <= out.Length
    ensures ok ==> next == ptr + |bytes| && out[..next] == old(out[..ptr]) + bytes
    ensures !ok ==> next == ptr && out[..ptr] == old(out[..ptr])
  {
    if ptr + |bytes| > out.Length {
      return false, ptr;
    }
    CopyIn(out, ptr, bytes);
    return true, ptr + |bytes|;
  }

  method ComputeSize(s: State) returns (size: nat)
    ensures size == SnapshotSize(s)
  {
    size := 4 + 4;
    for k := 0 to |s.items|
      invariant size + SizeOf(s.items[k..]) == 8 + SizeOf(s.items)
    {
      assert s.items[k..][1..] == s.items[k + 1..];
      size := size + ItemSize(s.items[k]);
    }
    size := size + 4 + |s.sorted| * 4;
    size := size + 4;
  }

  /** The loop over the files, inside a buffer with room for all of them. */
  method WriteItems(out: array<byte>, start: nat, items: seq<Item>) returns (ptr: nat)
    requires start + SizeOf(items) <= out.Length
    modifies out
    ensures ptr == start + SizeOf(items) && out[..ptr] == old(out[..start]) + ItemsBytes(items)
  {
    hide ItemBytes, SizeOf;
    ptr := start;
    ghost var head := out[..start];
    assert out[..ptr] == head + ItemsBytes(items[..0]);
    for k := 0 to |items|
      invariant ptr <= out.Length && out[..ptr] == head + ItemsBytes(items[..k])
    {
      ItemsSnoc(items, k);
      ItemsFit(items, k);
      ghost var written := ItemsBytes(items[..k]);
      var ok: bool;
      ok, ptr := Write(out, ptr, ItemBytes(items[k]));
      assert head + written + ItemBytes(items[k]) == head + (written + ItemBytes(items[k]));
    }
    assert items[..|items|] == items;
    ItemsBytesLength(items);
  }

  /** serialize: no write ever runs out of room, and the buffer comes out full. */
  method Serialize(s: State) returns (out: array<byte>)
    ensures fresh(out) && out[..] == Encode(s)
  {
    hide LittleEndian, ItemsBytes, IdsBytes, SizeOf;
    var size := ComputeSize(s);
    out := new byte[size](_ => 0);
    IdsBytesLength(s.sorted);
    ItemsBytesLength(s.items);
    var ok: bool, ptr: nat := Write(out, 0, U32(MAGIC));
    ok, ptr := Write(out, ptr, U32(|s.items|));
    ghost var head := U32(MAGIC) + U32(|s.items|);
    assert out[..ptr] == head;
    ptr := WriteItems(out, ptr, s.items);
    ok, ptr := Write(out, ptr, U32(|s.sorted|));
    ok, ptr := Write(out, ptr, IdsBytes(s.sorted));
    ok, ptr := Write(out, ptr, U32(s.donePrefix));
    assert out[..ptr] == out[..];
    Reassociate(U32(MAGIC), U32(|s.items|), ItemsBytes(s.items), U32(|s.sorted|), IdsBytes(s.sorted), U32(s.donePrefix));
  }

  lemma Reassociate<T>(a: seq<T>, b: seq<T>, c: seq<T>, d: seq<T>, e: seq<T>, f: seq<T>)
    ensures a + b + c + d + e + f == a + (b + (c + (d + (e + f))))
  {
  }

  lemma {:induction false} ItemsAppend(a: seq<Item>, b: seq<Item>)
    ensures ItemsBytes(a + b) == ItemsBytes(a) + ItemsBytes(b)
  {
    if a == [] {
      assert a + b == b;
    } else {
      assert (a + b)[1..] == a[1..] + b;
      ItemsAppend(a[1..], b);
    }
  }

  lemma ItemsSnoc(items: seq<Item>, k: nat)
    requires k < |items|
    ensures ItemsBytes(items[..k + 1]) == ItemsBytes(items[..k]) + ItemBytes(items[k])
  {
    assert items[..k + 1] == items[..k] + [items[k]];
    ItemsAppend(items[..k], [items[k]]);
    assert ItemsBytes([items[k]]) == ItemBytes(items[k]) + ItemsBytes([items[k]][1..]);
  }

  lemma ItemsFit(items: seq<Item>, k: nat)
    requires k < |items|
    ensures |ItemsBytes(items[..k])| + |ItemBytes(items[k])| <= SizeOf(items)
  {
    ItemsSnoc(items, k);
    assert items == items[..k + 1] + items[k + 1..];
    ItemsAppend(items[..k + 1], items[k + 1..]);
    ItemsBytesLength(items);
  }

  // ---- reading --------------------------------------------------------------------------------

  /** A read at the cursor: a value and what is left, or "not enough bytes". */
  datatype Read<+T> = Short | Got(value: T, rest: seq<byte>)
  {
    predicate IsFailure() { Short? }
    function PropagateFailure<U>(): Read<U> { Short }
    function Extract(): (T, seq<byte>)
      requires Got?
    {
      (value, rest)
    }
  }

  function ReadBytes(b: seq<byte>, n: nat): Read<seq<byte>> {
    if |b| < n then Short else Got(b[..n], b[n..])
  }

  function ReadNumber(b: seq<byte>, width: nat): Read<nat> {
    var (raw, rest) :- ReadBytes(b, width);
    Got(FromLittleEndian(raw), rest)
  }

  function ReadItem(b: seq<byte>): Read<Item> {
    var (id, b) :- ReadNumber(b, 4);
    var (nameLength, b) :- ReadNumber(b, 4);
    var (name, b) :- ReadBytes(b, nameLength);
    var (order, b) :- ReadNumber(b, 24);
    var (lo, b) :- ReadNumber(b, 24);
    var (hi, b) :- ReadNumber(b, 24);
    var (subCount, b) :- ReadNumber(b, 4);
    var (inserted, b) :- ReadNumber(b, 4);
    var (started, b) :- ReadNumber(b, 1);
    var (finished, b) :- ReadNumber(b, 1);
    Got(Item(id, name, order, lo, hi, started != 0, finished != 0, true, inserted, subCount), b)
  }

  /** An id read twice overwrites the earlier entry in the map. */
  function Store(items: seq<Item>, i: Item): seq<Item> {
    if Has(items, i.id) then items[IndexOf(items, i.id) := i] else items + [i]
  }

  function ReadItems(b: seq<byte>, n: nat, s: State): Read<State>
    decreases n
  {
    if n == 0 then Got(s, b)
    else
      var (i, b) :- ReadItem(b);
      ReadItems(b, n - 1, s.(items := Store(s.items, i), subParts := s.subParts + i.subCount,
                             insertedParts := s.insertedParts + i.inserted,
                             doneCount := s.doneCount + (if i.readFinished then 1 else 0)))
  }

  function ReadIds(b: seq<byte>, n: nat): Read<seq<nat>>
    decreases n
  {
    if n == 0 then Got([], b)
    else
      var (id, b) :- ReadNumber(b, 4);
      var (ids, b) :- ReadIds(b, n - 1);
      Got([id] + ids, b)
  }

  /** The largest id, zero if there is none. */
  function MaxId(items: seq<Item>): nat {
    if items == [] then 0
    else var m := MaxId(items[..|items| - 1]); if items[|items| - 1].id > m then items[|items| - 1].id else m
  }

  /** The pass over the dispatched list: done files stay, the others lose their dispatch flag. None
      if an id is unknown. */
  function Sift(s: State, k: nat, kept: seq<nat>, prefix: nat): Option<State>
    decreases |s.sorted| - k
  {
    if k >= |s.sorted| then Some(s.(sorted := kept, donePrefix := prefix))
    else
      var id := s.sorted[k];
      if !Has(s.items, id) then None
      else
        var i := Get(s, id);
        if i.readFinished && i.inserted == i.subCount
        then Sift(s, k + 1, kept + [id], if k < s.donePrefix then |kept| + 1 else prefix)
        else Sift(Put(s, i.(readStarted := false)), k + 1, kept, prefix)
  }

  /** Everything deserialize reads, before its pass over the dispatched list. */
  function ReadState(b: seq<byte>, nextId: nat): Read<State> {
    var (magic, b) :- ReadNumber(b, 4);
    if magic != MAGIC then Short
    else
      var (count, b) :- ReadNumber(b, 4);
      var (s, b) :- ReadItems(b, count, State([], nextId, 0, 0, 0, {}, true, [], 0));
      var (sortedCount, b) :- ReadNumber(b, 4);
      var (sorted, b) :- ReadIds(b, sortedCount);
      var (prefix, b) :- ReadNumber(b, 4);
      Got(s.(sorted := sorted, donePrefix := prefix), b)
  }

  /** deserialize, for a process whose id counter stands at `nextId`. None is the "invalid" error. */
  function Decode(b: seq<byte>, nextId: nat): Option<State> {
    match ReadState(b, nextId)
    case Short => None
    case Got(s, _) =>
      match Sift(s, 0, [], 0)
      case None => None
      case Some(t) => Some(t.(nextId := if nextId <= MaxId(t.items) then MaxId(t.items) + 1 else nextId))
  }

  // ---- reading back what was written ------------------------------------------------------------

  /** The machine widths of the fields. */
  ghost predicate ItemFits(i: Item) {
    && i.id < Pow256(4) && |i.name| < Pow256(4) && i.subCount < Pow256(4) && i.inserted < Pow256(4)
    && i.inputOrder < Pow256(24) && i.mortonMin < Pow256(24) && i.mortonMax < Pow256(24)
  }

  ghost predicate Fits(s: State) {
    && |s.items| < Pow256(4) && |s.sorted| < Pow256(4) && s.donePrefix < Pow256(4)
    && (forall k :: 0 <= k < |s.items| ==> ItemFits(s.items[k]))
    && (forall k :: 0 <= k < |s.sorted| ==> s.sorted[k] < Pow256(4))
  }

  lemma ReadBack(n: nat, width: nat, rest: seq<byte>)
    requires n < Pow256(width)
    ensures ReadNumber(LittleEndian(n, width) + rest, width) == Got(n, rest)
  {
    var b := LittleEndian(n, width) + rest;
    assert b[..width] == LittleEndian(n, width) && b[width..] == rest;
    LittleEndianRoundTrip(n, width);
  }

  lemma ReadFlag(f: bool, rest: seq<byte>)
    ensures ReadNumber(Flag(f) + rest, 1) == Got(if f then 1 else 0, rest)
  {
    var b := Flag(f) + rest;
    assert b[..1] == Flag(f) && b[1..] == rest;
    assert FromLittleEndian(Flag(f)) == Flag(f)[0] + 256 * FromLittleEndian(Flag(f)[1..]);
  }

  lemma ReadStep(n: nat, width: nat, tail: seq<byte>, rest: seq<byte>)
    requires n < Pow256(width)
    ensures ReadNumber((LittleEndian(n, width) + tail) + rest, width) == Got(n, tail + rest)
  {
    assert (LittleEndian(n, width) + tail) + rest == LittleEndian(n, width) + (tail + rest);
    ReadBack(n, width, tail + rest);
  }

  lemma ReadFlagStep(f: bool, tail: seq<byte>, rest: seq<byte>)
    ensures ReadNumber((Flag(f) + tail) + rest, 1) == Got(if f then 1 else 0, tail + rest)
  {
    assert (Flag(f) + tail) + rest == Flag(f) + (tail + rest);
    ReadFlag(f, tail + rest);
  }

  lemma ReadNameStep(name: seq<byte>, tail: seq<byte>, rest: seq<byte>)
    ensures ReadBytes((name + tail) + rest, |name|) == Got(name, tail + rest)
  {
    assert ((name + tail) + rest)[..|name|] == name && ((name + tail) + rest)[|name|..] == tail + rest;
  }

  lemma ReadItemBack(i: Item, rest: seq<byte>)
    requires ItemFits(i)
    ensures ReadItem(ItemBytes(i) + rest) == Got(i.(settled := true), rest)
  {
    hide ReadNumber, ReadBytes, LittleEndian, Flag, U32, Code;
    UnfoldWriters(i);
    var t9 := Flag(i.readFinished);
    var t8 := Flag(i.readStarted) + t9;
    var t7 := LittleEndian(i.inserted, 4) + t8;
    var t6 := LittleEndian(i.subCount, 4) + t7;
    var t5 := LittleEndian(i.mortonMax, 24) + t6;
    var t4 := LittleEndian(i.mortonMin, 24) + t5;
    var t3 := LittleEndian(i.inputOrder, 24) + t4;
    var t2 := i.name + t3;
    var t1 := LittleEndian(|i.name|, 4) + t2;
    ReadStep(i.id, 4, t1, rest);
    ReadStep(|i.name|, 4, t2, rest);
    ReadNameStep(i.name, t3, rest);
    ReadStep(i.inputOrder, 24, t4, rest);
    ReadStep(i.mortonMin, 24, t5, rest);
    ReadStep(i.mortonMax, 24, t6, rest);
    ReadStep(i.subCount, 4, t7, rest);
    ReadStep(i.inserted, 4, t8, rest);
    ReadFlagStep(i.readStarted, t9, rest);
    ReadFlag(i.readFinished, rest);
  }

  lemma UnfoldWriters(i: Item)
    ensures U32(i.id) == LittleEndian(i.id, 4) && U32(|i.name|) == LittleEndian(|i.name|, 4)
    ensures U32(i.subCount) == LittleEndian(i.subCount, 4) && U32(i.inserted) == LittleEndian(i.inserted, 4)
    ensures Code(i.inputOrder) == LittleEndian(i.inputOrder, 24)
    ensures Code(i.mortonMin) == LittleEndian(i.mortonMin, 24) && Code(i.mortonMax) == LittleEndian(i.mortonMax, 24)
  {
  }

  function Settled(items: seq<Item>): (r: seq<Item>)
    ensures |r| == |items| && forall k :: 0 <= k < |items| ==> r[k] == items[k].(settled := true)
  {
    seq(|items|, k requires 0 <= k < |items| => items[k].(settled := true))
  }

  lemma {:induction false} SumsCons(i: Item, items: seq<Item>)
    ensures SubSum([i] + items) == i.subCount + SubSum(items)
    ensures InsertedSum([i] + items) == i.inserted + InsertedSum(items)
    ensures FinishedCount([i] + items) == (if i.readFinished then 1 else 0) + FinishedCount(items)
  {
    var all := [i] + items;
    if items == [] {
      assert all[..0] == [];
    } else {
      assert all[..|items|] == [i] + items[..|items| - 1];
      SumsCons(i, items[..|items| - 1]);
    }
  }

  /** What reading a list of files adds to the state. */
  function WithItems(s: State, items: seq<Item>): State {
    s.(items := s.items + Settled(items), subParts := s.subParts + SubSum(items),
       insertedParts := s.insertedParts + InsertedSum(items), doneCount := s.doneCount + FinishedCount(items))
  }

  lemma FirstItemBytes(items: seq<Item>, rest: seq<byte>)
    requires items != []
    ensures ItemsBytes(items) + rest == ItemBytes(items[0]) + (ItemsBytes(items[1..]) + rest)
  {
    hide ItemBytes;
  }

  lemma ReadOneItem(items: seq<Item>, s: State, rest: seq<byte>)
    requires items != [] && !Has(s.items, items[0].id) && ItemFits(items[0])
    ensures ReadItems(ItemsBytes(items) + rest, |items|, s)
            == ReadItems(ItemsBytes(items[1..]) + rest, |items| - 1, WithItems(s, [items[0]]))
  {
    hide ReadItem, ItemBytes, ItemFits, ItemsBytes;
    var i, tail := items[0], ItemsBytes(items[1..]) + rest;
    FirstItemBytes(items, rest);
    ReadItemBack(i, tail);
    assert Settled([i]) == [i.(settled := true)];
    SumsCons(i, []);
    assert [i] + [] == [i];
  }

  lemma SettledCons(a: seq<Item>, items: seq<Item>)
    requires items != []
    ensures a + Settled([items[0]]) + Settled(items[1..]) == a + Settled(items)
  {
  }

  lemma SumsSplit(items: seq<Item>)
    requires items != []
    ensures SubSum(items) == SubSum([items[0]]) + SubSum(items[1..])
    ensures InsertedSum(items) == InsertedSum([items[0]]) + InsertedSum(items[1..])
    ensures FinishedCount(items) == FinishedCount([items[0]]) + FinishedCount(items[1..])
  {
    SumsCons(items[0], []);
    SumsCons(items[0], items[1..]);
    assert [items[0]] + [] == [items[0]] && [items[0]] + items[1..] == items;
  }

  lemma WithItemsCons(s: State, items: seq<Item>)
    requires items != []
    ensures WithItems(WithItems(s, [items[0]]), items[1..]) == WithItems(s, items)
  {
    hide SubSum, InsertedSum, FinishedCount, Settled;
    SumsSplit(items);
    SettledCons(s.items, items);
  }

  lemma StillDistinct(a: seq<Item>, items: seq<Item>)
    requires items != [] && DistinctIds(a + items)
    ensures !Has(a, items[0].id) && DistinctIds(a + Settled([items[0]]) + items[1..])
  {
    var b := a + Settled([items[0]]) + items[1..];
    assert (a + items)[|a|] == items[0];
    assert forall k :: 0 <= k < |a| ==> (a + items)[k] == a[k];
    assert forall k :: 0 <= k < |b| ==> b[k].id == (a + items)[k].id;
  }

  lemma ReadNoItems(s: State, rest: seq<byte>)
    ensures ReadItems(ItemsBytes([]) + rest, 0, s) == Got(WithItems(s, []), rest)
  {
    assert ItemsBytes([]) + rest == rest;
    assert s.items + Settled([]) == s.items;
  }

  lemma WithOneItem(s: State, i: Item)
    ensures WithItems(s, [i]).items == s.items + Settled([i])
  {
  }

  lemma {:induction false} ReadItemsBack(items: seq<Item>, s: State, rest: seq<byte>)
    requires DistinctIds(s.items + items) && forall k :: 0 <= k < |items| ==> ItemFits(items[k])
    ensures ReadItems(ItemsBytes(items) + rest, |items|, s) == Got(WithItems(s, items), rest)
    decreases |items|
  {
    hide ItemBytes, ItemsBytes, ItemFits, ReadItems, DistinctIds, Has, WithItems;
    if items == [] {
      ReadNoItems(s, rest);
    } else {
      WithOneItem(s, items[0]);
      StillDistinct(s.items, items);
      ReadOneItem(items, s, rest);
      ReadItemsBack(items[1..], WithItems(s, [items[0]]), rest);
      WithItemsCons(s, items);
    }
  }

  lemma {:induction false} ReadIdsBack(ids: seq<nat>, rest: seq<byte>)
    requires forall k :: 0 <= k < |ids| ==> ids[k] < Pow256(4)
    ensures ReadIds(IdsBytes(ids) + rest, |ids|) == Got(ids, rest)
    decreases |ids|
  {
    hide ReadNumber;
    if ids == [] {
      assert IdsBytes(ids) + rest == rest;
    } else {
      ReadStep(ids[0], 4, IdsBytes(ids[1..]), rest);
      ReadIdsBack(ids[1..], rest);
      assert ids == [ids[0]] + ids[1..];
    }
  }

  // ---- the pass over the dispatched list ------------------------------------------------------------

  function KeptIds(items: seq<Item>, ids: seq<nat>): seq<nat>
  {
    if ids == [] then []
    else (if Has(items, ids[0]) && Complete(items[IndexOf(items, ids[0])]) then [ids[0]] else []) + KeptIds(items, ids[1..])
  }

  lemma {:induction false} KeptSame(s: State, t: State, ids: seq<nat>)
    requires forall id :: Has(s.items, id) <==> Has(t.items, id)
    requires forall id :: Has(s.items, id) ==> (Complete(Get(s, id)) <==> Complete(Get(t, id)))
    ensures KeptIds(s.items, ids) == KeptIds(t.items, ids)
  {
    if ids != [] {
      assert Has(s.items, ids[0]) ==> (Complete(Get(s, ids[0])) <==> Complete(Get(t, ids[0])));
      KeptSame(s, t, ids[1..]);
    }
  }

  /** The file as it comes back: dispatched but unfinished files lose their dispatch flag. */
  function Undispatched(i: Item, ids: seq<nat>): Item {
    if i.id in ids && !Complete(i) then i.(readStarted := false) else i
  }

  /** The list entries are known and the done prefix is complete. */
  ghost predicate Siftable(s: State) {
    && DistinctIds(s.items) && s.donePrefix <= |s.sorted|
    && (forall j :: 0 <= j < |s.sorted| ==> Has(s.items, s.sorted[j]))
    && (forall j :: 0 <= j < s.donePrefix ==> Complete(Get(s, s.sorted[j])))
  }

  /** What the rest of the pass yields. */
  ghost predicate Sifts(s: State, k: nat, kept: seq<nat>, t: State)
    requires k <= |s.sorted|
  {
    && t == s.(items := t.items, sorted := kept + KeptIds(s.items, s.sorted[k..]))
    && |t.items| == |s.items|
    && forall m :: 0 <= m < |s.items| ==> t.items[m] == Undispatched(s.items[m], s.sorted[k..])
  }

  lemma KeptStep(items: seq<Item>, ids: seq<nat>, k: nat)
    requires k < |ids| && Has(items, ids[k])
    ensures KeptIds(items, ids[k..])
            == (if Complete(items[IndexOf(items, ids[k])]) then [ids[k]] else []) + KeptIds(items, ids[k + 1..])
  {
    assert ids[k..][1..] == ids[k + 1..];
  }

  lemma ClearKeepsSiftable(s: State, k: nat)
    requires Siftable(s) && k < |s.sorted| && !Complete(Get(s, s.sorted[k]))
    ensures
      var r := Put(s, Get(s, s.sorted[k]).(readStarted := false));
      Siftable(r) && |r.items| == |s.items| && r == s.(items := r.items)
      && KeptIds(r.items, s.sorted[k + 1..]) == KeptIds(s.items, s.sorted[k..])
  {
    var i := Get(s, s.sorted[k]).(readStarted := false);
    PutFacts(s, i);
    KeptStep(s.items, s.sorted, k);
    hide IndexOf, Has;
    KeptSame(s, Put(s, i), s.sorted[k + 1..]);
  }

  lemma SiftUnfolds(s: State, k: nat, kept: seq<nat>, prefix: nat)
    requires k < |s.sorted| && Has(s.items, s.sorted[k])
    ensures
      var i := Get(s, s.sorted[k]);
      Sift(s, k, kept, prefix) ==
        if Complete(i) then Sift(s, k + 1, kept + [i.id], if k < s.donePrefix then |kept| + 1 else prefix)
        else Sift(Put(s, i.(readStarted := false)), k + 1, kept, prefix)
  {
  }

  lemma SiftEnds(s: State, kept: seq<nat>)
    ensures Sift(s, |s.sorted|, kept, s.donePrefix) == Some(s.(sorted := kept))
    ensures Sifts(s, |s.sorted|, kept, s.(sorted := kept))
  {
    assert s.sorted[|s.sorted|..] == [];
    assert kept + [] == kept;
  }

  lemma KeepSifts(s: State, k: nat, kept: seq<nat>, t: State)
    requires Siftable(s) && k < |s.sorted| && Complete(Get(s, s.sorted[k])) && Sifts(s, k + 1, kept + [s.sorted[k]], t)
    ensures Sifts(s, k, kept, t)
  {
    KeptStep(s.items, s.sorted, k);
    CompleteStays(s, k);
    hide Undispatched, KeptIds;
    var rest := KeptIds(s.items, s.sorted[k + 1..]);
    assert kept + [s.sorted[k]] + rest == kept + ([s.sorted[k]] + rest);
  }

  lemma ClearSifts(s: State, k: nat, kept: seq<nat>, t: State)
    requires Siftable(s) && k < |s.sorted| && !Complete(Get(s, s.sorted[k]))
    requires Sifts(Put(s, Get(s, s.sorted[k]).(readStarted := false)), k + 1, kept, t)
    ensures Sifts(s, k, kept, t)
  {
    ClearKeepsSiftable(s, k);
    ClearedTwice(s, k);
    hide Undispatched, KeptIds, Siftable, Put, Get;
  }

  lemma {:induction false} SiftBack(s: State, k: nat, kept: seq<nat>, prefix: nat)
    requires Siftable(s) && k <= |s.sorted|
    requires if k <= s.donePrefix then |kept| == prefix == k else prefix == s.donePrefix
    ensures Sift(s, k, kept, prefix).Some? && Sifts(s, k, kept, Sift(s, k, kept, prefix).value)
    decreases |s.sorted| - k
  {
    hide Sift, Sifts, Undispatched, KeptIds;
    if k == |s.sorted| {
      SiftEnds(s, kept);
    } else {
      SiftUnfolds(s, k, kept, prefix);
      var i := Get(s, s.sorted[k]);
      if Complete(i) {
        var prefix' := if k < s.donePrefix then |kept| + 1 else prefix;
        SiftBack(s, k + 1, kept + [i.id], prefix');
        KeepSifts(s, k, kept, Sift(s, k + 1, kept + [i.id], prefix').value);
      } else {
        var r := Put(s, i.(readStarted := false));
        ClearKeepsSiftable(s, k);
        SiftBack(r, k + 1, kept, prefix);
        ClearSifts(s, k, kept, Sift(r, k + 1, kept, prefix).value);
      }
    }
  }

  lemma CompleteStays(s: State, k: nat)
    requires DistinctIds(s.items) && k < |s.sorted| && Has(s.items, s.sorted[k]) && Complete(Get(s, s.sorted[k]))
    ensures forall m :: 0 <= m < |s.items| ==>
              Undispatched(s.items[m], s.sorted[k..]) == Undispatched(s.items[m], s.sorted[k + 1..])
  {
    forall m | 0 <= m < |s.items|
      ensures Undispatched(s.items[m], s.sorted[k..]) == Undispatched(s.items[m], s.sorted[k + 1..])
    {
      IndexUnique(s.items, m);
      assert s.items[m].id in s.sorted[k..] <==> s.items[m].id == s.sorted[k] || s.items[m].id in s.sorted[k + 1..];
    }
  }

  lemma ClearedTwice(s: State, k: nat)
    requires DistinctIds(s.items) && k < |s.sorted| && Has(s.items, s.sorted[k]) && !Complete(Get(s, s.sorted[k]))
    ensures
      var r := Put(s, Get(s, s.sorted[k]).(readStarted := false));
      forall m :: 0 <= m < |s.items| ==>
        Undispatched(s.items[m], s.sorted[k..]) == Undispatched(r.items[m], s.sorted[k + 1..])
  {
    var r := Put(s, Get(s, s.sorted[k]).(readStarted := false));
    forall m | 0 <= m < |s.items|
      ensures Undispatched(s.items[m], s.sorted[k..]) == Undispatched(r.items[m], s.sorted[k + 1..])
    {
      IndexUnique(s.items, m);
      assert s.items[m].id in s.sorted[k..] <==> s.items[m].id == s.sorted[k] || s.items[m].id in s.sorted[k + 1..];
    }
  }

  // ---- the round trip ---------------------------------------------------------------------------

  /** What a snapshot relies on; the registry's invariant provides it, and so does a restored state. */
  ghost predicate Coherent(s: State) {
    && DistinctIds(s.items) && Counted(s) && s.donePrefix <= |s.sorted|
    && (forall j :: 0 <= j < |s.sorted| ==> Has(s.items, s.sorted[j]))
    && (forall j :: 0 <= j < s.donePrefix ==> Complete(Get(s, s.sorted[j])))
  }

  lemma InvIsCoherent(s: State)
    requires Inv(s)
    ensures Coherent(s)
  {
    forall j | 0 <= j < s.donePrefix
      ensures Complete(Get(s, s.sorted[j]))
    {
      GetOk(s, s.sorted[j]);
    }
  }

  function RestoredItems(s: State): (r: seq<Item>)
    ensures |r| == |s.items|
    ensures forall k :: 0 <= k < |r| ==> r[k] == Undispatched(s.items[k], s.sorted).(settled := true)
  {
    seq(|s.items|, k requires 0 <= k < |s.items| => Undispatched(s.items[k], s.sorted).(settled := true))
  }

  function Restored(s: State, nextId: nat): State {
    State(RestoredItems(s), if nextId <= MaxId(s.items) then MaxId(s.items) + 1 else nextId,
          s.subParts, s.insertedParts, s.doneCount, {}, true, KeptIds(s.items, s.sorted), s.donePrefix)
  }

  /** The state deserialize has read before its pass over the dispatched list. */
  function AsRead(s: State, nextId: nat): State {
    State(Settled(s.items), nextId, s.subParts, s.insertedParts, s.doneCount, {}, true, s.sorted, s.donePrefix)
  }

  lemma {:induction false} MaxIdSame(a: seq<Item>, b: seq<Item>)
    requires |a| == |b| && forall k :: 0 <= k < |a| ==> a[k].id == b[k].id
    ensures MaxId(a) == MaxId(b)
  {
    if a != [] {
      MaxIdSame(a[..|a| - 1], b[..|b| - 1]);
    }
  }

  lemma SettledFacts(s: State, nextId: nat)
    requires Coherent(s)
    ensures
      var t := AsRead(s, nextId);
      DistinctIds(t.items)
      && (forall id :: Has(t.items, id) <==> Has(s.items, id))
      && (forall id :: Has(s.items, id) ==> Get(t, id) == Get(s, id).(settled := true))
  {
    var t := AsRead(s, nextId);
    forall id
      ensures Has(t.items, id) <==> Has(s.items, id)
      ensures Has(s.items, id) ==> Get(t, id) == Get(s, id).(settled := true)
    {
      if Has(s.items, id) {
        var k := IndexOf(s.items, id);
        assert t.items[k].id == id;
        IndexUnique(t.items, k);
      }
      if Has(t.items, id) {
        assert s.items[IndexOf(t.items, id)].id == id;
      }
    }
  }

  lemma AsReadIsSiftable(s: State, nextId: nat)
    requires Coherent(s)
    ensures Siftable(AsRead(s, nextId))
    ensures KeptIds(AsRead(s, nextId).items, s.sorted) == KeptIds(s.items, s.sorted)
  {
    SettledFacts(s, nextId);
    hide IndexOf, Has;
    KeptSame(s, AsRead(s, nextId), s.sorted);
  }

  lemma SiftRestores(s: State, nextId: nat)
    requires Coherent(s)
    ensures Sift(AsRead(s, nextId), 0, [], 0) == Some(Restored(s, nextId).(nextId := nextId))
    ensures MaxId(Restored(s, nextId).items) == MaxId(s.items)
  {
    hide Sift, KeptIds, Siftable, MaxId, Coherent;
    var t := AsRead(s, nextId);
    AsReadIsSiftable(s, nextId);
    SiftBack(t, 0, [], 0);
    assert t.sorted[0..] == s.sorted;
    assert [] + KeptIds(t.items, s.sorted) == KeptIds(t.items, s.sorted);
    var r := Sift(t, 0, [], 0).value;
    assert r.items == RestoredItems(s);
    MaxIdSame(RestoredItems(s), s.items);
  }

  lemma ReadStateBack(s: State, nextId: nat)
    requires DistinctIds(s.items) && Counted(s) && Fits(s)
    ensures ReadState(Encode(s), nextId) == Got(AsRead(s, nextId), [])
  {
    hide ItemsBytes, IdsBytes, ReadNumber, ReadItems, ReadIds, LittleEndian, Counted, DistinctIds, ItemFits, AsRead, WithItems;
    var t5 := LittleEndian(s.donePrefix, 4);
    var t4 := IdsBytes(s.sorted) + t5;
    var t3 := LittleEndian(|s.sorted|, 4) + t4;
    var t2 := ItemsBytes(s.items) + t3;
    var t1 := LittleEndian(|s.items|, 4) + t2;
    assert Encode(s) == LittleEndian(MAGIC, 4) + t1;
    MagicFits();
    ReadBack(MAGIC, 4, t1);
    ReadBack(|s.items|, 4, t2);
    var empty := State([], nextId, 0, 0, 0, {}, true, [], 0);
    assert empty.items + s.items == s.items;
    ReadItemsBack(s.items, empty, t3);
    WithAllItems(s, nextId);
    ReadBack(|s.sorted|, 4, t4);
    ReadIdsBack(s.sorted, t5);
    assert t5 + [] == t5;
    ReadBack(s.donePrefix, 4, []);
  }

  lemma MagicFits()
    ensures MAGIC < Pow256(4)
  {
  }

  lemma WithAllItems(s: State, nextId: nat)
    requires Counted(s)
    ensures WithItems(State([], nextId, 0, 0, 0, {}, true, [], 0), s.items).(sorted := s.sorted, donePrefix := s.donePrefix)
            == AsRead(s, nextId)
  {
    assert [] + Settled(s.items) == Settled(s.items);
  }

  /** Restoring the snapshot of any reachable registry gives back every id, name, order, bound and
      count and the done prefix; only the dispatch flags of unfinished dispatched files are cleared,
      and those files leave the dispatched list. */
  lemma RoundTrip(s: State, nextId: nat)
    requires Coherent(s) && Fits(s)
    ensures Decode(Encode(s), nextId) == Some(Restored(s, nextId))
  {
    hide Encode, Sift, Fits, Coherent, ReadState, MaxId;
    DecodeNeeds(s);
    ReadStateBack(s, nextId);
    SiftRestores(s, nextId);
  }

  lemma DecodeNeeds(s: State)
    requires Coherent(s)
    ensures DistinctIds(s.items) && Counted(s)
  {
  }

  // ---- what a restored registry is like -----------------------------------------------------------

  lemma {:induction false} MaxIdBounds(items: seq<Item>)
    ensures forall k :: 0 <= k < |items| ==> items[k].id <= MaxId(items)
  {
    if items != [] {
      MaxIdBounds(items[..|items| - 1]);
      assert forall k :: 0 <= k < |items| - 1 ==> items[..|items| - 1][k] == items[k];
    }
  }

  /** Fresh ids exceed every restored one. */
  lemma FreshIdsExceedRestored(s: State, nextId: nat)
    ensures forall k :: 0 <= k < |s.items| ==> Restored(s, nextId).items[k].id < Restored(s, nextId).nextId
  {
    MaxIdBounds(s.items);
  }

  lemma {:induction false} SumsSame(a: seq<Item>, b: seq<Item>)
    requires |a| == |b|
    requires forall k :: 0 <= k < |a| ==>
               a[k].subCount == b[k].subCount && a[k].inserted == b[k].inserted && (a[k].readFinished <==> b[k].readFinished)
    ensures SubSum(a) == SubSum(b) && InsertedSum(a) == InsertedSum(b) && FinishedCount(a) == FinishedCount(b)
  {
    if a != [] {
      SumsSame(a[..|a| - 1], b[..|b| - 1]);
    }
  }

  lemma {:induction false} KeptAllComplete(items: seq<Item>, ids: seq<nat>)
    ensures forall id :: id in KeptIds(items, ids) <==> id in ids && Has(items, id) && Complete(items[IndexOf(items, id)])
  {
    if ids != [] {
      KeptAllComplete(items, ids[1..]);
    }
  }

  lemma {:induction false} KeepingCompleteIds(items: seq<Item>, ids: seq<nat>)
    requires forall j :: 0 <= j < |ids| ==> Has(items, ids[j]) && Complete(items[IndexOf(items, ids[j])])
    ensures KeptIds(items, ids) == ids
  {
    if ids != [] {
      KeepingCompleteIds(items, ids[1..]);
    }
  }

  lemma {:induction false} KeptPrefix(items: seq<Item>, ids: seq<nat>, n: nat)
    requires n <= |ids| && forall j :: 0 <= j < n ==> Has(items, ids[j]) && Complete(items[IndexOf(items, ids[j])])
    ensures n <= |KeptIds(items, ids)| && forall j :: 0 <= j < n ==> KeptIds(items, ids)[j] == ids[j]
  {
    if n > 0 {
      KeptPrefix(items, ids[1..], n - 1);
      assert forall j :: 1 <= j < n ==> ids[1..][j - 1] == ids[j];
    }
  }

  lemma RestoredIds(s: State)
    ensures forall k :: 0 <= k < |s.items| ==> RestoredItems(s)[k].id == s.items[k].id
  {
  }

  lemma RestoredGet(s: State, nextId: nat)
    requires Coherent(s)
    ensures
      var r := Restored(s, nextId);
      DistinctIds(r.items)
      && (forall id :: Has(r.items, id) <==> Has(s.items, id))
      && (forall id :: Has(s.items, id) ==> Get(r, id) == Undispatched(Get(s, id), s.sorted).(settled := true))
  {
    hide Undispatched, MaxId, KeptIds, Counted;
    var r := Restored(s, nextId);
    RestoredIds(s);
    forall id
      ensures Has(r.items, id) <==> Has(s.items, id)
      ensures Has(s.items, id) ==> Get(r, id) == Undispatched(Get(s, id), s.sorted).(settled := true)
    {
      if Has(s.items, id) {
        var k := IndexOf(s.items, id);
        assert r.items[k].id == id;
        IndexUnique(r.items, k);
      }
      if Has(r.items, id) {
        assert s.items[IndexOf(r.items, id)].id == id;
      }
    }
  }

  lemma RestoredIsCoherent(s: State, nextId: nat)
    requires Coherent(s)
    ensures Coherent(Restored(s, nextId))
  {
    var r := Restored(s, nextId);
    RestoredGet(s, nextId);
    SumsSame(r.items, s.items);
    KeptAllComplete(s.items, s.sorted);
    KeptPrefix(s.items, s.sorted, s.donePrefix);
    forall j | 0 <= j < |r.sorted|
      ensures Has(r.items, r.sorted[j]) && Complete(Get(r, r.sorted[j]))
    {
      assert r.sorted[j] in r.sorted;
    }
  }

  lemma RestoredKeptAgain(s: State, nextId: nat)
    requires Coherent(s)
    ensures var r := Restored(s, nextId); KeptIds(r.items, r.sorted) == r.sorted
  {
    var r := Restored(s, nextId);
    RestoredGet(s, nextId);
    KeptAllComplete(s.items, s.sorted);
    hide KeptIds;
    forall j | 0 <= j < |r.sorted|
      ensures Has(r.items, r.sorted[j]) && Complete(Get(r, r.sorted[j]))
    {
      assert r.sorted[j] in r.sorted;
    }
    KeepingCompleteIds(r.items, r.sorted);
  }

  lemma RestoredItemsAgain(s: State, nextId: nat)
    requires Coherent(s)
    ensures var r := Restored(s, nextId); RestoredItems(r) == r.items
  {
    var r := Restored(s, nextId);
    KeptAllComplete(s.items, s.sorted);
    hide KeptIds;
    forall k | 0 <= k < |r.items|
      ensures Undispatched(r.items[k], r.sorted).(settled := true) == r.items[k]
    {
      IndexUnique(s.items, k);
    }
  }

  lemma RestoringAgain(s: State, nextId: nat)
    requires Coherent(s)
    ensures Restored(Restored(s, nextId), Restored(s, nextId).nextId) == Restored(s, nextId)
  {
    var r := Restored(s, nextId);
    RestoredKeptAgain(s, nextId);
    RestoredItemsAgain(s, nextId);
    MaxIdSame(r.items, s.items);
    hide KeptIds, Undispatched, Coherent;
  }

  lemma {:induction false} KeptLength(items: seq<Item>, ids: seq<nat>)
    ensures |KeptIds(items, ids)| <= |ids|
  {
    if ids != [] {
      KeptLength(items, ids[1..]);
    }
  }

  lemma RestoredFits(s: State, nextId: nat)
    requires Coherent(s) && Fits(s)
    ensures Fits(Restored(s, nextId))
  {
    KeptAllComplete(s.items, s.sorted);
    KeptLength(s.items, s.sorted);
    var r := Restored(s, nextId);
    forall k | 0 <= k < |r.sorted|
      ensures r.sorted[k] < Pow256(4)
    {
      assert r.sorted[k] in r.sorted;
    }
    assert forall k :: 0 <= k < |s.items| ==> ItemFits(s.items[k]);
  }

  /** A second round trip changes nothing. */
  lemma SecondRoundTripIsIdentity(s: State, nextId: nat)
    requires Coherent(s) && Fits(s)
    ensures var r := Restored(s, nextId); Decode(Encode(r), r.nextId) == Some(r)
  {
    hide Decode, Encode, Restored, Coherent, Fits;
    RestoredIsCoherent(s, nextId);
    RestoredFits(s, nextId);
    RestoringAgain(s, nextId);
    RoundTrip(Restored(s, nextId), Restored(s, nextId).nextId);
  }

  /** A dispatched file that is not done has announced no chunk and inserted none. */
  ghost predicate NothingHalfIn(s: State, id: nat)
    requires Has(s.items, id)
  {
    id in s.sorted && !Done(Get(s, id)) ==> Get(s, id).inserted == 0 && Get(s, id).subCount == 0
  }

  lemma RestoredItemOk(s: State, nextId: nat, id: nat)
    requires Inv(s) && Has(s.items, id)
    ensures Has(Restored(s, nextId).items, id)
    ensures ItemOk(Restored(s, nextId), Get(Restored(s, nextId), id)) <==> NothingHalfIn(s, id)
  {
    InvIsCoherent(s);
    RestoredGet(s, nextId);
    FreshIdsExceedRestored(s, nextId);
    KeptAllComplete(s.items, s.sorted);
    var r := Restored(s, nextId);
    GetOk(s, id);
    assert r.items[IndexOf(r.items, id)].id < r.nextId;
  }

  lemma RestoredDispatchOk(s: State, nextId: nat)
    requires Inv(s)
    ensures var r := Restored(s, nextId); DispatchOk(r) && DistinctIds(r.items) && Counted(r)
  {
    InvIsCoherent(s);
    RestoredIsCoherent(s, nextId);
    KeptDistinct(s.items, s.sorted);
  }

  /** A resumed run starts from a sound registry exactly when no dispatched file that was not done had
      announced or inserted a chunk; otherwise the file's chunks are counted again when it is re-read. */
  lemma ResumeIsSoundExactly(s: State, nextId: nat)
    requires Inv(s)
    ensures Inv(Restored(s, nextId)) <==> forall id :: Has(s.items, id) ==> NothingHalfIn(s, id)
  {
    var r := Restored(s, nextId);
    RestoredDispatchOk(s, nextId);
    InvIsCoherent(s);
    RestoredGet(s, nextId);
    ItemsOk(r);
    hide ItemOk, NothingHalfIn, Restored, Get, Has, DispatchOk, Counted;
    forall id | Has(s.items, id)
      ensures ItemOk(r, Get(r, id)) <==> NothingHalfIn(s, id)
    {
      RestoredItemOk(s, nextId, id);
    }
  }

  lemma {:induction false} KeptDistinct(items: seq<Item>, ids: seq<nat>)
    requires forall j, k :: 0 <= j < k < |ids| ==> ids[j] != ids[k]
    ensures forall j, k :: 0 <= j < k < |KeptIds(items, ids)| ==> KeptIds(items, ids)[j] != KeptIds(items, ids)[k]
  {
    if ids != [] {
      KeptDistinct(items, ids[1..]);
      KeptAllComplete(items, ids[1..]);
      assert ids[0] !in ids[1..];
      assert forall j :: 0 <= j < |KeptIds(items, ids[1..])| ==> KeptIds(items, ids[1..])[j] in KeptIds(items, ids[1..]);
    }
  }

  // ---- a resume that counts a chunk twice -------------------------------------------------------------

  /** File 0, of one chunk, in the stages of being read. */
  function OneChunk(order: nat, started: bool, settled: bool, inserted: nat, subCount: nat): Item {
    NewItem(0, [0]).(inputOrder := order, readStarted := started, settled := settled, inserted := inserted, subCount := subCount)
  }

  const H1 := INITIAL.(items := [OneChunk(0, false, false, 0, 0)], nextId := 1)
  const H2 := H1.(items := [OneChunk(1, false, true, 0, 0)])
  const H3 := H2.(items := [OneChunk(1, true, true, 0, 0)], dirty := false, sorted := [0])
  const H4 := H3.(items := [OneChunk(1, true, true, 0, 1)], subParts := 1)

  /** The chunk is in the tree, but the read has not finished. */
  const HALF := H4.(items := [OneChunk(1, true, true, 1, 1)], insertedParts := 1)

  const HALF_RUN := [Register([0]), PreInit(0, 1), Dispatch(0), SubAdded(0), TreeDone(0)]

  lemma HalfDispatched()
    ensures Goes(INITIAL, HALF_RUN[0], H1) && Goes(H1, HALF_RUN[1], H2) && Goes(H2, HALF_RUN[2], H3)
  {
    assert H1.items[0].id == 0 && H2.items[0].id == 0;
    IndexUnique(H1.items, 0);
    IndexUnique(H2.items, 0);
    assert EligibleIds(H2.items) == {0};
  }

  lemma HalfInserted()
    ensures Goes(H3, HALF_RUN[3], H4) && Goes(H4, HALF_RUN[4], HALF)
  {
    assert H3.items[0].id == 0 && H4.items[0].id == 0;
    IndexUnique(H3.items, 0);
    IndexUnique(H4.items, 0);
  }

  lemma HalfInsertedIsReachable()
    ensures LegalRun(INITIAL, HALF_RUN) && Final(INITIAL, HALF_RUN) == HALF
  {
    HalfDispatched();
    HalfInserted();
    var states := [INITIAL, H1, H2, H3, H4, HALF];
    assert |HALF_RUN| == 5;
    hide Goes, INITIAL, H1, H2, H3, H4, HALF, HALF_RUN;
    Chain(states, HALF_RUN);
  }

  const RESUMED := HALF.(items := [OneChunk(1, false, true, 1, 1)], dirty := true, sorted := [])
  const R1 := RESUMED.(items := [OneChunk(1, true, true, 1, 1)], dirty := false, sorted := [0])
  const R2 := R1.(items := [OneChunk(1, true, true, 1, 2)], subParts := 2)
  const R3 := R2.(items := [OneChunk(1, true, true, 2, 2)], insertedParts := 2)

  const REREAD := [Dispatch(0), SubAdded(0), TreeDone(0)]

  lemma RereadGoes()
    ensures Goes(RESUMED, REREAD[0], R1) && Goes(R1, REREAD[1], R2) && Goes(R2, REREAD[2], R3)
  {
    assert RESUMED.items[0].id == 0 && R1.items[0].id == 0 && R2.items[0].id == 0;
    IndexUnique(RESUMED.items, 0);
    IndexUnique(R1.items, 0);
    IndexUnique(R2.items, 0);
    assert EligibleIds(RESUMED.items) == {0};
    hide IndexOf, EligibleIds;
  }

  lemma HalfRestores()
    ensures Restored(HALF, 1) == RESUMED && Has(HALF.items, 0) && !NothingHalfIn(HALF, 0)
  {
    assert HALF.items[0].id == 0;
    IndexUnique(HALF.items, 0);
    assert HALF.sorted[1..] == [];
    assert RestoredItems(HALF) == RESUMED.items;
  }

  /** The restored registry lets the file be read again, and its one chunk ends up counted twice. */
  lemma HalfInsertedIsCountedTwice()
    ensures Has(HALF.items, 0) && !NothingHalfIn(HALF, 0)
    ensures LegalRun(Restored(HALF, 1), REREAD) && Final(Restored(HALF, 1), REREAD) == R3 && R3.items[0].inserted == 2
  {
    hide *;
    HalfRestores();
    RereadGoes();
    RereadEnds();
    Chain([RESUMED, R1, R2, R3], REREAD);
  }

  lemma RereadEnds()
    ensures |REREAD| == 3 && |R3.items| == 1 && R3.items[0].inserted == 2
  {
  }
}
