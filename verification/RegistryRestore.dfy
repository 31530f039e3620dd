/** Restoring a snapshot: the reading loops, and what holds of whatever bytes they are given. */
module RegistryRestore {
  import opened Bytes
  import opened InputRegistry
  import opened RegistrySnapshot

  // ---- the loops ----------------------------------------------------------------------------------------

  function Nothing(nextId: nat): State { State([], nextId, 0, 0, 0, {}, true, [], 0) }

  /** One file read into the registry, the counters advanced. */
  function Taken(s: State, i: Item): State {
    s.(items := Store(s.items, i), subParts := s.subParts + i.subCount, insertedParts := s.insertedParts + i.inserted,
       doneCount := s.doneCount + (if i.readFinished then 1 else 0))
  }

  lemma ReadItemsStep(b: seq<byte>, n: nat, s: State)
    requires n > 0
    ensures ReadItems(b, n, s) == if ReadItem(b).Short? then Short else ReadItems(ReadItem(b).rest, n - 1, Taken(s, ReadItem(b).value))
  {
    hide ReadItem;
  }

  lemma NoItems(b: seq<byte>, s: State)
    ensures ReadItems(b, 0, s) == Got(s, b)
  {
  }

  lemma {:induction false} MaxIdOfUpdate(items: seq<Item>, k: nat, i: Item)
    requires k < |items| && items[k].id == i.id
    ensures MaxId(items[k := i]) == MaxId(items)
    decreases |items|
  {
    var n := |items| - 1;
    if k == n {
      assert items[k := i][..n] == items[..n];
    } else {
      assert items[k := i][..n] == items[..n][k := i];
      MaxIdOfUpdate(items[..n], k, i);
    }
  }

  lemma MaxIdOfStore(items: seq<Item>, i: Item)
    ensures MaxId(Store(items, i)) == if i.id > MaxId(items) then i.id else MaxId(items)
  {
    if Has(items, i.id) {
      var k := IndexOf(items, i.id);
      MaxIdOfUpdate(items, k, i);
      MaxIdBounds(items);
    } else {
      assert (items + [i])[..|items|] == items;
    }
  }

  method TakeFiles(b: seq<byte>, count: nat, nextId: nat) returns (r: Read<State>, maxId: nat)
    ensures r == ReadItems(b, count, Nothing(nextId)) && (r.Got? ==> maxId == MaxId(r.value.items))
  {
    hide ReadItem, ReadItems, Store, MaxId;
    var s, rest, i := Nothing(nextId), b, 0;
    maxId := 0;
    NoFiles();
    while i < count
      invariant i <= count && ReadItems(rest, count - i, s) == ReadItems(b, count, Nothing(nextId)) && maxId == MaxId(s.items)
    {
      ReadItemsStep(rest, count - i, s);
      var item := ReadItem(rest);
      if item.Short? {
        return Short, maxId;
      }
      MaxIdOfStore(s.items, item.value);
      if item.value.id > maxId {
        maxId := item.value.id;
      }
      s, rest := Taken(s, item.value), item.rest;
      i := i + 1;
    }
    NoItems(rest, s);
    r := Got(s, rest);
  }

  lemma NoFiles()
    ensures MaxId([]) == 0
  {
  }

  method TakeIds(b: seq<byte>, count: nat) returns (r: Read<seq<nat>>)
    ensures r == ReadIds(b, count)
  {
    hide ReadNumber, ReadIds;
    var ids, rest, i := [], b, 0;
    BehindNothing(ReadIds(b, count));
    while i < count
      invariant i <= count && ReadIds(b, count) == Behind(ids, ReadIds(rest, count - i))
    {
      ReadIdsStep(rest, count - i);
      var id := ReadNumber(rest, 4);
      if id.Short? {
        return Short;
      }
      BehindOne(ids, id.value, ReadIds(id.rest, count - i - 1));
      ids, rest := ids + [id.value], id.rest;
      i := i + 1;
    }
    NoIds(rest);
    assert ids + [] == ids;
    r := Got(ids, rest);
  }

  /** A read list with more in front. */
  function Behind(ids: seq<nat>, r: Read<seq<nat>>): Read<seq<nat>> {
    match r case Short => Short case Got(more, rest) => Got(ids + more, rest)
  }

  lemma ReadIdsStep(b: seq<byte>, n: nat)
    requires n > 0
    ensures ReadIds(b, n) == if ReadNumber(b, 4).Short? then Short else Behind([ReadNumber(b, 4).value], ReadIds(ReadNumber(b, 4).rest, n - 1))
  {
    hide ReadNumber;
  }

  lemma BehindNothing(r: Read<seq<nat>>)
    ensures Behind([], r) == r
  {
    if r.Got? {
      assert [] + r.value == r.value;
    }
  }

  lemma BehindOne(ids: seq<nat>, id: nat, r: Read<seq<nat>>)
    ensures Behind(ids, Behind([id], r)) == Behind(ids + [id], r)
  {
    if r.Got? {
      assert ids + ([id] + r.value) == ids + [id] + r.value;
    }
  }

  lemma NoIds(b: seq<byte>)
    ensures ReadIds(b, 0) == Got([], b)
  {
  }

  /** The pass over the dispatched list. */
  method SiftList(s: State) returns (r: Option<State>)
    ensures r == Sift(s, 0, [], 0)
  {
    hide Get, Put, Has;
    var t, kept := s, [];
    var prefix: nat, k: nat := 0, 0;
    while k < |t.sorted|
      invariant k <= |t.sorted| && Sift(t, k, kept, prefix) == Sift(s, 0, [], 0)
      decreases |t.sorted| - k
    {
      var id := t.sorted[k];
      if !Has(t.items, id) {
        return None;
      }
      var item := Get(t, id);
      PutKeepsList(t, item.(readStarted := false));
      if item.readFinished && item.inserted == item.subCount {
        if k < t.donePrefix {
          prefix := |kept| + 1;
        }
        kept := kept + [id];
      } else {
        t := Put(t, item.(readStarted := false));
      }
      k := k + 1;
    }
    r := Some(t.(sorted := kept, donePrefix := prefix));
  }

  lemma PutKeepsList(s: State, i: Item)
    requires Has(s.items, i.id)
    ensures Put(s, i).sorted == s.sorted && Put(s, i).donePrefix == s.donePrefix && MaxId(Put(s, i).items) == MaxId(s.items)
  {
    MaxIdOfUpdate(s.items, IndexOf(s.items, i.id), i);
  }

  lemma {:induction false} SiftKeepsIds(s: State, k: nat, kept: seq<nat>, prefix: nat)
    ensures Sift(s, k, kept, prefix).Some? ==> MaxId(Sift(s, k, kept, prefix).value.items) == MaxId(s.items)
    decreases |s.sorted| - k
  {
    hide Get, Put, Has, MaxId;
    if k < |s.sorted| && Has(s.items, s.sorted[k]) {
      var id := s.sorted[k];
      var i := Get(s, id);
      PutKeepsList(s, i.(readStarted := false));
      if i.readFinished && i.inserted == i.subCount {
        SiftKeepsIds(s, k + 1, kept + [id], if k < s.donePrefix then |kept| + 1 else prefix);
      } else {
        SiftKeepsIds(Put(s, i.(readStarted := false)), k + 1, kept, prefix);
      }
    }
  }

  /** deserialize */
  method Deserialize(b: seq<byte>, nextId: nat) returns (r: Option<State>)
    ensures r == Decode(b, nextId)
  {
    hide ReadNumber, ReadItems, ReadIds, Sift, MaxId;
    var magic := ReadNumber(b, 4);
    if magic.Short? || magic.value != MAGIC {
      return None;
    }
    var count := ReadNumber(magic.rest, 4);
    if count.Short? {
      return None;
    }
    var files, maxId := TakeFiles(count.rest, count.value, nextId);
    if files.Short? {
      return None;
    }
    var sortedCount := ReadNumber(files.rest, 4);
    if sortedCount.Short? {
      return None;
    }
    var sorted := TakeIds(sortedCount.rest, sortedCount.value);
    if sorted.Short? {
      return None;
    }
    var prefix := ReadNumber(sorted.rest, 4);
    if prefix.Short? {
      return None;
    }
    var s := files.value.(sorted := sorted.value, donePrefix := prefix.value);
    r := SiftList(s);
    SiftKeepsIds(s, 0, [], 0);
    if r.Some? {
      r := Some(r.value.(nextId := if nextId <= maxId then maxId + 1 else nextId));
    }
  }

  // ---- what a restored file is ----------------------------------------------------------------------------

  /** Field by field: a restored file is the file that was saved, settled, and not started if it had been
      dispatched and was not complete; so exactly the files that still have to be read are eligible. */
  lemma RestoredFileExactly(s: State, nextId: nat, id: nat)
    requires Coherent(s) && Fits(s) && Has(s.items, id)
    ensures Decode(Encode(s), nextId).Some? && Has(Decode(Encode(s), nextId).value.items, id)
    ensures
      var a, b := Get(s, id), Get(Decode(Encode(s), nextId).value, id);
      && b.name == a.name && b.inputOrder == a.inputOrder && b.mortonMin == a.mortonMin && b.mortonMax == a.mortonMax
      && b.subCount == a.subCount && b.inserted == a.inserted && b.readFinished == a.readFinished && b.settled
      && (b.readStarted <==> a.readStarted && !(id in s.sorted && !Complete(a)))
      && (Eligible(b) <==> !a.readStarted || (id in s.sorted && !Complete(a)))
  {
    hide Encode, Decode, Fits, Coherent, Get, Has, Restored;
    RoundTrip(s, nextId);
    RestoredGet(s, nextId);
  }

  // ---- any bytes ------------------------------------------------------------------------------------

  lemma {:induction false} ReadItemsDistinct(b: seq<byte>, n: nat, s: State)
    requires DistinctIds(s.items)
    ensures var r := ReadItems(b, n, s); r.Got? ==> DistinctIds(r.value.items) && r.value.heap == s.heap && r.value.dirty == s.dirty
    decreases n
  {
    hide ReadItem, ReadItems, Store, DistinctIds;
    if n == 0 {
      NoItems(b, s);
    } else {
      ReadItemsStep(b, n, s);
      if ReadItem(b).Got? {
        StoreKeepsDistinct(s.items, ReadItem(b).value);
        ReadItemsDistinct(ReadItem(b).rest, n - 1, Taken(s, ReadItem(b).value));
      }
    }
  }

  lemma StoreKeepsDistinct(items: seq<Item>, i: Item)
    requires DistinctIds(items)
    ensures DistinctIds(Store(items, i)) && i in Store(items, i)
  {
    if Has(items, i.id) {
      var k := IndexOf(items, i.id);
      assert items[k := i][k] == i;
    } else {
      assert (items + [i])[|items|] == i;
    }
  }

  /** A restored registry can be worked with, whatever the bytes were: no id twice, every file of the dispatched
      list known and complete, the done prefix inside the list, fresh ids above all others and the heap still to
      be built. */
  ghost predicate Workable(s: State) {
    && DistinctIds(s.items) && s.donePrefix <= |s.sorted| && s.dirty && s.heap == {}
    && (forall k :: 0 <= k < |s.sorted| ==> Has(s.items, s.sorted[k]) && Complete(Get(s, s.sorted[k])))
    && (forall k :: 0 <= k < |s.items| ==> s.items[k].id < s.nextId)
  }

  /** What the pass has kept so far. */
  ghost predicate Keeps(s: State, kept: seq<nat>, prefix: nat) {
    && DistinctIds(s.items) && prefix <= |kept|
    && forall k :: 0 <= k < |kept| ==> Has(s.items, kept[k]) && Complete(Get(s, kept[k]))
  }

  lemma KeepsOneMore(s: State, kept: seq<nat>, prefix: nat, id: nat, more: nat)
    requires Keeps(s, kept, prefix) && Has(s.items, id) && Complete(Get(s, id)) && (more == prefix || more == |kept| + 1)
    ensures Keeps(s, kept + [id], more)
  {
    hide Get, Has, Complete, DistinctIds;
  }

  lemma KeepsOthers(s: State, kept: seq<nat>, prefix: nat, i: Item)
    requires Keeps(s, kept, prefix) && Has(s.items, i.id) && !Complete(Get(s, i.id))
    ensures Keeps(Put(s, i), kept, prefix)
  {
    PutFacts(s, i);
    hide Get, Has, Complete, DistinctIds, Put;
  }

  lemma {:induction false} SiftKeeps(s: State, k: nat, kept: seq<nat>, prefix: nat)
    requires Keeps(s, kept, prefix)
    ensures var r := Sift(s, k, kept, prefix); r.Some? ==>
      Keeps(r.value, r.value.sorted, r.value.donePrefix) && r.value.heap == s.heap && r.value.dirty == s.dirty
    decreases |s.sorted| - k
  {
    hide Get, Put, Has, Keeps;
    if k >= |s.sorted| {
      KeptInside(s, kept, prefix);
    } else if Has(s.items, s.sorted[k]) {
      var id := s.sorted[k];
      var i := Get(s, id);
      if i.readFinished && i.inserted == i.subCount {
        var more := if k < s.donePrefix then |kept| + 1 else prefix;
        KeepsOneMore(s, kept, prefix, id, more);
        SiftKeeps(s, k + 1, kept + [id], more);
      } else {
        var t := Put(s, i.(readStarted := false));
        KeepsOthers(s, kept, prefix, i.(readStarted := false));
        PutFields(s, i.(readStarted := false));
        SiftKeeps(t, k + 1, kept, prefix);
      }
    }
  }

  lemma KeptInside(s: State, kept: seq<nat>, prefix: nat)
    requires Keeps(s, kept, prefix)
    ensures var t := s.(sorted := kept, donePrefix := prefix); Keeps(t, t.sorted, t.donePrefix)
  {
    SameItems(s, s.(sorted := kept, donePrefix := prefix));
    hide Get, Has, Complete;
  }

  lemma PutFields(s: State, i: Item)
    requires Has(s.items, i.id)
    ensures Put(s, i).sorted == s.sorted && Put(s, i).heap == s.heap && Put(s, i).dirty == s.dirty
  {
  }

  lemma NothingKept(s: State)
    requires DistinctIds(s.items)
    ensures Keeps(s, [], 0)
  {
  }

  /** Whatever the bytes, a registry that is restored can be worked with. */
  lemma RestoredIsWorkable(b: seq<byte>, nextId: nat)
    requires Decode(b, nextId).Some?
    ensures Workable(Decode(b, nextId).value)
  {
    hide ReadItems, ReadIds, ReadNumber, Sift, MaxId, Keeps;
    var s := ReadState(b, nextId).value;
    StateReadIsDistinct(b, nextId);
    NothingKept(s);
    SiftKeeps(s, 0, [], 0);
    var t := Sift(s, 0, [], 0).value;
    MaxIdBounds(t.items);
    Wraps(t, Decode(b, nextId).value.nextId);
  }

  lemma StateReadIsDistinct(b: seq<byte>, nextId: nat)
    requires ReadState(b, nextId).Got?
    ensures var s := ReadState(b, nextId).value; DistinctIds(s.items) && s.dirty && s.heap == {}
  {
    hide ReadItems, ReadIds, ReadNumber, DistinctIds;
    var count := ReadNumber(ReadNumber(b, 4).rest, 4);
    NothingIsDistinct(nextId);
    ReadItemsDistinct(count.rest, count.value, Nothing(nextId));
  }

  lemma NothingIsDistinct(nextId: nat)
    ensures DistinctIds(Nothing(nextId).items)
  {
  }

  lemma Wraps(t: State, nextId: nat)
    requires Keeps(t, t.sorted, t.donePrefix) && t.dirty && t.heap == {} && forall k :: 0 <= k < |t.items| ==> t.items[k].id < nextId
    ensures Workable(t.(nextId := nextId))
  {
    SameItems(t, t.(nextId := nextId));
    hide Get, Has, Complete;
  }

  /** Only bytes that start with the snapshot's magic number are restored. */
  lemma MagicIsNeeded(b: seq<byte>, nextId: nat)
    requires Decode(b, nextId).Some?
    ensures |b| >= 4 && b[..4] == U32(MAGIC) == [0x49, 0x53, 0x52, 0x31]
  {
    hide ReadItems, ReadIds, Sift, MaxId, LittleEndian;
    assert FromLittleEndian(b[..4]) == MAGIC;
    FromLittleEndianBound(b[..4]);
    MagicBytes();
  }

  lemma MagicBytes()
    ensures LittleEndian(MAGIC, 4) == [0x49, 0x53, 0x52, 0x31]
  {
    assert LittleEndian(0x31, 1) == [0x31] + LittleEndian(0, 0);
    assert LittleEndian(0x3152, 2) == [0x52] + LittleEndian(0x31, 1);
    assert LittleEndian(0x315253, 3) == [0x53] + LittleEndian(0x3152, 2);
    assert LittleEndian(0x31525349, 4) == [0x49] + LittleEndian(0x315253, 3);
  }

  // ---- truncated bytes ------------------------------------------------------------------------------

  /** What a longer input makes of a successful read. */
  function Longer<T>(r: Read<T>, more: seq<byte>): Read<T>
    requires r.Got?
  {
    Got(r.value, r.rest + more)
  }

  lemma ReadNumberLonger(b: seq<byte>, width: nat, more: seq<byte>)
    requires ReadNumber(b, width).Got?
    ensures ReadNumber(b + more, width) == Longer(ReadNumber(b, width), more)
  {
    assert (b + more)[..width] == b[..width] && (b + more)[width..] == b[width..] + more;
  }

  lemma ReadBytesLonger(b: seq<byte>, n: nat, more: seq<byte>)
    requires ReadBytes(b, n).Got?
    ensures ReadBytes(b + more, n) == Longer(ReadBytes(b, n), more)
  {
    assert (b + more)[..n] == b[..n] && (b + more)[n..] == b[n..] + more;
  }

  lemma ReadItemLonger(b: seq<byte>, more: seq<byte>)
    requires ReadItem(b).Got?
    ensures ReadItem(b + more) == Longer(ReadItem(b), more)
  {
    hide ReadNumber, ReadBytes;
    var id := ReadNumber(b, 4);
    var length := ReadNumber(id.rest, 4);
    var name := ReadBytes(length.rest, length.value);
    var order := ReadNumber(name.rest, 24);
    var lo := ReadNumber(order.rest, 24);
    var hi := ReadNumber(lo.rest, 24);
    var subs := ReadNumber(hi.rest, 4);
    var inserted := ReadNumber(subs.rest, 4);
    var started := ReadNumber(inserted.rest, 1);
    ReadNumberLonger(b, 4, more);
    ReadNumberLonger(id.rest, 4, more);
    ReadBytesLonger(length.rest, length.value, more);
    ReadNumberLonger(name.rest, 24, more);
    ReadNumberLonger(order.rest, 24, more);
    ReadNumberLonger(lo.rest, 24, more);
    ReadNumberLonger(hi.rest, 4, more);
    ReadNumberLonger(subs.rest, 4, more);
    ReadNumberLonger(inserted.rest, 1, more);
    ReadNumberLonger(started.rest, 1, more);
  }

  lemma {:induction false} ReadItemsLonger(b: seq<byte>, n: nat, s: State, more: seq<byte>)
    requires ReadItems(b, n, s).Got?
    ensures ReadItems(b + more, n, s) == Longer(ReadItems(b, n, s), more)
    decreases n
  {
    hide ReadItem, ReadItems, Store;
    if n == 0 {
      NoItems(b, s);
      NoItems(b + more, s);
    } else {
      ReadItemsStep(b, n, s);
      ReadItemsStep(b + more, n, s);
      ReadItemLonger(b, more);
      ReadItemsLonger(ReadItem(b).rest, n - 1, Taken(s, ReadItem(b).value), more);
    }
  }

  lemma {:induction false} ReadIdsLonger(b: seq<byte>, n: nat, more: seq<byte>)
    requires ReadIds(b, n).Got?
    ensures ReadIds(b + more, n) == Longer(ReadIds(b, n), more)
    decreases n
  {
    hide ReadNumber, ReadIds;
    if n == 0 {
      NoIds(b);
      NoIds(b + more);
    } else {
      ReadIdsStep(b, n);
      ReadIdsStep(b + more, n);
      ReadNumberLonger(b, 4, more);
      ReadIdsLonger(ReadNumber(b, 4).rest, n - 1, more);
    }
  }

  lemma ReadStateLonger(b: seq<byte>, nextId: nat, more: seq<byte>)
    requires ReadState(b, nextId).Got?
    ensures ReadState(b + more, nextId) == Longer(ReadState(b, nextId), more)
  {
    hide ReadNumber, ReadItems, ReadIds;
    var magic := ReadNumber(b, 4);
    var count := ReadNumber(magic.rest, 4);
    var files := ReadItems(count.rest, count.value, Nothing(nextId));
    var sortedCount := ReadNumber(files.rest, 4);
    var sorted := ReadIds(sortedCount.rest, sortedCount.value);
    ReadNumberLonger(b, 4, more);
    ReadNumberLonger(magic.rest, 4, more);
    ReadItemsLonger(count.rest, count.value, Nothing(nextId), more);
    ReadNumberLonger(files.rest, 4, more);
    ReadIdsLonger(sortedCount.rest, sortedCount.value, more);
    ReadNumberLonger(sorted.rest, 4, more);
  }

  /** A snapshot cut short anywhere is refused. */
  lemma TruncationIsRefused(s: State, nextId: nat, n: nat)
    requires Coherent(s) && Fits(s) && n < |Encode(s)|
    ensures Decode(Encode(s)[..n], nextId) == None
  {
    hide Encode, ReadState, Sift, Fits, Coherent, MaxId;
    var b, more := Encode(s)[..n], Encode(s)[n..];
    assert b + more == Encode(s);
    if ReadState(b, nextId).Got? {
      DecodeNeeds(s);
      ReadStateBack(s, nextId);
      ReadStateLonger(b, nextId, more);
      assert false;
    }
  }
}
