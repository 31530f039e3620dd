/** The attribute amend: (key, value) pairs are spilled as records, sorted by key if they did not
    arrive that way, and joined onto the dataset's units in slices that fit a memory budget. */
module AttributeAmend {
  import opened Bytes
  import opened KeyedRecords
  import opened SpillFiles
  import opened ExternalSort

  // ---- the dataset ----------------------------------------------------------------------------

  datatype Type = U8 | I8 | U16 | I16 | U32 | I32 | U64 | I64 | R32 | R64 | M32 | M64 | M128 | M192

  function TypeSize(t: Type): (n: nat)
    ensures n > 0
  {
    match t
    case U8 => 1 case I8 => 1
    case U16 => 2 case I16 => 2
    case U32 => 4 case I32 => 4 case R32 => 4 case M32 => 4
    case U64 => 8 case I64 => 8 case R64 => 8 case M64 => 8
    case M128 => 16
    case M192 => 24
  }

  predicate IsInteger(t: Type) {
    t.U8? || t.I8? || t.U16? || t.I16? || t.U32? || t.I32? || t.U64? || t.I64?
  }

  predicate IsSigned(t: Type) { t.I8? || t.I16? || t.I32? || t.I64? }

  datatype Attribute = Attribute(name: string, kind: Type, components: nat)

  /** A storage unit: its attribute config, and one blob per slot. */
  datatype Unit = Unit(attributes: seq<Attribute>, storage: seq<seq<byte>>)

  /** get_attribute_index: the first slot carrying the name. */
  function Find(attributes: seq<Attribute>, name: string): (r: Option<nat>)
    ensures r.Some? ==> r.value < |attributes| && attributes[r.value].name == name
    ensures r.None? <==> forall i :: 0 <= i < |attributes| ==> attributes[i].name != name
  {
    if attributes == [] then None
    else if attributes[0].name == name then Some(0)
    else match Find(attributes[1..], name)
      case None => None
      case Some(i) => Some(i + 1)
  }

  /** widen_key: an element as a 64-bit word; signed types are sign-extended, the rest padded with
      zeros. */
  function Widen(raw: seq<byte>, t: Type): nat {
    FromLittleEndian(if |raw| >= 8 then raw else raw + seq(8 - |raw|, _ => SignByte(raw, t)))
  }

  function SignByte(raw: seq<byte>, t: Type): byte {
    if IsSigned(t) && raw != [] && raw[|raw| - 1] >= 128 then 255 else 0
  }

  function Padded(raw: seq<byte>, t: Type): (b: seq<byte>)
    requires |raw| <= 8
    ensures |b| == 8 && b[..|raw|] == raw && Widen(raw, t) == FromLittleEndian(b)
  {
    if |raw| == 8 then raw else raw + seq(8 - |raw|, _ => SignByte(raw, t))
  }

  /** Widening never makes two different elements of one column collide. */
  lemma WidenInjective(a: seq<byte>, b: seq<byte>, t: Type)
    requires |a| == |b| <= 8
    ensures Widen(a, t) == Widen(b, t) <==> a == b
  {
    FromLittleEndianBound(Padded(a, t));
    FromLittleEndianBound(Padded(b, t));
  }

  function Widened(elements: seq<seq<byte>>, t: Type): (keys: seq<nat>)
    ensures |keys| == |elements|
    ensures forall p :: 0 <= p < |keys| ==> keys[p] == Widen(elements[p], t)
  {
    seq(|elements|, p requires 0 <= p < |elements| => Widen(elements[p], t))
  }

  /** The key of every point of a unit, or None when the unit cannot be joined on `keyName`. */
  function KeyColumn(u: Unit, keyName: string): Option<seq<nat>> {
    match Find(u.attributes, keyName)
    case None => None
    case Some(i) =>
      var a := u.attributes[i];
      if i >= |u.storage| || a.components != 1 || !IsInteger(a.kind) || u.storage[i] == [] then None
      else
        var points := Records(u.storage[i], TypeSize(a.kind));
        if points == [] then None else Some(Widened(points, a.kind))
  }

  /** A declared attribute, its spill flushed and closed. */
  datatype Declared = Declared(name: string, keyName: string, kind: Type, components: nat,
                               file: seq<byte>, count: nat, ascending: bool)
  {
    function ElementSize(): nat { TypeSize(kind) * components }
    function RecordSize(): nat { 8 + ElementSize() }
    function AsAttribute(): Attribute { Attribute(name, kind, components) }
  }

  predicate Joinable(u: Unit, a: Declared) {
    Find(u.attributes, a.name).None? && KeyColumn(u, a.keyName).Some?
  }

  // ---- the specification: last value per key ------------------------------------------------------

  /** The plain table the join must agree with: later entries overwrite earlier ones. */
  function Table(log: seq<Record>): map<nat, seq<byte>> {
    if log == [] then map[]
    else Table(log[..|log| - 1])[Key(log[|log| - 1]) := Payload(log[|log| - 1])]
  }

  function Payload(r: Record): seq<byte> { if |r| >= 8 then r[8..] else [] }

  function ValueFor(log: seq<Record>, key: nat, size: nat): seq<byte> {
    var table := Table(log);
    if key in table then table[key] else Zeros(size)
  }

  function Column(keys: seq<nat>, log: seq<Record>, size: nat): (c: seq<seq<byte>>)
    ensures |c| == |keys|
    ensures forall p :: 0 <= p < |keys| ==> c[p] == ValueFor(log, keys[p], size)
  {
    seq(|keys|, p requires 0 <= p < |keys| => ValueFor(log, keys[p], size))
  }

  /** What the amend makes of one unit. */
  function AmendUnit(u: Unit, a: Declared, log: seq<Record>): Unit {
    if !Joinable(u, a) then u
    else WithSlot(u, a, Column(KeyColumn(u, a.keyName).value, log, a.ElementSize()))
  }

  /** append_storage: the config and the location vector both grow by one at the end. */
  function WithSlot(u: Unit, a: Declared, column: seq<seq<byte>>): Unit {
    Unit(u.attributes + [a.AsAttribute()], u.storage + [Flatten(column)])
  }

  function AmendAll(units: seq<Unit>, a: Declared, log: seq<Record>): (r: seq<Unit>)
    ensures |r| == |units|
    ensures forall i :: 0 <= i < |units| ==> r[i] == AmendUnit(units[i], a, log)
  {
    seq(|units|, i requires 0 <= i < |units| => AmendUnit(units[i], a, log))
  }

  /** The table remembers exactly the last record of every key. */
  lemma {:induction false} TableIsLastWithKey(log: seq<Record>, k: nat)
    ensures k in Table(log) <==> WithKey(log, k) != []
    ensures k in Table(log) ==> Table(log)[k] == Payload(WithKey(log, k)[|WithKey(log, k)| - 1])
  {
    if log != [] {
      var init, last := log[..|log| - 1], log[|log| - 1];
      assert log == init + [last];
      WithKeyAppend(init, [last], k);
      assert WithKey([last], k) == (if Key(last) == k then [last] else []) + WithKey([last][1..], k);
      TableIsLastWithKey(init, k);
    }
  }

  /** Sorting the log stably does not change any lookup. */
  lemma StableSortKeepsTable(sorted: seq<Record>, log: seq<Record>, k: nat, size: nat)
    requires StableSortOf(sorted, log)
    ensures ValueFor(sorted, k, size) == ValueFor(log, k, size)
  {
    TableIsLastWithKey(sorted, k);
    TableIsLastWithKey(log, k);
  }

  // ---- add_data -------------------------------------------------------------------------------

  /** Keys are 64-bit words. */
  predicate IsKey(k: nat) { k < Pow256(8) }

  function Entry(key: nat, value: seq<byte>): (r: Record)
    ensures |r| == 8 + |value|
  {
    LittleEndian(key, 8) + value
  }

  lemma {:induction false} KeyOfEntry(key: nat, value: seq<byte>)
    requires IsKey(key)
    ensures Key(Entry(key, value)) == key && Payload(Entry(key, value)) == value
  {
    var r := Entry(key, value);
    assert r[..8] == LittleEndian(key, 8) && r[8..] == value;
    LittleEndianRoundTrip(key, 8);
  }

  lemma SortedSnoc(log: seq<Record>, r: Record)
    ensures SortedByKey(log + [r]) <==> SortedByKey(log) && (log != [] ==> Key(log[|log| - 1]) <= Key(r))
  {
    var s := log + [r];
    assert forall i :: 0 <= i < |log| ==> s[i] == log[i];
    if SortedByKey(s) {
      forall i, j | 0 <= i < j < |log|
        ensures Key(log[i]) <= Key(log[j])
      {
        assert Key(s[i]) <= Key(s[j]);
      }
      assert log != [] ==> Key(s[|log| - 1]) <= Key(s[|log|]);
    }
  }

  lemma SnocOnto<T>(start: seq<T>, added: seq<T>, i: nat)
    requires i < |added|
    ensures start + added[..i + 1] == start + added[..i] + [added[i]]
  {
  }

  function EntryRecords(keys: seq<nat>, values: seq<seq<byte>>): (r: seq<Record>)
    requires |keys| == |values|
    ensures |r| == |keys|
    ensures forall i :: 0 <= i < |r| ==> r[i] == Entry(keys[i], values[i])
  {
    seq(|keys|, i requires 0 <= i < |keys| => Entry(keys[i], values[i]))
  }

  class PendingAttribute {
    const name: string
    const keyName: string
    const kind: Type
    const components: nat
    const spill: SpillFile
    var lastKey: nat
    var haveLast: bool
    var ascending: bool
    ghost var log: seq<Record>  // everything added so far, in order

    constructor (name: string, keyName: string, kind: Type, components: nat, bufferBytes: nat)
      requires components > 0
      ensures Valid() && log == [] && fresh(spill) && fresh(spill.buffer)
      ensures this.name == name && this.keyName == keyName && this.kind == kind && this.components == components
    {
      this.name, this.keyName, this.kind, this.components := name, keyName, kind, components;
      spill := new SpillFile.OpenWrite(8 + TypeSize(kind) * components, bufferBytes);
      lastKey, haveLast, ascending, log := 0, false, true, [];
    }

    function ElementSize(): nat { TypeSize(kind) * components }

    ghost predicate Valid()
      reads this, spill, spill.buffer
    {
      && spill.Writer() && spill.recordSize == 8 + ElementSize()
      && Sized(log, spill.recordSize) && spill.Written() == Flatten(log) && spill.records == |log|
      && (haveLast <==> log != []) && (haveLast ==> lastKey == Key(log[|log| - 1]))
      && (ascending <==> SortedByKey(log))
    }

    method AddOne(key: nat, value: seq<byte>)
      requires Valid() && IsKey(key) && |value| == ElementSize()
      modifies this, spill, spill.buffer
      ensures Valid() && log == old(log) + [Entry(key, value)]
    {
      var record := Entry(key, value);
      KeyOfEntry(key, value);
      SortedSnoc(log, record);
      FlattenSnoc(log, record);
      if haveLast && key < lastKey {
        ascending := false;
      }
      lastKey, haveLast := key, true;
      spill.Append(record);
      log := log + [record];
    }

    /** add_data: any number of calls only ever extend the log, and `ascending` always says whether
        the whole log is in key order. */
    method AddData(keys: seq<nat>, values: seq<seq<byte>>)
      requires Valid() && |keys| == |values|
      requires forall i :: 0 <= i < |keys| ==> IsKey(keys[i]) && |values[i]| == ElementSize()
      modifies this, spill, spill.buffer
      ensures Valid() && log == old(log) + EntryRecords(keys, values)
    {
      hide Valid, Entry;
      ghost var start, added := log, EntryRecords(keys, values);
      assert added[..0] == [] && start + [] == start;
      for i := 0 to |keys|
        invariant Valid() && log == start + added[..i]
      {
        AddOne(keys[i], values[i]);
        SnocOnto(start, added, i);
      }
      assert added[..|keys|] == added;
    }

    /** Flush and close: what commit starts from. */
    method Close() returns (a: Declared)
      requires Valid()
      modifies spill
      ensures Closed(a, log)
      ensures a.name == name && a.keyName == keyName && a.kind == kind && a.components == components
    {
      spill.Flush();
      a := Declared(name, keyName, kind, components, spill.disk, spill.records, ascending);
    }
  }

  /** The declared attribute's file holds exactly the log. */
  ghost predicate Closed(a: Declared, log: seq<Record>) {
    && Sized(log, a.RecordSize()) && a.file == Flatten(log) && a.count == |log|
    && (a.ascending <==> SortedByKey(log))
  }

  // ---- the address side of the join -------------------------------------------------------------

  /** Where a key's value has to land: `unit` indexes the slice. */
  datatype Address = Address(key: nat, unit: nat, slot: nat)

  ghost predicate SortedAddresses(s: seq<Address>) {
    forall i, j :: 0 <= i < j < |s| ==> s[i].key <= s[j].key
  }

  /** std::sort by key. */
  function SortAddresses(s: seq<Address>): seq<Address> {
    if s == [] then [] else InsertAddress(s[0], SortAddresses(s[1..]))
  }

  function InsertAddress(x: Address, s: seq<Address>): seq<Address> {
    if s == [] || x.key <= s[0].key then [x] + s else [s[0]] + InsertAddress(x, s[1..])
  }

  lemma {:induction false} InsertAddressSorts(x: Address, s: seq<Address>)
    requires SortedAddresses(s)
    ensures SortedAddresses(InsertAddress(x, s))
    ensures forall y :: y in InsertAddress(x, s) <==> y == x || y in s
  {
    if s != [] && x.key > s[0].key {
      InsertAddressSorts(x, s[1..]);
      assert forall y :: y in s <==> y == s[0] || y in s[1..];
      var t := InsertAddress(x, s[1..]);
      forall i | 0 <= i < |t|
        ensures s[0].key <= t[i].key
      {
        assert t[i] in t;
      }
    }
  }

  lemma {:induction false} SortAddressesSorts(s: seq<Address>)
    ensures SortedAddresses(SortAddresses(s))
    ensures forall y :: y in SortAddresses(s) <==> y in s
  {
    if s != [] {
      SortAddressesSorts(s[1..]);
      InsertAddressSorts(s[0], SortAddresses(s[1..]));
      assert forall y :: y in s <==> y == s[0] || y in s[1..];
    }
  }

  /** The addresses name exactly the points of the slice, each with its key. */
  ghost predicate AddressesOf(addresses: seq<Address>, keys: seq<seq<nat>>) {
    forall x: Address :: x in addresses <==> x.unit < |keys| && x.slot < |keys[x.unit]| && x.key == keys[x.unit][x.slot]
  }

  function UnitAddresses(keys: seq<nat>, unit: nat): (r: seq<Address>)
    ensures |r| == |keys|
    ensures forall p :: 0 <= p < |keys| ==> r[p] == Address(keys[p], unit, p)
  {
    seq(|keys|, p requires 0 <= p < |keys| => Address(keys[p], unit, p))
  }

  lemma AddUnitAddresses(addresses: seq<Address>, keys: seq<seq<nat>>, more: seq<nat>)
    requires AddressesOf(addresses, keys)
    ensures AddressesOf(addresses + UnitAddresses(more, |keys|), keys + [more])
  {
    var added, keys' := UnitAddresses(more, |keys|), keys + [more];
    forall x: Address
      ensures x in addresses + added <==> x.unit < |keys'| && x.slot < |keys'[x.unit]| && x.key == keys'[x.unit][x.slot]
    {
      assert x in added <==> x.unit == |keys| && x.slot < |more| && x.key == more[x.slot] by {
        if x.unit == |keys| && x.slot < |more| && x.key == more[x.slot] {
          assert added[x.slot] == x;
        }
      }
    }
  }

  // ---- the merge ------------------------------------------------------------------------------

  type Columns = seq<seq<seq<byte>>>

  ghost predicate Shape(columns: Columns, keys: seq<seq<nat>>) {
    |columns| == |keys| && forall j :: 0 <= j < |keys| ==> |columns[j]| == |keys[j]|
  }

  /** No cell holds anything but zeros or its final value; `done` addresses are final. */
  ghost predicate Partial(columns: Columns, keys: seq<seq<nat>>, values: seq<Record>, size: nat,
                          addresses: seq<Address>, done: nat)
    requires Shape(columns, keys) && done <= |addresses| && AddressesOf(addresses, keys)
  {
    && (forall j, p :: 0 <= j < |keys| && 0 <= p < |keys[j]| ==>
          columns[j][p] == Zeros(size) || columns[j][p] == ValueFor(values, keys[j][p], size))
    && (forall i :: 0 <= i < done ==>
          && AddressesAt(addresses, keys, i)
          && columns[addresses[i].unit][addresses[i].slot] == ValueFor(values, addresses[i].key, size))
  }

  ghost predicate AddressesAt(addresses: seq<Address>, keys: seq<seq<nat>>, i: nat)
    requires i < |addresses| && AddressesOf(addresses, keys)
    ensures AddressesAt(addresses, keys, i)
    ensures addresses[i].unit < |keys| && addresses[i].slot < |keys[addresses[i].unit]|
    ensures addresses[i].key == keys[addresses[i].unit][addresses[i].slot]
  {
    var x := addresses[i];
    assert x in addresses;
    x.unit < |keys| && x.slot < |keys[x.unit]| && x.key == keys[x.unit][x.slot]
  }

  lemma Untouched(values: seq<Record>, k: nat, size: nat)
    requires forall i :: 0 <= i < |values| ==> Key(values[i]) != k
    ensures ValueFor(values, k, size) == Zeros(size)
  {
    WithKeyNone(values, k);
    TableIsLastWithKey(values, k);
  }

  /** In a sorted file the last record of the stretch with key `k` is the value of `k`. */
  lemma LastOfStretch(values: seq<Record>, lo: nat, hi: nat, k: nat, size: nat)
    requires lo < hi <= |values|
    requires forall i :: 0 <= i < lo ==> Key(values[i]) != k
    requires forall i :: lo <= i < hi ==> Key(values[i]) == k
    requires forall i :: hi <= i < |values| ==> Key(values[i]) != k
    ensures ValueFor(values, k, size) == Payload(values[hi - 1])
  {
    hide WithKey, Table, Key, Payload;
    var a, b, c := values[..lo], values[lo..hi], values[hi..];
    assert values == a + (b + c);
    WithKeyAppend(a, b + c, k);
    WithKeyAppend(b, c, k);
    WithKeyNone(a, k);
    WithKeyNone(c, k);
    WithKeyAll(b, k);
    assert b + [] == b && [] + b == b;
    TableIsLastWithKey(values, k);
  }

  lemma {:induction false} WithKeyAll(s: seq<Record>, k: nat)
    requires forall i :: 0 <= i < |s| ==> Key(s[i]) == k
    ensures WithKey(s, k) == s
  {
    if s != [] {
      WithKeyAll(s[1..], k);
      assert s == [s[0]] + s[1..];
    }
  }

  /** The reader stands behind record `at` of the sorted values. */
  ghost predicate StandsAt(file: SpillFile, values: seq<Record>, at: nat)
    reads file, file.buffer
  {
    file.Reader() && Sized(values, file.recordSize) && at <= |values| && file.Pending() == Flatten(values[at..])
  }

  /** The scan has read record `at`, or found the end there. */
  ghost predicate Scan(file: SpillFile, values: seq<Record>, at: nat, have: bool, record: Record)
    reads file, file.buffer
  {
    && at <= |values| && (have <==> at < |values|) && (have ==> record == values[at])
    && StandsAt(file, values, if have then at + 1 else at)
  }

  lemma SortedBeyond(values: seq<Record>, at: nat, next: nat)
    requires SortedByKey(values) && at < next <= |values|
    requires next < |values| ==> Key(values[next]) != Key(values[at])
    ensures forall i :: next <= i < |values| ==> Key(values[i]) > Key(values[at])
  {
    forall i | next <= i < |values|
      ensures Key(values[i]) > Key(values[at])
    {
      assert Key(values[at]) <= Key(values[next]) <= Key(values[i]);
    }
  }

  method NextValue(file: SpillFile, ghost values: seq<Record>, ghost at: nat) returns (have: bool, record: Record, error: bool)
    requires StandsAt(file, values, at)
    modifies file, file.buffer
    ensures Scan(file, values, at, have, record) && !error
  {
    HeadOfFlatten(values[at..], file.recordSize);
    ghost var before := file.Pending();
    have, record, error := file.Next();
    if have {
      assert before == record + file.Pending();
      assert before[..file.recordSize] == record && before[file.recordSize..] == file.Pending();
      assert values[at..][1..] == values[at + 1..];
    }
  }

  /** Consume the run of records with one key, keeping the last. */
  method ConsumeKey(file: SpillFile, ghost values: seq<Record>, ghost at: nat, first: Record)
    returns (have: bool, record: Record, last: Record, ghost next: nat)
    requires at < |values| && first == values[at] && StandsAt(file, values, at + 1)
    modifies file, file.buffer
    ensures at < next <= |values| && last == values[next - 1]
    ensures forall i :: at <= i < next ==> Key(values[i]) == Key(first)
    ensures next < |values| ==> Key(values[next]) != Key(first)
    ensures Scan(file, values, next, have, record)
  {
    hide Key, StandsAt;
    var error;
    last, next := first, at + 1;
    have, record, error := NextValue(file, values, at + 1);
    while have && Key(record) == Key(first)
      invariant at < next <= |values| && last == values[next - 1]
      invariant forall i :: at <= i < next ==> Key(values[i]) == Key(first)
      invariant Scan(file, values, next, have, record)
      decreases |values| - next
    {
      last, next := record, next + 1;
      have, record, error := NextValue(file, values, next);
    }
  }

  lemma WriteKeepsPartial(columns: Columns, keys: seq<seq<nat>>, values: seq<Record>, size: nat,
                          addresses: seq<Address>, done: nat)
    requires Shape(columns, keys) && done < |addresses| && AddressesOf(addresses, keys)
    requires Partial(columns, keys, values, size, addresses, done)
    ensures AddressesAt(addresses, keys, done)
    ensures
      var x := addresses[done];
      var columns' := columns[x.unit := columns[x.unit][x.slot := ValueFor(values, x.key, size)]];
      Shape(columns', keys) && Partial(columns', keys, values, size, addresses, done + 1)
  {
    assert AddressesAt(addresses, keys, done);
  }

  lemma SkipKeepsPartial(columns: Columns, keys: seq<seq<nat>>, values: seq<Record>, size: nat,
                         addresses: seq<Address>, done: nat)
    requires Shape(columns, keys) && done < |addresses| && AddressesOf(addresses, keys)
    requires Partial(columns, keys, values, size, addresses, done)
    requires ValueFor(values, addresses[done].key, size) == Zeros(size)
    ensures Partial(columns, keys, values, size, addresses, done + 1)
  {
    assert AddressesAt(addresses, keys, done);
  }

  /** Skip the addresses whose key has no value; their zeros are already right. */
  method SkipSmaller(addresses: seq<Address>, cursor0: nat, ghost columns: Columns, key: nat,
                     ghost keys: seq<seq<nat>>, ghost values: seq<Record>, ghost size: nat)
    returns (cursor: nat)
    requires AddressesOf(addresses, keys) && SortedAddresses(addresses) && cursor0 <= |addresses|
    requires Shape(columns, keys) && Partial(columns, keys, values, size, addresses, cursor0)
    requires forall i :: cursor0 <= i < |addresses| && addresses[i].key < key ==>
               ValueFor(values, addresses[i].key, size) == Zeros(size)
    ensures cursor0 <= cursor <= |addresses|
    ensures Partial(columns, keys, values, size, addresses, cursor)
    ensures forall i :: cursor <= i < |addresses| ==> addresses[i].key >= key
  {
    cursor := cursor0;
    while cursor < |addresses| && addresses[cursor].key < key
      invariant cursor0 <= cursor <= |addresses|
      invariant Partial(columns, keys, values, size, addresses, cursor)
    {
      SkipKeepsPartial(columns, keys, values, size, addresses, cursor);
      cursor := cursor + 1;
    }
    forall i | cursor <= i < |addresses|
      ensures addresses[i].key >= key
    {
      assert addresses[cursor].key <= addresses[i].key;
    }
  }

  /** Write the value of one key to every address that carries it. */
  method FillKey(addresses: seq<Address>, cursor0: nat, columns0: Columns, key: nat, value: seq<byte>,
                 ghost keys: seq<seq<nat>>, ghost values: seq<Record>, ghost size: nat)
    returns (cursor: nat, columns: Columns)
    requires AddressesOf(addresses, keys) && SortedAddresses(addresses) && cursor0 <= |addresses|
    requires Shape(columns0, keys) && Partial(columns0, keys, values, size, addresses, cursor0)
    requires value == ValueFor(values, key, size)
    requires forall i :: cursor0 <= i < |addresses| ==> addresses[i].key >= key
    ensures cursor0 <= cursor <= |addresses|
    ensures Shape(columns, keys) && Partial(columns, keys, values, size, addresses, cursor)
    ensures forall i :: cursor <= i < |addresses| ==> addresses[i].key > key
  {
    cursor, columns := cursor0, columns0;
    while cursor < |addresses| && addresses[cursor].key == key
      invariant cursor0 <= cursor <= |addresses|
      invariant Shape(columns, keys) && Partial(columns, keys, values, size, addresses, cursor)
    {
      var x := addresses[cursor];
      WriteKeepsPartial(columns, keys, values, size, addresses, cursor);
      columns := columns[x.unit := columns[x.unit][x.slot := value]];
      cursor := cursor + 1;
    }
    forall i | cursor <= i < |addresses|
      ensures addresses[i].key > key
    {
      assert addresses[cursor].key <= addresses[i].key;
    }
  }

  /** THE MERGE: two sorted sides, two cursors, one sequential scan. */
  method MergeJoin(addresses: seq<Address>, zeroed: Columns, file: seq<byte>, recordSize: nat, bufferBytes: nat,
                   ghost keys: seq<seq<nat>>, ghost values: seq<Record>, ghost size: nat)
    returns (columns: Columns)
    requires AddressesOf(addresses, keys) && SortedAddresses(addresses) && ZeroColumns(zeroed, keys, size)
    requires recordSize == 8 + size && Sized(values, recordSize) && file == Flatten(values) && SortedByKey(values)
    ensures Shape(columns, keys)
    ensures forall j :: 0 <= j < |keys| ==> columns[j] == Column(keys[j], values, size)
  {
    hide WithKey, Table, Key, Payload, ValueFor, Flatten, StandsAt;
    var reader := OpenValues(file, recordSize, bufferBytes, values);
    columns := zeroed;
    var cursor: nat := 0;
    var have, record, error := NextValue(reader, values, 0);
    ghost var at: nat := 0;
    while have && cursor < |addresses|
      invariant fresh(reader) && fresh(reader.buffer)
      invariant Scan(reader, values, at, have, record)
      invariant cursor <= |addresses| && Shape(columns, keys) && Partial(columns, keys, values, size, addresses, cursor)
      invariant forall i, v :: cursor <= i < |addresses| && 0 <= v < at ==> Key(values[v]) < addresses[i].key
      invariant forall u, v :: 0 <= u < at <= v < |values| ==> Key(values[u]) < Key(values[v])
      decreases |values| - at
    {
      var key, last := Key(record), record;
      ghost var from := at;
      have, record, last, at := ConsumeKey(reader, values, at, record);
      SortedBeyond(values, from, at);
      LastOfStretch(values, from, at, key, size);
      forall i | cursor <= i < |addresses| && addresses[i].key < key
        ensures ValueFor(values, addresses[i].key, size) == Zeros(size)
      {
        Untouched(values, addresses[i].key, size);
      }
      cursor := SkipSmaller(addresses, cursor, columns, key, keys, values, size);
      cursor, columns := FillKey(addresses, cursor, columns, key, Payload(last), keys, values, size);
    }
    JoinIsComplete(columns, keys, values, size, addresses, cursor, at);
  }

  method OpenValues(file: seq<byte>, recordSize: nat, bufferBytes: nat, ghost values: seq<Record>) returns (reader: SpillFile)
    requires recordSize > 0 && Sized(values, recordSize) && file == Flatten(values)
    ensures fresh(reader) && fresh(reader.buffer) && StandsAt(reader, values, 0)
  {
    reader := new SpillFile.OpenRead(file, recordSize, bufferBytes);
    assert values[0..] == values;
  }

  /** When either side has run out, every slot has its value. */
  lemma JoinIsComplete(columns: Columns, keys: seq<seq<nat>>, values: seq<Record>, size: nat, addresses: seq<Address>, cursor: nat, at: nat)
    requires AddressesOf(addresses, keys) && cursor <= |addresses| && at <= |values| && (at == |values| || cursor == |addresses|)
    requires Shape(columns, keys) && Partial(columns, keys, values, size, addresses, cursor)
    requires forall i, v :: cursor <= i < |addresses| && 0 <= v < at ==> Key(values[v]) < addresses[i].key
    ensures forall j :: 0 <= j < |keys| ==> columns[j] == Column(keys[j], values, size)
  {
    hide Key, ValueFor;
    forall j, p | 0 <= j < |keys| && 0 <= p < |keys[j]|
      ensures columns[j][p] == ValueFor(values, keys[j][p], size)
    {
      var x := Address(keys[j][p], j, p);
      assert x in addresses;
      var i :| 0 <= i < |addresses| && addresses[i] == x;
      if i >= cursor {
        Untouched(values, x.key, size);
      }
    }
  }

  // ---- slices of units --------------------------------------------------------------------------

  /** The units a slice will write: the joinable ones of [from, to), in order, with their keys. */
  ghost predicate SliceOf(targets: seq<nat>, keys: seq<seq<nat>>, units: seq<Unit>, a: Declared, from: nat, end: nat) {
    && from <= end <= |units| && |targets| == |keys|
    && (forall j :: 0 <= j < |targets| ==>
          && from <= targets[j] < end && Joinable(units[targets[j]], a)
          && keys[j] == KeyColumn(units[targets[j]], a.keyName).value)
    && (forall i, j :: 0 <= i < j < |targets| ==> targets[i] < targets[j])
    && (forall i :: from <= i < end && Joinable(units[i], a) ==> i in targets)
  }

  function ZeroColumn(n: nat, size: nat): (c: seq<seq<byte>>)
    ensures |c| == n && forall p :: 0 <= p < n ==> c[p] == Zeros(size)
  {
    seq(n, _ => Zeros(size))
  }

  ghost predicate ZeroColumns(columns: Columns, keys: seq<seq<nat>>, size: nat) {
    Shape(columns, keys) && forall j, p :: 0 <= j < |keys| && 0 <= p < |keys[j]| ==> columns[j][p] == Zeros(size)
  }

  lemma ExtendSlice(targets: seq<nat>, keys: seq<seq<nat>>, units: seq<Unit>, a: Declared, from: nat, end: nat)
    requires SliceOf(targets, keys, units, a, from, end) && end < |units|
    ensures !Joinable(units[end], a) ==> SliceOf(targets, keys, units, a, from, end + 1)
    ensures Joinable(units[end], a) ==>
      SliceOf(targets + [end], keys + [KeyColumn(units[end], a.keyName).value], units, a, from, end + 1)
  {
    forall i | from <= i < end + 1 && Joinable(units[i], a)
      ensures i in targets + [end]
      ensures !Joinable(units[end], a) ==> i in targets
    {
      assert i == end || i in targets;
    }
  }

  lemma ExtendZeroColumns(columns: Columns, keys: seq<seq<nat>>, size: nat, column: seq<nat>)
    requires ZeroColumns(columns, keys, size)
    ensures ZeroColumns(columns + [ZeroColumn(|column|, size)], keys + [column], size)
  {
  }

  /** What a slice keeps in memory: an address and a value for every point. */
  function SliceBytes(keys: seq<seq<nat>>, size: nat): nat {
    if keys == [] then 0 else SliceBytes(keys[..|keys| - 1], size) + |keys[|keys| - 1]| * (16 + size)
  }

  lemma SliceBytesSnoc(keys: seq<seq<nat>>, column: seq<nat>, size: nat)
    ensures SliceBytes(keys + [column], size) == SliceBytes(keys, size) + |column| * (16 + size)
    ensures (keys + [column])[..|keys|] == keys
  {
    assert (keys + [column])[..|keys|] == keys;
  }

  /** A slice is below the budget but for its last unit, and it ends there only if it reaches the budget or the
      units run out. */
  ghost predicate InBudget(keys: seq<seq<nat>>, size: nat, budget: nat, last: bool) {
    && (keys != [] ==> SliceBytes(keys[..|keys| - 1], size) < budget)
    && (last || SliceBytes(keys, size) >= budget)
  }

  lemma NothingGathered(units: seq<Unit>, a: Declared, from: nat)
    requires from <= |units|
    ensures SliceOf([], [], units, a, from, from) && AddressesOf([], []) && ZeroColumns([], [], a.ElementSize())
    ensures SliceBytes([], a.ElementSize()) == 0
  {
  }

  lemma SliceLines(targets: seq<nat>, keys: seq<seq<nat>>, units: seq<Unit>, a: Declared, from: nat, end: nat)
    requires SliceOf(targets, keys, units, a, from, end)
    ensures |targets| == |keys|
  {
  }

  method GatherSlice(units: seq<Unit>, a: Declared, from: nat, budget: nat)
    returns (end: nat, targets: seq<nat>, addresses: seq<Address>, columns: Columns, ghost keys: seq<seq<nat>>)
    requires from < |units| && budget > 0
    ensures from < end && SliceOf(targets, keys, units, a, from, end)
    ensures AddressesOf(addresses, keys) && ZeroColumns(columns, keys, a.ElementSize())
    ensures InBudget(keys, a.ElementSize(), budget, end == |units|)
  {
    hide KeyColumn, SliceOf, AddressesOf, ZeroColumns, SliceBytes;
    end, targets, addresses, columns, keys := from, [], [], [], [];
    NothingGathered(units, a, from);
    var sliceBytes, size := 0, a.ElementSize();
    while end < |units| && sliceBytes < budget
      invariant from <= end <= |units| && (end == from ==> sliceBytes == 0)
      invariant SliceOf(targets, keys, units, a, from, end)
      invariant AddressesOf(addresses, keys) && ZeroColumns(columns, keys, size)
      invariant sliceBytes == SliceBytes(keys, size) && (keys != [] ==> SliceBytes(keys[..|keys| - 1], size) < budget)
      decreases |units| - end
    {
      var unit := units[end];
      ExtendSlice(targets, keys, units, a, from, end);
      if Joinable(unit, a) {
        var column := KeyColumn(unit, a.keyName).value;
        AddUnitAddresses(addresses, keys, column);
        ExtendZeroColumns(columns, keys, size, column);
        SliceBytesSnoc(keys, column, size);
        SliceLines(targets, keys, units, a, from, end);
        addresses := addresses + UnitAddresses(column, |targets|);
        columns := columns + [ZeroColumn(|column|, size)];
        targets, keys := targets + [end], keys + [column];
        sliceBytes := sliceBytes + |column| * (16 + size);
      }
      end := end + 1;
    }
  }

  /** append_storage_units: every written unit gains the attribute and its blob. */
  method AppendSlice(units: seq<Unit>, a: Declared, targets: seq<nat>, columns: Columns) returns (r: seq<Unit>)
    requires |targets| == |columns| && forall j :: 0 <= j < |targets| ==> targets[j] < |units|
    requires forall i, j :: 0 <= i < j < |targets| ==> targets[i] < targets[j]
    ensures |r| == |units|
    ensures forall i :: 0 <= i < |units| && i !in targets ==> r[i] == units[i]
    ensures forall j :: 0 <= j < |targets| ==> r[targets[j]] == WithSlot(units[targets[j]], a, columns[j])
  {
    r := units;
    for n := 0 to |targets|
      invariant |r| == |units|
      invariant forall i :: 0 <= i < |units| && i !in targets[..n] ==> r[i] == units[i]
      invariant forall j :: 0 <= j < n ==> r[targets[j]] == WithSlot(units[targets[j]], a, columns[j])
    {
      var t := targets[n];
      assert t !in targets[..n];
      r := r[t := WithSlot(r[t], a, columns[n])];
      assert targets[..n + 1] == targets[..n] + [t];
    }
    assert targets[..|targets|] == targets;
  }

  lemma ColumnsAgree(keys: seq<nat>, sorted: seq<Record>, log: seq<Record>, size: nat)
    requires StableSortOf(sorted, log)
    ensures Column(keys, sorted, size) == Column(keys, log, size)
  {
    forall p | 0 <= p < |keys|
      ensures ValueFor(sorted, keys[p], size) == ValueFor(log, keys[p], size)
    {
      StableSortKeepsTable(sorted, log, keys[p], size);
    }
  }

  /** One pass: gather a slice, sort its addresses, join, append. */
  method AmendSlice(units: seq<Unit>, original: seq<Unit>, a: Declared, from: nat, budget: nat, bufferBytes: nat,
                    sortedFile: seq<byte>, ghost sorted: seq<Record>, ghost log: seq<Record>)
    returns (end: nat, r: seq<Unit>)
    requires from < |units| == |original| && budget > 0
    requires Closed(a, log) && StableSortOf(sorted, log) && sortedFile == Flatten(sorted) && Sized(sorted, a.RecordSize())
    requires forall i :: 0 <= i < from ==> units[i] == AmendUnit(original[i], a, log)
    requires forall i :: from <= i < |units| ==> units[i] == original[i]
    ensures from < end <= |units| == |r|
    ensures forall i :: 0 <= i < end ==> r[i] == AmendUnit(original[i], a, log)
    ensures forall i :: end <= i < |r| ==> r[i] == original[i]
  {
    var targets, addresses, columns;
    ghost var keys;
    end, targets, addresses, columns, keys := GatherSlice(original, a, from, budget);
    var filled := columns;
    if a.count > 0 {
      SortAddressesSorts(addresses);
      filled := MergeJoin(SortAddresses(addresses), columns, sortedFile, a.RecordSize(), bufferBytes,
                          keys, sorted, a.ElementSize());
    } else {
      EmptyLog(sorted, log);
    }
    forall j | 0 <= j < |keys|
      ensures filled[j] == Column(keys[j], log, a.ElementSize())
    {
      ColumnsAgree(keys[j], sorted, log, a.ElementSize());
    }
    r := AppendSlice(units, a, targets, filled);
    forall i | from <= i < end
      ensures r[i] == AmendUnit(original[i], a, log)
    {
      if Joinable(original[i], a) {
        var j :| 0 <= j < |targets| && targets[j] == i;
      }
    }
  }

  lemma EmptyLog(sorted: seq<Record>, log: seq<Record>)
    requires StableSortOf(sorted, log) && log == []
    ensures sorted == []
  {
    StableSortIsPermutation(sorted, log);
    assert |multiset(sorted)| == |sorted|;
  }

  // ---- commit ---------------------------------------------------------------------------------

  /** commit for one attribute: for every budget, every unit ends up exactly as the table lookup
      says, and no unit is written twice. */
  method CommitAttribute(units: seq<Unit>, a: Declared, budget: nat, bufferBytes: nat, ghost log: seq<Record>)
    returns (r: seq<Unit>, ok: bool)
    requires budget > 0 && Closed(a, log)
    ensures ok <==> units != []
    ensures r == AmendAll(units, a, log)
  {
    if units == [] {
      return units, false;
    }
    ghost var sorted := log;
    var sortedFile := a.file;
    FlattenLength(log, a.RecordSize());
    DivModUnique(|a.file|, a.RecordSize(), |log|, 0);
    RecordsOfFlatten(log, a.RecordSize(), []);
    assert Flatten(log) + [] == Flatten(log);
    if !a.ascending {
      var error;
      sortedFile, error := SortSpillByKey(a.file, a.RecordSize(), budget, bufferBytes);
      sorted := StableSort(log);
      StableSortIsStable(log);
      StableSortSized(log, a.RecordSize());
    }
    r, ok := units, true;
    var cursor := 0;
    while cursor < |units|
      invariant cursor <= |units| == |r|
      invariant forall i :: 0 <= i < cursor ==> r[i] == AmendUnit(units[i], a, log)
      invariant forall i :: cursor <= i < |units| ==> r[i] == units[i]
    {
      cursor, r := AmendSlice(r, units, a, cursor, budget, bufferBytes, sortedFile, sorted, log);
    }
  }

  function AmendEach(units: seq<Unit>, declared: seq<Declared>, logs: seq<seq<Record>>): seq<Unit>
    requires |declared| == |logs|
  {
    if declared == [] then units
    else AmendAll(AmendEach(units, declared[..|declared| - 1], logs[..|logs| - 1]),
                  declared[|declared| - 1], logs[|logs| - 1])
  }

  /** commit: every declared attribute in turn, each joined against the units as the previous one
      left them. */
  method Commit(units: seq<Unit>, declared: seq<Declared>, budget: nat, bufferBytes: nat, ghost logs: seq<seq<Record>>)
    returns (r: seq<Unit>, ok: bool)
    requires budget > 0 && |declared| == |logs|
    requires forall i :: 0 <= i < |declared| ==> Closed(declared[i], logs[i])
    ensures ok <==> declared == [] || units != []
    ensures ok ==> r == AmendEach(units, declared, logs)
  {
    r, ok := units, true;
    for i := 0 to |declared|
      invariant r == AmendEach(units, declared[..i], logs[..i]) && |r| == |units|
      invariant i > 0 ==> units != []
    {
      r, ok := CommitAttribute(r, declared[i], budget, bufferBytes, logs[i]);
      if !ok {
        return;
      }
      assert declared[..i + 1][..i] == declared[..i] && logs[..i + 1][..i] == logs[..i];
    }
    assert declared[..|declared|] == declared && logs[..|logs|] == logs;
  }

  // ---- what a reader of the amended dataset sees -----------------------------------------------

  /** Slots of a unit line up with its config. */
  predicate Aligned(u: Unit) { |u.attributes| == |u.storage| }

  function Read(u: Unit, name: string): Option<seq<byte>> {
    match Find(u.attributes, name)
    case None => None
    case Some(i) => if i < |u.storage| then Some(u.storage[i]) else None
  }

  lemma {:induction false} FindAppend(attributes: seq<Attribute>, added: Attribute, name: string)
    ensures Find(attributes + [added], name)
            == (if Find(attributes, name).Some? then Find(attributes, name)
                else if added.name == name then Some(|attributes|) else None)
  {
    if attributes == [] {
      assert (attributes + [added])[1..] == [];
    } else {
      assert (attributes + [added])[1..] == attributes[1..] + [added];
      FindAppend(attributes[1..], added, name);
    }
  }

  /** Landing an attribute changes nothing a reader could already resolve, and makes the new name
      resolve to the joined column; alignment is kept for the next attribute. */
  lemma AmendKeepsOtherSlots(u: Unit, a: Declared, log: seq<Record>, name: string)
    requires Aligned(u)
    ensures Aligned(AmendUnit(u, a, log))
    ensures Find(u.attributes, name).Some? || name != a.name || !Joinable(u, a)
            ==> Read(AmendUnit(u, a, log), name) == Read(u, name)
    ensures Joinable(u, a) ==>
      Read(AmendUnit(u, a, log), a.name) == Some(Flatten(Column(KeyColumn(u, a.keyName).value, log, a.ElementSize())))
  {
    FindAppend(u.attributes, a.AsAttribute(), name);
    FindAppend(u.attributes, a.AsAttribute(), a.name);
  }
}
