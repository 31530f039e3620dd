/** The amend in terms of numbers: which units are joined, what number an element stands for, and which value
    its point receives. */
module AmendByValue {
  import opened Bytes
  import opened KeyedRecords
  import opened AttributeAmend
  import Morton

  // ---- the integer element types ------------------------------------------------------------------

  /** Width in bytes and signedness; all other types are no integers. */
  datatype Integer = NoInteger | Integer(width: nat, signed: bool)

  function IntegerOf(t: Type): Integer {
    match t
    case U8 => Integer(1, false)
    case I8 => Integer(1, true)
    case U16 => Integer(2, false)
    case I16 => Integer(2, true)
    case U32 => Integer(4, false)
    case I32 => Integer(4, true)
    case U64 => Integer(8, false)
    case I64 => Integer(8, true)
    case _ => NoInteger
  }

  /** The bits in an element of a type. */
  function Bits(t: Type): nat {
    match t
    case U8 | I8 => 8
    case U16 | I16 => 16
    case U32 | I32 | R32 | M32 => 32
    case U64 | I64 | R64 | M64 => 64
    case M128 => 128
    case M192 => 192
  }

  lemma SizeIsBits(t: Type)
    ensures 8 * TypeSize(t) == Bits(t)
    ensures t.M32? || t.M64? || t.M128? || t.M192? ==> Morton.BitWidth(CodeTypeOf(t)) == Bits(t)
    ensures IntegerOf(t).Integer? ==> 8 * IntegerOf(t).width == Bits(t)
  {
  }

  function CodeTypeOf(t: Type): Morton.CodeType {
    if t.M32? then Morton.M32 else if t.M64? then Morton.M64 else if t.M128? then Morton.M128 else Morton.M192
  }

  /** The number little-endian bytes stand for, each byte by its weight. */
  function Unsigned(raw: seq<byte>): nat {
    if raw == [] then 0 else Unsigned(raw[..|raw| - 1]) + raw[|raw| - 1] * Pow256(|raw| - 1)
  }

  /** In two's complement the upper half of the range stands for the negative numbers. */
  function Number(raw: seq<byte>, signed: bool): int {
    if signed && 2 * Unsigned(raw) >= Pow256(|raw|) then Unsigned(raw) - Pow256(|raw|) else Unsigned(raw)
  }

  predicate Fits(v: int, t: Type)
    requires IntegerOf(t).Integer?
  {
    var n: int := Pow256(IntegerOf(t).width);
    if IntegerOf(t).signed then -n <= 2 * v < n else 0 <= v < n
  }

  /** A number as an element of type t. */
  function Element(v: int, t: Type): (raw: seq<byte>)
    requires IntegerOf(t).Integer?
    ensures |raw| == IntegerOf(t).width
  {
    LittleEndian(v % Pow256(IntegerOf(t).width), IntegerOf(t).width)
  }

  // ---- what widening computes ----------------------------------------------------------------------

  lemma {:induction false} FromLittleEndianAppend(a: seq<byte>, b: seq<byte>)
    ensures FromLittleEndian(a + b) == FromLittleEndian(a) + Pow256(|a|) * FromLittleEndian(b)
  {
    if a == [] {
      assert a + b == b;
    } else {
      FromLittleEndianAppend(a[1..], b);
      FirstByte(a);
      FirstByte(a + b);
      assert (a + b)[1..] == a[1..] + b;
      hide Pow256, FromLittleEndian;
      Times256(Pow256(|a| - 1), FromLittleEndian(b));
    }
  }

  lemma FirstByte(a: seq<byte>)
    requires a != []
    ensures FromLittleEndian(a) == a[0] + 256 * FromLittleEndian(a[1..]) && Pow256(|a|) == 256 * Pow256(|a| - 1)
  {
  }

  lemma Times256(p: nat, x: nat)
    ensures 256 * (p * x) == (256 * p) * x
  {
  }

  lemma OneByte(b: byte)
    ensures FromLittleEndian([b]) == b
  {
    assert [b][1..] == [];
  }

  lemma {:induction false} UnsignedIsLittleEndian(raw: seq<byte>)
    ensures Unsigned(raw) == FromLittleEndian(raw) < Pow256(|raw|)
  {
    hide Pow256, FromLittleEndian;
    FromLittleEndianBound(raw);
    if raw == [] {
      NoBytes();
    } else {
      var init, last := raw[..|raw| - 1], raw[|raw| - 1];
      UnsignedIsLittleEndian(init);
      FromLittleEndianAppend(init, [last]);
      OneByte(last);
      assert raw == init + [last];
    }
  }

  lemma NoBytes()
    ensures FromLittleEndian([]) == 0
  {
  }

  /** The sign bit is the top bit of the last byte. */
  lemma SignBit(raw: seq<byte>)
    requires raw != []
    ensures 2 * Unsigned(raw) >= Pow256(|raw|) <==> raw[|raw| - 1] >= 128
  {
    var init, last, p := raw[..|raw| - 1], raw[|raw| - 1], Pow256(|raw| - 1);
    UnsignedIsLittleEndian(init);
    FirstByte(raw);
    assert Unsigned(raw) == Unsigned(init) + last * p;
    hide Pow256, Unsigned, FromLittleEndian;
    Half(last, p, Unsigned(init));
  }

  lemma Half(b: byte, p: nat, low: nat)
    requires low < p
    ensures 2 * (low + b * p) >= 256 * p <==> b >= 128
  {
    if b >= 128 {
      assert b * p >= 128 * p;
    } else {
      assert b * p <= 127 * p;
    }
  }

  lemma {:induction false} Filled(m: nat, b: byte)
    requires b == 0 || b == 255
    ensures FromLittleEndian(seq(m, _ => b)) == if b == 0 then 0 else Pow256(m) - 1
  {
    if m > 0 {
      Filled(m - 1, b);
      assert seq(m, _ => b)[1..] == seq(m - 1, _ => b);
    }
  }

  lemma {:induction false} Pow256Split(m: nat, n: nat)
    ensures Pow256(m + n) == Pow256(m) * Pow256(n)
  {
    if m > 0 {
      Pow256Split(m - 1, n);
      assert Pow256(m) == 256 * Pow256(m - 1) && Pow256(m + n) == 256 * Pow256(m - 1 + n);
      hide Pow256;
      Times256(Pow256(m - 1), Pow256(n));
    }
  }

  lemma ModOf(v: int, m: nat, r: nat)
    requires m > 0 && r < m && (v == r || v == r - m)
    ensures v % m == r
  {
    DivModUnique(v, m, if v == r then 0 else -1, r);
  }

  /** widen_key computes the element's number as a 64-bit word, negative numbers modulo 2^64; this holds for
      every integer type and for no other width. */
  lemma WidenIsNumber(raw: seq<byte>, t: Type)
    requires IntegerOf(t).Integer? && |raw| == IntegerOf(t).width
    ensures Widen(raw, t) == Number(raw, IntegerOf(t).signed) % Pow256(8)
    ensures TypeSize(t) == IntegerOf(t).width && IntegerOf(t).width <= 8
  {
    hide Pow256, Unsigned, FromLittleEndian, Widen, SignByte;
    UnsignedIsLittleEndian(raw);
    SignBit(raw);
    WidenPads(raw, t);
    SignByteIs(raw, t);
    WidenBound(raw, t);
    Filled(8 - |raw|, SignByte(raw, t));
    Pow256Split(|raw|, 8 - |raw|);
    LessOne(Pow256(|raw|), Pow256(8 - |raw|));
    ModOf(Number(raw, IntegerOf(t).signed), Pow256(8), Widen(raw, t));
  }

  lemma WidenPads(raw: seq<byte>, t: Type)
    requires |raw| <= 8
    ensures Widen(raw, t) == FromLittleEndian(raw) + Pow256(|raw|) * FromLittleEndian(seq(8 - |raw|, _ => SignByte(raw, t)))
  {
    hide Pow256, FromLittleEndian, SignByte;
    var pad: seq<byte> := seq(8 - |raw|, _ => SignByte(raw, t));
    FromLittleEndianAppend(raw, pad);
    assert |raw| == 8 ==> raw + pad == raw;
  }

  lemma SignByteIs(raw: seq<byte>, t: Type)
    requires IntegerOf(t).Integer? && |raw| == IntegerOf(t).width
    ensures SignByte(raw, t) == if IntegerOf(t).signed && raw[|raw| - 1] >= 128 then 255 else 0
    ensures TypeSize(t) == IntegerOf(t).width && 0 < IntegerOf(t).width <= 8
  {
  }

  lemma LessOne(p: nat, q: nat)
    ensures p * (q - 1) == p * q - p
  {
  }

  lemma WidenBound(raw: seq<byte>, t: Type)
    requires |raw| <= 8
    ensures Widen(raw, t) < Pow256(8)
  {
    FromLittleEndianBound(Padded(raw, t));
  }

  /** A number that fits its type is read back from its element. */
  lemma NumberOfElement(v: int, t: Type)
    requires IntegerOf(t).Integer? && Fits(v, t)
    ensures Number(Element(v, t), IntegerOf(t).signed) == v
  {
    var w, raw := IntegerOf(t).width, Element(v, t);
    var m := Pow256(w);
    ModOf(v, m, if v < 0 then v + m else v);
    LittleEndianRoundTrip(v % m, w);
    UnsignedIsLittleEndian(raw);
  }

  // ---- which units are joined ------------------------------------------------------------------------

  /** A unit is joined exactly when it lacks the new name, has the key as a single-component attribute of one
      of the eight integer types, and stores at least one whole element of it. */
  lemma JoinableExactly(u: Unit, a: Declared)
    ensures
      var k := Find(u.attributes, a.keyName);
      Joinable(u, a) <==>
        && Find(u.attributes, a.name).None?
        && k.Some? && k.value < |u.storage| && u.attributes[k.value].components == 1
        && IntegerOf(u.attributes[k.value].kind).Integer?
        && |u.storage[k.value]| >= IntegerOf(u.attributes[k.value].kind).width
  {
    hide Widened;
  }

  function Elements(vs: seq<int>, t: Type): (r: seq<seq<byte>>)
    requires IntegerOf(t).Integer?
    ensures |r| == |vs| && Sized(r, IntegerOf(t).width)
    ensures forall p :: 0 <= p < |vs| ==> r[p] == Element(vs[p], t)
  {
    seq(|vs|, p requires 0 <= p < |vs| => Element(vs[p], t))
  }

  /** The unit's key attribute stores the numbers `vs`, one a point, in some integer type. */
  ghost predicate StoresKeys(u: Unit, keyName: string, vs: seq<int>) {
    && var k := Find(u.attributes, keyName);
    && k.Some? && k.value < |u.storage| && u.attributes[k.value].components == 1
    && var t := u.attributes[k.value].kind;
    && IntegerOf(t).Integer? && (forall p :: 0 <= p < |vs| ==> Fits(vs[p], t))
    && u.storage[k.value] == Flatten(Elements(vs, t))
  }

  /** A number as the 64-bit word the join compares. */
  function Word(v: int): (k: nat)
    ensures IsKey(k)
  {
    v % Pow256(8)
  }

  lemma KeysAreWords(u: Unit, keyName: string, vs: seq<int>)
    requires StoresKeys(u, keyName, vs) && vs != []
    ensures
      var keys := KeyColumn(u, keyName);
      keys.Some? && |keys.value| == |vs| && forall p :: 0 <= p < |vs| ==> keys.value[p] == Word(vs[p])
  {
    hide Element, Widen, Fits, Word;
    var t := u.attributes[Find(u.attributes, keyName).value].kind;
    var raws := Elements(vs, t);
    IntegerWidth(t);
    RecordsOfFlatten(raws, TypeSize(t), []);
    FlattenLength(raws, TypeSize(t));
    SomeBytes(|vs|, TypeSize(t));
    assert Flatten(raws) + [] == Flatten(raws);
    forall p | 0 <= p < |vs|
      ensures Widen(raws[p], t) == Word(vs[p])
    {
      WidenElement(vs[p], t);
    }
  }

  lemma SomeBytes(n: nat, size: nat)
    requires n > 0 && size > 0
    ensures n * size > 0
  {
  }

  lemma IntegerWidth(t: Type)
    requires IntegerOf(t).Integer?
    ensures IsInteger(t) && TypeSize(t) == IntegerOf(t).width
  {
  }

  lemma WidenElement(v: int, t: Type)
    requires IntegerOf(t).Integer? && Fits(v, t)
    ensures Widen(Element(v, t), t) == Word(v)
  {
    hide Element, Number, Widen, Fits;
    NumberOfElement(v, t);
    WidenIsNumber(Element(v, t), t);
  }

  // ---- which value a point receives ------------------------------------------------------------------

  /** Entry j is the last one added under the key. */
  ghost predicate LastUnder(keys: seq<nat>, key: nat, j: nat) {
    j < |keys| && keys[j] == key && forall i :: j < i < |keys| ==> keys[i] != key
  }

  /** The table of a log of entries: the last value added under the key, zeros if there is none. */
  lemma {:induction false} TableIsLastAdded(keys: seq<nat>, values: seq<seq<byte>>, key: nat, size: nat)
    requires |keys| == |values| && forall i :: 0 <= i < |keys| ==> IsKey(keys[i])
    ensures
      var v := ValueFor(EntryRecords(keys, values), key, size);
      && (forall j: nat :: LastUnder(keys, key, j) ==> v == values[j])
      && (key !in keys ==> v == Zeros(size))
    decreases |keys|
  {
    hide Entry, IsKey, Key, Payload;
    if keys != [] {
      var n := |keys| - 1;
      var log := EntryRecords(keys, values);
      assert log[..n] == EntryRecords(keys[..n], values[..n]);
      TableIsLastAdded(keys[..n], values[..n], key, size);
      KeyOfEntry(keys[n], values[n]);
      forall j: nat | LastUnder(keys, key, j)
        ensures ValueFor(log, key, size) == values[j]
      {
        assert j < n ==> LastUnder(keys[..n], key, j);
      }
    }
  }

  /** Successive add_data calls make one log of entries. */
  lemma EntriesAppend(keys: seq<nat>, values: seq<seq<byte>>, moreKeys: seq<nat>, moreValues: seq<seq<byte>>)
    requires |keys| == |values| && |moreKeys| == |moreValues|
    ensures EntryRecords(keys, values) + EntryRecords(moreKeys, moreValues) == EntryRecords(keys + moreKeys, values + moreValues)
  {
  }

  /** Point p's share of a column. */
  function Cell(blob: seq<byte>, p: nat, size: nat): (c: seq<byte>)
    requires (p + 1) * size <= |blob|
  {
    CellFits(p, size);
    blob[p * size..p * size + size]
  }

  lemma CellFits(p: nat, size: nat)
    ensures 0 <= p * size <= p * size + size == (p + 1) * size
  {
  }

  lemma {:induction false} CellOfFlatten(records: seq<seq<byte>>, size: nat, p: nat)
    requires Sized(records, size) && p < |records|
    ensures (p + 1) * size <= |Flatten(records)| && Cell(Flatten(records), p, size) == records[p]
    decreases p
  {
    var front, back := records[..p], records[p..];
    assert records == front + back;
    FlattenAppend(front, back);
    FlattenLength(front, size);
    FlattenLength(records, size);
    CellFits(p, size);
    assert Flatten(back) == records[p] + Flatten(back[1..]);
    MulAtMost(p + 1, |records|, size);
  }

  lemma MulAtMost(a: nat, b: nat, m: nat)
    requires a <= b
    ensures a * m <= b * m
  {
  }

  lemma ColumnSized(keys: seq<nat>, addedKeys: seq<nat>, values: seq<seq<byte>>, size: nat)
    requires |addedKeys| == |values| && Sized(values, size) && forall i :: 0 <= i < |addedKeys| ==> IsKey(addedKeys[i])
    ensures Sized(Column(keys, EntryRecords(addedKeys, values), size), size)
  {
    hide ValueFor, IsKey, EntryRecords;
    forall p | 0 <= p < |keys|
      ensures |ValueFor(EntryRecords(addedKeys, values), keys[p], size)| == size
    {
      TableIsLastAdded(addedKeys, values, keys[p], size);
      if keys[p] in addedKeys {
        var j := FindLast(addedKeys, keys[p]);
      }
    }
  }

  lemma {:induction false} FindLast(keys: seq<nat>, key: nat) returns (j: nat)
    requires key in keys
    ensures LastUnder(keys, key, j)
    decreases |keys|
  {
    j := |keys| - 1;
    if keys[j] != key {
      j := FindLast(keys[..j], key);
    }
  }

  /** End to end: in a unit that lacks the name and keys its points by the numbers `vs`, of any integer type,
      every point receives the last value added under its number modulo 2^64, and zeros if there is none. */
  lemma PointGetsLastValue(u: Unit, a: Declared, vs: seq<int>, keys: seq<nat>, values: seq<seq<byte>>, p: nat)
    requires Aligned(u) && Find(u.attributes, a.name).None? && StoresKeys(u, a.keyName, vs) && p < |vs|
    requires |keys| == |values| && Sized(values, a.ElementSize()) && forall i :: 0 <= i < |keys| ==> IsKey(keys[i])
    ensures
      var blob, size := Read(AmendUnit(u, a, EntryRecords(keys, values)), a.name), a.ElementSize();
      && blob.Some? && |blob.value| == |vs| * size && (p + 1) * size <= |blob.value|
      && (forall j: nat :: LastUnder(keys, Word(vs[p]), j) ==> Cell(blob.value, p, size) == values[j])
      && (Word(vs[p]) !in keys ==> Cell(blob.value, p, size) == Zeros(size))
  {
    hide StoresKeys, KeyColumn, ValueFor, EntryRecords, Word, IsKey, AmendUnit, Read, Flatten, Cell;
    var log, size := EntryRecords(keys, values), a.ElementSize();
    KeysAreWords(u, a.keyName, vs);
    var column := Column(KeyColumn(u, a.keyName).value, log, size);
    AmendKeepsOtherSlots(u, a, log, a.name);
    ColumnSized(KeyColumn(u, a.keyName).value, keys, values, size);
    FlattenLength(column, size);
    CellOfFlatten(column, size, p);
    TableIsLastAdded(keys, values, Word(vs[p]), size);
  }

  // ---- several attributes at once ----------------------------------------------------------------------

  /** What an attribute makes of a unit that keys its points. */
  function JoinedColumn(u: Unit, a: Declared, log: seq<Record>): seq<byte>
    requires KeyColumn(u, a.keyName).Some?
  {
    Flatten(Column(KeyColumn(u, a.keyName).value, log, a.ElementSize()))
  }

  /** Amending a unit leaves every key column it had. */
  lemma AmendKeepsKeys(u: Unit, a: Declared, log: seq<Record>, keyName: string)
    requires Aligned(u) && KeyColumn(u, keyName).Some?
    ensures KeyColumn(AmendUnit(u, a, log), keyName) == KeyColumn(u, keyName)
  {
    FindAppend(u.attributes, a.AsAttribute(), keyName);
    hide Widened, Column, IsInteger;
  }

  ghost predicate NewNames(u: Unit, declared: seq<Declared>) {
    && (forall j, k :: 0 <= j < k < |declared| ==> declared[j].name != declared[k].name)
    && (forall k :: 0 <= k < |declared| ==> Find(u.attributes, declared[k].name).None?)
  }

  /** Every declared attribute whose key the unit has reads its joined column; what the unit had reads as
      before, and nothing else is there. */
  ghost predicate Lands(u: Unit, v: Unit, declared: seq<Declared>, logs: seq<seq<Record>>)
    requires |declared| == |logs|
  {
    && Aligned(v)
    && (forall k :: 0 <= k < |declared| && KeyColumn(u, declared[k].keyName).Some? ==>
          Find(v.attributes, declared[k].name).Some? && Read(v, declared[k].name) == Some(JoinedColumn(u, declared[k], logs[k])))
    && (forall name :: Find(u.attributes, name).Some? ==> Find(v.attributes, name).Some? && Read(v, name) == Read(u, name))
    && (forall name :: Find(u.attributes, name).None? && (forall k :: 0 <= k < |declared| ==> declared[k].name != name) ==>
          Find(v.attributes, name).None?)
    && (forall keyName :: KeyColumn(u, keyName).Some? ==> KeyColumn(v, keyName) == KeyColumn(u, keyName))
  }

  lemma NoneLands(u: Unit)
    requires Aligned(u)
    ensures Lands(u, u, [], [])
  {
  }

  lemma OneMoreLands(u: Unit, v: Unit, declared: seq<Declared>, logs: seq<seq<Record>>, a: Declared, log: seq<Record>)
    requires |declared| == |logs| && Lands(u, v, declared, logs) && Find(u.attributes, a.name).None?
    requires forall k :: 0 <= k < |declared| ==> declared[k].name != a.name
    ensures Lands(u, AmendUnit(v, a, log), declared + [a], logs + [log])
  {
    hide KeyColumn, AmendUnit, Read, JoinedColumn;
    var w, all, allLogs := AmendUnit(v, a, log), declared + [a], logs + [log];
    forall name
      ensures Find(v.attributes, name).Some? ==> Find(w.attributes, name).Some? && Read(w, name) == Read(v, name)
      ensures Find(v.attributes, name).None? && name != a.name ==> Find(w.attributes, name).None?
    {
      AmendKeepsOtherSlots(v, a, log, name);
      AmendKeepsFound(v, a, log, name);
    }
    forall keyName | KeyColumn(v, keyName).Some?
      ensures KeyColumn(w, keyName) == KeyColumn(v, keyName)
    {
      AmendKeepsKeys(v, a, log, keyName);
    }
    assert Aligned(w) by {
      AmendKeepsOtherSlots(v, a, log, a.name);
    }
    forall k | 0 <= k < |all| && KeyColumn(u, all[k].keyName).Some?
      ensures Find(w.attributes, all[k].name).Some? && Read(w, all[k].name) == Some(JoinedColumn(u, all[k], allLogs[k]))
    {
      if k == |declared| {
        NewNameReads(u, v, a, log);
      } else {
        assert all[k] == declared[k] && allLogs[k] == logs[k];
      }
    }
    forall name | Find(u.attributes, name).None? && forall k :: 0 <= k < |all| ==> all[k].name != name
      ensures Find(w.attributes, name).None?
    {
      assert all[|declared|] == a;
      assert forall k :: 0 <= k < |declared| ==> declared[k] == all[k];
    }
  }

  lemma AmendKeepsFound(v: Unit, a: Declared, log: seq<Record>, name: string)
    ensures Find(v.attributes, name).Some? ==> Find(AmendUnit(v, a, log).attributes, name).Some?
    ensures Find(v.attributes, name).None? && name != a.name ==> Find(AmendUnit(v, a, log).attributes, name).None?
  {
    FindAppend(v.attributes, a.AsAttribute(), name);
  }

  lemma NewNameReads(u: Unit, v: Unit, a: Declared, log: seq<Record>)
    requires Aligned(v) && Find(v.attributes, a.name).None? && KeyColumn(u, a.keyName).Some? && KeyColumn(v, a.keyName) == KeyColumn(u, a.keyName)
    ensures var w := AmendUnit(v, a, log); Find(w.attributes, a.name).Some? && Read(w, a.name) == Some(JoinedColumn(u, a, log))
  {
    hide KeyColumn, Flatten, Column;
    AmendKeepsOtherSlots(v, a, log, a.name);
    FindAppend(v.attributes, a.AsAttribute(), a.name);
  }

  /** One commit lands every declared attribute, whatever else is committed with it. */
  lemma {:induction false} CommitLandsEvery(units: seq<Unit>, declared: seq<Declared>, logs: seq<seq<Record>>, i: nat)
    requires |declared| == |logs| && i < |units| && Aligned(units[i]) && NewNames(units[i], declared)
    ensures |AmendEach(units, declared, logs)| == |units| && Lands(units[i], AmendEach(units, declared, logs)[i], declared, logs)
    decreases |declared|
  {
    hide Lands, AmendUnit;
    if declared == [] {
      NoneLands(units[i]);
    } else {
      var n := |declared| - 1;
      CommitLandsEvery(units, declared[..n], logs[..n], i);
      var before := AmendEach(units, declared[..n], logs[..n]);
      OneMoreLands(units[i], before[i], declared[..n], logs[..n], declared[n], logs[n]);
      assert declared[..n] + [declared[n]] == declared && logs[..n] + [logs[n]] == logs;
    }
  }
}
