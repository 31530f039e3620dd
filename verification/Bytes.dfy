/** Bytes, little-endian numbers and fixed-width records: the vocabulary shared by the spill files
    and the registry snapshot. */
module Bytes {

  datatype Option<+T> = None | Some(value: T)

  type byte = x: int | 0 <= x < 256

  function Zeros(n: nat): (z: seq<byte>)
    ensures |z| == n
  {
    seq(n, _ => 0)
  }

  /** The bytes of a sequence of records, one after the other. */
  function Flatten<T>(records: seq<seq<T>>): seq<T> {
    if records == [] then [] else records[0] + Flatten(records[1..])
  }

  /** Cut a byte string into records of `size` bytes; a trailing partial record is dropped. */
  function Records(bytes: seq<byte>, size: nat): (r: seq<seq<byte>>)
    requires size > 0
    decreases |bytes|
  {
    if |bytes| < size then [] else [bytes[..size]] + Records(bytes[size..], size)
  }

  ghost predicate Sized(records: seq<seq<byte>>, size: nat) {
    forall i :: 0 <= i < |records| ==> |records[i]| == size
  }

  lemma {:induction false} FlattenAppend<T>(a: seq<seq<T>>, b: seq<seq<T>>)
    ensures Flatten(a + b) == Flatten(a) + Flatten(b)
  {
    if a == [] {
      assert a + b == b;
    } else {
      assert (a + b)[1..] == a[1..] + b;
      FlattenAppend(a[1..], b);
    }
  }

  lemma PrefixSnoc<T>(s: seq<T>, i: nat)
    requires i < |s|
    ensures s[..i + 1] == s[..i] + [s[i]]
  {
  }

  lemma FlattenSnoc<T>(a: seq<seq<T>>, r: seq<T>)
    ensures Flatten(a + [r]) == Flatten(a) + r
  {
    FlattenAppend(a, [r]);
    assert [r][1..] == [];
    assert Flatten([r]) == r;
  }

  lemma {:induction false} FlattenLength(records: seq<seq<byte>>, size: nat)
    requires Sized(records, size)
    ensures |Flatten(records)| == |records| * size
  {
    if records != [] {
      FlattenLength(records[1..], size);
      assert |records| * size == size + (|records| - 1) * size;
    }
  }

  /** Cutting undoes concatenation, and a partial tail never yields a record. */
  lemma {:induction false} RecordsOfFlatten(records: seq<seq<byte>>, size: nat, tail: seq<byte>)
    requires size > 0 && Sized(records, size) && |tail| < size
    ensures Records(Flatten(records) + tail, size) == records
  {
    if records == [] {
      assert Flatten(records) + tail == tail;
    } else {
      var bytes := Flatten(records) + tail;
      assert bytes[..size] == records[0];
      assert bytes[size..] == Flatten(records[1..]) + tail;
      RecordsOfFlatten(records[1..], size, tail);
    }
  }

  /** The partial record a byte string ends in. */
  function Tail(bytes: seq<byte>, size: nat): (t: seq<byte>)
    requires size > 0
    ensures |t| < size
    decreases |bytes|
  {
    if |bytes| < size then bytes else Tail(bytes[size..], size)
  }

  /** Reading one record off the front leaves the other records and the tail. */
  lemma StreamStep(record: seq<byte>, rest: seq<byte>, size: nat)
    requires size > 0 && |record| == size
    ensures Records(record + rest, size) == [record] + Records(rest, size)
    ensures Tail(record + rest, size) == Tail(rest, size)
  {
    assert (record + rest)[..size] == record && (record + rest)[size..] == rest;
  }

  lemma {:induction false} TailLength(bytes: seq<byte>, size: nat)
    requires size > 0
    ensures |Tail(bytes, size)| == |bytes| % size
    decreases |bytes|
  {
    if |bytes| < size {
      DivModUnique(|bytes|, size, 0, |bytes|);
    } else {
      TailLength(bytes[size..], size);
      OneLess(|bytes|, size);
    }
  }

  lemma OneLess(n: nat, m: nat)
    requires 0 < m <= n
    ensures n % m == (n - m) % m
  {
    var q, r := (n - m) / m, (n - m) % m;
    assert (q + 1) * m == q * m + m;
    DivModUnique(n, m, q + 1, r);
  }

  lemma DivModUnique(a: int, m: int, q: int, r: int)
    requires m > 0 && a == q * m + r && 0 <= r < m
    ensures a / m == q && a % m == r
  {
    var d := a / m - q;
    assert d * m == r - a % m;
    assert -m < d * m < m;
    assert d == 0;
  }

  /** `n` in exactly `width` little-endian bytes. */
  function LittleEndian(n: nat, width: nat): (b: seq<byte>)
    ensures |b| == width
  {
    if width == 0 then [] else [n % 256] + LittleEndian(n / 256, width - 1)
  }

  function FromLittleEndian(b: seq<byte>): nat {
    if b == [] then 0 else b[0] + 256 * FromLittleEndian(b[1..])
  }

  function Pow256(width: nat): (p: nat)
    ensures p >= 1
  {
    if width == 0 then 1 else 256 * Pow256(width - 1)
  }

  /** A number survives the round trip exactly when it fits its width. */
  lemma {:induction false} LittleEndianRoundTrip(n: nat, width: nat)
    ensures FromLittleEndian(LittleEndian(n, width)) == n <==> n < Pow256(width)
    ensures n < Pow256(width) ==> FromLittleEndian(LittleEndian(n, width)) == n
  {
    if width != 0 {
      LittleEndianRoundTrip(n / 256, width - 1);
      assert LittleEndian(n, width)[1..] == LittleEndian(n / 256, width - 1);
    }
  }

  lemma {:induction false} FromLittleEndianBound(b: seq<byte>)
    ensures FromLittleEndian(b) < Pow256(|b|)
    ensures LittleEndian(FromLittleEndian(b), |b|) == b
  {
    if b != [] {
      FromLittleEndianBound(b[1..]);
      assert FromLittleEndian(b) / 256 == FromLittleEndian(b[1..]);
      assert b == [b[0]] + b[1..];
    }
  }
}
