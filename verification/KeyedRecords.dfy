/** Keyed records and what it means to sort them stably by key. */
module KeyedRecords {
  import opened Bytes

  type Record = seq<byte>

  /** record_key: the first eight bytes, little-endian. */
  function Key(r: Record): nat { FromLittleEndian(if |r| >= 8 then r[..8] else r) }

  ghost predicate SortedByKey(s: seq<Record>) {
    forall i, j :: 0 <= i < j < |s| ==> Key(s[i]) <= Key(s[j])
  }

  /** The records of `s` that carry key `k`, in their order. */
  function WithKey(s: seq<Record>, k: nat): seq<Record> {
    if s == [] then [] else (if Key(s[0]) == k then [s[0]] else []) + WithKey(s[1..], k)
  }

  /** `out` is the stable sort of `input`: sorted, and equal keys keep their arrival order. */
  ghost predicate StableSortOf(out: seq<Record>, input: seq<Record>) {
    SortedByKey(out) && forall k: nat :: WithKey(out, k) == WithKey(input, k)
  }

  lemma {:induction false} WithKeyAppend(a: seq<Record>, b: seq<Record>, k: nat)
    ensures WithKey(a + b, k) == WithKey(a, k) + WithKey(b, k)
  {
    if a == [] {
      assert a + b == b;
    } else {
      assert (a + b)[1..] == a[1..] + b;
      WithKeyAppend(a[1..], b, k);
    }
  }

  lemma WithKeyCons(x: Record, s: seq<Record>, k: nat)
    ensures WithKey([x] + s, k) == (if Key(x) == k then [x] else []) + WithKey(s, k)
  {
    assert ([x] + s)[1..] == s;
  }

  lemma {:induction false} WithKeyNone(s: seq<Record>, k: nat)
    requires forall i :: 0 <= i < |s| ==> Key(s[i]) != k
    ensures WithKey(s, k) == []
  {
    if s != [] {
      WithKeyNone(s[1..], k);
    }
  }

  lemma {:induction false} WithKeySome(s: seq<Record>, i: nat)
    requires i < |s|
    ensures s[i] in WithKey(s, Key(s[i]))
  {
    if i > 0 {
      WithKeySome(s[1..], i - 1);
    }
  }

  lemma {:induction false} WithKeyMember(s: seq<Record>, k: nat, r: Record)
    requires r in WithKey(s, k)
    ensures Key(r) == k && r in s
  {
    if r in WithKey(s[1..], k) {
      WithKeyMember(s[1..], k, r);
    }
  }

  lemma {:induction false} CountByKey(s: seq<Record>, r: Record)
    ensures multiset(s)[r] == multiset(WithKey(s, Key(r)))[r]
  {
    if s != [] {
      assert s == [s[0]] + s[1..];
      CountByKey(s[1..], r);
    }
  }

  /** A stable sort loses, adds and duplicates nothing. */
  lemma StableSortIsPermutation(out: seq<Record>, input: seq<Record>)
    requires StableSortOf(out, input)
    ensures multiset(out) == multiset(input)
  {
    forall r: Record
      ensures multiset(out)[r] == multiset(input)[r]
    {
      CountByKey(out, r);
      CountByKey(input, r);
    }
  }

  lemma SmallestKeyFirst(a: seq<Record>, b: seq<Record>)
    requires SortedByKey(a) && SortedByKey(b) && forall k: nat :: WithKey(a, k) == WithKey(b, k)
    requires a != []
    ensures b != [] && Key(b[0]) <= Key(a[0])
  {
    WithKeySome(a, 0);
    WithKeyMember(b, Key(a[0]), a[0]);
  }

  /** There is only one stable sort of a sequence. */
  lemma {:induction false} StableSortUnique(a: seq<Record>, b: seq<Record>)
    requires SortedByKey(a) && SortedByKey(b) && forall k: nat :: WithKey(a, k) == WithKey(b, k)
    ensures a == b
  {
    if a == [] {
      if b != [] {
        SmallestKeyFirst(b, a);
        assert false;
      }
    } else {
      SmallestKeyFirst(a, b);
      SmallestKeyFirst(b, a);
      var k := Key(a[0]);
      assert WithKey(a, k)[0] == a[0] && WithKey(b, k)[0] == b[0];
      forall k': nat
        ensures WithKey(a[1..], k') == WithKey(b[1..], k')
      {
        assert WithKey(a, k') == (if k == k' then [a[0]] else []) + WithKey(a[1..], k');
        assert WithKey(b, k') == (if k == k' then [a[0]] else []) + WithKey(b[1..], k');
        assert WithKey(a[1..], k') == WithKey(a, k')[(if k == k' then 1 else 0)..];
      }
      StableSortUnique(a[1..], b[1..]);
    }
  }

  /** std::stable_sort of one run, written as an insertion sort. */
  function StableSort(s: seq<Record>): seq<Record> {
    if s == [] then [] else Insert(s[0], StableSort(s[1..]))
  }

  function Insert(x: Record, s: seq<Record>): seq<Record> {
    if s == [] || Key(x) <= Key(s[0]) then [x] + s else [s[0]] + Insert(x, s[1..])
  }

  lemma {:induction false} InsertKeepsOrder(x: Record, s: seq<Record>, k: nat)
    ensures WithKey(Insert(x, s), k) == WithKey([x] + s, k)
  {
    hide Key, WithKey;
    if s != [] && Key(x) > Key(s[0]) {
      InsertKeepsOrder(x, s[1..], k);
      WithKeyCons(s[0], Insert(x, s[1..]), k);
      WithKeyCons(x, s[1..], k);
      WithKeyCons(x, s, k);
      WithKeyCons(s[0], s[1..], k);
      assert s == [s[0]] + s[1..];
    }
  }

  lemma {:induction false} InsertSorts(x: Record, s: seq<Record>)
    requires SortedByKey(s)
    ensures SortedByKey(Insert(x, s))
    ensures forall i :: 0 <= i < |Insert(x, s)| ==> Insert(x, s)[i] == x || Insert(x, s)[i] in s
  {
    if s != [] && Key(x) > Key(s[0]) {
      InsertSorts(x, s[1..]);
      var t := Insert(x, s[1..]);
      assert Insert(x, s) == [s[0]] + t;
    }
  }

  lemma {:induction false} StableSortIsStable(s: seq<Record>)
    ensures StableSortOf(StableSort(s), s)
  {
    if s != [] {
      StableSortIsStable(s[1..]);
      var t := StableSort(s[1..]);
      InsertSorts(s[0], t);
      forall k: nat
        ensures WithKey(StableSort(s), k) == WithKey(s, k)
      {
        InsertKeepsOrder(s[0], t, k);
        assert ([s[0]] + t)[1..] == t;
        assert WithKey(t, k) == WithKey(s[1..], k);
      }
    }
  }
}
