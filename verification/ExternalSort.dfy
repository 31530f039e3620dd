/** sort_spill_by_key: run formation and a k-way merge in bounded memory. No ordinal is stored with
    a record; stability comes from contiguous runs, a stable sort inside each, and ties between runs
    broken by run index. */
module ExternalSort {
  import opened Bytes
  import opened KeyedRecords
  import opened SpillFiles

  // ---- run formation --------------------------------------------------------------------------

  /** Stage up to `perRun` records. */
  method StageBlock(input: SpillFile, perRun: nat) returns (block: seq<Record>, more: bool, error: bool)
    requires input.Reader() && perRun > 0
    modifies input, input.buffer
    ensures input.Reader()
    ensures block + Records(input.Pending(), input.recordSize) == Records(old(input.Pending()), input.recordSize)
    ensures Tail(input.Pending(), input.recordSize) == Tail(old(input.Pending()), input.recordSize)
    ensures |input.Pending()| <= |old(input.Pending())|
    ensures Sized(block, input.recordSize) && |block| <= perRun
    ensures more ==> !error && |block| == perRun && |input.Pending()| < |old(input.Pending())|
    ensures !more ==> |input.Pending()| < input.recordSize && (error <==> input.Pending() != [])
  {
    block, more, error := [], true, false;
    ghost var size, start := input.recordSize, input.Pending();
    while more && |block| < perRun
      invariant input.Reader()
      invariant block + Records(input.Pending(), size) == Records(start, size)
      invariant Tail(input.Pending(), size) == Tail(start, size)
      invariant |input.Pending()| <= |start| && (block != [] ==> |input.Pending()| < |start|)
      invariant Sized(block, size) && |block| <= perRun
      invariant !more ==> |input.Pending()| < size && (error <==> input.Pending() != [])
      invariant more ==> !error
      decreases more, perRun - |block|
    {
      var ok, record, err := input.Next();
      if ok {
        StreamStep(record, input.Pending(), size);
        assert block + ([record] + Records(input.Pending(), size)) == block + [record] + Records(input.Pending(), size);
        block := block + [record];
      } else {
        more, error := false, err;
      }
    }
  }

  method WriteRecords(block: seq<Record>, size: nat, bufferBytes: nat) returns (file: seq<byte>)
    requires size > 0 && Sized(block, size)
    ensures file == Flatten(block)
  {
    var run := new SpillFile.OpenWrite(size, bufferBytes);
    for i := 0 to |block|
      invariant run.Writer() && run.recordSize == size && fresh(run) && fresh(run.buffer)
      invariant run.Written() == Flatten(block[..i])
    {
      run.Append(block[i]);
      FlattenSnoc(block[..i], block[i]);
      assert block[..i + 1] == block[..i] + [block[i]];
    }
    assert block[..|block|] == block;
    run.Flush();
    file := run.disk;
  }

  lemma StableSortSized(block: seq<Record>, size: nat)
    requires Sized(block, size)
    ensures Sized(StableSort(block), size)
  {
    StableSortIsStable(block);
    StableSortIsPermutation(StableSort(block), block);
    forall i | 0 <= i < |StableSort(block)|
      ensures |StableSort(block)[i]| == size
    {
      assert StableSort(block)[i] in multiset(block);
    }
  }

  /** Every run is the stable sort of its own stretch of the input, and the stretches are the
      whole input in order. */
  ghost predicate RunsOf(runs: seq<seq<byte>>, blocks: seq<seq<Record>>, size: nat) {
    && |runs| == |blocks|
    && forall r :: 0 <= r < |runs| ==> Sized(blocks[r], size) && runs[r] == Flatten(StableSort(blocks[r]))
  }

  /** As many records as the budget has room for, and at least one. */
  function RecordsPerRun(budget: nat, size: nat): (n: nat)
    requires size > 0
    ensures n >= 1
  {
    Max(1, budget / size)
  }

  lemma RunFillsBudget(budget: nat, size: nat)
    requires size > 0
    ensures var n := RecordsPerRun(budget, size); (n > 1 ==> n * size <= budget) && budget < (n + 1) * size
  {
    QuotientFits(budget, size);
  }

  lemma QuotientFits(a: nat, m: nat)
    requires m > 0
    ensures a / m * m <= a < (a / m + 1) * m
    ensures a / m == 0 ==> a < 2 * m
  {
    var q := a / m;
    assert a == q * m + a % m;
    assert (q + 1) * m == q * m + m;
  }

  /** What is staged in memory at a time: every block but the last holds `perRun` records, the last no more. */
  ghost predicate Staged(blocks: seq<seq<Record>>, perRun: nat) {
    forall r :: 0 <= r < |blocks| ==> 0 < |blocks[r]| <= perRun && (r < |blocks| - 1 ==> |blocks[r]| == perRun)
  }

  lemma AddRun(runs: seq<seq<byte>>, blocks: seq<seq<Record>>, size: nat, block: seq<Record>, left: seq<Record>)
    requires RunsOf(runs, blocks, size) && Sized(block, size)
    ensures RunsOf(runs + [Flatten(StableSort(block))], blocks + [block], size)
    ensures Flatten(blocks + [block]) + left == Flatten(blocks) + (block + left)
  {
    FlattenSnoc(blocks, block);
  }

  ghost predicate AllFull(blocks: seq<seq<Record>>, perRun: nat) { forall r :: 0 <= r < |blocks| ==> |blocks[r]| == perRun }

  lemma StagedSnoc(blocks: seq<seq<Record>>, block: seq<Record>, perRun: nat)
    requires AllFull(blocks, perRun) && 0 < |block| <= perRun
    ensures Staged(blocks + [block], perRun) && (|block| == perRun ==> AllFull(blocks + [block], perRun))
  {
  }

  lemma NothingStaged(perRun: nat)
    ensures Staged([], perRun) && AllFull([], perRun)
  {
  }

  method FormRuns(source: seq<byte>, size: nat, perRun: nat, bufferBytes: nat)
    returns (runs: seq<seq<byte>>, ghost blocks: seq<seq<Record>>, error: bool)
    requires size > 0 && perRun > 0
    ensures error <==> |source| % size != 0
    ensures !error ==> RunsOf(runs, blocks, size) && Flatten(blocks) == Records(source, size) && Staged(blocks, perRun)
  {
    var input := new SpillFile.OpenRead(source, size, bufferBytes);
    runs, blocks, error := [], [], false;
    hide Staged, AllFull;
    NothingStaged(perRun);
    var more := true;
    ghost var left := source;
    TailLength(source, size);
    while more
      invariant input.Reader() && input.recordSize == size && fresh(input) && fresh(input.buffer)
      invariant left == input.Pending() && Tail(left, size) == Tail(source, size)
      invariant RunsOf(runs, blocks, size)
      invariant Flatten(blocks) + Records(left, size) == Records(source, size)
      invariant !more ==> left == []
      invariant Staged(blocks, perRun) && (more ==> AllFull(blocks, perRun))
      decreases more, |left|
    {
      var block;
      block, more, error := StageBlock(input, perRun);
      ghost var left' := input.Pending();
      assert Records(left, size) == block + Records(left', size);
      if error {
        return;
      }
      StableSortSized(block, size);
      AddRun(runs, blocks, size, block, Records(left', size));
      left := left';
      if block == [] {
        assert blocks + [block] == blocks + [[]];
        FlattenSnoc(blocks, []);
        break;
      }
      StagedSnoc(blocks, block, perRun);
      var run := WriteRecords(StableSort(block), size, bufferBytes);
      runs, blocks := runs + [run], blocks + [block];
    }
    assert Records(left, size) == [];
    assert Flatten(blocks) + [] == Flatten(blocks);
  }

  // ---- k-way merge ----------------------------------------------------------------------------

  /** The merge invariant: what is out is sorted, nothing left is smaller, and out followed by the
      leftovers in run order still has every key's records in arrival order. */
  ghost predicate Merging(out: seq<Record>, rest: seq<seq<Record>>, input: seq<Record>) {
    && SortedByKey(out)
    && (forall i, r, j :: 0 <= i < |out| && 0 <= r < |rest| && 0 <= j < |rest[r]| ==> Key(out[i]) <= Key(rest[r][j]))
    && (forall k: nat :: WithKey(out, k) + WithKey(Flatten(rest), k) == WithKey(input, k))
    && (forall r :: 0 <= r < |rest| ==> SortedByKey(rest[r]))
  }

  /** Run `r` is on top: its head is least, with ties broken towards the lower run index. */
  ghost predicate OnTop(rest: seq<seq<Record>>, r: nat) {
    && r < |rest| && rest[r] != []
    && (forall q :: 0 <= q < |rest| && rest[q] != [] ==> Key(rest[r][0]) <= Key(rest[q][0]))
    && (forall q :: 0 <= q < r && rest[q] != [] ==> Key(rest[r][0]) < Key(rest[q][0]))
  }

  lemma FlattenSplit<T>(rest: seq<seq<T>>, r: nat)
    requires r < |rest|
    ensures Flatten(rest) == Flatten(rest[..r]) + rest[r] + Flatten(rest[r + 1..])
  {
    assert rest == rest[..r] + rest[r..];
    FlattenAppend(rest[..r], rest[r..]);
    assert rest[r..][1..] == rest[r + 1..];
  }

  lemma {:induction false} EarlierRunsLack(rest: seq<seq<Record>>, k: nat)
    requires forall q :: 0 <= q < |rest| ==> SortedByKey(rest[q])
    requires forall q :: 0 <= q < |rest| && rest[q] != [] ==> k < Key(rest[q][0])
    ensures WithKey(Flatten(rest), k) == []
  {
    if rest != [] {
      EarlierRunsLack(rest[1..], k);
      WithKeyNone(rest[0], k);
      WithKeyAppend(rest[0], Flatten(rest[1..]), k);
    }
  }

  /** What is left after popping the head of run `r`. */
  function Pop(rest: seq<seq<Record>>, r: nat): seq<seq<Record>>
    requires r < |rest| && rest[r] != []
  {
    rest[r := rest[r][1..]]
  }

  lemma WithKeySplit(rest: seq<seq<Record>>, r: nat, k: nat)
    requires r < |rest|
    ensures WithKey(Flatten(rest), k)
            == WithKey(Flatten(rest[..r]), k) + (WithKey(rest[r], k) + WithKey(Flatten(rest[r + 1..]), k))
  {
    var before, after := Flatten(rest[..r]), Flatten(rest[r + 1..]);
    FlattenSplit(rest, r);
    assert before + rest[r] + after == before + (rest[r] + after);
    WithKeyAppend(before, rest[r] + after, k);
    WithKeyAppend(rest[r], after, k);
  }

  lemma Rotate<T>(o: seq<T>, b: seq<T>, h: seq<T>, t: seq<T>, a: seq<T>)
    requires b == [] || h == []
    ensures o + h + (b + (t + a)) == o + (b + ((h + t) + a))
  {
  }

  lemma NoneWithKey(k: nat)
    ensures WithKey([], k) == []
  {
  }

  lemma PopKey(out: seq<Record>, rest: seq<seq<Record>>, r: nat, k: nat)
    requires OnTop(rest, r) && forall q :: 0 <= q < |rest| ==> SortedByKey(rest[q])
    ensures WithKey(out + [rest[r][0]], k) + WithKey(Flatten(Pop(rest, r)), k)
            == WithKey(out, k) + WithKey(Flatten(rest), k)
  {
    hide WithKey, Flatten, SortedByKey, Key;
    var head, rest' := rest[r][0], Pop(rest, r);
    assert rest'[..r] == rest[..r] && rest'[r + 1..] == rest[r + 1..] && rest'[r] == rest[r][1..];
    WithKeySplit(rest, r, k);
    WithKeySplit(rest', r, k);
    var h := if Key(head) == k then [head] else [];
    WithKeyAppend(out, [head], k);
    WithKeyCons(head, [], k);
    WithKeyCons(head, rest[r][1..], k);
    assert [head] + [] == [head] && [head] + rest[r][1..] == rest[r] && h + [] == h;
    NoneWithKey(k);
    if Key(head) == k {
      EarlierRunsLack(rest[..r], k);
    }
    Rotate(WithKey(out, k), WithKey(Flatten(rest[..r]), k), h, WithKey(rest[r][1..], k),
           WithKey(Flatten(rest[r + 1..]), k));
  }

  lemma PopKeepsMerging(out: seq<Record>, rest: seq<seq<Record>>, input: seq<Record>, r: nat)
    requires Merging(out, rest, input) && OnTop(rest, r)
    ensures Merging(out + [rest[r][0]], Pop(rest, r), input)
  {
    var head, out', rest' := rest[r][0], out + [rest[r][0]], Pop(rest, r);
    forall k: nat
      ensures WithKey(out', k) + WithKey(Flatten(rest'), k) == WithKey(input, k)
    {
      PopKey(out, rest, r, k);
    }
    forall q, j | 0 <= q < |rest'| && 0 <= j < |rest'[q]|
      ensures Key(head) <= Key(rest'[q][j])
      ensures forall i :: 0 <= i < |out| ==> Key(out[i]) <= Key(rest'[q][j])
    {
      if q == r {
        assert rest'[q][j] == rest[r][j + 1];
      } else {
        assert rest'[q][j] == rest[q][j];
        assert Key(rest[q][0]) <= Key(rest[q][j]);
      }
    }
    forall i | 0 <= i < |out|
      ensures Key(out[i]) <= Key(head)
    {
      assert Key(out[i]) <= Key(rest[r][0]);
    }
  }

  lemma {:induction false} AllEmpty(rest: seq<seq<Record>>)
    requires forall r :: 0 <= r < |rest| ==> rest[r] == []
    ensures Flatten(rest) == []
  {
    if rest != [] {
      AllEmpty(rest[1..]);
    }
  }

  lemma MergedIsStableSort(out: seq<Record>, rest: seq<seq<Record>>, input: seq<Record>)
    requires Merging(out, rest, input) && forall r :: 0 <= r < |rest| ==> rest[r] == []
    ensures StableSortOf(out, input)
  {
    AllEmpty(rest);
    forall k: nat
      ensures WithKey(out, k) == WithKey(input, k)
    {
      assert WithKey(out, k) + WithKey(Flatten(rest), k) == WithKey(input, k);
      assert WithKey(out, k) + [] == WithKey(out, k);
    }
  }

  lemma {:induction false} RunsKeepArrivalOrder(blocks: seq<seq<Record>>, sorted: seq<seq<Record>>, k: nat)
    requires |sorted| == |blocks| && forall r :: 0 <= r < |blocks| ==> sorted[r] == StableSort(blocks[r])
    ensures WithKey(Flatten(sorted), k) == WithKey(Flatten(blocks), k)
  {
    if blocks != [] {
      RunsKeepArrivalOrder(blocks[1..], sorted[1..], k);
      StableSortIsStable(blocks[0]);
      WithKeyAppend(blocks[0], Flatten(blocks[1..]), k);
      WithKeyAppend(sorted[0], Flatten(sorted[1..]), k);
    }
  }

  /** The open run files: pairwise distinct readers, each with its pending bytes. */
  ghost predicate Readers(runs: seq<SpillFile>, pending: seq<seq<byte>>, size: nat)
    reads runs, set r | 0 <= r < |runs| :: runs[r].buffer
  {
    && |runs| == |pending|
    && (forall r :: 0 <= r < |runs| ==> runs[r].Reader() && runs[r].recordSize == size && runs[r].Pending() == pending[r])
    && (forall q, r :: 0 <= q < r < |runs| ==> runs[q] != runs[r] && runs[q].buffer != runs[r].buffer)
  }

  method OpenRuns(files: seq<seq<byte>>, size: nat, bufferBytes: nat) returns (runs: seq<SpillFile>)
    requires size > 0
    ensures Readers(runs, files, size)
    ensures forall r :: 0 <= r < |runs| ==> fresh(runs[r]) && fresh(runs[r].buffer)
  {
    runs := [];
    for i := 0 to |files|
      invariant |runs| == i && Readers(runs, files[..i], size)
      invariant forall r :: 0 <= r < |runs| ==> fresh(runs[r]) && fresh(runs[r].buffer)
    {
      var run := new SpillFile.OpenRead(files[i], size, bufferBytes);
      runs := runs + [run];
      assert files[..i + 1] == files[..i] + [files[i]];
    }
    assert files[..|files|] == files;
  }

  /** Read one record from run `r`; the other runs do not move. */
  method NextFrom(runs: seq<SpillFile>, ghost pending: seq<seq<byte>>, r: nat, size: nat)
    returns (ok: bool, record: Record)
    requires size > 0 && Readers(runs, pending, size) && r < |runs|
    requires |pending[r]| >= size || pending[r] == []
    modifies runs[r], runs[r].buffer
    ensures ok <==> pending[r] != []
    ensures ok ==> |pending[r]| >= size && record == pending[r][..size]
    ensures Readers(runs, if ok then pending[r := pending[r][size..]] else pending, size)
  {
    var error;
    ok, record, error := runs[r].Next();
    if ok {
      assert pending[r] == record + runs[r].Pending();
      assert runs[r].Pending() == pending[r][size..];
    }
  }

  /** The heap holds the head of every run that has one, keyed by its run index. */
  ghost predicate Heads(heap: map<nat, Record>, rest: seq<seq<Record>>) {
    && (forall r: nat :: r in heap <==> r < |rest| && rest[r] != [])
    && (forall r: nat :: r in heap ==> heap[r] == rest[r][0])
  }

  /** What the run files still hold once the heads sit in the heap. */
  ghost function Behind(rest: seq<seq<Record>>): (p: seq<seq<byte>>)
    ensures |p| == |rest|
  {
    seq(|rest|, r requires 0 <= r < |rest| => if rest[r] == [] then [] else Flatten(rest[r][1..]))
  }

  lemma HeadOfFlatten(records: seq<Record>, size: nat)
    requires size > 0 && Sized(records, size)
    ensures records == [] <==> Flatten(records) == []
    ensures records != [] ==> |Flatten(records)| >= size && Flatten(records)[..size] == records[0]
    ensures records != [] ==> Flatten(records)[size..] == Flatten(records[1..])
  {
  }

  method Top(heap: map<nat, Record>, n: nat) returns (r: nat)
    requires heap != map[] && forall q: nat :: q in heap ==> q < n
    ensures r in heap
    ensures forall q: nat :: q in heap ==> Key(heap[r]) <= Key(heap[q])
    ensures forall q: nat :: q in heap && q < r ==> Key(heap[r]) < Key(heap[q])
  {
    var found := false;
    r := 0;
    for i: nat := 0 to n
      invariant found <==> exists q: nat :: q < i && q in heap
      invariant found ==> r in heap && r < i
      invariant found ==> forall q: nat :: q in heap && q < i ==> Key(heap[r]) <= Key(heap[q])
      invariant found ==> forall q: nat :: q in heap && q < r ==> Key(heap[r]) < Key(heap[q])
    {
      if i in heap && (!found || Key(heap[i]) < Key(heap[r])) {
        found, r := true, i;
      }
    }
    assert exists q: nat :: q in heap by {
      var q :| q in heap.Keys;
    }
  }

  /** What the run files hold when the heads of the first `n` runs have been read. */
  ghost function Primed(rest: seq<seq<Record>>, n: nat): (p: seq<seq<byte>>)
    ensures |p| == |rest|
  {
    seq(|rest|, r requires 0 <= r < |rest| => if r < n then Behind(rest)[r] else Flatten(rest[r]))
  }

  lemma PrimeOne(rest: seq<seq<Record>>, r: nat, size: nat)
    requires size > 0 && r < |rest| && Sized(rest[r], size)
    ensures Primed(rest, r)[r] == Flatten(rest[r])
    ensures rest[r] == [] ==> Primed(rest, r)[r] == [] && Primed(rest, r + 1) == Primed(rest, r)
    ensures rest[r] != [] ==> |Primed(rest, r)[r]| >= size && Primed(rest, r)[r][..size] == rest[r][0]
    ensures rest[r] != [] ==> Primed(rest, r + 1) == Primed(rest, r)[r := Primed(rest, r)[r][size..]]
  {
    HeadOfFlatten(rest[r], size);
  }

  /** Fill the heap with the first record of every run. */
  method Prime(runs: seq<SpillFile>, ghost rest: seq<seq<Record>>, size: nat) returns (heap: map<nat, Record>)
    requires size > 0 && |runs| == |rest| && forall r :: 0 <= r < |rest| ==> Sized(rest[r], size)
    requires Readers(runs, seq(|rest|, r requires 0 <= r < |rest| => Flatten(rest[r])), size)
    modifies runs, set r | 0 <= r < |runs| :: runs[r].buffer
    ensures Readers(runs, Behind(rest), size) && Heads(heap, rest)
  {
    ghost var pending := Primed(rest, 0);
    assert pending == seq(|rest|, r requires 0 <= r < |rest| => Flatten(rest[r]));
    assert Primed(rest, |rest|) == Behind(rest);
    heap := map[];
    var r: nat := 0;
    hide Readers, Primed, Behind, Flatten, HeadsTo;
    NoHeads(rest);
    while r < |runs|
      invariant r <= |runs| == |pending| && Readers(runs, pending, size)
      invariant pending == Primed(rest, r) && HeadsTo(heap, rest, r)
    {
      PrimeOne(rest, r, size);
      HeadsStep(heap, rest, r);
      var ok, record := NextFrom(runs, pending, r, size);
      if ok {
        heap := heap[r := record];
      }
      r := r + 1;
      pending := Primed(rest, r);
    }
    AllHeads(heap, rest);
  }

  /** The heads of the first n runs. */
  ghost predicate HeadsTo(heap: map<nat, Record>, rest: seq<seq<Record>>, n: nat)
    requires n <= |rest|
  {
    && (forall q: nat :: q in heap <==> q < n && rest[q] != [])
    && (forall q: nat :: q in heap ==> heap[q] == rest[q][0])
  }

  lemma NoHeads(rest: seq<seq<Record>>)
    ensures HeadsTo(map[], rest, 0)
  {
  }

  lemma HeadsStep(heap: map<nat, Record>, rest: seq<seq<Record>>, r: nat)
    requires r < |rest| && HeadsTo(heap, rest, r)
    ensures rest[r] == [] ==> HeadsTo(heap, rest, r + 1)
    ensures rest[r] != [] ==> HeadsTo(heap[r := rest[r][0]], rest, r + 1)
  {
  }

  lemma AllHeads(heap: map<nat, Record>, rest: seq<seq<Record>>)
    requires HeadsTo(heap, rest, |rest|)
    ensures Heads(heap, rest)
  {
  }

  ghost predicate AllSized(rest: seq<seq<Record>>, size: nat) {
    forall q :: 0 <= q < |rest| ==> Sized(rest[q], size)
  }

  lemma HeadsAfterPop(heap: map<nat, Record>, rest: seq<seq<Record>>, r: nat)
    requires Heads(heap, rest) && r in heap
    ensures Heads(if |rest[r]| == 1 then heap - {r} else heap[r := rest[r][1]], Pop(rest, r))
  {
    var rest' := Pop(rest, r);
    assert forall q :: 0 <= q < |rest| && q != r ==> rest'[q] == rest[q];
  }

  lemma HeadsOnTop(heap: map<nat, Record>, rest: seq<seq<Record>>, top: nat)
    requires Heads(heap, rest) && top in heap
    requires forall q: nat :: q in heap ==> Key(heap[top]) <= Key(heap[q])
    requires forall q: nat :: q in heap && q < top ==> Key(heap[top]) < Key(heap[q])
    ensures OnTop(rest, top) && heap[top] == rest[top][0]
  {
    forall q | 0 <= q < |rest| && rest[q] != []
      ensures Key(rest[top][0]) <= Key(rest[q][0])
      ensures q < top ==> Key(rest[top][0]) < Key(rest[q][0])
    {
      assert q in heap;
    }
  }

  lemma PopShrinks(rest: seq<seq<Record>>, r: nat)
    requires r < |rest| && rest[r] != []
    ensures |Flatten(Pop(rest, r))| < |Flatten(rest)|
  {
    FlattenSplit(rest, r);
    FlattenSplit(Pop(rest, r), r);
    assert Pop(rest, r)[..r] == rest[..r] && Pop(rest, r)[r + 1..] == rest[r + 1..];
  }

  lemma BehindAfterPop(rest: seq<seq<Record>>, r: nat, size: nat)
    requires size > 0 && r < |rest| && rest[r] != [] && Sized(rest[r], size)
    ensures Behind(rest)[r] == Flatten(rest[r][1..])
    ensures |Behind(rest)[r]| >= size || Behind(rest)[r] == []
    ensures Behind(rest)[r] == [] <==> |rest[r]| == 1
    ensures |rest[r]| == 1 ==> Behind(Pop(rest, r)) == Behind(rest)
    ensures |rest[r]| > 1 ==> Behind(rest)[r][..size] == rest[r][1]
    ensures |rest[r]| > 1 ==> Behind(Pop(rest, r)) == Behind(rest)[r := Behind(rest)[r][size..]]
  {
    HeadOfFlatten(rest[r][1..], size);
    assert |rest[r]| > 1 ==> rest[r][1..][1..] == Pop(rest, r)[r][1..];
  }

  /** One turn of the merge loop on the reading side: take the top, refill from its run. */
  method PopTop(runs: seq<SpillFile>, heap: map<nat, Record>, ghost rest: seq<seq<Record>>, size: nat,
                ghost output: SpillFile)
    returns (top: nat, head: Record, heap': map<nat, Record>)
    requires size > 0 && |runs| == |rest| && Readers(runs, Behind(rest), size) && Heads(heap, rest) && heap != map[]
    requires AllSized(rest, size)
    requires output.Writer() && Apart(output, runs)
    modifies runs, set r | 0 <= r < |runs| :: runs[r].buffer
    ensures output.Writer() && output.Written() == old(output.Written())
    ensures OnTop(rest, top) && head == rest[top][0]
    ensures Readers(runs, Behind(Pop(rest, top)), size) && Heads(heap', Pop(rest, top))
  {
    top := Top(heap, |runs|);
    head := heap[top];
    HeadsOnTop(heap, rest, top);
    BehindAfterPop(rest, top, size);
    HeadsAfterPop(heap, rest, top);
    var ok, record := NextFrom(runs, Behind(rest), top, size);
    heap' := if ok then heap[top := record] else heap - {top};
  }

  ghost predicate Apart(output: SpillFile, runs: seq<SpillFile>) {
    forall q :: 0 <= q < |runs| ==> runs[q] != output && runs[q].buffer != output.buffer
  }

  /** The writing side of the turn: append the record; the run files do not move. */
  method Emit(output: SpillFile, head: Record, ghost merged: seq<Record>,
              ghost runs: seq<SpillFile>, ghost pending: seq<seq<byte>>)
    requires output.Writer() && |head| == output.recordSize && output.Written() == Flatten(merged)
    requires Readers(runs, pending, output.recordSize) && Apart(output, runs)
    modifies output, output.buffer
    ensures output.Writer() && output.Written() == Flatten(merged + [head])
    ensures Readers(runs, pending, output.recordSize)
  {
    output.Append(head);
    FlattenSnoc(merged, head);
  }

  lemma PopKeepsSized(merged: seq<Record>, rest: seq<seq<Record>>, r: nat, size: nat)
    requires r < |rest| && rest[r] != [] && Sized(merged, size) && AllSized(rest, size)
    ensures Sized(merged + [rest[r][0]], size) && AllSized(Pop(rest, r), size)
  {
  }

  /** Everything the merge loop knows about the open files. */
  ghost predicate MergeFiles(runs: seq<SpillFile>, rest: seq<seq<Record>>, size: nat,
                             output: SpillFile, merged: seq<Record>)
    reads runs, (set r | 0 <= r < |runs| :: runs[r].buffer), output, output.buffer
  {
    && |runs| == |rest| && Readers(runs, Behind(rest), size) && Apart(output, runs)
    && output.Writer() && output.recordSize == size && output.Written() == Flatten(merged)
    && Sized(merged, size) && AllSized(rest, size)
  }

  /** One turn of the merge loop. */
  method Turn(runs: seq<SpillFile>, heap: map<nat, Record>, ghost rest: seq<seq<Record>>, size: nat,
              output: SpillFile, ghost merged: seq<Record>)
    returns (ghost top: nat, heap': map<nat, Record>)
    requires size > 0 && MergeFiles(runs, rest, size, output, merged) && Heads(heap, rest) && heap != map[]
    modifies runs, (set r | 0 <= r < |runs| :: runs[r].buffer), output, output.buffer
    ensures OnTop(rest, top) && Heads(heap', Pop(rest, top))
    ensures MergeFiles(runs, Pop(rest, top), size, output, merged + [rest[top][0]])
  {
    var head;
    top, head, heap' := PopTop(runs, heap, rest, size, output);
    Emit(output, head, merged, runs, Behind(Pop(rest, top)));
    PopKeepsSized(merged, rest, top, size);
  }

  method MergeRuns(files: seq<seq<byte>>, ghost sorted: seq<seq<Record>>, ghost input: seq<Record>,
                   size: nat, bufferBytes: nat)
    returns (out: seq<byte>, ghost merged: seq<Record>)
    requires size > 0 && |files| == |sorted| && AllSized(sorted, size)
    requires forall r :: 0 <= r < |files| ==> files[r] == Flatten(sorted[r])
    requires Merging([], sorted, input)
    ensures out == Flatten(merged) && Sized(merged, size) && StableSortOf(merged, input)
    ensures |out| % size == 0 && StableSortOf(Records(out, size), input)
  {
    var runs := OpenRuns(files, size, bufferBytes);
    assert files == seq(|sorted|, r requires 0 <= r < |sorted| => Flatten(sorted[r]));
    var heap := Prime(runs, sorted, size);
    ghost var rest := sorted;
    merged := [];
    var output := new SpillFile.OpenWrite(size, bufferBytes);
    while heap != map[]
      invariant forall q :: 0 <= q < |runs| ==> fresh(runs[q]) && fresh(runs[q].buffer)
      invariant fresh(output) && fresh(output.buffer)
      invariant MergeFiles(runs, rest, size, output, merged) && Heads(heap, rest)
      invariant Merging(merged, rest, input)
      decreases |Flatten(rest)|
    {
      ghost var top;
      top, heap := Turn(runs, heap, rest, size, output, merged);
      PopKeepsMerging(merged, rest, input, top);
      PopShrinks(rest, top);
      merged, rest := merged + [rest[top][0]], Pop(rest, top);
    }
    assert forall q :: 0 <= q < |rest| && rest[q] != [] ==> q in heap;
    MergedIsStableSort(merged, rest, input);
    output.Flush();
    out := output.disk;
    WholeRecords(merged, size);
  }

  lemma WholeRecords(records: seq<Record>, size: nat)
    requires size > 0 && Sized(records, size)
    ensures Records(Flatten(records), size) == records && |Flatten(records)| % size == 0
  {
    RecordsOfFlatten(records, size, []);
    assert Flatten(records) + [] == Flatten(records);
    FlattenLength(records, size);
    DivModUnique(|Flatten(records)|, size, |records|, 0);
  }

  // ---- the whole sort -------------------------------------------------------------------------

  lemma RunsStartMerging(blocks: seq<seq<Record>>, sorted: seq<seq<Record>>)
    requires |sorted| == |blocks| && forall r :: 0 <= r < |blocks| ==> sorted[r] == StableSort(blocks[r])
    ensures Merging([], sorted, Flatten(blocks))
  {
    forall r | 0 <= r < |sorted|
      ensures SortedByKey(sorted[r])
    {
      StableSortIsStable(blocks[r]);
    }
    forall k: nat
      ensures WithKey([], k) + WithKey(Flatten(sorted), k) == WithKey(Flatten(blocks), k)
    {
      RunsKeepArrivalOrder(blocks, sorted, k);
    }
  }

  /** For every memory budget, buffer size and file: the sort fails exactly when the file ends in
      the middle of a record, and otherwise its output holds the stable sort of the input. */
  method SortSpillByKey(source: seq<byte>, size: nat, budget: nat, bufferBytes: nat)
    returns (sorted: seq<byte>, error: bool)
    requires size > 0
    ensures error <==> |source| % size != 0
    ensures !error ==> StableSortOf(Records(sorted, size), Records(source, size))
    ensures !error ==> sorted == Flatten(StableSort(Records(source, size)))
  {
    var runs;
    ghost var blocks;
    runs, blocks, error := FormRuns(source, size, RecordsPerRun(budget, size), bufferBytes);
    if error {
      return [], true;
    }
    ghost var runRecords := seq(|blocks|, r requires 0 <= r < |blocks| => StableSort(blocks[r]));
    forall r | 0 <= r < |blocks|
      ensures Sized(runRecords[r], size)
    {
      StableSortSized(blocks[r], size);
    }
    RunsStartMerging(blocks, runRecords);
    ghost var merged: seq<Record>;
    if |runs| == 1 {
      sorted := runs[0];
      merged := runRecords[0];
      assert blocks == [blocks[0]];
      assert Flatten(blocks) == blocks[0] + Flatten(blocks[1..]) == blocks[0];
      StableSortIsStable(blocks[0]);
    } else {
      sorted, merged := MergeRuns(runs, runRecords, Flatten(blocks), size, bufferBytes);
    }
    assert sorted == Flatten(merged) + [];
    RecordsOfFlatten(merged, size, []);
    StableSortIsStable(Flatten(blocks));
    StableSortUnique(merged, StableSort(Flatten(blocks)));
  }
}
