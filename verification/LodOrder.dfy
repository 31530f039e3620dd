/** The coarse-to-fine point order and the per-cell representatives. */
module LodOrder {
  import opened Morton

  const MAX_LEVEL: nat := 63

  ghost predicate Sorted(codes: seq<nat>) { forall i, j :: 0 <= i < j < |codes| ==> codes[i] <= codes[j] }

  function Clamped(level: nat): (r: nat)
    ensures r <= MAX_LEVEL
  {
    if level > MAX_LEVEL then MAX_LEVEL else level
  }

  /** The level of the transition into point i; the first point is a representative at every width. */
  function RepLevel(codes: seq<nat>, i: nat): (l: nat)
    requires i < |codes|
    ensures l <= MAX_LEVEL
  {
    if i == 0 then MAX_LEVEL else Clamped(Lod(codes[i - 1], codes[i]))
  }

  function RepLevels(codes: seq<nat>): (r: seq<nat>)
    ensures |r| == |codes| && forall i :: 0 <= i < |r| ==> r[i] == RepLevel(codes, i)
  {
    seq(|codes|, i requires 0 <= i < |codes| => RepLevel(codes, i))
  }

  // ---- counting -------------------------------------------------------------------------------

  function Count(rep: seq<nat>, l: nat): nat {
    if rep == [] then 0 else Count(rep[..|rep| - 1], l) + (if rep[|rep| - 1] == l then 1 else 0)
  }

  /** How many levels are at least l. */
  function AtLeast(rep: seq<nat>, l: nat): nat {
    if rep == [] then 0 else AtLeast(rep[..|rep| - 1], l) + (if rep[|rep| - 1] >= l then 1 else 0)
  }

  lemma {:induction false} AtLeastSplit(rep: seq<nat>, l: nat)
    ensures AtLeast(rep, l) == Count(rep, l) + AtLeast(rep, l + 1)
  {
    if rep != [] {
      AtLeastSplit(rep[..|rep| - 1], l);
    }
  }

  lemma {:induction false} AtLeastAntitone(rep: seq<nat>, l: nat, m: nat)
    requires l <= m
    ensures AtLeast(rep, l) >= AtLeast(rep, m)
  {
    if rep != [] {
      AtLeastAntitone(rep[..|rep| - 1], l, m);
    }
  }

  lemma {:induction false} AtLeastAll(rep: seq<nat>)
    ensures AtLeast(rep, 0) == |rep|
  {
    if rep != [] {
      AtLeastAll(rep[..|rep| - 1]);
    }
  }

  lemma {:induction false} AtLeastNone(rep: seq<nat>, l: nat)
    requires forall i :: 0 <= i < |rep| ==> rep[i] < l
    ensures AtLeast(rep, l) == 0
  {
    if rep != [] {
      AtLeastNone(rep[..|rep| - 1], l);
    }
  }

  lemma {:induction false} CountPrefix(rep: seq<nat>, i: nat, j: nat, l: nat)
    requires i <= j <= |rep|
    ensures Count(rep[..i], l) <= Count(rep[..j], l)
    ensures i < j && rep[i] == l ==> Count(rep[..i], l) < Count(rep[..j], l)
    decreases j - i
  {
    if i < j {
      assert rep[..i + 1][..i] == rep[..i];
      CountPrefix(rep, i + 1, j, l);
    }
  }

  // ---- the slot of a point ----------------------------------------------------------------------

  /** Where the counting sort puts point i: after all coarser points, and after the earlier points
      of its own level. */
  function Slot(rep: seq<nat>, i: nat): nat
    requires i < |rep|
  {
    AtLeast(rep, rep[i] + 1) + Count(rep[..i], rep[i])
  }

  lemma SlotRange(rep: seq<nat>, i: nat)
    requires i < |rep|
    ensures AtLeast(rep, rep[i] + 1) <= Slot(rep, i) < AtLeast(rep, rep[i]) <= |rep|
  {
    CountPrefix(rep, i, |rep|, rep[i]);
    assert rep[..|rep|] == rep;
    AtLeastSplit(rep, rep[i]);
    AtLeastAntitone(rep, 0, rep[i]);
    AtLeastAll(rep);
  }

  /** Coarser first, and arrival order within a level. */
  lemma SlotOrder(rep: seq<nat>, i: nat, j: nat)
    requires i < |rep| && j < |rep| && (rep[i] > rep[j] || (rep[i] == rep[j] && i < j))
    ensures Slot(rep, i) < Slot(rep, j)
  {
    SlotRange(rep, i);
    SlotRange(rep, j);
    if rep[i] > rep[j] {
      AtLeastAntitone(rep, rep[j] + 1, rep[i]);
    } else {
      CountPrefix(rep, i, j, rep[i]);
    }
  }

  /** The slots below AtLeast(k) belong to exactly the points of level k or coarser. */
  lemma SlotBelow(rep: seq<nat>, i: nat, k: nat)
    requires i < |rep|
    ensures Slot(rep, i) < AtLeast(rep, k) <==> rep[i] >= k
  {
    SlotRange(rep, i);
    if rep[i] >= k {
      AtLeastAntitone(rep, k, rep[i]);
    } else {
      AtLeastAntitone(rep, rep[i] + 1, k);
    }
  }

  lemma SlotsDiffer(rep: seq<nat>, i: nat, j: nat)
    requires i < j < |rep|
    ensures Slot(rep, i) != Slot(rep, j)
  {
    if rep[i] >= rep[j] {
      SlotOrder(rep, i, j);
    } else {
      SlotOrder(rep, j, i);
    }
  }

  // ---- an injection of [0, n) into itself is onto ---------------------------------------------------

  function Image(rep: seq<nat>, n: nat): set<nat>
    requires n <= |rep|
  {
    set i | 0 <= i < n :: Slot(rep, i)
  }

  lemma {:induction false} ImageSize(rep: seq<nat>, n: nat)
    requires n <= |rep|
    ensures |Image(rep, n)| == n
  {
    if n > 0 {
      ImageSize(rep, n - 1);
      forall i: nat | i < n - 1
        ensures Slot(rep, i) != Slot(rep, n - 1)
      {
        SlotsDiffer(rep, i, n - 1);
      }
      hide Slot;
      assert Slot(rep, n - 1) !in Image(rep, n - 1);
      assert Image(rep, n) == Image(rep, n - 1) + {Slot(rep, n - 1)};
    }
  }

  function Range(n: nat): (r: set<nat>)
    ensures |r| == n && forall x: nat :: x in r <==> x < n
  {
    if n == 0 then {} else Range(n - 1) + {n - 1}
  }

  lemma SubsetOfSameSize(a: set<nat>, b: set<nat>)
    requires a <= b && |a| == |b|
    ensures a == b
  {
    assert b == a + (b - a);
    assert |b - a| == 0;
  }

  /** Every slot is taken. */
  lemma SlotsAreAll(rep: seq<nat>, j: nat) returns (i: nat)
    requires j < |rep|
    ensures i < |rep| && Slot(rep, i) == j
  {
    var n := |rep|;
    ImageSize(rep, n);
    forall x | x in Image(rep, n)
      ensures x in Range(n)
    {
      var i :| 0 <= i < n && Slot(rep, i) == x;
      SlotRange(rep, i);
    }
    SubsetOfSameSize(Image(rep, n), Range(n));
    assert j in Image(rep, n);
    i :| 0 <= i < n && Slot(rep, i) == j;
  }

  /** perm holds each point exactly at its slot. */
  ghost predicate Placed(perm: seq<nat>, rep: seq<nat>) {
    |perm| == |rep| && forall i :: 0 <= i < |rep| ==> Slot(rep, i) < |perm| && perm[Slot(rep, i)] == i
  }

  lemma PlacedAt(perm: seq<nat>, rep: seq<nat>, j: nat)
    requires Placed(perm, rep) && j < |perm|
    ensures perm[j] < |rep| && Slot(rep, perm[j]) == j
  {
    var i := SlotsAreAll(rep, j);
  }

  /** perm is a permutation, coarse before fine, and stable within each level. */
  lemma PermIsStableSort(perm: seq<nat>, rep: seq<nat>, j: nat, k: nat)
    requires Placed(perm, rep) && j < k < |perm|
    ensures perm[j] < |rep| && perm[k] < |rep| && perm[j] != perm[k]
    ensures rep[perm[j]] > rep[perm[k]] || (rep[perm[j]] == rep[perm[k]] && perm[j] < perm[k])
  {
    PlacedAt(perm, rep, j);
    PlacedAt(perm, rep, k);
    var a, b := perm[j], perm[k];
    if a != b && !(rep[a] > rep[b] || (rep[a] == rep[b] && a < b)) {
      SlotOrder(rep, b, a);
    }
  }

  // ---- the algorithm --------------------------------------------------------------------------

  method Levels(codes: seq<nat>) returns (rep: seq<nat>, hist: array<nat>)
    requires codes != []
    ensures rep == RepLevels(codes) && fresh(hist) && hist.Length == 64
    ensures forall l :: 0 <= l < 64 ==> hist[l] == Count(rep, l)
  {
    hist := new nat[64](_ => 0);
    rep := [MAX_LEVEL];
    hist[MAX_LEVEL] := 1;
    assert [MAX_LEVEL][..0] == [];
    for i := 1 to |codes|
      invariant |rep| == i && forall k :: 0 <= k < i ==> rep[k] == RepLevel(codes, k)
      invariant hist.Length == 64 && forall l :: 0 <= l < 64 ==> hist[l] == Count(rep, l)
    {
      var level := Clamped(Lod(codes[i - 1], codes[i]));
      assert (rep + [level])[..i] == rep;
      rep := rep + [level];
      hist[level] := hist[level] + 1;
    }
  }

  /** Bucket offsets, coarsest first. */
  method Offsets(rep: seq<nat>, hist: array<nat>) returns (start: array<nat>)
    requires hist.Length == 64 && forall l :: 0 <= l < 64 ==> hist[l] == Count(rep, l)
    requires forall i :: 0 <= i < |rep| ==> rep[i] < 64
    ensures fresh(start) && start.Length == 64 && forall l :: 0 <= l < 64 ==> start[l] == AtLeast(rep, l + 1)
  {
    start := new nat[64](_ => 0);
    var acc := 0;
    AtLeastNone(rep, 64);
    var level := 64;
    while level > 0
      invariant 0 <= level <= 64 && acc == AtLeast(rep, level)
      invariant forall l :: level <= l < 64 ==> start[l] == AtLeast(rep, l + 1)
      invariant forall l :: 0 <= l < 64 ==> hist[l] == Count(rep, l)
    {
      level := level - 1;
      start[level] := acc;
      AtLeastSplit(rep, level);
      acc := acc + hist[level];
    }
  }

  method Scatter(rep: seq<nat>, start: array<nat>) returns (perm: array<nat>)
    requires start.Length == 64 && forall l :: 0 <= l < 64 ==> start[l] == AtLeast(rep, l + 1)
    requires forall i :: 0 <= i < |rep| ==> rep[i] < 64
    modifies start
    ensures fresh(perm) && Placed(perm[..], rep)
  {
    perm := new nat[|rep|](_ => 0);
    for i := 0 to |rep|
      invariant forall l :: 0 <= l < 64 ==> start[l] == AtLeast(rep, l + 1) + Count(rep[..i], l)
      invariant forall k :: 0 <= k < i ==> Slot(rep, k) < |rep| && perm[Slot(rep, k)] == k
    {
      SlotRange(rep, i);
      forall k | 0 <= k < i
        ensures Slot(rep, k) != Slot(rep, i)
      {
        SlotsDiffer(rep, k, i);
      }
      assert rep[..i + 1][..i] == rep[..i];
      var slot := start[rep[i]];
      perm[slot] := i;
      start[rep[i]] := slot + 1;
    }
  }

  method SuffixSums(rep: seq<nat>, hist: array<nat>) returns (prefixCount: array<nat>)
    requires hist.Length == 64 && forall l :: 0 <= l < 64 ==> hist[l] == Count(rep, l)
    requires forall i :: 0 <= i < |rep| ==> rep[i] < 64
    ensures fresh(prefixCount) && prefixCount.Length == 64
    ensures forall k :: 0 <= k < 64 ==> prefixCount[k] == AtLeast(rep, k)
  {
    prefixCount := new nat[64](_ => 0);
    AtLeastNone(rep, 64);
    var suffix, k := 0, 64;
    while k > 0
      invariant 0 <= k <= 64 && suffix == AtLeast(rep, k)
      invariant forall l :: k <= l < 64 ==> prefixCount[l] == AtLeast(rep, l)
      invariant forall l :: 0 <= l < 64 ==> hist[l] == Count(rep, l)
    {
      k := k - 1;
      AtLeastSplit(rep, k);
      suffix := suffix + hist[k];
      prefixCount[k] := suffix;
    }
  }

  /** build_lod_order_from_mortons */
  method BuildLodOrder(codes: seq<nat>) returns (prefixCount: array<nat>, perm: array<nat>, repOut: seq<nat>)
    ensures prefixCount.Length == 64 && perm.Length == |codes| == |repOut|
    ensures Placed(perm[..], RepLevels(codes))
    ensures forall k :: 0 <= k < 64 ==> prefixCount[k] == AtLeast(RepLevels(codes), k)
    ensures forall j :: 0 <= j < |codes| ==> perm[j] < |codes| && repOut[j] == RepLevel(codes, perm[j])
  {
    if codes == [] {
      prefixCount := new nat[64](_ => 0);
      perm := new nat[0];
      repOut := [];
      assert RepLevels(codes) == [];
      return;
    }
    var rep, hist := Levels(codes);
    var start := Offsets(rep, hist);
    prefixCount := SuffixSums(rep, hist);
    perm := Scatter(rep, start);
    repOut := [];
    for j := 0 to |codes|
      invariant |repOut| == j && prefixCount.Length == 64 && Placed(perm[..], rep)
      invariant forall k :: 0 <= k < 64 ==> prefixCount[k] == AtLeast(rep, k)
      invariant forall m :: 0 <= m < j ==> perm[m] < |codes| && repOut[m] == RepLevel(codes, perm[m])
    {
      PlacedAt(perm[..], rep, j);
      repOut := repOut + [rep[perm[j]]];
    }
  }

  // ---- what the prefix draws --------------------------------------------------------------------

  /** No earlier point lies in the same cell of width w. */
  ghost predicate FirstOfCell(codes: seq<nat>, w: nat, i: nat)
    requires i < |codes|
  {
    forall k :: 0 <= k < i ==> Drop(codes[k], w + 1) != Drop(codes[i], w + 1)
  }

  /** In a sorted array a point opens its cell exactly when its level exceeds the width. */
  lemma LevelMarksFirst(codes: seq<nat>, w: nat, i: nat)
    requires Sorted(codes) && i < |codes| && w < MAX_LEVEL
    ensures RepLevel(codes, i) >= w + 1 <==> FirstOfCell(codes, w, i)
  {
    if i > 0 {
      LodIsCell(codes[i - 1], codes[i], w);
      if Drop(codes[i - 1], w + 1) != Drop(codes[i], w + 1) {
        forall k | 0 <= k < i
          ensures Drop(codes[k], w + 1) != Drop(codes[i], w + 1)
        {
          DropMonotone(codes[k], codes[i - 1], w + 1);
          DropMonotone(codes[i - 1], codes[i], w + 1);
        }
      }
    }
  }

  /** Drawing the first prefixCount[w+1] points of perm draws exactly the first point of every
      occupied cell of width w: no cell is missed and none is drawn twice. */
  lemma PrefixIsOnePerCell(codes: seq<nat>, perm: seq<nat>, w: nat, j: nat)
    requires Sorted(codes) && w < MAX_LEVEL && Placed(perm, RepLevels(codes)) && j < |codes|
    ensures perm[j] < |codes|
    ensures j < AtLeast(RepLevels(codes), w + 1) <==> FirstOfCell(codes, w, perm[j])
  {
    var rep := RepLevels(codes);
    PlacedAt(perm, rep, j);
    SlotBelow(rep, perm[j], w + 1);
    LevelMarksFirst(codes, w, perm[j]);
  }

  // ---- representatives ------------------------------------------------------------------------

  /** lod_quantize_mask_width, and the greatest width the source type can express. */
  function MaskWidth(lod: int): nat { if lod > 9 then lod - 9 else 0 }
  function MaxWidth(t: CodeType): nat { (BitWidth(t) - 4) / 3 }
  function ClampWidth(width: nat, t: CodeType): nat { if width < MaxWidth(t) then width else MaxWidth(t) }

  /** The first point of every occupied cell among the first `n`, in order. */
  function Starts(codes: seq<nat>, w: nat, n: nat): (s: seq<nat>)
    requires n <= |codes|
    ensures forall m :: 0 <= m < |s| ==> s[m] < n
  {
    if n == 0 then []
    else if n == 1 || Drop(codes[n - 2], w + 1) != Drop(codes[n - 1], w + 1) then Starts(codes, w, n - 1) + [n - 1]
    else Starts(codes, w, n - 1)
  }

  ghost predicate InCellOf(codes: seq<nat>, w: nat, start: nat, rep: nat) {
    start <= rep < |codes| && Drop(codes[rep], w + 1) == Drop(codes[start], w + 1)
  }

  /** reps holds one index inside every cell. */
  ghost predicate OnePerCell(reps: seq<nat>, codes: seq<nat>, w: nat) {
    var starts := Starts(codes, w, |codes|);
    |reps| == |starts| && InCells(reps, starts, codes, w)
  }

  ghost predicate InCells(reps: seq<nat>, starts: seq<nat>, codes: seq<nat>, w: nat) {
    |reps| <= |starts| && forall m :: 0 <= m < |reps| ==> InCellOf(codes, w, starts[m], reps[m])
  }

  lemma InCellsSnoc(reps: seq<nat>, starts: seq<nat>, codes: seq<nat>, w: nat, index: nat, more: seq<nat>)
    requires InCells(reps, starts, codes, w) && |reps| < |starts| && InCellOf(codes, w, starts[|reps|], index)
    ensures InCells(reps + [index], starts + more, codes, w)
  {
    hide InCellOf;
  }

  /** The pick inside a closed cell: a table offset in [0, 1) scaled to the cell. */
  function Pick(start: nat, size: nat, offsets: seq<real>): (index: nat)
    requires size > 0 && offsets != [] && forall k :: 0 <= k < |offsets| ==> 0.0 <= offsets[k] < 1.0
    ensures start <= index < start + size
  {
    var o := offsets[(start + size / 2) % |offsets|];
    PickInside(o, size);
    start + (o * size as real).Floor
  }

  lemma PickInside(o: real, size: nat)
    requires 0.0 <= o < 1.0 && size > 0
    ensures 0 <= (o * size as real).Floor < size
  {
    var x := o * size as real;
    assert x >= 0.0;
    assert (1.0 - o) * size as real > 0.0;
    assert x == size as real - (1.0 - o) * size as real;
    assert x < size as real;
  }

  /** The cell that opened at `start` still holds everything up to `i`. */
  ghost predicate OpenCell(codes: seq<nat>, w: nat, start: nat, i: nat)
    requires i <= |codes|
  {
    start < i && forall k :: start <= k < i ==> Drop(codes[k], w + 1) == Drop(codes[start], w + 1)
  }

  lemma NoCells(codes: seq<nat>, w: nat, starts: seq<nat>)
    ensures InCells([], starts, codes, w)
  {
  }

  lemma OpenAt(codes: seq<nat>, w: nat, i: nat)
    requires i < |codes|
    ensures OpenCell(codes, w, i, i + 1)
  {
  }

  lemma OpenGrows(codes: seq<nat>, w: nat, start: nat, i: nat)
    requires i < |codes| && OpenCell(codes, w, start, i)
    ensures Drop(codes[i], w + 1) == Drop(codes[start], w + 1) ==> OpenCell(codes, w, start, i + 1)
  {
  }

  lemma InsideOpenCell(codes: seq<nat>, w: nat, start: nat, i: nat, k: nat)
    requires i <= |codes| && OpenCell(codes, w, start, i) && start <= k < i
    ensures InCellOf(codes, w, start, k)
  {
  }

  lemma StartsGrow(codes: seq<nat>, w: nat, i: nat, start: nat)
    requires Sorted(codes) && 1 <= i < |codes| && OpenCell(codes, w, start, i)
    ensures codes[i] <= CellMax(codes[start], w) <==> Drop(codes[i], w + 1) == Drop(codes[start], w + 1)
    ensures codes[i] <= CellMax(codes[start], w) ==> Starts(codes, w, i + 1) == Starts(codes, w, i)
    ensures !(codes[i] <= CellMax(codes[start], w)) ==> Starts(codes, w, i + 1) == Starts(codes, w, i) + [i]
  {
    BelowCellMax(codes[i], codes[start], w);
    DropMonotone(codes[start], codes[i], w + 1);
    assert Drop(codes[i - 1], w + 1) == Drop(codes[start], w + 1);
  }

  /** find_indices_to_quantize: one representative inside each occupied cell of the clamped width, no cell
      twice. */
  method FindIndicesToQuantize(codes: seq<nat>, width: nat, t: CodeType, offsets: seq<real>) returns (reps: seq<nat>)
    requires codes != [] && Sorted(codes)
    requires offsets != [] && forall k :: 0 <= k < |offsets| ==> 0.0 <= offsets[k] < 1.0
    ensures OnePerCell(reps, codes, ClampWidth(width, t))
  {
    var w := ClampWidth(width, t);
    reps := [];
    var rangeStart := 0;
    var currentMax := CellMax(codes[0], w);
    ghost var starts := Starts(codes, w, 1);
    assert starts == Starts(codes, w, 0) + [0] == [0];
    OpenAt(codes, w, 0);
    NoCells(codes, w, starts);
    hide Starts, CellMax, Drop, Sorted, Pick, OpenCell, InCellOf, InCells;
    for i := 1 to |codes|
      invariant rangeStart < i && OpenCell(codes, w, rangeStart, i) && currentMax == CellMax(codes[rangeStart], w)
      invariant starts == Starts(codes, w, i) && |starts| == |reps| + 1 && starts[|reps|] == rangeStart
      invariant InCells(reps, starts, codes, w)
    {
      StartsGrow(codes, w, i, rangeStart);
      OpenAt(codes, w, i);
      OpenGrows(codes, w, rangeStart, i);
      if codes[i] > currentMax {
        var index := Pick(rangeStart, i - rangeStart, offsets);
        InsideOpenCell(codes, w, rangeStart, i, index);
        InCellsSnoc(reps, starts, codes, w, index, [i]);
        reps := reps + [index];
        rangeStart := i;
        currentMax := CellMax(codes[i], w);
        starts := starts + [i];
      }
    }
    var last := rangeStart + (|codes| - rangeStart) / 2;
    InsideOpenCell(codes, w, rangeStart, |codes|, last);
    InCellsSnoc(reps, starts, codes, w, last, []);
    assert starts + [] == starts;
    reps := reps + [last];
  }

  lemma {:induction false} StartsAreFirst(codes: seq<nat>, w: nat, n: nat)
    requires Sorted(codes) && n <= |codes| && w < MAX_LEVEL
    ensures |Starts(codes, w, n)| == AtLeast(RepLevels(codes)[..n], w + 1)
  {
    if n > 0 {
      StartsAreFirst(codes, w, n - 1);
      assert RepLevels(codes)[..n][..n - 1] == RepLevels(codes)[..n - 1];
      if n > 1 {
        LodIsCell(codes[n - 2], codes[n - 1], w);
      }
    }
  }

  /** The stored representatives and the runtime order agree: as many points are picked for a width
      as the coarse-to-fine prefix draws for it. */
  lemma SameNumberOfRepresentatives(codes: seq<nat>, w: nat, reps: seq<nat>)
    requires Sorted(codes) && w < MAX_LEVEL && OnePerCell(reps, codes, w)
    ensures |reps| == AtLeast(RepLevels(codes), w + 1)
  {
    StartsAreFirst(codes, w, |codes|);
    assert RepLevels(codes)[..|codes|] == RepLevels(codes);
  }

  lemma ClampToOwnDigits(a: nat, b: nat, width: nat, max: nat)
    requires width >= max && a < Pow8(max + 1) && b < Pow8(max + 1)
    ensures Drop(a, width + 1) == Drop(b, width + 1) && Drop(a, max + 1) == Drop(b, max + 1)
  {
    SmallDropsToZero(a, max + 1);
    SmallDropsToZero(b, max + 1);
    SameAbove(a, b, max + 1, width + 1);
  }

  /** Clamping the width to the code type groups no two codes of the type differently. In the three narrow
      types every code lies in one cell of the clamped width; in the widest type, whose clamp is a digit
      short, no level of detail has a width that would be clamped. */
  lemma ClampIsHarmless(a: nat, b: nat, lod: nat, t: CodeType)
    requires lod < 64 && a < Pow8(Digits(t)) && b < Pow8(Digits(t))
    ensures
      var width := MaskWidth(lod);
      Drop(a, ClampWidth(width, t) + 1) == Drop(b, ClampWidth(width, t) + 1) <==> Drop(a, width + 1) == Drop(b, width + 1)
  {
    hide Drop, Pow8;
    var width := MaskWidth(lod);
    if t != M192 && width > MaxWidth(t) {
      ClampToOwnDigits(a, b, width, MaxWidth(t));
    }
  }

  // ---- the cells of the representatives --------------------------------------------------------------

  /** The starts of the cells rise, each opens a new cell, and every point lies in the cell of one of them. */
  lemma {:induction false} StartsPartition(codes: seq<nat>, w: nat, n: nat)
    requires Sorted(codes) && n <= |codes|
    ensures
      var s := Starts(codes, w, n);
      && (forall i, j :: 0 <= i < j < |s| ==> s[i] < s[j] && Drop(codes[s[i]], w + 1) < Drop(codes[s[j]], w + 1))
      && (n > 0 ==> s != [] && Drop(codes[s[|s| - 1]], w + 1) == Drop(codes[n - 1], w + 1))
  {
    hide Drop, Starts;
    StartsUnfold(codes, w, n);
    if n > 0 {
      StartsPartition(codes, w, n - 1);
      if n > 1 {
        DropMonotone(codes[n - 2], codes[n - 1], w + 1);
      }
      if n == 1 || Drop(codes[n - 2], w + 1) != Drop(codes[n - 1], w + 1) {
        StartsExtended(codes, w, Starts(codes, w, n - 1), n);
      }
    }
  }

  lemma StartsUnfold(codes: seq<nat>, w: nat, n: nat)
    requires n <= |codes|
    ensures Starts(codes, w, n) ==
            if n == 0 then []
            else if n == 1 || Drop(codes[n - 2], w + 1) != Drop(codes[n - 1], w + 1) then Starts(codes, w, n - 1) + [n - 1]
            else Starts(codes, w, n - 1)
  {
    hide Drop;
  }

  lemma StartsExtended(codes: seq<nat>, w: nat, s: seq<nat>, n: nat)
    requires 0 < n <= |codes| && forall m :: 0 <= m < |s| ==> s[m] < n - 1
    requires forall i, j :: 0 <= i < j < |s| ==> s[i] < s[j] && Drop(codes[s[i]], w + 1) < Drop(codes[s[j]], w + 1)
    requires s != [] ==> Drop(codes[s[|s| - 1]], w + 1) < Drop(codes[n - 1], w + 1)
    ensures
      var t := s + [n - 1];
      forall i, j :: 0 <= i < j < |t| ==> t[i] < t[j] && Drop(codes[t[i]], w + 1) < Drop(codes[t[j]], w + 1)
  {
    hide Drop;
  }

  lemma {:induction false} CellOfPoint(codes: seq<nat>, w: nat, n: nat, i: nat) returns (m: nat)
    requires Sorted(codes) && i < n <= |codes|
    ensures m < |Starts(codes, w, n)| && Drop(codes[Starts(codes, w, n)[m]], w + 1) == Drop(codes[i], w + 1)
    decreases n
  {
    hide Drop;
    if i == n - 1 {
      StartsPartition(codes, w, n);
      m := |Starts(codes, w, n)| - 1;
    } else {
      m := CellOfPoint(codes, w, n - 1, i);
    }
  }

  /** The picked points lie in pairwise different cells, and every point's cell has one. */
  lemma RepresentativesPartition(codes: seq<nat>, w: nat, reps: seq<nat>, i: nat)
    requires Sorted(codes) && OnePerCell(reps, codes, w) && i < |codes|
    ensures forall j, k :: 0 <= j < k < |reps| ==>
              reps[j] < |codes| && reps[k] < |codes| && Drop(codes[reps[j]], w + 1) != Drop(codes[reps[k]], w + 1)
    ensures exists m :: 0 <= m < |reps| && reps[m] < |codes| && Drop(codes[reps[m]], w + 1) == Drop(codes[i], w + 1)
  {
    hide Drop, Starts;
    var starts := Starts(codes, w, |codes|);
    StartsPartition(codes, w, |codes|);
    forall j, k | 0 <= j < k < |reps|
      ensures reps[j] < |codes| && reps[k] < |codes| && Drop(codes[reps[j]], w + 1) != Drop(codes[reps[k]], w + 1)
    {
      assert InCellOf(codes, w, starts[j], reps[j]) && InCellOf(codes, w, starts[k], reps[k]);
    }
    var m := CellOfPoint(codes, w, |codes|, i);
    assert InCellOf(codes, w, starts[m], reps[m]);
  }

  // ---- how many representatives a node has -------------------------------------------------------------

  lemma {:induction false} RisingFits(s: seq<nat>, base: nat, n: nat)
    requires forall i, j :: 0 <= i < j < |s| ==> s[i] < s[j]
    requires forall i :: 0 <= i < |s| ==> base <= s[i] < base + n
    ensures |s| <= n
    decreases n
  {
    if s != [] {
      var last := s[|s| - 1];
      if n > 0 {
        assert forall i :: 0 <= i < |s| - 1 ==> s[i] < last;
        RisingFits(s[..|s| - 1], base, n - 1);
      }
    }
  }

  /** Two cells of width w of one node of lod l differ by less than the number of cells in the node. */
  lemma CellInNode(c: nat, nodeMin: nat, w: nat, lod: nat)
    requires w <= lod && Drop(c, lod + 1) == Drop(nodeMin, lod + 1)
    ensures var first := Drop(nodeMin, lod + 1) * Pow8(lod - w); first <= Drop(c, w + 1) < first + Pow8(lod - w)
  {
    hide Drop, Pow8;
    DropDrop(c, w + 1, lod - w);
    DropSplit(Drop(c, w + 1), lod - w);
  }

  function StartCells(codes: seq<nat>, starts: seq<nat>, w: nat): (r: seq<nat>)
    requires forall m :: 0 <= m < |starts| ==> starts[m] < |codes|
    ensures |r| == |starts| && forall m :: 0 <= m < |r| ==> r[m] == Drop(codes[starts[m]], w + 1)
  {
    seq(|starts|, m requires 0 <= m < |starts| => Drop(codes[starts[m]], w + 1))
  }

  /** A node is quantized to at most 8^9 representatives, and below lod nine to at most one for each of its
      2 by 2 by 2 cells. */
  lemma RepresentativesPerNode(codes: seq<nat>, nodeMin: nat, lod: nat, reps: seq<nat>)
    requires Sorted(codes) && OnePerCell(reps, codes, MaskWidth(lod))
    requires forall i :: 0 <= i < |codes| ==> Drop(codes[i], lod + 1) == Drop(nodeMin, lod + 1)
    ensures |reps| <= Pow8(if lod < 9 then lod else 9)
  {
    hide Drop, Pow8, Sorted, Starts;
    var w := MaskWidth(lod);
    var starts := Starts(codes, w, |codes|);
    StartsPartition(codes, w, |codes|);
    var cells, first := StartCells(codes, starts, w), Drop(nodeMin, lod + 1) * Pow8(lod - w);
    forall m | 0 <= m < |cells|
      ensures first <= cells[m] < first + Pow8(lod - w)
    {
      CellInNode(codes[starts[m]], nodeMin, w, lod);
    }
    RisingFits(cells, first, Pow8(lod - w));
  }

  lemma {:induction false} AllStart(codes: seq<nat>, w: nat, n: nat)
    requires n <= |codes|
    ensures |Starts(codes, w, n)| == n <==> forall i :: 0 < i < n ==> Drop(codes[i - 1], w + 1) != Drop(codes[i], w + 1)
    ensures |Starts(codes, w, n)| <= n
  {
    hide Drop;
    if n > 0 {
      AllStart(codes, w, n - 1);
    }
  }

  /** At lod nine and below, where the width is zero, every point is its own representative exactly when no two
      neighbours in the order share a 2 by 2 by 2 cell. */
  lemma FullDetailExactly(codes: seq<nat>, lod: nat, reps: seq<nat>)
    requires lod <= 9 && Sorted(codes) && OnePerCell(reps, codes, MaskWidth(lod))
    ensures |reps| == |codes| <==> forall i :: 0 < i < |codes| ==> codes[i - 1] / 8 != codes[i] / 8
  {
    AllStart(codes, 0, |codes|);
    forall c: nat
      ensures Drop(c, 0 + 1) == c / 8
    {
      DropSucc(c, 0);
    }
  }

  /** Two points side by side, at full detail: one of them is dropped. */
  lemma FullDetailLosesAPoint(lod: nat, reps: seq<nat>)
    requires lod <= 9 && OnePerCell(reps, [0, 1], MaskWidth(lod))
    ensures |reps| == 1
  {
    var codes: seq<nat> := [0, 1];
    FullDetailExactly(codes, lod, reps);
    assert codes[1 - 1] / 8 == codes[1] / 8;
    AllStart(codes, 0, 2);
    StartsPartition(codes, 0, 2);
  }
}
