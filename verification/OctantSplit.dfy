/** Carving a Morton-sorted window into its octant ranges, and handing the ranges to the children
    of a node. */
module OctantSplit {
  import opened Morton
  import opened PointPacking

  // ---- the split ------------------------------------------------------------------------------

  datatype Range = Range(octant: nat, start: nat, count: nat)

  ghost predicate SortedFrom(codes: seq<nat>, begin: nat, end: nat) {
    begin <= end <= |codes| && forall i, j :: begin <= i < j < end ==> codes[i] <= codes[j]
  }

  /** Every code of the window lies in the node's cell, and `nodeMin` is the cell's origin. */
  ghost predicate InNode(codes: seq<nat>, begin: nat, end: nat, lod: nat, nodeMin: nat) {
    && begin <= end <= |codes| && nodeMin == Drop(nodeMin, lod + 1) * Pow8(lod + 1)
    && forall i :: begin <= i < end ==> Drop(codes[i], lod + 1) == Drop(nodeMin, lod + 1)
  }

  /** The exclusive upper bound of octant i as the code forms it; the last one is (min | mask) + 1,
      which wraps around at the width of the code type. */
  function Bound(lod: nat, nodeMin: nat, i: nat, modulus: nat): nat
    requires modulus > 0
  {
    if i == 7 then (nodeMin + Pow8(lod + 1)) % modulus else nodeMin + (i + 1) * Pow8(lod)
  }

  predicate Wraps(lod: nat, nodeMin: nat, modulus: nat) { nodeMin + Pow8(lod + 1) >= modulus }

  lemma DigitSplit(c: nat, lod: nat)
    ensures c == Drop(c, lod + 1) * Pow8(lod + 1) + Digit(c, lod) * Pow8(lod) + Low(c, lod)
    ensures 0 <= Low(c, lod) < Pow8(lod) && Digit(c, lod) < 8
  {
    DropSplit(c, lod);
    DropSucc(c, lod);
    var d, p := Drop(c, lod), Pow8(lod);
    Distribute(d / 8, d % 8, p);
  }

  lemma Distribute(q: nat, r: nat, p: nat)
    ensures (8 * q + r) * p == q * (8 * p) + r * p
  {
    assert (8 * q + r) * p == (8 * q) * p + r * p;
  }

  /** Inside the node, being below octant i's bound means having a digit of at most i. */
  lemma BelowBound(c: nat, lod: nat, nodeMin: nat, i: nat, modulus: nat)
    requires nodeMin == Drop(nodeMin, lod + 1) * Pow8(lod + 1) && Drop(c, lod + 1) == Drop(nodeMin, lod + 1)
    requires i < 8 && modulus > 0 && (i == 7 ==> !Wraps(lod, nodeMin, modulus))
    ensures c < Bound(lod, nodeMin, i, modulus) <==> Digit(c, lod) <= i
  {
    DigitSplit(c, lod);
    var p, d := Pow8(lod), Digit(c, lod);
    if i == 7 {
      SmallMod(nodeMin + Pow8(lod + 1), modulus);
    }
    hide Digit, Drop, Low;
    assert (i + 1) * p == i * p + p && 8 * p == 7 * p + p;
    if d <= i {
      MulMonotone(d, i, p);
    } else {
      MulMonotone(i + 1, d, p);
    }
  }

  lemma SmallMod(a: nat, m: nat)
    requires a < m
    ensures a % m == a
  {
  }

  /** std::lower_bound over a sorted window. */
  method LowerBound(codes: seq<nat>, from: nat, end: nat, v: nat) returns (hi: nat)
    requires from <= end && SortedFrom(codes, from, end)
    ensures from <= hi <= end
    ensures forall k :: from <= k < hi ==> codes[k] < v
    ensures forall k :: hi <= k < end ==> codes[k] >= v
  {
    hi := from;
    var top := end;
    while hi < top
      invariant from <= hi <= top <= end
      invariant forall k :: from <= k < hi ==> codes[k] < v
      invariant forall k :: top <= k < end ==> codes[k] >= v
    {
      var mid := (hi + top) / 2;
      if codes[mid] < v {
        hi := mid + 1;
      } else {
        top := mid;
      }
    }
  }

  /** Non-empty ranges that follow one another from `begin` to `stop`, octants rising. */
  ghost predicate Tiles(ranges: seq<Range>, begin: nat, stop: nat) {
    && (ranges == [] ==> stop == begin)
    && (ranges != [] ==> ranges[0].start == begin && ranges[|ranges| - 1].start + ranges[|ranges| - 1].count == stop)
    && (forall k :: 0 <= k < |ranges| ==> ranges[k].count > 0 && begin <= ranges[k].start && ranges[k].start + ranges[k].count <= stop)
    && (forall k :: 0 < k < |ranges| ==> ranges[k].start == ranges[k - 1].start + ranges[k - 1].count)
    && (forall j, k :: 0 <= j < k < |ranges| ==> ranges[j].octant < ranges[k].octant)
  }

  ghost predicate RangeMatches(r: Range, codes: seq<nat>, lod: nat) {
    && r.octant < 8 && r.start + r.count <= |codes|
    && forall m :: r.start <= m < r.start + r.count ==> Digit(codes[m], lod) == r.octant
  }

  ghost predicate DigitsMatch(ranges: seq<Range>, codes: seq<nat>, lod: nat) {
    forall k :: 0 <= k < |ranges| ==> RangeMatches(ranges[k], codes, lod)
  }

  lemma AppendRange(ranges: seq<Range>, codes: seq<nat>, begin: nat, cur: nat, hi: nat, octant: nat, lod: nat)
    requires Tiles(ranges, begin, cur) && DigitsMatch(ranges, codes, lod) && begin <= cur < hi <= |codes| && octant < 8
    requires forall k :: 0 <= k < |ranges| ==> ranges[k].octant < octant
    requires forall k :: cur <= k < hi ==> Digit(codes[k], lod) == octant
    ensures
      var r := ranges + [Range(octant, cur, hi - cur)];
      Tiles(r, begin, hi) && DigitsMatch(r, codes, lod)
  {
    hide Digit;
  }

  /** The end of octant i's range at `cur`; nothing is taken when the bound has wrapped. */
  method OctantEnd(codes: seq<nat>, cur: nat, end: nat, lod: nat, nodeMin: nat, i: nat, modulus: nat) returns (hi: nat)
    requires cur < end && SortedFrom(codes, cur, end) && InNode(codes, cur, end, lod, nodeMin) && i < 8
    requires modulus > 0 && nodeMin + Pow8(lod + 1) <= modulus
    requires forall k :: cur <= k < end ==> Digit(codes[k], lod) >= i
    ensures cur <= hi <= end
    ensures i == 7 && Wraps(lod, nodeMin, modulus) ==> hi == cur
    ensures !(i == 7 && Wraps(lod, nodeMin, modulus)) ==>
              && (forall k :: cur <= k < hi ==> Digit(codes[k], lod) == i)
              && (forall k :: hi <= k < end ==> Digit(codes[k], lod) > i)
  {
    hide Digit, Drop, Pow8;
    var bound := Bound(lod, nodeMin, i, modulus);
    if i == 7 && Wraps(lod, nodeMin, modulus) {
      FullTurn(modulus);
    } else {
      forall k | cur <= k < end
        ensures codes[k] < bound <==> Digit(codes[k], lod) <= i
      {
        BelowBound(codes[k], lod, nodeMin, i, modulus);
      }
    }
    hi := cur;
    if codes[cur] < bound {
      hi := LowerBound(codes, cur, end, bound);
    } else {
      assert forall k :: cur <= k < end ==> codes[k] >= bound;
    }
  }

  lemma FullTurn(m: nat)
    requires m > 0
    ensures m % m == 0
  {
  }

  /** for_each_octant_range. The ranges always tile a front part of the window with matching digits;
      they cover all of it exactly when the last bound does not wrap or no code needs it. */
  method ForEachOctantRange(codes: seq<nat>, begin: nat, end: nat, lod: nat, nodeMin: nat, modulus: nat)
    returns (ranges: seq<Range>, stop: nat)
    requires SortedFrom(codes, begin, end) && InNode(codes, begin, end, lod, nodeMin) && modulus > 0
    requires nodeMin + Pow8(lod + 1) <= modulus
    ensures Tiles(ranges, begin, stop) && DigitsMatch(ranges, codes, lod)
    ensures stop <= end
    ensures stop == end <==> !Wraps(lod, nodeMin, modulus) || forall k :: begin <= k < end ==> Digit(codes[k], lod) != 7
    ensures begin <= stop && forall k :: stop <= k < end ==> Digit(codes[k], lod) == 7
    ensures Wraps(lod, nodeMin, modulus) ==> forall k :: begin <= k < stop ==> Digit(codes[k], lod) != 7
  {
    ranges := [];
    var cur, i := begin, 0;
    hide Drop, Pow8, Digit;
    DigitsBelow8(codes, begin, end, lod);
    while i < 8 && cur != end
      invariant begin <= cur <= end && i <= 8
      invariant Tiles(ranges, begin, cur) && DigitsMatch(ranges, codes, lod)
      invariant forall k :: 0 <= k < |ranges| ==> ranges[k].octant < i
      invariant forall k :: begin <= k < cur ==> Digit(codes[k], lod) < i
      invariant forall k :: cur <= k < end ==> Digit(codes[k], lod) >= (if i == 8 && Wraps(lod, nodeMin, modulus) then 7 else i)
      invariant i == 8 && Wraps(lod, nodeMin, modulus) ==> forall k :: begin <= k < cur ==> Digit(codes[k], lod) < 7
      decreases 8 - i
    {
      var hi := OctantEnd(codes, cur, end, lod, nodeMin, i, modulus);
      if hi != cur {
        AppendRange(ranges, codes, begin, cur, hi, i, lod);
        ranges := ranges + [Range(i, cur, hi - cur)];
        cur := hi;
      }
      i := i + 1;
    }
    stop := cur;
    if cur != end {
      assert 7 <= Digit(codes[cur], lod) < 8;
    }
  }

  lemma DigitsBelow8(codes: seq<nat>, begin: nat, end: nat, lod: nat)
    requires begin <= end <= |codes|
    ensures forall k :: begin <= k < end ==> Digit(codes[k], lod) < 8
  {
  }

  // ---- the children ---------------------------------------------------------------------------

  datatype Subset = Subset(inputId: nat, offset: nat, count: nat)
  datatype Collection = Collection(pointCount: nat, min: nat, max: nat, minLod: nat, data: seq<Subset>)

  /** add_subset_to_child */
  function AddSubset(c: Collection, s: Subset, first: nat, last: nat): Collection {
    if c.pointCount == 0 then Collection(s.count, first, last, Lod(first, last), c.data + [s])
    else
      var lo, hi := if first < c.min then first else c.min, if c.max < last then last else c.max;
      Collection(c.pointCount + s.count, lo, hi, if lo != c.min || hi != c.max then Lod(lo, hi) else c.minLod, c.data + [s])
  }

  function Points(data: seq<Subset>): nat {
    if data == [] then 0 else Points(data[..|data| - 1]) + data[|data| - 1].count
  }

  ghost predicate Extremes(codes: seq<nat>, lo: nat, hi: nat) {
    lo in codes && hi in codes && forall c :: c in codes ==> lo <= c <= hi
  }

  /** The stored units by input id, as global codes. */
  type Units = map<nat, seq<nat>>

  /** The points a subset names. */
  function Named(units: Units, s: Subset): seq<nat> {
    if s.inputId in units && s.offset + s.count <= |units[s.inputId]| then units[s.inputId][s.offset..s.offset + s.count] else []
  }

  /** Reading a list of subsets, one after the other. */
  function Read(units: Units, data: seq<Subset>): seq<nat> {
    if data == [] then [] else Read(units, data[..|data| - 1]) + Named(units, data[|data| - 1])
  }

  /** The collection describes exactly these codes, and its subsets name them. */
  ghost predicate Describes(units: Units, c: Collection, codes: seq<nat>) {
    && c.pointCount == |codes| == Points(c.data) && Read(units, c.data) == codes
    && (codes != [] ==> Extremes(codes, c.min, c.max) && c.minLod == Lod(c.min, c.max))
  }

  lemma AddDescribes(units: Units, c: Collection, codes: seq<nat>, s: Subset, more: seq<nat>, first: nat, last: nat)
    requires Describes(units, c, codes) && more != [] && s.count == |more| && Named(units, s) == more && Extremes(more, first, last)
    ensures Describes(units, AddSubset(c, s, first, last), codes + more)
  {
    hide Named;
    assert (c.data + [s])[..|c.data|] == c.data;
    assert forall x :: x in codes + more <==> x in codes || x in more;
    assert codes == [] ==> codes + more == more;
    hide Lod;
  }

  /** Over any sequence of subdivisions a child's count, least and greatest code and span are those
      of all the points it was given. */
  datatype Added = Added(subset: Subset, codes: seq<nat>, first: nat, last: nat)

  function AddAll(c: Collection, adds: seq<Added>): Collection {
    if adds == [] then c
    else var a := adds[|adds| - 1]; AddSubset(AddAll(c, adds[..|adds| - 1]), a.subset, a.first, a.last)
  }

  function AllCodes(adds: seq<Added>): seq<nat> {
    if adds == [] then [] else AllCodes(adds[..|adds| - 1]) + adds[|adds| - 1].codes
  }

  lemma {:induction false} AddAllDescribes(units: Units, c: Collection, codes: seq<nat>, adds: seq<Added>)
    requires Describes(units, c, codes)
    requires forall k :: 0 <= k < |adds| ==> adds[k].codes != [] && adds[k].subset.count == |adds[k].codes|
                                             && Named(units, adds[k].subset) == adds[k].codes
                                             && Extremes(adds[k].codes, adds[k].first, adds[k].last)
    ensures Describes(units, AddAll(c, adds), codes + AllCodes(adds))
  {
    hide Describes, Extremes, AddSubset, Named;
    if adds == [] {
      assert codes + AllCodes(adds) == codes;
    } else {
      var init, a := adds[..|adds| - 1], adds[|adds| - 1];
      AddAllDescribes(units, c, codes, init);
      AddDescribes(units, AddAll(c, init), codes + AllCodes(init), a.subset, a.codes, a.first, a.last);
      assert codes + AllCodes(init) + a.codes == codes + AllCodes(adds);
    }
  }

  /** The codes of a window with a given digit. */
  function WithDigit(codes: seq<nat>, lod: nat, d: nat): seq<nat> {
    if codes == [] then []
    else WithDigit(codes[..|codes| - 1], lod, d) + (if Digit(codes[|codes| - 1], lod) == d then [codes[|codes| - 1]] else [])
  }

  lemma {:induction false} WithDigitAppend(a: seq<nat>, b: seq<nat>, lod: nat, d: nat)
    ensures WithDigit(a + b, lod, d) == WithDigit(a, lod, d) + WithDigit(b, lod, d)
  {
    if b == [] {
      assert a + b == a;
    } else {
      assert (a + b)[..|a + b| - 1] == a + b[..|b| - 1];
      WithDigitAppend(a, b[..|b| - 1], lod, d);
    }
  }

  lemma {:induction false} WithDigitUniform(codes: seq<nat>, lod: nat, d: nat, e: nat)
    requires forall k :: 0 <= k < |codes| ==> Digit(codes[k], lod) == e
    ensures WithDigit(codes, lod, d) == if d == e then codes else []
  {
    hide Digit;
    if codes != [] {
      WithDigitUniform(codes[..|codes| - 1], lod, d, e);
      assert codes == codes[..|codes| - 1] + [codes[|codes| - 1]];
    }
  }

  // ---- subdividing a subset ---------------------------------------------------------------------

  /** Local codes lifted to global ones: the digits above the local width are the node's. */
  function Lifted(codes: seq<nat>, high: nat): (r: seq<nat>)
    ensures |r| == |codes| && forall k :: 0 <= k < |codes| ==> r[k] == high + codes[k]
  {
    seq(|codes|, k requires 0 <= k < |codes| => high + codes[k])
  }

  lemma RangeExtremes(codes: seq<nat>, begin: nat, end: nat, high: nat)
    requires begin < end && SortedFrom(codes, begin, end)
    ensures Extremes(Lifted(codes[begin..end], high), high + codes[begin], high + codes[end - 1])
  {
    var g := Lifted(codes[begin..end], high);
    assert g[0] == high + codes[begin] && g[|g| - 1] == high + codes[end - 1];
    forall c | c in g
      ensures high + codes[begin] <= c <= high + codes[end - 1]
    {
      var k :| 0 <= k < |g| && g[k] == c;
      assert c == high + codes[begin + k];
    }
  }

  lemma SortedInside(codes: seq<nat>, begin: nat, end: nat, from: nat, to: nat)
    requires SortedFrom(codes, begin, end) && begin <= from <= to <= end
    ensures SortedFrom(codes, from, to)
  {
  }

  /** A child's points once the window has been handed out up to `pos`. */
  function Share(had: seq<nat>, codes: seq<nat>, begin: nat, pos: nat, lod: nat, d: nat, high: nat): seq<nat>
    requires begin <= pos <= |codes|
  {
    had + Lifted(WithDigit(codes[begin..pos], lod, d), high)
  }

  lemma ShareGrows(had: seq<nat>, codes: seq<nat>, begin: nat, pos: nat, to: nat, lod: nat, d: nat, octant: nat, high: nat)
    requires begin <= pos <= to <= |codes| && forall m :: pos <= m < to ==> Digit(codes[m], lod) == octant
    ensures Share(had, codes, begin, to, lod, d, high)
            == Share(had, codes, begin, pos, lod, d, high) + (if d == octant then Lifted(codes[pos..to], high) else [])
  {
    hide Digit, WithDigit, Lifted;
    var a, b := codes[begin..pos], codes[pos..to];
    assert codes[begin..to] == a + b;
    WithDigitAppend(a, b, lod, d);
    WithDigitUniform(b, lod, d, octant);
    LiftedAppend(had, WithDigit(a, lod, d), if d == octant then b else [], high);
  }

  lemma LiftedAppend(had: seq<nat>, a: seq<nat>, b: seq<nat>, high: nat)
    ensures had + Lifted(a + b, high) == had + Lifted(a, high) + Lifted(b, high)
    ensures b == [] ==> Lifted(b, high) == []
  {
  }

  /** The window's points as the unit `inputId` holds them. */
  ghost predicate InUnit(units: Units, inputId: nat, codes: seq<nat>, begin: nat, end: nat, high: nat) {
    && inputId in units && |units[inputId]| == |codes|
    && begin <= end <= |codes| && forall k :: begin <= k < end ==> units[inputId][k] == high + codes[k]
  }

  lemma NamedIsLifted(units: Units, inputId: nat, codes: seq<nat>, begin: nat, end: nat, high: nat, from: nat, to: nat)
    requires InUnit(units, inputId, codes, begin, end, high) && begin <= from <= to <= end
    ensures Named(units, Subset(inputId, from, to - from)) == Lifted(codes[from..to], high)
  {
  }

  lemma ChildAfterRange(units: Units, c: Collection, had: seq<nat>, codes: seq<nat>, begin: nat, end: nat, r: Range, lod: nat, high: nat,
                        inputId: nat, d: nat)
    requires begin <= end <= |codes| && SortedFrom(codes, begin, end) && RangeMatches(r, codes, lod)
    requires r.count > 0 && begin <= r.start && r.start + r.count <= end
    requires InUnit(units, inputId, codes, begin, end, high)
    requires Describes(units, c, Share(had, codes, begin, r.start, lod, d, high))
    ensures
      var c' := if d == r.octant then AddRange(c, r, codes, high, inputId) else c;
      Describes(units, c', Share(had, codes, begin, r.start + r.count, lod, d, high))
  {
    hide Describes, Extremes, AddSubset, Share, Digit, SortedFrom, Lifted, Named, InUnit;
    var to := r.start + r.count;
    InWindow(codes, begin, end);
    ShareGrows(had, codes, begin, r.start, to, lod, d, r.octant, high);
    SortedInside(codes, begin, end, r.start, to);
    RangeExtremes(codes, r.start, to, high);
    assert Share(had, codes, begin, r.start, lod, d, high) + [] == Share(had, codes, begin, r.start, lod, d, high);
    if d == r.octant {
      NamedIsLifted(units, inputId, codes, begin, end, high, r.start, to);
      AddDescribes(units, c, Share(had, codes, begin, r.start, lod, d, high), Subset(inputId, r.start, r.count),
                   Lifted(codes[r.start..to], high), high + codes[r.start], high + codes[to - 1]);
    }
  }

  lemma InWindow(codes: seq<nat>, begin: nat, end: nat)
    requires SortedFrom(codes, begin, end)
    ensures begin <= end <= |codes|
  {
  }

  /** The callback of the split. */
  function AddRange(c: Collection, r: Range, codes: seq<nat>, high: nat, inputId: nat): Collection
    requires r.count > 0 && r.start + r.count <= |codes|
  {
    AddSubset(c, Subset(inputId, r.start, r.count), high + codes[r.start], high + codes[r.start + r.count - 1])
  }

  lemma TileEnds(ranges: seq<Range>, begin: nat, stop: nat, k: nat)
    requires Tiles(ranges, begin, stop) && k < |ranges|
    ensures ranges[k].count > 0 && begin <= ranges[k].start && ranges[k].start + ranges[k].count <= stop
    ensures ranges[k].start == if k == 0 then begin else ranges[k - 1].start + ranges[k - 1].count
    ensures k == |ranges| - 1 ==> ranges[k].start + ranges[k].count == stop
  {
  }

  /** The codes of a window that end up in child d: those with its digit, except that a wrapped bound loses
      the last octant. */
  function Landed(codes: seq<nat>, lod: nat, d: nat, wraps: bool): seq<nat> {
    if wraps && d == 7 then [] else WithDigit(codes, lod, d)
  }

  lemma {:induction false} WithoutDigit(codes: seq<nat>, lod: nat, d: nat)
    requires forall k :: 0 <= k < |codes| ==> Digit(codes[k], lod) != d
    ensures WithDigit(codes, lod, d) == []
  {
    hide Digit;
    if codes != [] {
      WithoutDigit(codes[..|codes| - 1], lod, d);
    }
  }

  /** The ranges up to `stop` hold what lands. */
  lemma LandedBefore(codes: seq<nat>, begin: nat, stop: nat, end: nat, lod: nat, d: nat, wraps: bool)
    requires begin <= stop <= end <= |codes| && d < 8 && (stop < end ==> wraps)
    requires forall k :: stop <= k < end ==> Digit(codes[k], lod) == 7
    requires wraps ==> forall k :: begin <= k < stop ==> Digit(codes[k], lod) != 7
    ensures WithDigit(codes[begin..stop], lod, d) == Landed(codes[begin..end], lod, d, wraps)
  {
    hide Digit, WithDigit;
    var front, back := codes[begin..stop], codes[stop..end];
    assert codes[begin..end] == front + back;
    WithDigitAppend(front, back, lod, d);
    WithDigitUniform(back, lod, d, 7);
    if d == 7 && wraps {
      WithoutDigit(front, lod, 7);
    } else {
      assert WithDigit(front, lod, d) + [] == WithDigit(front, lod, d);
      assert d == 7 ==> back == [];
    }
  }

  lemma AllLanded(had: seq<seq<nat>>, codes: seq<nat>, begin: nat, stop: nat, end: nat, lod: nat, high: nat, wraps: bool)
    requires |had| == 8 && begin <= stop <= end <= |codes| && (stop < end ==> wraps)
    requires forall k :: stop <= k < end ==> Digit(codes[k], lod) == 7
    requires wraps ==> forall k :: begin <= k < stop ==> Digit(codes[k], lod) != 7
    ensures forall d :: 0 <= d < 8 ==>
              Share(had[d], codes, begin, stop, lod, d, high) == had[d] + Lifted(Landed(codes[begin..end], lod, d, wraps), high)
  {
    hide Digit, WithDigit, Landed, Lifted;
    forall d | 0 <= d < 8
      ensures Share(had[d], codes, begin, stop, lod, d, high) == had[d] + Lifted(Landed(codes[begin..end], lod, d, wraps), high)
    {
      LandedBefore(codes, begin, stop, end, lod, d, wraps);
    }
  }

  /** point_buffer_subdivide_type on a window whose codes are wide enough for the split: each child is left
      describing its former points and those of the window that land in it. */
  method Subdivide(codes: seq<nat>, begin: nat, end: nat, lod: nat, nodeMin: nat, modulus: nat, high: nat, inputId: nat,
                   children: array<Collection>, ghost units: Units, ghost had: seq<seq<nat>>)
    requires SortedFrom(codes, begin, end) && InUnit(units, inputId, codes, begin, end, high) && InNode(codes, begin, end, lod, nodeMin)
    requires modulus > 0 && nodeMin + Pow8(lod + 1) <= modulus
    requires children.Length == |had| == 8 && forall d :: 0 <= d < 8 ==> Describes(units, children[d], had[d])
    modifies children
    ensures forall d :: 0 <= d < 8 ==>
              Describes(units, children[d], had[d] + Lifted(Landed(codes[begin..end], lod, d, Wraps(lod, nodeMin, modulus)), high))
  {
    hide Describes, InNode, Tiles, AddRange, WithDigit, Digit, Share, Lifted, SortedFrom, Landed, Pow8, InUnit;
    InWindow(codes, begin, end);
    var ranges, stop := ForEachOctantRange(codes, begin, end, lod, nodeMin, modulus);
    NothingShared(had, codes, begin, lod, high);
    AllLanded(had, codes, begin, stop, end, lod, high, Wraps(lod, nodeMin, modulus));
    ghost var pos := begin;
    if ranges == [] {
      NoTiles(begin, stop);
    }
    for k := 0 to |ranges|
      invariant begin <= pos <= stop && pos == if k == 0 then begin else ranges[k - 1].start + ranges[k - 1].count
      invariant k == |ranges| ==> pos == stop
      invariant forall d :: 0 <= d < 8 ==> Describes(units, children[d], Share(had[d], codes, begin, pos, lod, d, high))
    {
      TileEnds(ranges, begin, stop, k);
      TakeRange(codes, begin, end, lod, high, inputId, ranges[k], children, units, had);
      pos := ranges[k].start + ranges[k].count;
    }
  }

  /** One callback: the range goes to its octant's child. */
  method TakeRange(codes: seq<nat>, begin: nat, end: nat, lod: nat, high: nat, inputId: nat, r: Range,
                   children: array<Collection>, ghost units: Units, ghost had: seq<seq<nat>>)
    requires InUnit(units, inputId, codes, begin, end, high)
    requires begin <= end <= |codes| && SortedFrom(codes, begin, end) && RangeMatches(r, codes, lod)
    requires r.count > 0 && begin <= r.start && r.start + r.count <= end
    requires children.Length == |had| == 8
    requires forall d :: 0 <= d < 8 ==> Describes(units, children[d], Share(had[d], codes, begin, r.start, lod, d, high))
    modifies children
    ensures forall d :: 0 <= d < 8 ==> Describes(units, children[d], Share(had[d], codes, begin, r.start + r.count, lod, d, high))
  {
    hide Describes, AddRange, Digit, Share, SortedFrom, InUnit;
    forall d | 0 <= d < 8
      ensures
        var c' := if d == r.octant then AddRange(children[d], r, codes, high, inputId) else children[d];
        Describes(units, c', Share(had[d], codes, begin, r.start + r.count, lod, d, high))
    {
      ChildAfterRange(units, children[d], had[d], codes, begin, end, r, lod, high, inputId, d);
    }
    children[r.octant] := AddRange(children[r.octant], r, codes, high, inputId);
  }

  lemma NoTiles(begin: nat, stop: nat)
    requires Tiles([], begin, stop)
    ensures begin == stop
  {
  }

  lemma NothingShared(had: seq<seq<nat>>, codes: seq<nat>, begin: nat, lod: nat, high: nat)
    requires |had| == 8 && begin <= |codes|
    ensures forall d :: 0 <= d < 8 ==> Share(had[d], codes, begin, begin, lod, d, high) == had[d]
  {
    assert codes[begin..begin] == [];
  }

  /** The shares add up: every point of a window has one of the eight digits. */
  lemma {:induction false} SharesAddUp(codes: seq<nat>, lod: nat)
    ensures |WithDigit(codes, lod, 0)| + |WithDigit(codes, lod, 1)| + |WithDigit(codes, lod, 2)| + |WithDigit(codes, lod, 3)|
            + |WithDigit(codes, lod, 4)| + |WithDigit(codes, lod, 5)| + |WithDigit(codes, lod, 6)| + |WithDigit(codes, lod, 7)|
            == |codes|
  {
    if codes != [] {
      SharesAddUp(codes[..|codes| - 1], lod);
    }
  }

  /** A unit too narrow to reach the split digit lies in one octant as a whole, the one its header
      names. */
  lemma NarrowUnitInOneOctant(lo: nat, hi: nat, c: nat, width: nat, lod: nat)
    requires lo <= c <= hi && Drop(lo, width) == Drop(hi, width) && width <= lod
    ensures Digit(c, lod) == Digit(lo, lod)
  {
    BetweenSharesPrefix(lo, c, hi, width);
    SameAbove(c, lo, width, lod);
  }

  // ---- a whole unit -----------------------------------------------------------------------------

  /** A cell of the type ends at or before its last whole digit. */
  lemma CellFits(nodeMin: nat, lod: nat, n: nat)
    requires nodeMin == Drop(nodeMin, lod + 1) * Pow8(lod + 1) && nodeMin < Pow8(n) && lod < n
    ensures nodeMin + Pow8(lod + 1) <= Pow8(n)
  {
    hide Drop;
    Pow8Split(lod + 1, n);
    var d, p, q := Drop(nodeMin, lod + 1), Pow8(lod + 1), Pow8(n - lod - 1);
    hide Pow8;
    if d >= q {
      MulMonotone(q, d, p);
    } else {
      MulMonotone(d + 1, q, p);
      Factor(d, 1, p);
    }
  }

  /** Only the widest type can wrap: the others have bits to spare above their whole digits. */
  lemma NarrowTypesDoNotWrap(t: CodeType, lod: nat, nodeMin: nat)
    requires t != M192 && nodeMin + Pow8(lod + 1) <= Pow8(Digits(t))
    ensures !Wraps(lod, nodeMin, Modulus(t))
  {
    hide Pow8;
  }

  /** The last node of a type without spare bits, such as the widest one with its 64 digits: its last point
      is in no range. */
  method LastOctantIsLost(n: nat) returns (ranges: seq<Range>, stop: nat)
    requires n > 0
    ensures Wraps(0, Pow8(n) - 8, Pow8(n)) && Digit(Pow8(n) - 1, 0) == 7
    ensures ranges == [] && stop == 0
  {
    hide Pow8, Drop, Digit;
    var top := Pow8(n);
    TopNode(n);
    var codes, nodeMin := [top - 1], top - 8;
    assert Digit(codes[0], 0) == 7;
    ranges, stop := ForEachOctantRange(codes, 0, 1, 0, nodeMin, top);
  }

  lemma TopNode(n: nat)
    requires n > 0
    ensures Pow8(n) >= 8 && Pow8(0 + 1) == 8
    ensures Drop(Pow8(n) - 1, 0 + 1) == Drop(Pow8(n) - 8, 0 + 1) && Pow8(n) - 8 == Drop(Pow8(n) - 8, 0 + 1) * 8
    ensures Digit(Pow8(n) - 1, 0) == 7
  {
    var q := Pow8(n - 1);
    assert Pow8(n) == 8 * q && Pow8(1) == 8 * Pow8(0);
    DropSucc(Pow8(n) - 1, 0);
    DropSucc(Pow8(n) - 8, 0);
    assert (8 * q - 1) / 8 == q - 1 && (8 * q - 8) / 8 == q - 1;
  }

  lemma DigitNarrow(c: nat, n: nat, l: nat)
    requires l < n
    ensures Digit(Narrow(c, n), l) == Digit(c, l)
  {
    DropNarrow(c, n, l);
    assert Pow8(n - l) == 8 * Pow8(n - l - 1);
    hide Drop, Pow8, Narrow;
    var d, p, r := Drop(c, n), Pow8(n - l - 1), Drop(Narrow(c, n), l);
    Times8(d, p);
    EightOf(8 * (d * p) + r, d * p, r);
  }

  /** The window's global codes: narrowed they are the stored ones, and they lie in the node. */
  ghost predicate Window(globals: seq<nat>, codes: seq<nat>, begin: nat, end: nat, lod: nat, nodeMin: nat, n: nat) {
    && |globals| == |codes| && SortedFrom(globals, begin, end) && InNode(globals, begin, end, lod, nodeMin)
    && forall k :: 0 <= k < |codes| ==> codes[k] == Narrow(globals[k], n)
  }

  /** Putting the node's high digits back gives the global code. */
  lemma LiftIsGlobal(g: nat, lod: nat, nodeMin: nat, n: nat)
    requires lod < n && Drop(g, lod + 1) == Drop(nodeMin, lod + 1)
    ensures Drop(nodeMin, n) * Pow8(n) + Narrow(g, n) == g && Drop(g, n) == Drop(nodeMin, n)
    ensures Digit(Narrow(g, n), lod) == Digit(g, lod)
    ensures Drop(Narrow(g, n), lod + 1) == Drop(Narrow(nodeMin, n), lod + 1)
  {
    hide Drop, Pow8, Digit;
    SameAbove(g, nodeMin, lod + 1, n);
    DropSplit(g, n);
    DigitNarrow(g, n, lod);
    DropNarrow(g, n, lod + 1);
    DropNarrow(nodeMin, n, lod + 1);
  }

  lemma {:induction false} LiftedWithDigit(globals: seq<nat>, codes: seq<nat>, lod: nat, d: nat, high: nat)
    requires |globals| == |codes|
    requires forall k :: 0 <= k < |codes| ==> high + codes[k] == globals[k] && Digit(codes[k], lod) == Digit(globals[k], lod)
    ensures Lifted(WithDigit(codes, lod, d), high) == WithDigit(globals, lod, d)
    decreases |codes|
  {
    hide Digit;
    if codes != [] {
      var n := |codes| - 1;
      LiftedWithDigit(globals[..n], codes[..n], lod, d, high);
      assert Digit(codes[n], lod) == Digit(globals[n], lod) && high + codes[n] == globals[n];
    }
  }

  lemma LocalWindow(globals: seq<nat>, codes: seq<nat>, begin: nat, end: nat, lod: nat, nodeMin: nat, n: nat)
    requires Window(globals, codes, begin, end, lod, nodeMin, n) && lod < n
    ensures SortedFrom(codes, begin, end) && InNode(codes, begin, end, lod, Narrow(nodeMin, n))
    ensures forall d :: 0 <= d < 8 ==>
              Lifted(WithDigit(codes[begin..end], lod, d), Drop(nodeMin, n) * Pow8(n)) == WithDigit(globals[begin..end], lod, d)
  {
    hide Drop, Pow8, Digit, WithDigit, Lifted, Narrow;
    var high := Drop(nodeMin, n) * Pow8(n);
    forall k | begin <= k < end
      ensures high + codes[k] == globals[k] && Digit(codes[k], lod) == Digit(globals[k], lod)
      ensures Drop(codes[k], lod + 1) == Drop(Narrow(nodeMin, n), lod + 1)
    {
      LiftIsGlobal(globals[k], lod, nodeMin, n);
    }
    LocalNode(nodeMin, lod, n);
    forall i, j | begin <= i < j < end
      ensures codes[i] <= codes[j]
    {
      assert globals[i] <= globals[j];
    }
    forall d | 0 <= d < 8
      ensures Lifted(WithDigit(codes[begin..end], lod, d), high) == WithDigit(globals[begin..end], lod, d)
    {
      LiftedWithDigit(globals[begin..end], codes[begin..end], lod, d, high);
    }
  }

  lemma LocalInUnit(units: Units, inputId: nat, globals: seq<nat>, codes: seq<nat>, begin: nat, end: nat, lod: nat, nodeMin: nat, n: nat)
    requires Window(globals, codes, begin, end, lod, nodeMin, n) && lod < n && inputId in units && units[inputId] == globals
    ensures InUnit(units, inputId, codes, begin, end, Drop(nodeMin, n) * Pow8(n))
  {
    hide Drop, Pow8, Digit, Narrow;
    forall k | begin <= k < end
      ensures Drop(nodeMin, n) * Pow8(n) + codes[k] == globals[k]
    {
      LiftIsGlobal(globals[k], lod, nodeMin, n);
    }
  }

  lemma LiftedLanded(globals: seq<nat>, codes: seq<nat>, lod: nat, high: nat, wraps: bool)
    requires forall d :: 0 <= d < 8 ==> Lifted(WithDigit(codes, lod, d), high) == WithDigit(globals, lod, d)
    ensures forall d :: 0 <= d < 8 ==> Lifted(Landed(codes, lod, d, wraps), high) == Landed(globals, lod, d, wraps)
  {
    hide WithDigit;
  }

  lemma LocalNode(nodeMin: nat, lod: nat, n: nat)
    requires lod < n && nodeMin == Drop(nodeMin, lod + 1) * Pow8(lod + 1)
    ensures var m := Narrow(nodeMin, n); m == Drop(m, lod + 1) * Pow8(lod + 1) && m < Pow8(n)
  {
    hide Drop, Pow8;
    DropNarrow(nodeMin, n, lod + 1);
    Pow8Split(lod + 1, n);
    DropSplit(nodeMin, n);
    var d, q, p, r := Drop(nodeMin, n), Pow8(n - lod - 1), Pow8(lod + 1), Drop(Narrow(nodeMin, n), lod + 1);
    Factor(d * q, r, p);
    Associate(d, q, p);
  }

  /** Only the widest type's last node loses an octant. */
  predicate LosesOctant(t: CodeType, lod: nat, nodeMin: nat) { t == M192 && lod < Digits(t) && Wraps(lod, nodeMin, Modulus(t)) }

  /** point_buffer_subdivide_type: a unit too narrow for the split goes whole to the octant its header names;
      any other is split. Either way each child is left describing its former points and those of the window
      that land in it, by their global codes. */
  method SubdivideUnit(codes: seq<nat>, begin: nat, end: nat, lod: nat, nodeMin: nat, t: CodeType, inputId: nat,
                       headerMin: nat, headerMax: nat, children: array<Collection>, ghost units: Units, ghost globals: seq<nat>, ghost had: seq<seq<nat>>)
    requires inputId in units && units[inputId] == globals
    requires Window(globals, codes, begin, end, lod, nodeMin, Digits(t)) && begin < end && nodeMin < Pow8(Digits(M192))
    requires lod >= Digits(t) ==> begin == 0 && end == |codes| && Extremes(globals, headerMin, headerMax)
                                  && Drop(headerMin, Digits(t)) == Drop(headerMax, Digits(t))
    requires children.Length == |had| == 8 && forall d :: 0 <= d < 8 ==> Describes(units, children[d], had[d])
    modifies children
    ensures forall d :: 0 <= d < 8 ==>
              Describes(units, children[d], had[d] + Landed(globals[begin..end], lod, d, LosesOctant(t, lod, nodeMin)))
  {
    hide Describes, InNode, WithDigit, Digit, Lifted, SortedFrom, Drop, Pow8, Narrow, Extremes, AddSubset, Lod, LosesOctant, Wraps;
    var n := Digits(t);
    InWindow(globals, begin, end);
    NarrowerThanSplit(t, lod);
    if lod * 3 + 3 > BitWidth(t) {
      var child := Digit(headerMin, lod);
      DigitIsOctant(headerMin, lod);
      WholeUnit(globals, headerMin, headerMax, n, lod);
      NoLossWhole(t, lod, nodeMin);
      assert globals[begin..end] == globals;
      forall d | 0 <= d < 8
        ensures Describes(units, if d == child then AddSubset(children[d], Subset(inputId, 0, |codes|), headerMin, headerMax) else children[d],
                          had[d] + WithDigit(globals, lod, d))
      {
        if d == child {
          assert Named(units, Subset(inputId, 0, |codes|)) == globals;
          AddDescribes(units, children[d], had[d], Subset(inputId, 0, |codes|), globals, headerMin, headerMax);
        } else {
          assert had[d] + [] == had[d];
        }
      }
      children[child] := AddSubset(children[child], Subset(inputId, 0, |codes|), headerMin, headerMax);
    } else {
      LocalWindow(globals, codes, begin, end, lod, nodeMin, n);
      WindowNode(globals, codes, begin, end, lod, nodeMin, n);
      LocalWraps(nodeMin, lod, t);
      LocalInUnit(units, inputId, globals, codes, begin, end, lod, nodeMin, n);
      LiftedLanded(globals[begin..end], codes[begin..end], lod, Drop(nodeMin, n) * Pow8(n), LosesOctant(t, lod, nodeMin));
      hide Landed, Modulus, InUnit;
      Subdivide(codes, begin, end, lod, Narrow(nodeMin, n), Modulus(t), Drop(nodeMin, n) * Pow8(n), inputId, children, units, had);
    }
  }

  lemma NoLossWhole(t: CodeType, lod: nat, nodeMin: nat)
    requires lod >= Digits(t)
    ensures !LosesOctant(t, lod, nodeMin)
  {
    hide Pow8;
  }

  lemma NarrowerThanSplit(t: CodeType, lod: nat)
    ensures lod * 3 + 3 > BitWidth(t) <==> lod >= Digits(t)
    ensures Modulus(t) > 0
  {
    hide Pow8;
  }

  lemma DigitIsOctant(c: nat, lod: nat)
    ensures Digit(c, lod) < 8
  {
  }

  lemma WindowNode(globals: seq<nat>, codes: seq<nat>, begin: nat, end: nat, lod: nat, nodeMin: nat, n: nat)
    requires Window(globals, codes, begin, end, lod, nodeMin, n)
    ensures nodeMin == Drop(nodeMin, lod + 1) * Pow8(lod + 1)
  {
  }

  /** The narrowed node wraps exactly when the octant is lost. */
  lemma LocalWraps(nodeMin: nat, lod: nat, t: CodeType)
    requires lod < Digits(t) && nodeMin == Drop(nodeMin, lod + 1) * Pow8(lod + 1) && nodeMin < Pow8(Digits(M192))
    ensures var m := Narrow(nodeMin, Digits(t)); m + Pow8(lod + 1) <= Modulus(t) && (Wraps(lod, m, Modulus(t)) <==> LosesOctant(t, lod, nodeMin))
  {
    hide Drop, Pow8, Narrow;
    LocalNode(nodeMin, lod, Digits(t));
    CellFits(Narrow(nodeMin, Digits(t)), lod, Digits(t));
    if t == M192 {
      FullWidth(nodeMin);
    } else {
      NarrowTypesDoNotWrap(t, lod, Narrow(nodeMin, Digits(t)));
    }
  }

  lemma WholeUnit(globals: seq<nat>, lo: nat, hi: nat, n: nat, lod: nat)
    requires Extremes(globals, lo, hi) && Drop(lo, n) == Drop(hi, n) && n <= lod
    ensures forall d :: 0 <= d < 8 ==> WithDigit(globals, lod, d) == if d == Digit(lo, lod) then globals else []
  {
    hide Drop, Digit, WithDigit;
    forall k | 0 <= k < |globals|
      ensures Digit(globals[k], lod) == Digit(lo, lod)
    {
      assert globals[k] in globals;
      NarrowUnitInOneOctant(lo, hi, globals[k], n, lod);
    }
    forall d | 0 <= d < 8
      ensures WithDigit(globals, lod, d) == if d == Digit(lo, lod) then globals else []
    {
      WithDigitUniform(globals, lod, d, Digit(lo, lod));
    }
  }
}
