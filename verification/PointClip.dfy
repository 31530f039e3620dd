/** Decoding a node's stored codes to positions in the caller's format, and clipping positions and
    attributes to a box in place. Coordinates are reals; `scale` and `offset` map grid to world. */
module PointClip {
  import opened Bytes
  import opened RegionWalk
  import Morton
  import PointPacking

  type Grid = Morton.Grid
  type Header = PointPacking.Header

  datatype Config = Config(scale: real, offset: Vec)
  datatype Format = R64Absolute | R32Relative | I32Grid

  /** One output position. */
  datatype Position = Absolute(p: Vec) | Relative(p: Vec) | Steps(x: int, y: int, z: int)

  function ToWorld(g: Grid, c: Config): Vec {
    Vec(Length(g.x, c.scale) + c.offset.x, Length(g.y, c.scale) + c.offset.y, Length(g.z, c.scale) + c.offset.z)
  }

  function Length(n: int, scale: real): real { n as real * scale }

  /** uint64 subtraction and the int32 conversion of the source. */
  function Minus64(a: nat, b: nat): int { if a >= b then a - b else a - b + 0x1_0000_0000_0000_0000 }
  function Int32(n: int): int { (n + 0x8000_0000) % 0x1_0000_0000 - 0x8000_0000 }

  /** The position written for grid point `g` of a node with origin `o`. */
  function Written(f: Format, g: Grid, o: Grid, c: Config): Position {
    match f
    case R64Absolute => Absolute(ToWorld(g, c))
    case R32Relative => Relative(Vec(Length(Minus64(g.x, o.x), c.scale), Length(Minus64(g.y, o.y), c.scale), Length(Minus64(g.z, o.z), c.scale)))
    case I32Grid => Steps(Int32(g.x - o.x), Int32(g.y - o.y), Int32(g.z - o.z))
  }

  /** world_at: back to world coordinates for the box test. */
  function World(p: Position, origin: Vec, scale: real): Vec {
    match p
    case Absolute(v) => v
    case Relative(v) => Vec(origin.x + v.x, origin.y + v.y, origin.z + v.z)
    case Steps(x, y, z) => Vec(origin.x + Length(x, scale), origin.y + Length(y, scale), origin.z + Length(z, scale))
  }

  predicate StepFits(g: nat, o: nat) { -0x8000_0000 <= g - o < 0x8000_0000 }

  /** The format can express the point against this origin. */
  predicate Fits(f: Format, g: Grid, o: Grid) {
    match f
    case R64Absolute => true
    case R32Relative => PointPacking.Below(o, g)
    case I32Grid => StepFits(g.x, o.x) && StepFits(g.y, o.y) && StepFits(g.z, o.z)
  }

  /** The clip sees a point at its true place exactly when its format can express it: always for absolute
      positions, at or above the origin for relative ones, within 32 bits for grid steps. */
  lemma WrittenKeepsWorld(f: Format, g: Grid, o: Grid, c: Config)
    requires c.scale > 0.0
    ensures World(Written(f, g, o, c), ToWorld(o, c), c.scale) == ToWorld(g, c) <==> Fits(f, g, o)
  {
    hide Int32, Minus64, Length, StepFits;
    AxisKept(g.x, o.x, c.scale, c.offset.x);
    AxisKept(g.y, o.y, c.scale, c.offset.y);
    AxisKept(g.z, o.z, c.scale, c.offset.z);
  }

  lemma AxisKept(g: nat, o: nat, scale: real, offset: real)
    requires scale > 0.0
    ensures (Length(o, scale) + offset) + Length(Minus64(g, o), scale) == Length(g, scale) + offset <==> o <= g
    ensures (Length(o, scale) + offset) + Length(Int32(g - o), scale) == Length(g, scale) + offset <==> StepFits(g, o)
  {
    LengthAdds(o, Minus64(g, o), g, scale);
    LengthAdds(o, Int32(g - o), g, scale);
  }

  lemma LengthAdds(o: int, k: int, g: int, scale: real)
    requires scale > 0.0
    ensures Length(o, scale) + Length(k, scale) == Length(g, scale) <==> o + k == g
  {
    Distribute(o as real, k as real, scale);
    if o + k < g {
      Scaled((o + k) as real, g as real, scale);
    } else if o + k > g {
      Scaled(g as real, (o + k) as real, scale);
    }
  }

  lemma Distribute(a: real, b: real, s: real)
    ensures (a + b) * s == a * s + b * s
  {
  }

  lemma Scaled(a: real, b: real, s: real)
    requires a < b && s > 0.0
    ensures a * s < b * s
  {
  }

  function Origin(h: Header): Grid { PointPacking.Decode(PointPacking.CellMin(h.mortonMin, h.lodSpan)) }

  /** One node's points in one format. */
  function Decoded(h: Header, codes: seq<nat>, f: Format, c: Config): (r: seq<Position>)
    ensures |r| == |codes|
    ensures forall i :: 0 <= i < |codes| ==> r[i] == Written(f, PointPacking.DecodeAccess(h, codes[i]), Origin(h), c)
  {
    seq(|codes|, i requires 0 <= i < |codes| => Written(f, PointPacking.DecodeAccess(h, codes[i]), Origin(h), c))
  }

  /** decode_positions */
  method DecodePositions(h: Header, codes: seq<nat>, f: Format, c: Config) returns (out: array<Position>, origin: Vec)
    ensures fresh(out) && out[..] == Decoded(h, codes, f, c) && origin == ToWorld(Origin(h), c)
  {
    hide PointPacking.DecodeAccess, Written;
    origin := ToWorld(Origin(h), c);
    out := new Position[|codes|](_ => Steps(0, 0, 0));
    for i := 0 to |codes|
      invariant forall j :: 0 <= j < i ==> out[j] == Decoded(h, codes, f, c)[j]
    {
      out[i] := Written(f, PointPacking.DecodeAccess(h, codes[i]), Origin(h), c);
    }
  }

  // ---- the filter -----------------------------------------------------------------------------------

  /** The indices below n of the positions that lie in the box, in order. */
  function Kept(ps: seq<Position>, n: nat, origin: Vec, scale: real, box: Box): (r: seq<nat>)
    requires n <= |ps|
    ensures |r| <= n && forall k :: 0 <= k < |r| ==> k <= r[k] < n
  {
    if n == 0 then []
    else
      var r := Kept(ps, n - 1, origin, scale, box);
      if HasPoint(box, World(ps[n - 1], origin, scale)) then r + [n - 1] else r
  }

  /** The kept indices are exactly the points in the box, each once and in order. */
  lemma {:induction false} KeptIsExact(ps: seq<Position>, n: nat, origin: Vec, scale: real, box: Box)
    requires n <= |ps|
    ensures var r := Kept(ps, n, origin, scale, box);
      && (forall j, k :: 0 <= j < k < |r| ==> r[j] < r[k])
      && (forall i :: 0 <= i < n ==> (i in r <==> HasPoint(box, World(ps[i], origin, scale))))
  {
    if n > 0 {
      KeptIsExact(ps, n - 1, origin, scale, box);
    }
  }

  function Gather<T>(s: seq<T>, idx: seq<nat>): (r: seq<T>)
    requires forall k :: 0 <= k < |idx| ==> idx[k] < |s|
    ensures |r| == |idx| && forall k :: 0 <= k < |idx| ==> r[k] == s[idx[k]]
  {
    seq(|idx|, k requires 0 <= k < |idx| => s[idx[k]])
  }

  /** `now` is `was` with the rows `idx` moved to the front and the rows behind them untouched. */
  ghost predicate Compacted<T(!new)>(now: seq<T>, was: seq<T>, idx: seq<nat>) {
    && |now| == |was| && |idx| <= |was|
    && (forall k :: 0 <= k < |idx| ==> k <= idx[k] < |was| && now[k] == was[idx[k]])
    && (forall k :: |idx| <= k < |was| ==> now[k] == was[k])
  }

  lemma CompactedStep<T(!new)>(now: seq<T>, was: seq<T>, idx: seq<nat>, i: nat)
    requires Compacted(now, was, idx) && |idx| <= i < |was|
    ensures Compacted(now[|idx| := now[i]], was, idx + [i])
  {
  }

  lemma CompactedStart<T(!new)>(was: seq<T>)
    ensures Compacted(was, was, [])
  {
  }

  lemma CompactedTail<T(!new)>(now: seq<T>, was: seq<T>, idx: seq<nat>, i: nat)
    requires Compacted(now, was, idx) && |idx| <= i < |was|
    ensures |now| == |was| && now[i] == was[i]
  {
  }

  lemma CompactedGathers<T(!new)>(now: seq<T>, was: seq<T>, idx: seq<nat>)
    requires Compacted(now, was, idx)
    ensures now[..|idx|] == Gather(was, idx)
  {
  }

  // ---- rows of a byte buffer ------------------------------------------------------------------------

  lemma RowFits(i: nat, n: nat, stride: nat)
    requires i < n
    ensures i * stride + stride == (i + 1) * stride <= n * stride
  {
    assert (n - (i + 1)) * stride >= 0;
    assert n * stride == (n - (i + 1)) * stride + (i + 1) * stride;
  }

  function Row(s: seq<byte>, i: nat, stride: nat): (r: seq<byte>)
    requires i * stride + stride <= |s|
    ensures |r| == stride
  {
    s[i * stride..i * stride + stride]
  }

  /** The first n rows. */
  function Rows(s: seq<byte>, n: nat, stride: nat): (r: seq<seq<byte>>)
    requires n * stride <= |s|
    ensures |r| == n && Sized(r, stride)
    ensures forall i :: 0 <= i < n ==> i * stride + stride <= |s| && r[i] == Row(s, i, stride)
  {
    assert forall i :: 0 <= i < n ==> i * stride + stride <= n * stride by {
      forall i | 0 <= i < n
        ensures i * stride + stride <= n * stride
      {
        RowFits(i, n, stride);
      }
    }
    seq(n, i requires 0 <= i < n => Row(s, i, stride))
  }

  lemma {:induction false} FlattenRows(s: seq<byte>, n: nat, stride: nat)
    requires n * stride <= |s|
    ensures Flatten(Rows(s, n, stride)) == s[..n * stride]
  {
    if n > 0 {
      RowFits(n - 1, n, stride);
      FlattenRows(s, n - 1, stride);
      assert Rows(s, n, stride) == Rows(s, n - 1, stride) + [Row(s, n - 1, stride)];
      FlattenSnoc(Rows(s, n - 1, stride), Row(s, n - 1, stride));
      assert s[..n * stride] == s[..(n - 1) * stride] + Row(s, n - 1, stride);
    } else {
      assert s[..0] == [];
    }
  }

  /** An attribute's staged values, or nothing where the attribute is not resolved. */
  datatype Span = Span(data: array?<byte>, stride: nat)

  predicate Live(s: Span) { s.data != null && s.stride > 0 }

  ghost predicate Apart(spans: seq<Span>, n: nat) {
    && (forall a :: 0 <= a < |spans| && Live(spans[a]) ==> n * spans[a].stride <= spans[a].data.Length)
    && (forall a, b :: 0 <= a < b < |spans| && Live(spans[a]) && Live(spans[b]) ==> spans[a].data != spans[b].data)
  }

  ghost function Arrays(spans: seq<Span>): (r: set<object>)
    ensures forall a :: 0 <= a < |spans| && Live(spans[a]) ==> spans[a].data in r
  {
    set a | 0 <= a < |spans| && Live(spans[a]) :: spans[a].data
  }

  /** A splice of m bytes at x leaves the slices before and after it alone. */
  lemma SliceOfSplice(s: seq<byte>, t: seq<byte>, mid: seq<byte>, x: nat, p: nat, q: nat)
    requires x + |mid| <= |s| && t == s[..x] + mid + s[x + |mid|..] && p <= q <= |s|
    ensures |t| == |s| && t[x..x + |mid|] == mid
    ensures q <= x || x + |mid| <= p ==> t[p..q] == s[p..q]
  {
  }

  lemma RowOfSplice(s: seq<byte>, t: seq<byte>, n: nat, stride: nat, dst: nat, src: nat)
    requires n * stride <= |s| == |t| && dst < n && src < n
    requires dst * stride + stride <= |s| && src * stride + stride <= |s|
    requires t == s[..dst * stride] + Row(s, src, stride) + s[dst * stride + stride..]
    ensures Rows(t, n, stride) == Rows(s, n, stride)[dst := Rows(s, n, stride)[src]]
  {
    forall k | 0 <= k < n
      ensures Rows(t, n, stride)[k] == Rows(s, n, stride)[dst := Rows(s, n, stride)[src]][k]
    {
      OneRowOfSplice(s, t, n, stride, dst, src, k);
    }
  }

  lemma OneRowOfSplice(s: seq<byte>, t: seq<byte>, n: nat, stride: nat, dst: nat, src: nat, k: nat)
    requires n * stride <= |s| == |t| && dst < n && src < n && k < n
    requires dst * stride + stride <= |s| && src * stride + stride <= |s|
    requires t == s[..dst * stride] + Row(s, src, stride) + s[dst * stride + stride..]
    ensures k * stride + stride <= |s| && Row(t, k, stride) == if k == dst then Row(s, src, stride) else Row(s, k, stride)
  {
    RowFits(k, n, stride);
    if k < dst {
      RowFits(k, dst, stride);
    } else if dst < k {
      RowFits(dst, k, stride);
    }
    SliceOfSplice(s, t, Row(s, src, stride), dst * stride, k * stride, k * stride + stride);
  }

  /** memcpy within one buffer, from y down to x. */
  method CopyBytes(data: array<byte>, x: nat, y: nat, n: nat)
    requires x + n <= y && y + n <= data.Length
    modifies data
    ensures data[..] == old(data[..x]) + old(data[y..y + n]) + old(data[x + n..])
  {
    for j := 0 to n
      invariant forall k :: x <= k < x + j ==> data[k] == old(data[k + (y - x)])
      invariant forall k :: 0 <= k < data.Length && !(x <= k < x + j) ==> data[k] == old(data[k])
    {
      data[x + j] := data[y + j];
    }
  }

  /** One row of an attribute. */
  method CopyRow(data: array<byte>, n: nat, stride: nat, dst: nat, src: nat)
    requires n * stride <= data.Length && dst < src < n
    modifies data
    ensures Rows(data[..], n, stride) == old(Rows(data[..], n, stride))[dst := old(Rows(data[..], n, stride))[src]]
  {
    RowFits(src, n, stride);
    RowFits(dst, src, stride);
    RowFits(dst, n, stride);
    ghost var was := data[..];
    CopyBytes(data, dst * stride, src * stride, stride);
    RowOfSplice(was, data[..], n, stride, dst, src);
  }

  /** The row copies of one kept point, in every attribute. */
  method CopyRows(spans: seq<Span>, n: nat, dst: nat, src: nat)
    requires Apart(spans, n) && dst < src < n
    modifies Arrays(spans)
    ensures forall a :: 0 <= a < |spans| && Live(spans[a]) ==>
      RowsOf(spans[a], n) == old(RowsOf(spans[a], n))[dst := old(RowsOf(spans[a], n))[src]]
  {
    for a := 0 to |spans|
      invariant forall b :: 0 <= b < a && Live(spans[b]) ==>
        RowsOf(spans[b], n) == old(RowsOf(spans[b], n))[dst := old(RowsOf(spans[b], n))[src]]
      invariant forall b :: a <= b < |spans| && Live(spans[b]) ==> spans[b].data[..] == old(spans[b].data[..])
    {
      if Live(spans[a]) {
        CopyRow(spans[a].data, n, spans[a].stride, dst, src);
      }
    }
  }

  ghost function RowsOf(s: Span, n: nat): (r: seq<seq<byte>>)
    requires Live(s) && n * s.stride <= s.data.Length
    reads s.data
    ensures |r| == n
  {
    Rows(s.data[..], n, s.stride)
  }

  /** Move point `src` to place `dst`, unless it is already there. */
  method MovePoint(positions: array<Position>, spans: seq<Span>, dst: nat, src: nat)
    requires Apart(spans, positions.Length) && dst <= src < positions.Length
    modifies positions, Arrays(spans)
    ensures positions[..] == old(positions[..])[dst := old(positions[..])[src]]
    ensures forall a :: 0 <= a < |spans| && Live(spans[a]) ==>
      RowsOf(spans[a], positions.Length) == old(RowsOf(spans[a], positions.Length))[dst := old(RowsOf(spans[a], positions.Length))[src]]
  {
    if dst != src {
      positions[dst] := positions[src];
      CopyRows(spans, positions.Length, dst, src);
    }
  }

  /** clip_to_box: one pass that moves the kept points to the front of the positions and of every
      attribute, in step. */
  method ClipToBox(positions: array<Position>, origin: Vec, scale: real, box: Box, spans: seq<Span>) returns (kept: nat)
    requires Apart(spans, positions.Length)
    modifies positions, Arrays(spans)
    ensures
      var idx := Kept(old(positions[..]), positions.Length, origin, scale, box);
      && kept == |idx|
      && positions[..kept] == Gather(old(positions[..]), idx)
      && (forall a :: 0 <= a < |spans| && Live(spans[a]) ==>
            RowsOf(spans[a], positions.Length)[..kept] == Gather(old(RowsOf(spans[a], positions.Length)), idx))
  {
    hide Compacted, HasPoint, World;
    ghost var was := positions[..];
    var n := positions.Length;
    kept := 0;
    ghost var idx: seq<nat> := [];
    CompactedStart(was);
    forall a | 0 <= a < |spans| && Live(spans[a])
      ensures Compacted(RowsOf(spans[a], n), old(RowsOf(spans[a], n)), [])
    {
      CompactedStart(RowsOf(spans[a], n));
    }
    for i := 0 to n
      invariant idx == Kept(was, i, origin, scale, box) && kept == |idx|
      invariant Compacted(positions[..], was, idx)
      invariant forall a :: 0 <= a < |spans| && Live(spans[a]) ==> Compacted(RowsOf(spans[a], n), old(RowsOf(spans[a], n)), idx)
    {
      CompactedTail(positions[..], was, idx, i);
      if HasPoint(box, World(positions[i], origin, scale)) {
        CompactedStep(positions[..], was, idx, i);
        forall a | 0 <= a < |spans| && Live(spans[a])
          ensures Compacted(RowsOf(spans[a], n)[kept := RowsOf(spans[a], n)[i]], old(RowsOf(spans[a], n)), idx + [i])
        {
          CompactedStep(RowsOf(spans[a], n), old(RowsOf(spans[a], n)), idx, i);
        }
        MovePoint(positions, spans, kept, i);
        idx := idx + [i];
        kept := kept + 1;
      }
    }
    CompactedGathers(positions[..], was, idx);
    forall a | 0 <= a < |spans| && Live(spans[a])
      ensures RowsOf(spans[a], n)[..kept] == Gather(old(RowsOf(spans[a], n)), idx)
    {
      CompactedGathers(RowsOf(spans[a], n), old(RowsOf(spans[a], n)), idx);
    }
  }
}
