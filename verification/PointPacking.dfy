/** From grid coordinates to stored Morton codes and back: interleaving, sorting, narrowing to the
    smallest code type that holds the batch, and the two decoders. */
module PointPacking {
  import opened Morton
  import opened Bytes

  // ---- interleaving ---------------------------------------------------------------------------

  /** morton::encode: digit l is bit l of x, y and z, x lowest. */
  function Encode(g: Grid): nat
    decreases g.x + g.y + g.z
  {
    if g == Grid(0, 0, 0) then 0
    else g.x % 2 + 2 * (g.y % 2) + 4 * (g.z % 2) + 8 * Encode(Halve(g))
  }

  function Halve(g: Grid): Grid { Grid(g.x / 2, g.y / 2, g.z / 2) }

  /** morton::decode */
  function Decode(c: nat): Grid {
    if c == 0 then Grid(0, 0, 0)
    else var r := Decode(c / 8); Grid(c % 2 + 2 * r.x, c / 2 % 2 + 2 * r.y, c / 4 % 2 + 2 * r.z)
  }

  lemma EncodeStep(g: Grid)
    ensures Encode(g) == g.x % 2 + 2 * (g.y % 2) + 4 * (g.z % 2) + 8 * Encode(Halve(g))
  {
    if g == Grid(0, 0, 0) {
      assert Halve(g) == g;
    }
  }

  /** Reading a digit back bit by bit. */
  lemma DigitBits(c: nat, x: nat, y: nat, z: nat, e: nat)
    requires x < 2 && y < 2 && z < 2 && c == x + 2 * y + 4 * z + 8 * e
    ensures c % 2 == x && c / 2 % 2 == y && c / 4 % 2 == z && c / 8 == e
  {
    HalfOf(c, y + 2 * z + 4 * e, x);
    HalfOf(c / 2, z + 2 * e, y);
    HalfOf(c / 2 / 2, e, z);
    assert c / 4 == c / 2 / 2 && c / 8 == c / 4 / 2;
  }

  lemma HalfOf(c: nat, h: nat, b: nat)
    requires b < 2 && c == 2 * h + b
    ensures c / 2 == h && c % 2 == b
  {
  }

  lemma DecodeStep(c: nat)
    ensures var r := Decode(c / 8); Decode(c) == Grid(c % 2 + 2 * r.x, c / 2 % 2 + 2 * r.y, c / 4 % 2 + 2 * r.z)
  {
    if c == 0 {
      assert Decode(0) == Grid(0, 0, 0);
    }
  }

  lemma {:induction false} DecodeEncode(g: Grid)
    ensures Decode(Encode(g)) == g
    decreases g.x + g.y + g.z
  {
    if g != Grid(0, 0, 0) {
      DecodeEncode(Halve(g));
      EncodeStep(g);
      DecodeStep(Encode(g));
      hide Encode, Decode;
      DigitBits(Encode(g), g.x % 2, g.y % 2, g.z % 2, Encode(Halve(g)));
    }
  }

  predicate Below(a: Grid, b: Grid) { a.x <= b.x && a.y <= b.y && a.z <= b.z }

  /** Z-order is monotone in each axis. */
  lemma {:induction false} EncodeMonotone(a: Grid, b: Grid)
    requires Below(a, b)
    ensures Encode(a) <= Encode(b)
    decreases b.x + b.y + b.z
  {
    if b != Grid(0, 0, 0) {
      EncodeMonotone(Halve(a), Halve(b));
      EncodeStep(a);
      EncodeStep(b);
      if Encode(Halve(a)) == Encode(Halve(b)) {
        DecodeEncode(Halve(a));
        DecodeEncode(Halve(b));
      }
    }
  }

  /** Every point of a box shares the Morton prefix of its corners. */
  lemma BoxSharesPrefix(lo: Grid, g: Grid, hi: Grid, n: nat)
    requires Below(lo, g) && Below(g, hi) && Lod(Encode(lo), Encode(hi)) < n
    ensures Drop(Encode(g), n) == Drop(Encode(lo), n)
  {
    hide Encode, Lod, Drop;
    EncodeMonotone(lo, g);
    EncodeMonotone(g, hi);
    LodIsCell(Encode(lo), Encode(hi), n - 1);
    BetweenSharesPrefix(Encode(lo), Encode(g), Encode(hi), n);
  }

  // ---- code types -----------------------------------------------------------------------------

  /** morton_type_from_lod */
  function TypeFor(lod: nat): CodeType {
    var top := lod * 3 + 3;
    if top < 32 then M32 else if top < 64 then M64 else if top < 128 then M128 else M192
  }

  /** The chosen type always has room for the digits that vary. */
  lemma TypeHolds(lod: nat)
    requires lod < 64
    ensures lod + 1 <= Digits(TypeFor(lod))
  {
  }

  /** And no narrower type has: a type with as many digits is at least as wide. */
  lemma TypeIsNarrowest(lod: nat, t: CodeType)
    requires lod + 1 <= Digits(t)
    ensures BitWidth(TypeFor(lod)) <= BitWidth(t)
  {
  }

  lemma TypeShrinks(a: nat, b: nat)
    requires a <= b
    ensures Digits(TypeFor(a)) <= Digits(TypeFor(b))
  {
  }

  /** morton_downcast and morton_upcast. */
  function Narrow(c: nat, n: nat): (r: nat)
    ensures r < Pow8(n)
  {
    DropSplit(c, n);
    Low(c, n)
  }

  function Widen(r: nat, min: nat, n: nat): nat { Drop(min, n) * Pow8(n) + r }

  /** Widening undoes narrowing for a code that shares the minimum's high digits, and only then. */
  lemma WidenUndoesNarrow(c: nat, min: nat, n: nat)
    ensures Widen(Narrow(c, n), min, n) == c <==> Drop(min, n) == Drop(c, n)
  {
    DropSplit(c, n);
    if Widen(Narrow(c, n), min, n) == c {
      DropOfSum(Drop(min, n), Narrow(c, n), n);
    }
  }

  lemma NarrowTwice(c: nat, m: nat, n: nat)
    requires m <= n
    ensures Narrow(Narrow(c, n), m) == Narrow(c, m)
  {
    DropSplit(c, n);
    DropSplit(c, m);
    DropSplit(Narrow(c, n), m);
    var d, r := Drop(c, n), Narrow(c, n);
    // c == d * 8^n + r, and 8^n is a multiple of 8^m.
    Pow8Split(m, n);
    var q, a := Pow8(n - m), Drop(r, m);
    assert d * Pow8(n) == (d * q) * Pow8(m) by { Associate(d, q, Pow8(m)); }
    assert c == (d * q + a) * Pow8(m) + Narrow(r, m) by { Factor(d * q, a, Pow8(m)); }
    DropOfSum(d * q + a, Narrow(r, m), m);
  }

  lemma Associate(a: nat, b: nat, c: nat)
    ensures a * (b * c) == (a * b) * c
  {
  }

  lemma Factor(a: nat, b: nat, c: nat)
    ensures (a + b) * c == a * c + b * c
  {
  }

  lemma {:induction false} Pow8Split(m: nat, n: nat)
    requires m <= n
    ensures Pow8(n) == Pow8(n - m) * Pow8(m)
    decreases n
  {
    if m < n {
      Pow8Split(m, n - 1);
      assert Pow8(n) == 8 * (Pow8(n - 1 - m) * Pow8(m));
    }
  }

  /** Among codes that share their high digits, narrowing keeps the order. */
  lemma NarrowKeepsOrder(a: nat, b: nat, n: nat)
    requires Drop(a, n) == Drop(b, n)
    ensures a <= b <==> Narrow(a, n) <= Narrow(b, n)
  {
    DropSplit(a, n);
    DropSplit(b, n);
  }

  lemma NarrowKeepsLod(a: nat, b: nat, n: nat)
    requires Drop(a, n) == Drop(b, n) && n > 0
    ensures Lod(Narrow(a, n), Narrow(b, n)) == Lod(a, b)
  {
    NarrowLodAtMost(a, b, n, n - 1);
    LodIsCell(a, b, n - 1);
    NarrowLodAtMost(a, b, n, Lod(a, b));
    if Lod(a, b) > 0 {
      NarrowLodAtMost(a, b, n, Lod(a, b) - 1);
    }
  }

  lemma NarrowLodAtMost(a: nat, b: nat, n: nat, w: nat)
    requires Drop(a, n) == Drop(b, n) && w < n
    ensures Lod(Narrow(a, n), Narrow(b, n)) <= w <==> Lod(a, b) <= w
  {
    LodIsCell(a, b, w);
    LodIsCell(Narrow(a, n), Narrow(b, n), w);
    DropNarrow(a, n, w + 1);
    DropNarrow(b, n, w + 1);
  }

  lemma DropNarrow(c: nat, n: nat, m: nat)
    requires m <= n
    ensures Drop(c, m) == Drop(c, n) * Pow8(n - m) + Drop(Narrow(c, n), m)
  {
    hide Drop, Pow8;
    DropSplit(c, n);
    var d, r := Drop(c, n), Narrow(c, n);
    DropSplit(r, m);
    Pow8Split(m, n);
    var q, a := Pow8(n - m), Drop(r, m);
    assert d * Pow8(n) == (d * q) * Pow8(m) by { Associate(d, q, Pow8(m)); }
    assert c == (d * q + a) * Pow8(m) + Narrow(r, m) by { Factor(d * q, a, Pow8(m)); }
    DropOfSum(d * q + a, Narrow(r, m), m);
  }

  // ---- the batch ------------------------------------------------------------------------------

  datatype Header = Header(codeType: CodeType, mortonMin: nat, mortonMax: nat, lodSpan: nat)

  /** A batch comes with the corners of its box, or with the widest box there is. */
  datatype Bounds = Unbounded | Box(lo: Grid, hi: Grid)

  /** Coordinates are 64-bit. */
  ghost predicate InRange(g: Grid) { Encode(g) < Pow8(64) }

  ghost predicate Inside(g: Grid, b: Bounds) {
    match b
    case Unbounded => InRange(g)
    case Box(lo, hi) => InRange(hi) && Below(lo, g) && Below(g, hi)
  }

  ghost predicate Batch(points: seq<Grid>, b: Bounds) {
    forall k :: 0 <= k < |points| ==> Inside(points[k], b)
  }

  lemma LodBelow64(a: nat, b: nat)
    requires a < Pow8(64) && b < Pow8(64)
    ensures Lod(a, b) < 64
  {
    SmallDropsToZero(a, 64);
    SmallDropsToZero(b, 64);
    LodIsCell(a, b, 63);
  }

  /** The working type is picked from the header box. */
  function WorkDigits(b: Bounds): nat {
    match b
    case Unbounded => Digits(M192)
    case Box(lo, hi) => Digits(TypeFor(Lod(Encode(lo), Encode(hi))))
  }

  lemma InsideInRange(g: Grid, b: Bounds)
    requires Inside(g, b)
    ensures InRange(g)
  {
    if b.Box? {
      EncodeMonotone(g, b.hi);
    }
  }

  /** The points of a batch differ only in the digits the working type keeps. */
  lemma InsideShares(g: Grid, g': Grid, b: Bounds)
    requires Inside(g, b) && Inside(g', b)
    ensures Drop(Encode(g), WorkDigits(b)) == Drop(Encode(g'), WorkDigits(b))
  {
    match b
    case Unbounded =>
      SmallDropsToZero(Encode(g), 64);
      SmallDropsToZero(Encode(g'), 64);
    case Box(lo, hi) =>
      hide Encode, Drop, Lod;
      EncodeMonotone(lo, g);
      EncodeMonotone(g, hi);
      LodBelow64(Encode(lo), Encode(hi));
      TypeHolds(Lod(Encode(lo), Encode(hi)));
      BoxSharesPrefix(lo, g, hi, WorkDigits(b));
      BoxSharesPrefix(lo, g', hi, WorkDigits(b));
  }

  /** Every index below n, each once. */
  ghost predicate Indices(order: seq<nat>, n: nat) {
    && |order| == n
    && (forall k :: 0 <= k < n ==> order[k] < n)
    && (forall j, k :: 0 <= j < k < n ==> order[j] != order[k])
  }

  /** The indices of the first n codes, by rising code. */
  ghost predicate Ordered(order: seq<nat>, codes: seq<nat>, n: nat)
    requires n <= |codes|
  {
    Indices(order, n) && forall j, k :: 0 <= j < k < n ==> codes[order[j]] <= codes[order[k]]
  }

  /** The header convert_and_sort_morton leaves for codes sorted by `order`; `base` is the full code
      of some point of the batch. */
  function MakeHeader(first: nat, last: nat, base: nat, work: nat): Header {
    Header(TypeFor(Lod(first, last)), Widen(first, base, work), Widen(last, base, work), Lod(first, last))
  }

  /** The node's cell origin: the code without the bits of morton_mask_create(span). The mask covers digits
      0..span, except that for the widest span its third word stays empty (192 % 64 == 0) and it covers
      two words: 42 digits and two bits. */
  function CellMin(c: nat, span: nat): nat {
    if span == 63 then 4 * (Drop(c, 42) / 4) * Pow8(42) else Drop(c, span + 1) * Pow8(span + 1)
  }

  /** The bits under that mask. */
  function Under(c: nat, span: nat): nat {
    if span == 63 then Drop(c, 42) % 4 * Pow8(42) + Narrow(c, 42) else Narrow(c, span + 1)
  }

  /** The access decoder: put the high digits of the cell back, then de-interleave. */
  function DecodeAccess(h: Header, stored: nat): Grid {
    Decode(if h.codeType == M192 then stored else Widen(stored, CellMin(h.mortonMin, h.lodSpan), Digits(h.codeType)))
  }

  function Add(a: Grid, b: Grid): Grid { Grid(a.x + b.x, a.y + b.y, a.z + b.z) }

  /** The renderer's decoder: the cell origin plus the de-interleaved masked bits. */
  function DecodeRender(h: Header, stored: nat): Grid {
    Add(Decode(CellMin(h.mortonMin, h.lodSpan)), Decode(Under(stored, h.lodSpan)))
  }

  lemma {:induction false} DecodeAdds(d: nat, r: nat, n: nat)
    requires r < Pow8(n)
    ensures Decode(d * Pow8(n) + r) == Add(Decode(d * Pow8(n)), Decode(r))
  {
    hide Decode;
    var p, e := Pow8(n), d * Pow8(n);
    if n == 0 {
      DecodeZero();
      assert r == 0;
    } else {
      var q := Pow8(n - 1);
      assert p == 8 * q;
      Times8(d, q);
      assert r / 8 < q && e == 8 * (d * q);
      DecodeAdds(d, r / 8, n - 1);
      DecodeAddsDigit(d * q, r);
    }
  }

  lemma DecodeZero()
    ensures Decode(0) == Grid(0, 0, 0)
  {
  }

  lemma DecodeAddsDigit(e: nat, r: nat)
    requires Decode(e + r / 8) == Add(Decode(e), Decode(r / 8))
    ensures Decode(8 * e + r) == Add(Decode(8 * e), Decode(r))
  {
    hide Decode;
    var c := 8 * e + r;
    EightOf(c, e, r);
    EightOf(8 * e, e, 0);
    DecodeStep(c);
    DecodeStep(8 * e);
    DecodeStep(r);
    Bits(c, r);
    Bits(8 * e, 0);
    DigitBits(0, 0, 0, 0, 0);
  }

  lemma EightOf(c: nat, e: nat, r: nat)
    requires c == 8 * e + r
    ensures c / 8 == e + r / 8 && c % 8 == r % 8
  {
  }

  lemma Bits(a: nat, b: nat)
    requires a % 8 == b % 8
    ensures a % 2 == b % 2 && a / 2 % 2 == b / 2 % 2 && a / 4 % 2 == b / 4 % 2
  {
    var x, y, z := a % 8 % 2, a % 8 / 2 % 2, a % 8 / 4;
    DigitBits(a, x, y, z, a / 8);
    DigitBits(b, x, y, z, b / 8);
  }

  /** A code that lies in the header's cell. */
  ghost predicate InCell(h: Header, c: nat) {
    && h.lodSpan + 1 <= Digits(h.codeType)
    && Drop(c, h.lodSpan + 1) == Drop(h.mortonMin, h.lodSpan + 1)
  }

  /** One stored code: the access decoder always returns the point. */
  lemma AccessDecodes(h: Header, g: Grid)
    requires InRange(g) && InCell(h, Encode(g))
    ensures DecodeAccess(h, Narrow(Encode(g), Digits(h.codeType))) == g
  {
    hide Decode, Encode, Drop, Pow8, Widen, Narrow;
    var c, n, s := Encode(g), Digits(h.codeType), h.lodSpan + 1;
    DecodeEncode(g);
    if h.codeType == M192 {
      FullWidth(c);
    } else {
      var cell := CellMin(h.mortonMin, h.lodSpan);
      DropOfSum(Drop(h.mortonMin, s), 0, s);
      SameAbove(cell, c, s, n);
      WidenUndoesNarrow(c, cell, n);
    }
  }

  lemma FullWidth(c: nat)
    requires c < Pow8(64)
    ensures Narrow(c, 64) == c
  {
    SmallDropsToZero(c, 64);
    hide Pow8;
  }

  /** The renderer's decoder returns it when the span is not the widest. */
  lemma RenderDecodes(h: Header, g: Grid)
    requires InCell(h, Encode(g)) && h.lodSpan <= 62
    ensures DecodeRender(h, Narrow(Encode(g), Digits(h.codeType))) == g
  {
    hide Decode, Encode, Drop, Pow8, Narrow;
    var c, s := Encode(g), h.lodSpan + 1;
    DecodeEncode(g);
    NarrowTwice(c, s, Digits(h.codeType));
    WidenUndoesNarrow(c, h.mortonMin, s);
    DecodeAdds(Drop(h.mortonMin, s), Narrow(c, s), s);
  }

  // ---- the widest span ------------------------------------------------------------------------

  lemma {:induction false} EncodeDecode(c: nat)
    ensures Encode(Decode(c)) == c
  {
    if c > 0 {
      EncodeDecode(c / 8);
      DecodeStep(c);
      EncodeStep(Decode(c));
      hide Encode, Decode;
      var r := Decode(c / 8);
      DigitOf(c);
      assert Halve(Decode(c)) == r;
    }
  }

  lemma DigitOf(c: nat)
    ensures c == c % 2 + 2 * (c / 2 % 2) + 4 * (c / 4 % 2) + 8 * (c / 8)
  {
    assert c / 4 == c / 2 / 2 && c / 8 == c / 4 / 2;
  }

  lemma DecodeInjective(c: nat, d: nat)
    requires Decode(c) == Decode(d)
    ensures c == d
  {
    hide Encode, Decode;
    EncodeDecode(c);
    EncodeDecode(d);
  }

  /** Two words and the rest share no bit, although they share a digit. */
  lemma {:induction false} DecodeAddsWords(q: nat, l: nat, r: nat, n: nat)
    requires l < 4 && r < Pow8(n)
    ensures Decode(4 * q * Pow8(n) + (l * Pow8(n) + r)) == Add(Decode(4 * q * Pow8(n)), Decode(l * Pow8(n) + r))
  {
    hide Decode;
    if n == 0 {
      assert r == 0;
      DecodeAddsBits(q, l);
    } else {
      var p := Pow8(n - 1);
      Times8(4 * q, p);
      Times8(l, p);
      var low := l * Pow8(n) + r;
      assert low / 8 == l * p + r / 8;
      DecodeAddsWords(q, l, r / 8, n - 1);
      DecodeAddsDigit(4 * q * p, low);
    }
  }

  lemma DecodeAddsBits(q: nat, l: nat)
    requires l < 4
    ensures Decode(4 * q + l) == Add(Decode(4 * q), Decode(l))
  {
    hide Decode;
    var a, b := q / 2, q % 2;
    DecodeZero();
    DecodeStep(4 * q + l);
    DecodeStep(4 * q);
    DecodeStep(l);
    DigitBits(4 * q + l, l % 2, l / 2, b, a);
    DigitBits(4 * q, 0, 0, b, a);
    DigitBits(l, l % 2, l / 2, 0, 0);
  }

  lemma MaskSplits(c: nat)
    ensures c == CellMin(c, 63) + Under(c, 63)
  {
    DropSplit(c, 42);
    hide Drop, Pow8;
    var d, p := Drop(c, 42), Pow8(42);
    Factor(4 * (d / 4), d % 4, p);
  }

  /** At the widest span the renderer returns a point exactly when it shares its top word with the least
      point of the batch. */
  lemma RenderAtWidestSpan(h: Header, g: Grid)
    requires h.lodSpan == 63
    ensures DecodeRender(h, Encode(g)) == g <==> CellMin(Encode(g), 63) == CellMin(h.mortonMin, 63)
  {
    hide Decode, Encode, Drop, Pow8, Narrow, CellMin, Under;
    var c := Encode(g);
    DecodeEncode(g);
    WordsAdd(h.mortonMin, c);
    MaskSplits(c);
    if DecodeRender(h, c) == g {
      DecodeInjective(CellMin(h.mortonMin, 63) + Under(c, 63), c);
    }
  }

  lemma WordsAdd(m: nat, c: nat)
    ensures Decode(CellMin(m, 63) + Under(c, 63)) == Add(Decode(CellMin(m, 63)), Decode(Under(c, 63)))
  {
    hide Decode, Drop, Pow8, Narrow;
    DecodeAddsWords(Drop(m, 42) / 4, Drop(c, 42) % 4, Narrow(c, 42), 42);
  }

  /** The least and the greatest point of such a batch do not share it. */
  lemma WidestSpanDiffers(a: nat, z: nat)
    requires Lod(a, z) == 63
    ensures CellMin(a, 63) != CellMin(z, 63)
  {
    hide Lod, Drop, Pow8;
    if CellMin(a, 63) == CellMin(z, 63) {
      var d, e, p := Drop(a, 42), Drop(z, 42), Pow8(42);
      SameFactor(4 * (d / 4), 4 * (e / 4), p);
      SameEighth(d, e);
      DropSucc(a, 42);
      DropSucc(z, 42);
      SameAbove(a, z, 43, 63);
      LodIsCell(a, z, 62);
      assert false;
    }
  }

  lemma SameEighth(d: nat, e: nat)
    requires d / 4 == e / 4
    ensures d / 8 == e / 8
  {
    assert d / 8 == d / 4 / 2 && e / 8 == e / 4 / 2;
  }

  lemma StrictlyMore(a: nat, b: nat, p: nat)
    requires a < b && p > 0
    ensures a * p < b * p
  {
    MulMonotone(a + 1, b, p);
    Factor(a, 1, p);
  }

  lemma SameFactor(a: nat, b: nat, p: nat)
    requires a * p == b * p && p > 0
    ensures a == b
  {
    if a < b {
      StrictlyMore(a, b, p);
    } else if b < a {
      StrictlyMore(b, a, p);
    }
  }

  lemma {:induction false} PowerCode(n: nat)
    ensures Encode(Grid(Pow2(n), 0, 0)) == Pow8(n)
  {
    var g := Grid(Pow2(n), 0, 0);
    EncodeStep(g);
    if n == 0 {
      assert Halve(g) == Grid(0, 0, 0);
    } else {
      hide Encode;
      PowerCode(n - 1);
      assert Halve(g) == Grid(Pow2(n - 1), 0, 0);
    }
  }

  lemma {:induction false} PowerLod(n: nat)
    ensures Lod(0, Pow8(n)) == n
  {
    if n > 0 {
      PowerLod(n - 1);
      assert Pow8(n) / 8 == Pow8(n - 1);
    }
  }

  /** A far power of eight has nothing under the mask. */
  lemma NothingUnder(m: nat, k: nat)
    requires m > 0
    ensures Drop(Pow8(m + k), k) % 4 == 0 && Narrow(Pow8(m + k), k) == 0
  {
    EightIsFour(m);
    hide Drop, Pow8;
    Pow8Split(k, m + k);
    DropOfSum(Pow8(m), 0, k);
  }

  lemma EightIsFour(m: nat)
    requires m > 0
    ensures Pow8(m) % 4 == 0
  {
    assert Pow8(m) == 4 * (2 * Pow8(m - 1));
  }

  /** The points (0, 0, 0) and (2^63, 0, 0) in one batch without bounds: the renderer's decoder puts the
      second one at the origin, the access decoder does not. */
  lemma WidestSpanLosesAPoint()
    ensures
      var far := Grid(Pow2(63), 0, 0);
      var h := Header(M192, 0, Encode(far), Lod(0, Encode(far)));
      && InRange(far) && h.lodSpan == 63
      && DecodeAccess(h, Encode(far)) == far
      && DecodeRender(h, Encode(far)) == Grid(0, 0, 0) != far
  {
    hide Encode, Decode, Drop, Narrow, Pow8, Lod, Pow2;
    PowerCode(63);
    PowerLod(63);
    var far := Grid(Pow2(63), 0, 0);
    DecodeEncode(far);
    NothingUnder(21, 42);
    DecodeZero();
    SmallDropsToZero(0, 42);
    Pow8Grows(63);
  }

  lemma Pow8Grows(n: nat)
    ensures Pow8(n) < Pow8(n + 1) && 0 < Pow8(42)
  {
  }

  /** What is stored for the point with code `c`. */
  function Stored(c: nat, work: nat, h: Header): nat { Narrow(Narrow(c, work), Digits(h.codeType)) }

  /** Every point between the first and the last of its batch survives storing: narrowed, stored and
      decoded by the access decoder it has its original grid coordinates, and by the renderer's decoder
      too unless the span is the widest; there the greatest point comes back wrong. `first`, `last` and
      `any` stand for the least and greatest point and the one whose code completes the header. */
  lemma PackingIsLossless(first: Grid, g: Grid, last: Grid, any: Grid, b: Bounds)
    requires Inside(first, b) && Inside(g, b) && Inside(last, b) && Inside(any, b)
    requires Narrow(Encode(first), WorkDigits(b)) <= Narrow(Encode(g), WorkDigits(b)) <= Narrow(Encode(last), WorkDigits(b))
    ensures
      var work := WorkDigits(b);
      var h := MakeHeader(Narrow(Encode(first), work), Narrow(Encode(last), work), Encode(any), work);
      && DecodeAccess(h, Stored(Encode(g), work, h)) == g
      && (h.lodSpan <= 62 ==> DecodeRender(h, Stored(Encode(g), work, h)) == g)
      && (h.lodSpan > 62 ==> DecodeRender(h, Stored(Encode(last), work, h)) != last)
      && h.mortonMin == Encode(first) && h.mortonMax == Encode(last)
      && h.lodSpan == Lod(h.mortonMin, h.mortonMax)
      && Encode(first) <= Encode(g) <= Encode(last)
  {
    hide Encode, DecodeAccess, DecodeRender, Drop, Lod, Widen, Narrow, Inside, WorkDigits, Digits, TypeFor, Pow8;
    var work := WorkDigits(b);
    var a, z, c := Encode(first), Encode(last), Encode(g);
    var span := Lod(a, z);
    MinMaxRecovered(first, last, any, b);
    InsideShares(first, g, b);
    InsideShares(g, last, b);
    NarrowKeepsOrder(a, c, work);
    NarrowKeepsOrder(c, z, work);
    LodIsCell(a, z, span);
    BetweenSharesPrefix(a, c, z, span + 1);
    SpanWithinWork(first, last, b);
    NarrowTwice(c, Digits(TypeFor(span)), work);
    InsideInRange(g, b);
    var h := Header(TypeFor(span), a, z, span);
    AccessDecodes(h, g);
    if span <= 62 {
      RenderDecodes(h, g);
    } else {
      InsideInRange(last, b);
      WidestStored(last, b, span);
      RenderAtWidestSpan(h, last);
      WidestSpanDiffers(a, z);
    }
  }

  /** The widest codes are stored as they are. */
  lemma WidestStored(g: Grid, b: Bounds, span: nat)
    requires InRange(g) && span == 63 && Digits(TypeFor(span)) <= WorkDigits(b)
    ensures Narrow(Narrow(Encode(g), WorkDigits(b)), Digits(TypeFor(span))) == Encode(g)
  {
    hide Encode, Lod;
    assert TypeFor(span) == M192 && WorkDigits(b) == 64;
    FullWidth(Encode(g));
  }

  lemma MinMaxRecovered(first: Grid, last: Grid, any: Grid, b: Bounds)
    requires Inside(first, b) && Inside(last, b) && Inside(any, b)
    ensures
      var work := WorkDigits(b);
      MakeHeader(Narrow(Encode(first), work), Narrow(Encode(last), work), Encode(any), work)
      == Header(TypeFor(Lod(Encode(first), Encode(last))), Encode(first), Encode(last), Lod(Encode(first), Encode(last)))
  {
    hide Encode, Drop, Lod, Widen, Narrow, Inside, Pow8;
    var work := WorkDigits(b);
    InsideShares(first, any, b);
    InsideShares(last, any, b);
    WidenUndoesNarrow(Encode(first), Encode(any), work);
    WidenUndoesNarrow(Encode(last), Encode(any), work);
    WorkPositive(b);
    NarrowKeepsLod(Encode(first), Encode(last), work);
  }

  lemma WorkPositive(b: Bounds)
    ensures WorkDigits(b) > 0
  {
    hide Encode, Lod;
  }

  /** The final type is no wider than the working type, and holds the digits that vary. */
  lemma SpanWithinWork(g: Grid, g': Grid, b: Bounds)
    requires Inside(g, b) && Inside(g', b)
    ensures
      var span := Lod(Encode(g), Encode(g'));
      span < 64 && span + 1 <= Digits(TypeFor(span)) <= WorkDigits(b)
  {
    hide Encode, Lod, Drop, Pow8;
    var span := Lod(Encode(g), Encode(g'));
    InsideInRange(g, b);
    InsideInRange(g', b);
    LodBelow64(Encode(g), Encode(g'));
    TypeHolds(span);
    if b.Box? {
      var w := Lod(Encode(b.lo), Encode(b.hi));
      BoxSharesPrefix(b.lo, g, b.hi, w + 1);
      BoxSharesPrefix(b.lo, g', b.hi, w + 1);
      LodIsCell(Encode(g), Encode(g'), w);
      TypeShrinks(span, w);
    }
  }

  // ---- convert_and_sort -----------------------------------------------------------------------------

  method EncodeAll(points: seq<Grid>, n: nat) returns (codes: array<nat>)
    ensures fresh(codes) && codes.Length == |points|
    ensures forall i :: 0 <= i < |points| ==> codes[i] == Narrow(Encode(points[i]), n)
  {
    codes := new nat[|points|];
    for i := 0 to |points|
      invariant forall j :: 0 <= j < i ==> codes[j] == Narrow(Encode(points[j]), n)
    {
      codes[i] := Narrow(Encode(points[i]), n);
    }
  }

  /** Where the elements are once x has been put in at `at`. */
  lemma Inserted(s: seq<nat>, x: nat, at: nat)
    requires at <= |s|
    ensures
      var r := s[..at] + [x] + s[at..];
      && |r| == |s| + 1 && r[at] == x
      && (forall k :: 0 <= k < at ==> r[k] == s[k])
      && (forall k :: at < k < |r| ==> r[k] == s[k - 1])
  {
  }

  lemma InsertKeepsIndices(order: seq<nat>, r: seq<nat>, n: nat, at: nat)
    requires Indices(order, n) && at <= n && |r| == n + 1 && r[at] == n
    requires (forall k :: 0 <= k < at ==> r[k] == order[k]) && (forall k :: at < k < n + 1 ==> r[k] == order[k - 1])
    ensures Indices(r, n + 1)
  {
  }

  lemma InsertKeepsOrdered(order: seq<nat>, codes: seq<nat>, n: nat, at: nat)
    requires n < |codes| && Ordered(order, codes, n) && at <= n
    requires forall k :: 0 <= k < at ==> codes[order[k]] <= codes[n]
    requires at < n ==> codes[order[at]] > codes[n]
    ensures Ordered(order[..at] + [n] + order[at..], codes, n + 1)
  {
    var r := order[..at] + [n] + order[at..];
    Inserted(order, n, at);
    InsertKeepsIndices(order, r, n, at);
    forall j, k | 0 <= j < k < n + 1
      ensures codes[r[j]] <= codes[r[k]]
    {
      if j == at && k > at + 1 {
        assert codes[order[at]] <= codes[order[k - 1]];
      }
    }
  }

  /** std::sort of the index array; the contract leaves the order of equal codes open, as it does. */
  method SortIndices(codes: seq<nat>) returns (order: seq<nat>)
    ensures Ordered(order, codes, |codes|)
  {
    order := [];
    for n := 0 to |codes|
      invariant Ordered(order, codes, n)
    {
      var at := 0;
      while at < n && codes[order[at]] <= codes[n]
        invariant at <= n
        invariant forall k :: 0 <= k < at ==> codes[order[k]] <= codes[n]
      {
        at := at + 1;
      }
      InsertKeepsOrdered(order, codes, n, at);
      order := order[..at] + [n] + order[at..];
    }
  }

  /** downcast_point_buffer */
  method Downcast(order: seq<nat>, codes: array<nat>, n: nat) returns (target: array<nat>)
    requires Indices(order, codes.Length)
    ensures fresh(target) && target.Length == codes.Length
    ensures forall i :: 0 <= i < codes.Length ==> target[i] == Narrow(codes[order[i]], n)
  {
    target := new nat[codes.Length];
    for i := 0 to codes.Length
      invariant forall j :: 0 <= j < i ==> target[j] == Narrow(codes[order[j]], n)
    {
      target[i] := Narrow(codes[order[i]], n);
    }
  }

  /** reorder_into_target: an attribute's values follow their points. */
  method ReorderInto(order: seq<nat>, values: seq<Value>) returns (target: array<Value>)
    requires Indices(order, |values|)
    ensures fresh(target) && target.Length == |values|
    ensures forall i :: 0 <= i < |values| ==> target[i] == values[order[i]]
  {
    target := new Value[|values|];
    for i := 0 to |values|
      invariant forall j :: 0 <= j < i ==> target[j] == values[order[j]]
    {
      target[i] := values[order[i]];
    }
  }

  method ReorderColumns(order: seq<nat>, columns: seq<seq<Value>>) returns (sorted: seq<array<Value>>)
    requires Indices(order, |order|) && forall c :: 0 <= c < |columns| ==> |columns[c]| == |order|
    ensures |sorted| == |columns|
    ensures forall c :: 0 <= c < |columns| ==> sorted[c].Length == |order|
    ensures forall c, k :: 0 <= c < |columns| && 0 <= k < |order| ==> sorted[c][k] == columns[c][order[k]]
  {
    sorted := [];
    for c := 0 to |columns|
      modifies {}
      invariant |sorted| == c
      invariant forall d :: 0 <= d < c ==> sorted[d].Length == |order|
      invariant forall d, k :: 0 <= d < c && 0 <= k < |order| ==> sorted[d][k] == columns[d][order[k]]
    {
      var column := ReorderInto(order, columns[c]);
      sorted := sorted + [column];
    }
  }

  type Value = seq<byte>

  /** A stored batch holds the points of `points` in Morton order. The access decoder returns them all; the
      renderer's decoder returns them all exactly when the span is at most 62. */
  ghost predicate Packs(h: Header, stored: seq<nat>, order: seq<nat>, points: seq<Grid>) {
    && Indices(order, |points|) && |stored| == |points|
    && (forall k :: 0 <= k < |points| ==> DecodeAccess(h, stored[k]) == points[order[k]])
    && (h.lodSpan <= 62 <==> forall k :: 0 <= k < |points| ==> DecodeRender(h, stored[k]) == points[order[k]])
    && (forall j, k :: 0 <= j < k < |points| ==> Encode(points[order[j]]) <= Encode(points[order[k]]))
    && h.lodSpan == Lod(h.mortonMin, h.mortonMax)
    && (points != [] ==> h.mortonMin == Encode(points[order[0]]) && h.mortonMax == Encode(points[order[|points| - 1]]))
  }

  /** The header of a whole batch: an empty batch leaves the codes and the base at zero. */
  function BatchHeader(points: seq<Grid>, order: seq<nat>, codes: seq<nat>, work: nat): Header
    requires Ordered(order, codes, |codes|) && |codes| == |points|
  {
    if points == [] then MakeHeader(0, 0, 0, work)
    else MakeHeader(codes[order[0]], codes[order[|points| - 1]], Encode(points[|points| - 1]), work)
  }

  lemma EmptyHeader(work: nat)
    ensures var h := MakeHeader(0, 0, 0, work); h.lodSpan == Lod(h.mortonMin, h.mortonMax) == 0
  {
  }

  lemma CodesPack(points: seq<Grid>, b: Bounds, order: seq<nat>, codes: seq<nat>, h: Header, stored: seq<nat>)
    requires Batch(points, b) && |stored| == |codes| == |points| && Ordered(order, codes, |codes|)
    requires forall i :: 0 <= i < |points| ==> codes[i] == Narrow(Encode(points[i]), WorkDigits(b))
    requires h == BatchHeader(points, order, codes, WorkDigits(b))
    requires forall i :: 0 <= i < |points| ==> stored[i] == Narrow(codes[order[i]], Digits(h.codeType))
    ensures Packs(h, stored, order, points)
  {
    hide Encode, DecodeAccess, DecodeRender, Lod, Narrow, Inside, WorkDigits, Digits, MakeHeader;
    var n := |points|;
    forall k | 0 <= k < n
      ensures DecodeAccess(h, stored[k]) == points[order[k]]
      ensures h.lodSpan <= 62 ==> DecodeRender(h, stored[k]) == points[order[k]]
      ensures h.lodSpan > 62 ==> DecodeRender(h, stored[n - 1]) != points[order[n - 1]]
      ensures h.mortonMin == Encode(points[order[0]]) && h.mortonMax == Encode(points[order[n - 1]])
      ensures h.lodSpan == Lod(h.mortonMin, h.mortonMax)
    {
      PackingIsLossless(points[order[0]], points[order[k]], points[order[n - 1]], points[n - 1], b);
    }
    forall j, k | 0 <= j < k < n
      ensures Encode(points[order[j]]) <= Encode(points[order[k]])
    {
      InsideShares(points[order[j]], points[order[k]], b);
      NarrowKeepsOrder(Encode(points[order[j]]), Encode(points[order[k]]), WorkDigits(b));
    }
    EmptyHeader(WorkDigits(b));
    assert n > 0 ==> 0 <= 0 < n;
  }

  /** Encode in the working type, sort, take the span and narrow to the final type. */
  method PackPositions(points: seq<Grid>, b: Bounds) returns (order: seq<nat>, h: Header, stored: array<nat>)
    requires Batch(points, b)
    ensures Packs(h, stored[..], order, points)
  {
    hide Encode, DecodeAccess, DecodeRender, Lod, Narrow, Batch, WorkDigits, Digits, MakeHeader, Packs;
    var work := WorkDigits(b);
    var codes := EncodeAll(points, work);
    order := SortIndices(codes[..]);
    h := BatchHeader(points, order, codes[..], work);
    stored := Downcast(order, codes, Digits(h.codeType));
    CodesPack(points, b, order, codes[..], h, stored[..]);
  }

  /** convert_and_sort on a batch inside its bounds; every attribute column follows its points. */
  method ConvertAndSort(points: seq<Grid>, b: Bounds, columns: seq<seq<Value>>)
    returns (order: seq<nat>, h: Header, stored: array<nat>, sorted: seq<array<Value>>)
    requires Batch(points, b) && forall c :: 0 <= c < |columns| ==> |columns[c]| == |points|
    ensures Packs(h, stored[..], order, points)
    ensures |sorted| == |columns|
    ensures forall c :: 0 <= c < |columns| ==> sorted[c].Length == |points|
    ensures forall c, k :: 0 <= c < |columns| && 0 <= k < |points| ==> sorted[c][k] == columns[c][order[k]]
  {
    hide Encode, DecodeAccess, DecodeRender, Lod, Batch;
    order, h, stored := PackPositions(points, b);
    sorted := ReorderColumns(order, columns);
  }

  // ---- Morton extremes are not a bounding box -------------------------------------------------------

  /** Of three points, the two with the least and greatest code: the third lies outside the box the
      two span, so a query around it misses the node's "tight" box. */
  lemma ExtremesDoNotBound()
    ensures
      var a, b, c := Grid(0, 1, 0), Grid(3, 0, 0), Grid(0, 2, 0);
      Encode(a) < Encode(b) < Encode(c) && !(Below(a, b) && Below(b, c))
  {
    assert Encode(Grid(0, 1, 0)) == 2 by { EncodeStep(Grid(0, 1, 0)); }
    assert Encode(Grid(1, 0, 0)) == 1 by { EncodeStep(Grid(1, 0, 0)); }
    assert Encode(Grid(3, 0, 0)) == 9 by { EncodeStep(Grid(3, 0, 0)); }
    assert Encode(Grid(0, 2, 0)) == 16 by { EncodeStep(Grid(0, 2, 0)); }
  }
}
