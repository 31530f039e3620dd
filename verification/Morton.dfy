/** Morton codes as numbers in base eight: digit l of a code holds bit l of each of the three
    coordinates. */
module Morton {

  function Pow8(n: nat): (p: nat)
    ensures p >= 1
  {
    if n == 0 then 1 else 8 * Pow8(n - 1)
  }

  /** A point of the integer grid. */
  datatype Grid = Grid(x: nat, y: nat, z: nat)

  datatype CodeType = M32 | M64 | M128 | M192

  /** Whole digits a type keeps: 30, 63, 126 and 192 bits. */
  function Digits(t: CodeType): nat {
    match t
    case M32 => 10
    case M64 => 21
    case M128 => 42
    case M192 => 64
  }

  function BitWidth(t: CodeType): nat {
    match t
    case M32 => 32
    case M64 => 64
    case M128 => 128
    case M192 => 192
  }

  /** How many values a code of the type can take: its whole digits leave two, one, two and no bits. */
  function Modulus(t: CodeType): nat {
    match t
    case M32 => 4 * Pow8(Digits(M32))
    case M64 => 2 * Pow8(Digits(M64))
    case M128 => 4 * Pow8(Digits(M128))
    case M192 => Pow8(Digits(M192))
  }

  function Pow2(n: nat): (p: nat)
    ensures p >= 1
  {
    if n == 0 then 1 else 2 * Pow2(n - 1)
  }

  lemma {:induction false} Pow2OfDigits(n: nat, spare: nat)
    requires spare <= 2
    ensures Pow2(3 * n + spare) == (if spare == 0 then 1 else if spare == 1 then 2 else 4) * Pow8(n)
    decreases n, spare
  {
    if spare > 0 {
      Pow2OfDigits(n, spare - 1);
    } else if n > 0 {
      Pow2OfDigits(n - 1, 2);
      assert Pow2(3 * n) == 2 * Pow2(3 * (n - 1) + 2);
    }
  }

  /** A type's codes are the numbers of its bits. */
  lemma ModulusIsWidth(t: CodeType)
    ensures Modulus(t) == Pow2(BitWidth(t)) && Digits(t) == BitWidth(t) / 3
  {
    hide Pow2, Pow8;
    Pow2OfDigits(Digits(t), BitWidth(t) - 3 * Digits(t));
  }

  /** The code without its `n` lowest digits: the cell of width n-1 it lies in. */
  function Drop(c: nat, n: nat): nat { if n == 0 then c else Drop(c / 8, n - 1) }

  function Digit(c: nat, l: nat): nat { Drop(c, l) % 8 }

  /** morton_lod: the highest digit in which two codes differ, zero if they are equal. */
  function Lod(a: nat, b: nat): nat
    decreases a + b
  {
    if a / 8 == b / 8 then 0 else 1 + Lod(a / 8, b / 8)
  }

  lemma {:induction false} DropSucc(c: nat, n: nat)
    ensures Drop(c, n + 1) == Drop(c, n) / 8
  {
    if n > 0 {
      DropSucc(c / 8, n - 1);
    }
  }

  lemma {:induction false} DropMonotone(a: nat, b: nat, n: nat)
    requires a <= b
    ensures Drop(a, n) <= Drop(b, n)
  {
    if n > 0 {
      DropMonotone(a / 8, b / 8, n - 1);
    }
  }

  /** Two codes lie in the same cell of width w exactly when they differ in no digit above w. */
  lemma {:induction false} LodIsCell(a: nat, b: nat, w: nat)
    ensures Lod(a, b) <= w <==> Drop(a, w + 1) == Drop(b, w + 1)
    decreases w
  {
    assert Drop(a, w + 1) == Drop(a / 8, w) && Drop(b, w + 1) == Drop(b / 8, w);
    if a / 8 != b / 8 {
      if w == 0 {
        assert Drop(a / 8, 0) == a / 8 && Drop(b / 8, 0) == b / 8;
      } else {
        LodIsCell(a / 8, b / 8, w - 1);
      }
    }
  }

  /** Whatever lies between two codes shares their common prefix. */
  lemma BetweenSharesPrefix(a: nat, c: nat, b: nat, n: nat)
    requires a <= c <= b && Drop(a, n) == Drop(b, n)
    ensures Drop(c, n) == Drop(a, n)
  {
    DropMonotone(a, c, n);
    DropMonotone(c, b, n);
  }

  /** The low digits. */
  function Low(c: nat, n: nat): (r: int) { c - Drop(c, n) * Pow8(n) }

  lemma Times8(d: nat, p: nat)
    ensures d * (8 * p) == 8 * (d * p)
  {
  }

  lemma {:induction false} DropSplit(c: nat, n: nat)
    ensures 0 <= Low(c, n) < Pow8(n) && c == Drop(c, n) * Pow8(n) + Low(c, n)
  {
    if n > 0 {
      DropSplit(c / 8, n - 1);
      var d, p, r := Drop(c / 8, n - 1), Pow8(n - 1), Low(c / 8, n - 1);
      Times8(d, p);
      assert c / 8 == d * p + r;
      assert Low(c, n) == 8 * r + c % 8;
    }
  }

  /** Digits above and below can be put together. */
  lemma {:induction false} DropOfSum(d: nat, r: nat, n: nat)
    requires r < Pow8(n)
    ensures Drop(d * Pow8(n) + r, n) == d
  {
    if n > 0 {
      var p := Pow8(n - 1);
      Times8(d, p);
      assert (d * Pow8(n) + r) / 8 == d * p + r / 8;
      DropOfSum(d, r / 8, n - 1);
    }
  }

  lemma {:induction false} DropDrop(c: nat, m: nat, n: nat)
    ensures Drop(Drop(c, m), n) == Drop(c, m + n)
  {
    if m > 0 {
      DropDrop(c / 8, m - 1, n);
    }
  }

  lemma SameAbove(a: nat, b: nat, m: nat, n: nat)
    requires m <= n && Drop(a, m) == Drop(b, m)
    ensures Drop(a, n) == Drop(b, n)
  {
    DropDrop(a, m, n - m);
    DropDrop(b, m, n - m);
  }

  /** create_max: the code with digits 0..w all set. */
  function CellMax(c: nat, w: nat): nat { (Drop(c, w + 1) + 1) * Pow8(w + 1) - 1 }

  /** Comparing against the top of a cell compares cells. */
  lemma BelowCellMax(d: nat, c: nat, w: nat)
    ensures d <= CellMax(c, w) <==> Drop(d, w + 1) <= Drop(c, w + 1)
  {
    var p, x, y := Pow8(w + 1), Drop(d, w + 1), Drop(c, w + 1);
    DropSplit(d, w + 1);
    hide Drop, Pow8;
    assert (y + 1) * p == y * p + p;
    if x <= y {
      MulMonotone(x, y, p);
    } else {
      MulMonotone(y + 1, x, p);
    }
  }

  lemma MulMonotone(a: nat, b: nat, p: nat)
    requires a <= b
    ensures a * p <= b * p
  {
    assert (b - a) * p >= 0;
    assert b * p - a * p == (b - a) * p;
  }

  lemma {:induction false} SmallDropsToZero(c: nat, n: nat)
    requires c < Pow8(n)
    ensures Drop(c, n) == 0
  {
    if n > 0 {
      SmallDropsToZero(c / 8, n - 1);
    }
  }
}
