/** The ordered dither matrix of order 2^bits, by interleaving bits. */
module Bayer {
  import opened Common
  import opened Permutations

  const U32: nat := 0x1_0000_0000

  function Pow2(n: nat): (r: nat)
    ensures r > 0
  {
    if n == 0 then 1 else 2 * Pow2(n - 1)
  }

  function Pow4(n: nat): (r: nat)
    ensures r > 0
  {
    if n == 0 then 1 else 4 * Pow4(n - 1)
  }

  /** `x >> i`. */
  function Shr(x: nat, i: nat): nat {
    if i == 0 then x else Shr(x / 2, i - 1)
  }

  function Bit(x: nat, i: nat): (b: nat)
    ensures b < 2
  {
    Shr(x, i) % 2
  }

  /** The two bits of the value that one bit of each coordinate gives. */
  function Cell(xb: nat, yb: nat): (c: nat)
    requires xb < 2 && yb < 2
    ensures c < 4
  {
    2 * ((xb + yb) % 2) + yb
  }

  /** The value after `bits` turns, were it not kept to 32 bits: each turn puts two more bits below. */
  function Value(x: nat, y: nat, bits: nat): nat {
    if bits == 0 then 0 else 4 * Value(x, y, bits - 1) + Cell(Bit(x, bits - 1), Bit(y, bits - 1))
  }

  function YBit(c: nat): (b: nat)
    ensures b < 2
  {
    c % 2
  }

  function XBit(c: nat): (b: nat)
    ensures b < 2
  {
    (c / 2 + c % 2) % 2
  }

  /** Bit `b` in place `k`. */
  function Place(b: nat, k: nat): nat
    requires b < 2
  {
    if b == 0 then 0 else Pow2(k)
  }

  /** The square that the value names. */
  function Square(v: nat, bits: nat): (r: (nat, nat))
    ensures r.0 < Pow2(bits) && r.1 < Pow2(bits)
  {
    if bits == 0 then (0, 0)
    else
      var (x, y) := Square(v / 4, bits - 1);
      var c := v % 4;
      (x + Place(XBit(c), bits - 1), y + Place(YBit(c), bits - 1))
  }

  method Bayer(x: nat, y: nat, bits: nat) returns (v: nat)
    requires bits <= 32
    ensures v == Value(x, y, bits) % U32
  {
    v := 0;
    for i := 0 to bits
      invariant v == Value(x, y, i) % U32
    {
      var xb, yb := Bit(x, i), Bit(y, i);
      KeptTo32(Value(x, y, i), Cell(xb, yb));
      v := (4 * v + Cell(xb, yb)) % U32;
    }
  }

  lemma KeptTo32(v: nat, c: nat)
    ensures (4 * (v % U32) + c) % U32 == (4 * v + c) % U32
  {
    assert v == v % U32 + U32 * (v / U32);
    assert 4 * v + c == 4 * (v % U32) + c + U32 * (4 * (v / U32));
  }

  // -------------------------------------------------------------------------
  // Bits
  // -------------------------------------------------------------------------

  /** Adding whole multiples of 2^k leaves the bits below `k` alone. */
  lemma {:induction false} LowBits(d: nat, m: nat, k: nat, i: nat)
    requires i < k
    ensures Bit(d + m * Pow2(k), i) == Bit(d, i)
    decreases i
  {
    var half := m * Pow2(k - 1);
    assert m * Pow2(k) == 2 * half;
    if i > 0 {
      assert (d + 2 * half) / 2 == d / 2 + half;
      LowBits(d / 2, m, k - 1, i - 1);
    }
  }

  /** And bit `k` of `d + m * 2^k` is the low bit of `m`. */
  lemma {:induction false} NextBit(d: nat, m: nat, k: nat)
    requires d < Pow2(k) && m < 2
    ensures Bit(d + m * Pow2(k), k) == m
    decreases k
  {
    if k > 0 {
      var half := m * Pow2(k - 1);
      assert m * Pow2(k) == 2 * half;
      assert (d + 2 * half) / 2 == d / 2 + half;
      NextBit(d / 2, m, k - 1);
    }
  }

  /** The value of order `k` goes by the low `k` bits. */
  lemma {:induction false} ValueRepeats(dx: nat, dy: nat, mx: nat, my: nat, k: nat, i: nat)
    requires i <= k
    ensures Value(dx + mx * Pow2(k), dy + my * Pow2(k), i) == Value(dx, dy, i)
    decreases i
  {
    hide Bit, Cell;
    if i > 0 {
      ValueRepeats(dx, dy, mx, my, k, i - 1);
      LowBits(dx, mx, k, i - 1);
      LowBits(dy, my, k, i - 1);
    }
  }

  // -------------------------------------------------------------------------
  // The matrix has every value once
  // -------------------------------------------------------------------------

  lemma {:induction false} ValueBelow(x: nat, y: nat, bits: nat)
    ensures Value(x, y, bits) < Pow4(bits)
  {
    hide Bit, Cell;
    if bits != 0 {
      ValueBelow(x, y, bits - 1);
    }
  }

  /** One more bit of each coordinate is two more bits of the value. */
  lemma ValueOfMore(x: nat, y: nat, xb: nat, yb: nat, bits: nat)
    requires x < Pow2(bits) && y < Pow2(bits) && xb < 2 && yb < 2
    ensures
      Value(x + Place(xb, bits), y + Place(yb, bits), bits + 1) == 4 * Value(x, y, bits) + Cell(xb, yb)
  {
    hide Bit, Cell;
    assert xb * Pow2(bits) == Place(xb, bits) && yb * Pow2(bits) == Place(yb, bits);
    ValueRepeats(x, y, xb, yb, bits, bits);
    NextBit(x, xb, bits);
    NextBit(y, yb, bits);
  }

  lemma Split(x: nat, k: nat) returns (low: nat, top: nat)
    requires x < Pow2(k + 1)
    ensures low < Pow2(k) && top < 2 && x == low + Place(top, k)
  {
    low, top := if x < Pow2(k) then x else x - Pow2(k), if x < Pow2(k) then 0 else 1;
  }

  lemma SquareOfMoreValue(x: nat, y: nat, xb: nat, yb: nat, bits: nat)
    requires x < Pow2(bits) && y < Pow2(bits) && xb < 2 && yb < 2 && Square(Value(x, y, bits), bits) == (x, y)
    ensures
      Square(Value(x + Place(xb, bits), y + Place(yb, bits), bits + 1), bits + 1)
      == (x + Place(xb, bits), y + Place(yb, bits))
  {
    hide *;
    ValueOfMore(x, y, xb, yb, bits);
    SquareOfMore(Value(x, y, bits), xb, yb, bits);
  }

  lemma {:induction false} SquareOfValue(x: nat, y: nat, bits: nat)
    requires x < Pow2(bits) && y < Pow2(bits)
    ensures Square(Value(x, y, bits), bits) == (x, y)
    decreases bits
  {
    if bits == 0 {
      SquareOfNone(x, y);
    } else {
      hide *;
      var lx, xb := Split(x, bits - 1);
      var ly, yb := Split(y, bits - 1);
      SquareOfValue(lx, ly, bits - 1);
      SquareOfMoreValue(lx, ly, xb, yb, bits - 1);
    }
  }

  lemma SquareOfNone(x: nat, y: nat)
    requires x < Pow2(0) && y < Pow2(0)
    ensures Square(Value(x, y, 0), 0) == (x, y)
  {
  }

  lemma UncellCell(xb: nat, yb: nat)
    requires xb < 2 && yb < 2
    ensures YBit(Cell(xb, yb)) == yb && XBit(Cell(xb, yb)) == xb
  {
  }

  lemma SquareOfMore(v: nat, xb: nat, yb: nat, bits: nat)
    requires xb < 2 && yb < 2
    ensures Square(4 * v + Cell(xb, yb), bits + 1).0 == Square(v, bits).0 + Place(xb, bits)
    ensures Square(4 * v + Cell(xb, yb), bits + 1).1 == Square(v, bits).1 + Place(yb, bits)
  {
    hide Cell, Pow2, Place, XBit, YBit;
    var c := Cell(xb, yb);
    assert (4 * v + c) / 4 == v && (4 * v + c) % 4 == c;
    UncellCell(xb, yb);
  }

  lemma CellOfBits(c: nat)
    requires c < 4
    ensures Cell(XBit(c), YBit(c)) == c
  {
  }

  lemma Quarter(v: nat, bits: nat) returns (u: nat, c: nat)
    requires v < Pow4(bits + 1)
    ensures v == 4 * u + c && c < 4 && u < Pow4(bits)
  {
    u, c := v / 4, v % 4;
  }

  lemma ValueOfMoreSquare(u: nat, c: nat, bits: nat)
    requires c < 4 && Value(Square(u, bits).0, Square(u, bits).1, bits) == u
    ensures Value(Square(4 * u + c, bits + 1).0, Square(4 * u + c, bits + 1).1, bits + 1) == 4 * u + c
  {
    hide *;
    CellOfBits(c);
    ValueOfMore(Square(u, bits).0, Square(u, bits).1, XBit(c), YBit(c), bits);
    SquareOfMore(u, XBit(c), YBit(c), bits);
  }

  lemma {:induction false} ValueOfSquare(v: nat, bits: nat)
    requires v < Pow4(bits)
    ensures Value(Square(v, bits).0, Square(v, bits).1, bits) == v
    decreases bits
  {
    if bits == 0 {
      ValueOfNone(v);
    } else {
      hide *;
      var u, c := Quarter(v, bits - 1);
      ValueOfSquare(u, bits - 1);
      ValueOfMoreSquare(u, c, bits - 1);
    }
  }

  lemma ValueOfNone(v: nat)
    requires v < Pow4(0)
    ensures Value(Square(v, 0).0, Square(v, 0).1, 0) == v
  {
  }

  /** A bijection: a square of the matrix has one value, a value one square. */
  lemma Bijection(x: nat, y: nat, v: nat, bits: nat)
    requires x < Pow2(bits) && y < Pow2(bits) && v < Pow4(bits)
    ensures Value(x, y, bits) < Pow4(bits)
    ensures Value(x, y, bits) == v <==> (x, y) == Square(v, bits)
  {
    hide Value, Square;
    ValueBelow(x, y, bits);
    SquareOfValue(x, y, bits);
    ValueOfSquare(v, bits);
  }

  // -------------------------------------------------------------------------
  // It is dispersed at every scale
  // -------------------------------------------------------------------------

  /** The value without its low `j` pairs of bits. */
  function Top(v: nat, j: nat): nat {
    if j == 0 then v else Top(v / 4, j - 1)
  }

  /** Which of the equal ranges of 4^j numbers the value is in. */
  lemma {:induction false} TopIsTheRange(v: nat, j: nat)
    ensures Top(v, j) * Pow4(j) <= v < (Top(v, j) + 1) * Pow4(j)
    decreases j
  {
    if j != 0 {
      TopIsTheRange(v / 4, j - 1);
      FourTimes(v, Top(v, j), Pow4(j - 1));
    }
  }

  lemma FourTimes(v: nat, t: nat, p: nat)
    requires t * p <= v / 4 < (t + 1) * p
    ensures t * (4 * p) <= v < (t + 1) * (4 * p)
  {
    var a, b := t * p, (t + 1) * p;
    assert t * (4 * p) == 4 * a && (t + 1) * (4 * p) == 4 * b;
  }

  /** The top `2k` bits of the value are the value of order `k`. */
  lemma {:induction false} TopIsCoarser(x: nat, y: nat, k: nat, j: nat)
    ensures Top(Value(x, y, k + j), j) == Value(x, y, k)
    decreases j
  {
    hide Bit, Cell;
    if j != 0 {
      assert Value(x, y, k + j) / 4 == Value(x, y, k + j - 1);
      TopIsCoarser(x, y, k, j - 1);
    }
  }

  /** Every aligned block of 2^k by 2^k squares has exactly one value in each of the 4^k equal ranges: the
      square `(dx, dy)` of the block is in range `r` exactly when it is the square of `r`. */
  lemma OneOfEachInEveryBlock(bx: nat, by_: nat, dx: nat, dy: nat, k: nat, j: nat, r: nat)
    requires dx < Pow2(k) && dy < Pow2(k) && r < Pow4(k)
    ensures Top(Value(dx + bx * Pow2(k), dy + by_ * Pow2(k), k + j), j) == r <==> (dx, dy) == Square(r, k)
  {
    hide Value, Square, Top;
    TopIsCoarser(dx + bx * Pow2(k), dy + by_ * Pow2(k), k, j);
    ValueRepeats(dx, dy, bx, by_, k, k);
    Bijection(dx, dy, r, k);
  }

  // -------------------------------------------------------------------------
  // In 32 bits
  // -------------------------------------------------------------------------

  lemma {:induction false} Pow4Grows(a: nat, b: nat)
    requires a <= b
    ensures Pow4(a) <= Pow4(b)
    decreases b
  {
    if a < b {
      Pow4Grows(a, b - 1);
    }
  }

  lemma Pow4Of16()
    ensures Pow4(16) == U32
  {
    assert Pow4(4) == 256;
    assert Pow4(8) == 65536;
    assert Pow4(12) == 16777216;
  }

  lemma {:induction false} ValueOfOne(bits: nat)
    requires bits > 0
    ensures Value(1, 0, bits) == 2 * Pow4(bits - 1) && Value(0, 0, bits) == 0
  {
    if bits > 1 {
      ValueOfOne(bits - 1);
      BitOfOne(bits - 1);
    } else {
      assert Value(0, 0, 0) == 0 && Value(1, 0, 0) == 0;
    }
  }

  lemma {:induction false} BitOfOne(i: nat)
    requires i > 0
    ensures Bit(1, i) == 0 && Bit(0, i) == 0
  {
    BitOfZero(i);
    BitOfZero(i - 1);
  }

  lemma {:induction false} BitOfZero(i: nat)
    ensures Bit(0, i) == 0
  {
    if i > 0 {
      BitOfZero(i - 1);
    }
  }

  lemma {:induction false} MultipleOfU32(bits: nat)
    requires bits > 16
    ensures Pow4(bits - 1) % U32 == 0
  {
    if bits == 17 {
      Pow4Of16();
    } else {
      MultipleOfU32(bits - 1);
      var q := Pow4(bits - 2) / U32;
      assert Pow4(bits - 2) == U32 * q;
      assert Pow4(bits - 1) == U32 * (4 * q);
    }
  }

  ghost predicate AllDistinct(bits: nat) {
    forall x: nat, y: nat, u: nat, v: nat
      | x < Pow2(bits) && y < Pow2(bits) && u < Pow2(bits) && v < Pow2(bits)
      :: Value(x, y, bits) % U32 == Value(u, v, bits) % U32 ==> (x, y) == (u, v)
  }

  lemma DistinctIn32(x: nat, y: nat, u: nat, v: nat, bits: nat)
    requires bits <= 16 && x < Pow2(bits) && y < Pow2(bits) && u < Pow2(bits) && v < Pow2(bits)
    requires Value(x, y, bits) % U32 == Value(u, v, bits) % U32
    ensures (x, y) == (u, v)
  {
    hide Value, Square, Pow2, Pow4;
    Pow4Of16();
    Pow4Grows(bits, 16);
    ValueBelow(x, y, bits);
    ValueBelow(u, v, bits);
    SquareOfValue(x, y, bits);
    SquareOfValue(u, v, bits);
  }

  lemma SharedIn32(bits: nat)
    requires bits > 16
    ensures 1 < Pow2(bits) && Value(1, 0, bits) % U32 == Value(0, 0, bits) % U32
  {
    hide Value, Pow4;
    ValueOfOne(bits);
    MultipleOfU32(bits);
  }

  /** The 32 bits hold every order up to 16; from order 17 on two squares share a value. */
  lemma DistinctExactlyUpTo16(bits: nat)
    ensures bits <= 16 <==> AllDistinct(bits)
  {
    hide Value, Pow2;
    if bits <= 16 {
      forall x: nat, y: nat, u: nat, v: nat
        | x < Pow2(bits) && y < Pow2(bits) && u < Pow2(bits) && v < Pow2(bits)
          && Value(x, y, bits) % U32 == Value(u, v, bits) % U32
        ensures (x, y) == (u, v)
      {
        DistinctIn32(x, y, u, v, bits);
      }
    } else {
      SharedIn32(bits);
    }
  }

  // -------------------------------------------------------------------------
  // The thresholds of a tile
  // -------------------------------------------------------------------------

  /** The first `m` squares of row `y`, and the first `m` rows. */
  function Row(y: nat, bits: nat, m: nat): (r: seq<nat>)
    ensures |r| == m
  {
    if m == 0 then [] else Row(y, bits, m - 1) + [Value(m - 1, y, bits)]
  }

  function Tile(bits: nat, m: nat): seq<nat> {
    if m == 0 then [] else Tile(bits, m - 1) + Row(m - 1, bits, Pow2(bits))
  }

  lemma {:induction false} RowElements(y: nat, bits: nat, m: nat)
    requires y < Pow2(bits) && m <= Pow2(bits)
    ensures Distinct(Row(y, bits, m))
    ensures forall v :: v in Row(y, bits, m) ==> v < Pow4(bits) && Square(v, bits).0 < m && Square(v, bits).1 == y
  {
    hide Value, Square, Pow2, Pow4;
    if m != 0 {
      RowElements(y, bits, m - 1);
      SquareOfValue(m - 1, y, bits);
      ValueBelow(m - 1, y, bits);
    }
  }

  lemma DistinctCat(a: seq<nat>, b: seq<nat>)
    requires Distinct(a) && Distinct(b) && forall v :: v in a ==> v !in b
    ensures Distinct(a + b)
  {
    forall i, j | 0 <= i < j < |a + b| ensures (a + b)[i] != (a + b)[j] {
      if i < |a| <= j {
        assert (a + b)[i] in a && (a + b)[j] in b;
      }
    }
  }

  lemma {:induction false} TileElements(bits: nat, m: nat)
    requires m <= Pow2(bits)
    ensures Distinct(Tile(bits, m)) && |Tile(bits, m)| == m * Pow2(bits)
    ensures forall v :: v in Tile(bits, m) ==> v < Pow4(bits) && Square(v, bits).1 < m
  {
    hide Value, Square, Pow2, Pow4, Distinct;
    if m == 0 {
      EmptyDistinct();
    } else {
      TileElements(bits, m - 1);
      RowElements(m - 1, bits, Pow2(bits));
      DistinctCat(Tile(bits, m - 1), Row(m - 1, bits, Pow2(bits)));
      assert (m - 1) * Pow2(bits) + Pow2(bits) == m * Pow2(bits);
    }
  }

  lemma EmptyDistinct()
    ensures Distinct([])
  {
  }

  lemma {:induction false} SquareCount(bits: nat)
    ensures Pow2(bits) * Pow2(bits) == Pow4(bits)
  {
    if bits != 0 {
      SquareCount(bits - 1);
      var p := Pow2(bits - 1);
      assert 2 * p * (2 * p) == 4 * (p * p);
    }
  }

  /** A tile, row by row, holds every value once, and its thresholds add up to exactly zero. */
  lemma TileIsBalanced(bits: nat)
    ensures
      var tile := Tile(bits, Pow2(bits));
      |tile| == Pow4(bits) && IsPermutation(tile) && Thresholds(tile, Pow4(bits)) == 0.0
  {
    hide Distinct, Tile, Thresholds;
    var tile := Tile(bits, Pow2(bits));
    TileElements(bits, Pow2(bits));
    SquareCount(bits);
    assert forall i :: 0 <= i < |tile| ==> tile[i] in tile;
    assert Below(tile, |tile|);
    ThresholdsOfPermutation(tile);
  }
}
