/** The panel-sized blue-noise mask: points are placed one at a time where the energy is least, and each
    adds a bump, wrapped around the edges, to the energy of its neighbours.

    Energies are reals here and 32-bit floats in the program. The random tilt the energies start from and
    the values of the bump are parameters. */
module BlueNoise {
  import opened Common
  import opened Permutations

  const W: nat := 64
  const H: nat := 32
  const N: nat := 2048
  const R: int := 7

  /** A square of the panel, numbered row by row. */
  type Spot = i: nat | i < N

  type Tilt = s: seq<real> | |s| == N witness seq(N, _ => 0.0)

  /** How far along an axis of `size` squares, going the shorter way round. */
  function Wrapped(d: int, size: int): (r: int)
    requires size > 0
    ensures -size <= 2 * r < size
  {
    var m := d % size;
    if 2 * m >= size then m - size else m
  }

  function Dx(p: Spot, i: Spot): int {
    Wrapped(i % W - p % W, W)
  }

  function Dy(p: Spot, i: Spot): int {
    Wrapped(i / W - p / W, H)
  }

  /** What a point at `p` adds at `i`. */
  function Term(k: (int, int) -> real, p: Spot, i: Spot): real {
    if -7 <= Dx(p, i) <= 7 && -7 <= Dy(p, i) <= 7 then k(Dx(p, i), Dy(p, i)) else 0.0
  }

  /** The tilt, and the bumps of all the points placed. */
  function Energy(tilt: Tilt, k: (int, int) -> real, order: seq<Spot>, i: Spot): real {
    if order == [] then tilt[i] else Energy(tilt, k, order[..|order| - 1], i) + Term(k, Last(order), i)
  }

  /** The square the loops of the bump come to. */
  function Target(p: Spot, dx: int, dy: int): (i: Spot)
    requires -R <= dx <= R && -R <= dy <= R
  {
    (p / W + dy) % H * W + (p % W + dx) % W
  }

  /** Every square within reach is the target of its own displacement, and of no other: the bump is
      smaller than the panel both ways. */
  lemma TargetExactlyWhen(p: Spot, i: Spot, dx: int, dy: int)
    requires -R <= dx <= R && -R <= dy <= R
    ensures Target(p, dx, dy) == i <==> Dx(p, i) == dx && Dy(p, i) == dy
  {
    var t := Target(p, dx, dy);
    assert t % W == (p % W + dx) % W && t / W == (p / W + dy) % H;
    SameColumn(p % W, i % W, dx);
    SameRow(p / W, i / W, dy);
    assert i == i / W * W + i % W;
  }

  lemma SameColumn(px: int, ix: int, dx: int)
    requires 0 <= px < W && 0 <= ix < W && -R <= dx <= R
    ensures (px + dx) % W == ix <==> Wrapped(ix - px, W) == dx
  {
  }

  lemma SameRow(py: int, iy: int, dy: int)
    requires 0 <= py < H && 0 <= iy < H && -R <= dy <= R
    ensures (py + dy) % H == iy <==> Wrapped(iy - py, H) == dy
  {
  }

  // -------------------------------------------------------------------------
  // What the mask is
  // -------------------------------------------------------------------------

  /** Every next point is the first, among the squares that have none, with the least energy. */
  ghost predicate Greedy(tilt: Tilt, k: (int, int) -> real, order: seq<Spot>) {
    forall r: nat, i: Spot :: r < |order| && i !in order[..r] ==>
      var e := Energy(tilt, k, order[..r], order[r]);
      e < Energy(tilt, k, order[..r], i) || (e == Energy(tilt, k, order[..r], i) && order[r] <= i)
  }

  /** So the order is settled by the tilt and the bump. */
  lemma {:induction false} GreedyIsUnique(tilt: Tilt, k: (int, int) -> real, a: seq<Spot>, b: seq<Spot>)
    requires |a| == |b| && Distinct(a) && Distinct(b) && Greedy(tilt, k, a) && Greedy(tilt, k, b)
    ensures a == b
  {
    hide Energy;
    if a != [] {
      var n := |a| - 1;
      assert forall r :: 0 <= r < n ==> a[..n][..r] == a[..r] && b[..n][..r] == b[..r];
      GreedyIsUnique(tilt, k, a[..n], b[..n]);
      assert a[n] !in a[..n] && b[n] !in b[..n];
    }
  }

  /** A mask that gives every square the threshold of its place in a greedy order of all the squares. */
  ghost predicate IsMask(tilt: Tilt, k: (int, int) -> real, mask: seq<real>) {
    |mask| == N && exists order: seq<Spot> :: IsMaskOf(tilt, k, mask, order)
  }

  ghost predicate IsMaskOf(tilt: Tilt, k: (int, int) -> real, mask: seq<real>, order: seq<Spot>)
    requires |mask| == N
  {
    && |order| == N && IsPermutation(order) && Greedy(tilt, k, order)
    && forall r: Spot :: mask[order[r]] == Threshold(r, N)
  }

  /** There is only one such mask. */
  lemma MaskIsUnique(tilt: Tilt, k: (int, int) -> real, a: seq<real>, b: seq<real>)
    requires IsMask(tilt, k, a) && IsMask(tilt, k, b)
    ensures a == b
  {
    hide Greedy, Threshold;
    var order: seq<Spot> :| IsMaskOf(tilt, k, a, order);
    var other: seq<Spot> :| IsMaskOf(tilt, k, b, other);
    GreedyIsUnique(tilt, k, order, other);
    forall i: nat | i < N ensures a[i] == b[i] {
      NothingMissing(order, i);
      var r: Spot :| order[r] == i;
    }
  }

  // -------------------------------------------------------------------------
  // The construction
  // -------------------------------------------------------------------------

  /** The bump's loops have come to this square when they are about to do `(dx, dy)`. */
  predicate Reached(p: Spot, i: Spot, dx: int, dy: int) {
    -R <= Dx(p, i) <= R && -R <= Dy(p, i) && (Dy(p, i) < dy || (Dy(p, i) == dy && Dx(p, i) < dx))
  }

  function Added(k: (int, int) -> real, p: Spot, i: Spot, dx: int, dy: int): real {
    if Reached(p, i, dx, dy) then k(Dx(p, i), Dy(p, i)) else 0.0
  }

  lemma AddedNext(k: (int, int) -> real, p: Spot, i: Spot, dx: int, dy: int)
    requires -R <= dx <= R && -R <= dy <= R
    ensures
      Added(k, p, i, dx + 1, dy) == Added(k, p, i, dx, dy) + if Target(p, dx, dy) == i then k(dx, dy) else 0.0
  {
    hide Dx, Dy, Target;
    TargetExactlyWhen(p, i, dx, dy);
  }

  lemma AddedRow(k: (int, int) -> real, p: Spot, i: Spot, dy: int)
    ensures Added(k, p, i, R + 1, dy) == Added(k, p, i, -R, dy + 1)
  {
    hide Dx, Dy;
  }

  /** Adds one point's bump. */
  method Bump(energy: array<real>, p: Spot, k: (int, int) -> real)
    requires energy.Length == N
    modifies energy
    ensures forall i: Spot :: energy[i] == old(energy[i]) + Term(k, p, i)
  {
    hide Dx, Dy, Target, Added;
    var first, last := -R, R + 1;
    forall i: Spot ensures Added(k, p, i, first, first) == 0.0 {
      AddedNone(k, p, i);
    }
    for dy := -R to R + 1
      invariant forall i: Spot :: energy[i] == old(energy[i]) + Added(k, p, i, first, dy)
    {
      for dx := -R to R + 1
        invariant forall i: Spot :: energy[i] == old(energy[i]) + Added(k, p, i, dx, dy)
      {
        forall i: Spot
          ensures Added(k, p, i, dx + 1, dy) == Added(k, p, i, dx, dy) + if Target(p, dx, dy) == i then k(dx, dy) else 0.0
        {
          AddedNext(k, p, i, dx, dy);
        }
        var t := Target(p, dx, dy);
        energy[t] := energy[t] + k(dx, dy);
      }
      var nextRow := dy + 1;
      forall i: Spot ensures Added(k, p, i, last, dy) == Added(k, p, i, first, nextRow) {
        AddedRow(k, p, i, dy);
      }
    }
    forall i: Spot ensures Added(k, p, i, first, last) == Term(k, p, i) {
      AddedAll(k, p, i);
    }
  }

  lemma AddedNone(k: (int, int) -> real, p: Spot, i: Spot)
    ensures Added(k, p, i, -R, -R) == 0.0
  {
    hide Dx, Dy;
  }

  lemma AddedAll(k: (int, int) -> real, p: Spot, i: Spot)
    ensures Added(k, p, i, -R, R + 1) == Term(k, p, i)
  {
    hide Dx, Dy;
  }

  /** The first of the free squares with the least energy. */
  method Choose(energy: array<real>, placed: array<bool>) returns (best: Spot)
    requires energy.Length == N && placed.Length == N && exists i: Spot :: !placed[i]
    ensures !placed[best]
    ensures forall i: Spot :: !placed[i] ==> energy[best] < energy[i] || (energy[best] == energy[i] && best <= i)
  {
    var found: nat := N;
    for i := 0 to N
      invariant 0 <= found <= N && (found < N ==> found < i) && (found == N <==> forall j: Spot :: j < i ==> placed[j])
      invariant found < N ==>
        !placed[found] && forall j: Spot :: j < i && !placed[j] ==>
          energy[found] < energy[j] || (energy[found] == energy[j] && found <= j)
    {
      if !placed[i] && (found == N || energy[i] < energy[found]) {
        found := i;
      }
    }
    best := found;
  }

  lemma EnergyOfNone(tilt: Tilt, k: (int, int) -> real)
    ensures forall i: Spot :: Energy(tilt, k, [], i) == tilt[i]
  {
  }

  lemma EnergyOfMore(tilt: Tilt, k: (int, int) -> real, order: seq<Spot>, p: Spot)
    ensures forall i: Spot :: Energy(tilt, k, order + [p], i) == Energy(tilt, k, order, i) + Term(k, p, i)
  {
    hide Term;
    assert (order + [p])[..|order + [p]| - 1] == order;
  }

  lemma GreedyOfMore(tilt: Tilt, k: (int, int) -> real, order: seq<Spot>, p: Spot)
    requires Greedy(tilt, k, order)
    requires forall i: Spot :: i !in order ==>
      Energy(tilt, k, order, p) < Energy(tilt, k, order, i) || (Energy(tilt, k, order, p) == Energy(tilt, k, order, i) && p <= i)
    ensures Greedy(tilt, k, order + [p])
  {
    hide Energy;
    var more := order + [p];
    forall r: nat, i: Spot | r < |more| && i !in more[..r]
      ensures
        var e := Energy(tilt, k, more[..r], more[r]);
        e < Energy(tilt, k, more[..r], i) || (e == Energy(tilt, k, more[..r], i) && more[r] <= i)
    {
      assert more[..r] == order[..r];
      assert r == |order| ==> order[..r] == order;
    }
  }

  /** Ranks every square, and spaces the thresholds evenly over the ranks. */
  method Build(tilt: Tilt, k: (int, int) -> real) returns (mask: array<real>)
    ensures IsMask(tilt, k, mask[..])
  {
    hide Term, Energy, Threshold;
    mask := new real[N](_ => 0.0);
    var energy := new real[N](i requires 0 <= i < N => tilt[i]);
    var placed := new bool[N](_ => false);
    ghost var order: seq<Spot> := [];
    EnergyOfNone(tilt, k);
    for rank := 0 to N
      invariant |order| == rank && Distinct(order) && Greedy(tilt, k, order)
      invariant forall i: Spot :: placed[i] <==> i in order
      invariant forall i: Spot :: energy[i] == Energy(tilt, k, order, i)
      invariant forall r: nat :: r < rank ==> mask[order[r]] == Threshold(r, N)
    {
      var free := SomethingMissing(order, N);
      var best := Choose(energy, placed);
      placed[best] := true;
      mask[best] := Threshold(rank, N);
      Bump(energy, best, k);
      EnergyOfMore(tilt, k, order, best);
      GreedyOfMore(tilt, k, order, best);
      order := order + [best];
    }
    assert IsMaskOf(tilt, k, mask[..], order);
  }

  // -------------------------------------------------------------------------
  // It balances
  // -------------------------------------------------------------------------

  /** The other way round: which rank each square got. */
  lemma Ranks(order: seq<nat>) returns (ranks: seq<nat>)
    requires IsPermutation(order)
    ensures |ranks| == |order| && IsPermutation(ranks)
    ensures forall r :: 0 <= r < |order| ==> ranks[order[r]] == r
  {
    ranks := seq(|order|, i requires 0 <= i < |order| => RankOf(order, i));
  }

  ghost function RankOf(order: seq<nat>, i: nat): (r: nat)
    requires IsPermutation(order) && i < |order|
    ensures r < |order| && order[r] == i
  {
    NothingMissing(order, i);
    var r: nat :| r < |order| && order[r] == i;
    r
  }

  function Total(s: seq<real>): real {
    if s == [] then 0.0 else Total(s[..|s| - 1]) + Last(s)
  }

  lemma {:induction false} TotalOfThresholds(s: seq<real>, ranks: seq<nat>, n: nat)
    requires |s| == |ranks| && n > 0 && forall i :: 0 <= i < |s| ==> s[i] == Threshold(ranks[i], n)
    ensures Total(s) == Thresholds(ranks, n)
  {
    hide Threshold;
    if s != [] {
      TotalOfThresholds(s[..|s| - 1], ranks[..|s| - 1], n);
    }
  }

  /** The mask gives each of the evenly spaced thresholds to one square, and adds up to exactly zero. */
  lemma MaskIsBalanced(tilt: Tilt, k: (int, int) -> real, mask: seq<real>) returns (ranks: seq<nat>)
    requires IsMask(tilt, k, mask)
    ensures |ranks| == N && IsPermutation(ranks) && forall i :: 0 <= i < N ==> mask[i] == Threshold(ranks[i], N)
    ensures Total(mask) == 0.0
  {
    hide Threshold, IsPermutation, Thresholds, Total, Greedy;
    var order: seq<Spot> :| IsMaskOf(tilt, k, mask, order);
    ranks := Ranks(order);
    forall i | 0 <= i < N ensures mask[i] == Threshold(ranks[i], N) {
      NothingMissing(order, i);
      var r :| 0 <= r < N && order[r] == i;
    }
    TotalOfThresholds(mask, ranks, N);
    ThresholdsOfPermutation(ranks);
  }
}
