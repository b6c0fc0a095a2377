/** The bin bitmaps of the allocator: words whose bit i says that bin i is not empty. */
module BinMap {

  /** Bit i of a word. */
  predicate Marked(m: nat, i: nat) {
    if i == 0 then m % 2 == 1 else Marked(m / 2, i - 1)
  }

  /** `m | idx2bit(i)` */
  function Mark(m: nat, i: nat): nat {
    if i == 0 then m / 2 * 2 + 1 else m % 2 + 2 * Mark(m / 2, i - 1)
  }

  /** `m & ~idx2bit(i)` */
  function Clear(m: nat, i: nat): nat {
    if i == 0 then m / 2 * 2 else m % 2 + 2 * Clear(m / 2, i - 1)
  }

  /** `m >> i` */
  function ShiftRight(m: nat, i: nat): nat {
    if i == 0 then m else ShiftRight(m / 2, i - 1)
  }

  /** `m << i`, where no bit is lost */
  function ShiftLeft(m: nat, i: nat): nat {
    if i == 0 then m else 2 * ShiftLeft(m, i - 1)
  }

  /** `m & left_bits(idx2bit(i))`: the bits of m above bit i. */
  function LeftOf(m: nat, i: nat): nat {
    if i == 0 then m / 2 * 2 else 2 * LeftOf(m / 2, i - 1)
  }

  /** `lj_ffs(m)`: the number of trailing zeros. */
  function Ffs(m: nat): nat
    requires m != 0
  {
    if m % 2 == 1 then 0 else 1 + Ffs(m / 2)
  }

  lemma {:induction false} MarkSets(m: nat, i: nat, j: nat)
    ensures Marked(Mark(m, i), j) == (Marked(m, j) || i == j)
  {
    if i > 0 && j > 0 {
      MarkSets(m / 2, i - 1, j - 1);
    }
  }

  lemma {:induction false} MarkAgain(m: nat, i: nat)
    requires Marked(m, i)
    ensures Mark(m, i) == m
  {
    if i > 0 {
      MarkAgain(m / 2, i - 1);
    }
  }

  lemma {:induction false} ClearResets(m: nat, i: nat, j: nat)
    ensures Marked(Clear(m, i), j) == (Marked(m, j) && i != j)
  {
    if i > 0 && j > 0 {
      ClearResets(m / 2, i - 1, j - 1);
    }
  }

  lemma {:induction false} ShiftRightMoves(m: nat, i: nat, j: nat)
    ensures Marked(ShiftRight(m, i), j) == Marked(m, i + j)
  {
    if i > 0 {
      ShiftRightMoves(m / 2, i - 1, j);
    }
  }

  lemma {:induction false} ShiftLeftMoves(m: nat, i: nat, j: nat)
    ensures Marked(ShiftLeft(m, i), j) == (j >= i && Marked(m, j - i))
  {
    if i > 0 {
      if j > 0 {
        ShiftLeftMoves(m, i - 1, j - 1);
      }
    }
  }

  lemma {:induction false} LeftOfKeeps(m: nat, i: nat, j: nat)
    ensures Marked(LeftOf(m, i), j) == (Marked(m, j) && i < j)
  {
    if j > 0 && i > 0 {
      LeftOfKeeps(m / 2, i - 1, j - 1);
    }
  }

  lemma {:induction false} ZeroHasNone(j: nat)
    ensures !Marked(0, j)
  {
    if j > 0 {
      ZeroHasNone(j - 1);
    }
  }

  /** The bit found is marked, and it is the least one. */
  lemma {:induction false} FfsLeast(m: nat)
    requires m != 0
    ensures Marked(m, Ffs(m))
    ensures forall j: nat | j < Ffs(m) :: !Marked(m, j)
  {
    if m % 2 == 0 {
      FfsLeast(m / 2);
      forall j: nat | j < Ffs(m)
        ensures !Marked(m, j)
      {
        if j > 0 {
          assert !Marked(m / 2, j - 1);
        }
      }
    }
  }

  /** `(m >> i) & 3` looks at bits i and i + 1. */
  lemma LowTwoBits(m: nat, i: nat)
    ensures ShiftRight(m, i) % 4 != 0 <==> Marked(m, i) || Marked(m, i + 1)
    ensures ShiftRight(m, i) % 2 == 1 <==> Marked(m, i)
  {
    ShiftRightMoves(m, i, 0);
    ShiftRightMoves(m, i, 1);
    var s := ShiftRight(m, i);
    assert Marked(s, 1) == Marked(s / 2, 0);
  }

  /** With bits i and i + 1 clear, the first bit above i is the first one of `((m >> i) << i) &
      left_bits(idx2bit(i))`. */
  lemma NextAbove(m: nat, i: nat)
    requires ShiftRight(m, i) % 4 == 0 && ShiftRight(m, i) != 0
    ensures var left := LeftOf(ShiftLeft(ShiftRight(m, i), i), i);
      left != 0 && Marked(m, Ffs(left)) && Ffs(left) >= i + 2 && forall j: nat | i <= j < Ffs(left) :: !Marked(m, j)
  {
    var s := ShiftRight(m, i);
    var l := LeftOf(ShiftLeft(s, i), i);
    var k := i + Ffs(s);
    FfsLeast(s);
    ShiftLeftMoves(s, i, k);
    LowTwoBits(m, i);
    ShiftRightMoves(m, i, Ffs(s));
    assert k != i;
    LeftOfKeeps(ShiftLeft(s, i), i, k);
    ZeroHasNone(k);
    var f := Ffs(l);
    FfsLeast(l);
    LeftOfKeeps(ShiftLeft(s, i), i, f);
    ShiftLeftMoves(s, i, f);
    ShiftRightMoves(m, i, f - i);
    forall j: nat | i <= j < f
      ensures !Marked(m, j)
    {
      ShiftRightMoves(m, i, j - i);
      ShiftLeftMoves(s, i, j);
      LeftOfKeeps(ShiftLeft(s, i), i, j);
    }
  }
}
