/** Random draws without replacement: a sparse Fisher-Yates shuffle. */
module Rand {
  import opened Common
  import Rings

  // ----- the dense shuffle -----

  /** One draw: the k-th element leaves the pool, and the last one takes its place. */
  function Without(pool: seq<int>, k: nat): (rest: seq<int>)
    requires k < |pool|
    ensures |rest| == |pool| - 1
  {
    pool[k := pool[|pool| - 1]][..|pool| - 1]
  }

  /** Each draw is a place in the pool as it is by then. */
  ghost predicate Draws(size: nat, draws: seq<nat>) {
    |draws| <= size && forall i | 0 <= i < |draws| :: draws[i] < size - i
  }

  /** The elements drawn, in order. */
  function Drawn(pool: seq<int>, draws: seq<nat>): (r: seq<int>)
    requires Draws(|pool|, draws)
    ensures |r| == |draws|
    decreases |draws|
  {
    if draws == [] then []
    else
      assert Draws(|pool| - 1, draws[1..]) by {
        forall i | 0 <= i < |draws| - 1
          ensures draws[1..][i] < |pool| - 1 - i
        {
          assert draws[1..][i] == draws[i + 1];
        }
      }
      [pool[draws[0]]] + Drawn(Without(pool, draws[0]), draws[1..])
  }

  lemma WithoutKeeps(pool: seq<int>, k: nat)
    requires k < |pool| && Rings.Unique(pool)
    ensures Rings.Unique(Without(pool, k))
    ensures forall x :: x in Without(pool, k) <==> x in pool && x != pool[k]
  {
    var rest := Without(pool, k);
    forall x
      ensures x in rest <==> x in pool && x != pool[k]
    {
      if x in rest {
        var i :| 0 <= i < |rest| && rest[i] == x;
        assert x == if i == k then pool[|pool| - 1] else pool[i];
      }
      if x in pool && x != pool[k] {
        var i :| 0 <= i < |pool| && pool[i] == x;
        assert x == rest[if i == |pool| - 1 then k else i];
      }
    }
  }

  /** What is drawn is in the pool, and nothing is drawn twice. */
  lemma {:induction false} DrawnDistinct(pool: seq<int>, draws: seq<nat>)
    requires Draws(|pool|, draws) && Rings.Unique(pool)
    ensures Rings.Unique(Drawn(pool, draws)) && forall x | x in Drawn(pool, draws) :: x in pool
    decreases |draws|
  {
    hide Without;
    if draws == [] {
    } else {
      var rest := Without(pool, draws[0]);
      WithoutKeeps(pool, draws[0]);
      TailDraws(|pool|, draws);
      DrawnDistinct(rest, draws[1..]);
      DistinctFront(pool[draws[0]], Drawn(rest, draws[1..]));
    }
  }

  lemma DistinctFront(x: int, s: seq<int>)
    requires x !in s && Rings.Unique(s)
    ensures Rings.Unique([x] + s)
  {
  }

  lemma TailDraws(size: nat, draws: seq<nat>)
    requires Draws(size, draws) && draws != []
    ensures draws[0] < size && Draws(size - 1, draws[1..])
  {
    forall i | 0 <= i < |draws| - 1
      ensures draws[1..][i] < size - 1 - i
    {
      assert draws[1..][i] == draws[i + 1];
    }
  }

  /** Different draws give different results. */
  lemma {:induction false} DrawnOnce(pool: seq<int>, a: seq<nat>, b: seq<nat>)
    requires Draws(|pool|, a) && Draws(|pool|, b) && Rings.Unique(pool) && Drawn(pool, a) == Drawn(pool, b)
    ensures a == b
    decreases |a|
  {
    if a == [] {
    } else {
      var x, y := Drawn(pool, a), Drawn(pool, b);
      TailDraws(|pool|, a);
      TailDraws(|pool|, b);
      assert pool[a[0]] == x[0] && pool[b[0]] == y[0];
      assert a[0] == b[0];
      WithoutKeeps(pool, a[0]);
      assert x[1..] == Drawn(Without(pool, a[0]), a[1..]) && y[1..] == Drawn(Without(pool, b[0]), b[1..]);
      DrawnOnce(Without(pool, a[0]), a[1..], b[1..]);
      assert a == [a[0]] + a[1..] && b == [b[0]] + b[1..];
    }
  }

  /** Any choice of different elements, in any order, is the result of some draws. */
  lemma {:induction false} EveryChoiceDrawn(pool: seq<int>, choice: seq<int>) returns (draws: seq<nat>)
    requires Rings.Unique(pool) && Rings.Unique(choice) && forall x | x in choice :: x in pool
    ensures Draws(|pool|, draws) && Drawn(pool, draws) == choice
    decreases |choice|
  {
    if choice == [] {
      draws := [];
    } else {
      assert choice[0] in choice;
      var k :| 0 <= k < |pool| && pool[k] == choice[0];
      WithoutKeeps(pool, k);
      forall x | x in choice[1..]
        ensures x in Without(pool, k)
      {
        var i :| 0 <= i < |choice| - 1 && choice[1..][i] == x;
        assert choice[i + 1] == x;
      }
      var rest := EveryChoiceDrawn(Without(pool, k), choice[1..]);
      draws := [k] + rest;
      assert draws[1..] == rest;
      assert choice == [choice[0]] + choice[1..];
    }
  }

  // ----- the interval -----

  function Interval(min: int, size: nat): (s: seq<int>)
    ensures |s| == size && forall i | 0 <= i < size :: s[i] == min + i
  {
    seq(size, i => min + i)
  }

  lemma NextDraw(pool: seq<int>, draws: seq<nat>, i: nat)
    requires i < |draws| && Draws(|pool|, draws[i..])
    ensures draws[i] < |pool| && Draws(|pool| - 1, draws[i + 1..])
    ensures Drawn(pool, draws[i..]) == [pool[draws[i]]] + Drawn(Without(pool, draws[i]), draws[i + 1..])
  {
    hide Draws;
    TailDraws(|pool|, draws[i..]);
    assert draws[i..][1..] == draws[i + 1..];
  }

  /** The sparse map holds what the dense pool holds; a place that is not in it holds its own number. */
  ghost predicate Simulates(m: map<int, int>, min: int, pool: seq<int>) {
    forall i | 0 <= i < |pool| :: pool[i] == if min + i in m then m[min + i] else min + i
  }

  lemma SimulatesEmpty(min: int, size: nat)
    ensures Simulates(map[], min, Interval(min, size))
  {
  }

  /** What the step does to the map. */
  function Moved(m: map<int, int>, v: int, lv: int): map<int, int> {
    if v == lv then m else m[v := if lv in m then m[lv] else lv]
  }

  lemma SimulatesWithout(m: map<int, int>, min: int, pool: seq<int>, k: nat)
    requires k < |pool| && Simulates(m, min, pool)
    ensures pool[k] == if min + k in m then m[min + k] else min + k
    ensures Simulates(Moved(m, k + min, |pool| - 1 + min), min, Without(pool, k))
  {
  }

  const INT32_MIN := -0x8000_0000
  const INT32_MAX := 0x7fff_ffff

  /** `RandIntervalN`; draws are the results of `rand.Int63n`, one for each number drawn. */
  method RandIntervalN(b1: int, b2: int, n0: nat, draws: seq<nat>) returns (r: seq<int>)
    requires INT32_MIN <= b1 <= INT32_MAX && INT32_MIN <= b2 <= INT32_MAX && n0 < 0x1_0000_0000
    requires b1 != b2 ==> var size := (if b1 < b2 then b2 - b1 else b1 - b2) + 1;
      |draws| == (if n0 < size then n0 else size) && Draws(size, draws)
    ensures b1 == b2 ==> r == [b1]
    ensures b1 < b2 ==> r == Drawn(Interval(b1, b2 - b1 + 1), draws)
    ensures b2 < b1 ==> r == Drawn(Interval(b2, b1 - b2 + 1), draws)
  {
    hide Simulates, Without, Draws, Drawn, Interval;
    if b1 == b2 {
      return [b1];
    }
    var min, max := b1, b2;
    if min > max {
      min, max := max, min;
    }
    var l := max - min + 1;
    var n := n0;
    if n > l {
      n := l;
    }
    r := [];
    var m: map<int, int> := map[];
    ghost var pool := Interval(min, l);
    ghost var all := Drawn(pool, draws);
    SimulatesEmpty(min, l);
    assert draws[0..] == draws;
    for i := 0 to n
      invariant |pool| == l == max - min + 1 - i && Simulates(m, min, pool)
      invariant |r| == i && Draws(l, draws[i..]) && r + Drawn(pool, draws[i..]) == all
    {
      var k := draws[i];
      NextDraw(pool, draws, i);
      SimulatesWithout(m, min, pool, k);
      var v := k + min;
      if v in m {
        r := r + [m[v]];
      } else {
        r := r + [v];
      }
      var lv := l - 1 + min;
      if v != lv {
        if lv in m {
          m := m[v := m[lv]];
        } else {
          m := m[v := lv];
        }
      }
      l := l - 1;
      pool := Without(pool, k);
    }
  }

  /** The result has min(n, size) numbers, all different and all in the interval. */
  lemma RandIntervalNDistinct(min: int, size: nat, draws: seq<nat>)
    requires Draws(size, draws)
    ensures var r := Drawn(Interval(min, size), draws);
      |r| == |draws| && Rings.Unique(r) && forall x | x in r :: min <= x < min + size
  {
    DrawnDistinct(Interval(min, size), draws);
  }

  /** Every selection of different numbers comes from exactly one sequence of draws: if the draws are uniform, so are
      the selections. */
  lemma RandIntervalNFair(min: int, size: nat, choice: seq<int>) returns (draws: seq<nat>)
    requires Rings.Unique(choice) && forall x | x in choice :: min <= x < min + size
    ensures Draws(size, draws) && Drawn(Interval(min, size), draws) == choice
    ensures forall d | Draws(size, d) && Drawn(Interval(min, size), d) == choice :: d == draws
  {
    var pool := Interval(min, size);
    forall x | x in choice
      ensures x in pool
    {
      assert pool[x - min] == x;
    }
    draws := EveryChoiceDrawn(pool, choice);
    forall d | Draws(size, d) && Drawn(pool, d) == choice
      ensures d == draws
    {
      DrawnOnce(pool, d, draws);
    }
  }

  // ----- weighted choice -----

  function Sum(p: seq<nat>): nat {
    if p == [] then 0 else Sum(p[..|p| - 1]) + p[|p| - 1]
  }

  lemma {:induction false} SumGrows(p: seq<nat>, i: nat, j: nat)
    requires i <= j <= |p|
    ensures Sum(p[..i]) <= Sum(p[..j])
  {
    if i < j {
      assert p[..j][..j - 1] == p[..j - 1];
      SumGrows(p, i, j - 1);
    }
  }

  lemma SumEmpty()
    ensures Sum([]) == 0
  {
  }

  /** The sums of the weights up to each index, in 32 bits. */
  method PrefixSums(p: seq<nat>) returns (r: seq<nat>)
    requires p != [] && forall i | 0 <= i < |p| :: p[i] < WRAP
    ensures |r| == |p| && forall j | 0 <= j < |p| :: r[j] == Sum(p[..j + 1]) % WRAP
  {
    r := [p[0]];
    assert p[..1][..0] == [];
    assert Sum(p[..1]) == Sum(p[..1][..0]) + p[0];
    for i := 1 to |p|
      invariant |r| == i && forall j | 0 <= j < i :: r[j] == Sum(p[..j + 1]) % WRAP
    {
      assert p[..i + 1][..i] == p[..i];
      WrapAdd(Sum(p[..i]), p[i]);
      r := r + [(r[i - 1] + p[i]) % WRAP];
    }
  }

  /** `RandGroup`; rn is the result of `rand.Int63n`. If the weights do not wrap around, index i is the result for
      exactly p[i] of the values of rn. */
  method RandGroup(p: seq<nat>, rn: nat) returns (k: nat)
    requires p != [] && forall i | 0 <= i < |p| :: p[i] < WRAP
    requires Sum(p) % WRAP == 0 || rn < Sum(p) % WRAP
    ensures k < |p|
    ensures Sum(p) % WRAP == 0 ==> k == 0
    ensures 0 < Sum(p) < WRAP ==> Sum(p[..k]) <= rn < Sum(p[..k + 1])
  {
    hide Sum;
    var r := PrefixSums(p);
    assert p[..|p|] == p;
    if r[|p| - 1] == 0 {
      return 0;
    }
    k := 0;
    SumEmpty();
    assert p[..0] == [];
    while rn >= r[k]
      invariant k < |p| && (0 < Sum(p) < WRAP ==> Sum(p[..k]) <= rn)
      decreases |p| - k
    {
      SumGrows(p, k + 1, |p|);
      k := k + 1;
    }
    SumGrows(p, k + 1, |p|);
  }
}
