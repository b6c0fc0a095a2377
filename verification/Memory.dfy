/** The heap's memory: one word at every mapped address, and the fields that chunks overlay on it. */
module Memory {
  type Mem = map<int, int>

  function Rd(m: Mem, a: int): int {
    if a in m then m[a] else 0
  }

  /** A load; the address must be mapped. */
  function Ld(m: Mem, a: int): (v: int)
    requires a in m
    ensures v == Rd(m, a)
  {
    m[a]
  }

  /** A store; the address must be mapped. */
  function Wr(m: Mem, a: int, v: int): (r: Mem)
    requires a in m
    ensures r == m[a := v] && r.Keys == m.Keys
  {
    m[a := v]
  }

  // Offsets of the fields of `struct malloc_chunk` and `struct malloc_tree_chunk`.
  const HEAD := 8
  const FD := 16
  const BK := 24
  const CHILD0 := 32
  const CHILD1 := 40
  const PARENT := 48
  const INDEX := 56

  function PrevFoot(m: Mem, p: int): int { Rd(m, p) }
  function Head(m: Mem, p: int): int { Rd(m, p + HEAD) }
  function Fd(m: Mem, p: int): int { Rd(m, p + FD) }
  function Bk(m: Mem, p: int): int { Rd(m, p + BK) }
  function Child0(m: Mem, p: int): int { Rd(m, p + CHILD0) }
  function Child1(m: Mem, p: int): int { Rd(m, p + CHILD1) }
  function Parent(m: Mem, p: int): int { Rd(m, p + PARENT) }
  function TreeIdx(m: Mem, p: int): int { Rd(m, p + INDEX) }

  // The low bits of a head word.
  function ChunkSize(h: int): int { h / 4 * 4 }
  predicate CInUse(h: int) { h / 2 % 2 == 1 }
  predicate PInUse(h: int) { h % 2 == 1 }
  function ClearPin(h: int): int { h / 2 * 2 }
  function SetPin(h: int): int { h / 2 * 2 + 1 }

  /** The ring links of a chunk agree. */
  ghost predicate SameRing(m: Mem, n: Mem, a: int) {
    Fd(m, a) == Fd(n, a) && Bk(m, a) == Bk(n, a)
  }

  /** All link fields of a tree chunk agree. */
  ghost predicate SameLinks(m: Mem, n: Mem, a: int) {
    && SameRing(m, n, a)
    && Child0(m, a) == Child0(n, a) && Child1(m, a) == Child1(n, a)
    && Parent(m, a) == Parent(n, a) && TreeIdx(m, a) == TreeIdx(n, a)
  }
}

/** Circular doubly linked lists through the fd and bk fields. */
module Rings {
  import opened Memory
  import opened Trie

  ghost predicate RingAt(m: Mem, ring: seq<int>) {
    && ring != []
    && (forall i, j | 0 <= i < j < |ring| && j == i + 1 :: Fd(m, ring[i]) == ring[j] && Bk(m, ring[j]) == ring[i])
    && Fd(m, ring[|ring| - 1]) == ring[0]
    && Bk(m, ring[0]) == ring[|ring| - 1]
  }

  ghost predicate Unique(s: seq<int>) {
    forall i, j | 0 <= i < j < |s| :: s[i] != s[j]
  }

  lemma RingFrame(m: Mem, n: Mem, ring: seq<int>)
    requires RingAt(m, ring) && forall a | a in ring :: SameRing(m, n, a)
    ensures RingAt(n, ring)
  {
    forall k | 0 <= k < |ring|
      ensures Fd(n, ring[k]) == Fd(m, ring[k]) && Bk(n, ring[k]) == Bk(m, ring[k])
    {
      assert ring[k] in ring;
      assert SameRing(m, n, ring[k]);
    }
  }

  /** Links of one ring member, by position. */
  lemma RingNeighbours(m: Mem, ring: seq<int>, k: nat)
    requires RingAt(m, ring) && k < |ring|
    ensures Fd(m, ring[k]) == if k + 1 < |ring| then ring[k + 1] else ring[0]
    ensures Bk(m, ring[k]) == if k > 0 then ring[k - 1] else ring[|ring| - 1]
  {
  }

  /** Linking x in after the first chunk: the four stores of an insertion. */
  lemma RingInsertLinks(m: Mem, n: Mem, ring: seq<int>, x: int)
    requires RingAt(m, ring) && Unique(ring) && x !in ring
    requires var h, f := ring[0], Fd(m, ring[0]);
      && Fd(n, h) == x && Bk(n, f) == x && Fd(n, x) == f && Bk(n, x) == h
      && (forall a | a in ring && a != h :: Fd(n, a) == Fd(m, a))
      && (forall a | a in ring && a != f :: Bk(n, a) == Bk(m, a))
    ensures RingAt(n, RingInsert(ring, x))
  {
    var r := RingInsert(ring, x);
    RingNeighbours(m, ring, 0);
    forall k | 0 < k < |ring|
      ensures Fd(n, ring[k]) == Fd(m, ring[k])
      ensures k > 1 ==> Bk(n, ring[k]) == Bk(m, ring[k])
    {
      assert ring[k] in ring && ring[0] != ring[k];
    }
    forall i, j | 0 <= i < j < |r| && j == i + 1
      ensures Fd(n, r[i]) == r[j] && Bk(n, r[j]) == r[i]
    {
      if i > 1 {
        assert r[i] == ring[i - 1] && r[j] == ring[j - 1];
      } else if i == 1 {
        assert r[j] == ring[1];
      }
    }
    if |ring| > 1 {
      assert r[|r| - 1] == ring[|ring| - 1];
    }
  }

  /** Linking x out: the two stores of a removal. */
  lemma RingDeleteLinks(m: Mem, n: Mem, ring: seq<int>, k: nat)
    requires RingAt(m, ring) && Unique(ring) && k < |ring| && |ring| > 1
    requires var f, b := Fd(m, ring[k]), Bk(m, ring[k]);
      && Bk(n, f) == b && Fd(n, b) == f
      && (forall a | a in ring && a != b && a != ring[k] :: Fd(n, a) == Fd(m, a))
      && (forall a | a in ring && a != f && a != ring[k] :: Bk(n, a) == Bk(m, a))
    ensures k == 0 ==> RingAt(n, [ring[|ring| - 1]] + ring[1..|ring| - 1])
    ensures k > 0 ==> RingAt(n, ring[..k] + ring[k + 1..])
  {
    RingNeighbours(m, ring, k);
    var last := |ring| - 1;
    if k == 0 {
      var r := [ring[last]] + ring[1..last];
      forall i, j | 0 <= i < j < |r| && j == i + 1
        ensures Fd(n, r[i]) == r[j] && Bk(n, r[j]) == r[i]
      {
        assert r[j] == ring[j];
        if i > 0 {
          assert r[i] == ring[i];
        }
      }
      if |r| > 1 {
        assert r[|r| - 1] == ring[last - 1];
      }
    } else {
      var r := ring[..k] + ring[k + 1..];
      forall i, j | 0 <= i < j < |r| && j == i + 1
        ensures Fd(n, r[i]) == r[j] && Bk(n, r[j]) == r[i]
      {
        assert r[i] == if i < k then ring[i] else ring[i + 1];
        assert r[j] == if j < k then ring[j] else ring[j + 1];
      }
      assert r[|r| - 1] == if k == last then ring[k - 1] else ring[last];
    }
  }
}
