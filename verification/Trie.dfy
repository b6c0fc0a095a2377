/** The bitwise trie of one tree bin, as a value: what the links of its chunks in memory stand for. */
module Trie {
  import opened TreeIndex

  /** A node holds the chunks of one size; ring[0] is the chunk linked into the tree, the others hang off its ring. */
  datatype Tree = Nil | Node(size: nat, ring: seq<int>, left: Tree, right: Tree)

  function Addr(t: Tree): int {
    if t.Node? && t.ring != [] then t.ring[0] else 0
  }

  /** How often a chunk occurs. */
  ghost function Count(t: Tree, a: int): nat {
    match t
    case Nil => 0
    case Node(_, ring, l, r) => multiset(ring)[a] + Count(l, a) + Count(r, a)
  }

  ghost predicate Has(t: Tree, a: int) {
    Count(t, a) > 0
  }

  ghost predicate Distinct(t: Tree) {
    forall a :: Count(t, a) <= 1
  }

  ghost function SizeOf(t: Tree, a: int): int {
    match t
    case Nil => 0
    case Node(s, ring, l, r) => if a in ring then s else if Has(l, a) then SizeOf(l, a) else SizeOf(r, a)
  }

  /** The sizes of the nodes. */
  ghost function Sizes(t: Tree): set<nat> {
    match t
    case Nil => {}
    case Node(s, _, l, r) => {s} + Sizes(l) + Sizes(r)
  }

  /** The tree divides the aligned interval of 2^w sizes from lo: child 0 has the lower half, child 1 the upper. No size
      has two nodes. */
  ghost predicate Shape(t: Tree, lo: nat, w: nat) {
    match t
    case Nil => true
    case Node(s, ring, l, r) =>
      && lo <= s < lo + Pow2(w)
      && ring != [] && s !in Sizes(l) && s !in Sizes(r)
      && if w == 0 then l == Nil && r == Nil
         else Shape(l, lo, w - 1) && Shape(r, lo + Pow2(w - 1), w - 1)
  }

  lemma DistinctParts(t: Tree)
    requires t.Node? && Distinct(t)
    ensures Distinct(t.left) && Distinct(t.right)
    ensures forall a | a in t.ring :: !Has(t.left, a) && !Has(t.right, a)
    ensures forall a | Has(t.left, a) :: !Has(t.right, a)
    ensures forall i, j | 0 <= i < j < |t.ring| :: t.ring[i] != t.ring[j]
  {
    forall a
      ensures Count(t.left, a) <= 1 && Count(t.right, a) <= 1 && multiset(t.ring)[a] <= 1
      ensures a in t.ring ==> !Has(t.left, a) && !Has(t.right, a)
      ensures Has(t.left, a) ==> !Has(t.right, a)
    {
      assert Count(t, a) == multiset(t.ring)[a] + Count(t.left, a) + Count(t.right, a);
    }
    NoRepeats(t.ring);
  }

  lemma NoRepeats(s: seq<int>)
    requires forall a :: multiset(s)[a] <= 1
    ensures forall i, j | 0 <= i < j < |s| :: s[i] != s[j]
  {
    forall i, j | 0 <= i < j < |s|
      ensures s[i] != s[j]
    {
      assert s == s[..j] + s[j..];
      assert s[..j][i] == s[i] && s[j..][0] == s[j];
      assert multiset(s)[s[i]] == multiset(s[..j])[s[i]] + multiset(s[j..])[s[i]];
    }
  }

  lemma {:induction false} SizesIn(t: Tree, lo: nat, w: nat)
    requires Shape(t, lo, w)
    ensures forall s | s in Sizes(t) :: lo <= s < lo + Pow2(w)
  {
    if t.Node? && w > 0 {
      SizesIn(t.left, lo, w - 1);
      SizesIn(t.right, lo + Pow2(w - 1), w - 1);
    }
  }

  lemma {:induction false} SizeInSizes(t: Tree, a: int)
    requires Has(t, a)
    ensures SizeOf(t, a) in Sizes(t)
  {
    if a !in t.ring {
      if Has(t.left, a) {
        SizeInSizes(t.left, a);
      } else {
        SizeInSizes(t.right, a);
      }
    }
  }

  /** Some node has both chunks. */
  ghost predicate OnOneRing(t: Tree, a: int, b: int) {
    t.Node? && ((a in t.ring && b in t.ring) || OnOneRing(t.left, a, b) || OnOneRing(t.right, a, b))
  }

  lemma {:induction false} OnRingHas(t: Tree, a: int, b: int)
    requires OnOneRing(t, a, b)
    ensures Has(t, a) && Has(t, b)
  {
    if a in t.ring && b in t.ring {
      assert a in multiset(t.ring) && b in multiset(t.ring);
    } else if OnOneRing(t.left, a, b) {
      OnRingHas(t.left, a, b);
    } else {
      OnRingHas(t.right, a, b);
    }
  }

  /** Two chunks have equal sizes if and only if they are on the ring of one node. */
  lemma {:induction false} EqualSizesOneRing(t: Tree, lo: nat, w: nat, a: int, b: int)
    requires Shape(t, lo, w) && Distinct(t) && Has(t, a) && Has(t, b)
    ensures SizeOf(t, a) == SizeOf(t, b) <==> OnOneRing(t, a, b)
    decreases t
  {
    hide Shape, Distinct, Sizes;
    DistinctParts(t);
    ShapeParts(t, lo, w);
    var l, r := t.left, t.right;
    SizesApart(l, r, lo, w);
    forall x | Has(t, x)
      ensures x !in t.ring ==> SizeOf(t, x) != t.size
      ensures Has(l, x) ==> SizeOf(l, x) in Sizes(l)
      ensures Has(r, x) ==> SizeOf(r, x) in Sizes(r)
    {
      if Has(l, x) {
        SizeInSizes(l, x);
      }
      if Has(r, x) {
        SizeInSizes(r, x);
      }
    }
    if OnOneRing(l, a, b) {
      OnRingHas(l, a, b);
    }
    if OnOneRing(r, a, b) {
      OnRingHas(r, a, b);
    }
    if Has(l, a) && Has(l, b) {
      EqualSizesOneRing(l, lo, w - 1, a, b);
    } else if Has(r, a) && Has(r, b) {
      EqualSizesOneRing(r, lo + Pow2(w - 1), w - 1, a, b);
    }
  }

  lemma ShapeParts(t: Tree, lo: nat, w: nat)
    requires t.Node? && Shape(t, lo, w)
    ensures t.ring != [] && lo <= t.size < lo + Pow2(w) && t.size !in Sizes(t.left) && t.size !in Sizes(t.right)
    ensures if w == 0 then t.left == Nil && t.right == Nil
      else Shape(t.left, lo, w - 1) && Shape(t.right, lo + Pow2(w - 1), w - 1)
  {
  }

  /** The sizes of the two halves are apart. */
  lemma SizesApart(l: Tree, r: Tree, lo: nat, w: nat)
    requires if w == 0 then l == Nil && r == Nil else Shape(l, lo, w - 1) && Shape(r, lo + Pow2(w - 1), w - 1)
    ensures Sizes(l) !! Sizes(r)
  {
    if w > 0 {
      SizesIn(l, lo, w - 1);
      SizesIn(r, lo + Pow2(w - 1), w - 1);
    }
  }

  /** Sizes stay in the interval. */
  lemma {:induction false} SizeBounds(t: Tree, lo: nat, w: nat)
    requires Shape(t, lo, w)
    ensures forall a | Has(t, a) :: lo <= SizeOf(t, a) < lo + Pow2(w)
  {
    if t.Node? && w > 0 {
      SizeBounds(t.left, lo, w - 1);
      SizeBounds(t.right, lo + Pow2(w - 1), w - 1);
    }
  }

  // ----- insertion -----

  /** The ring with x linked in right after its first chunk. */
  function RingInsert(ring: seq<int>, x: int): seq<int> {
    if ring == [] then [x] else [ring[0], x] + ring[1..]
  }

  /** The tree with chunk x of size s put in. */
  ghost function Insert(t: Tree, x: int, s: nat, lo: nat, w: nat): Tree {
    match t
    case Nil => Node(s, [x], Nil, Nil)
    case Node(n, ring, l, r) =>
      if n == s || w == 0 then Node(n, RingInsert(ring, x), l, r)
      else if s < lo + Pow2(w - 1) then Node(n, ring, Insert(l, x, s, lo, w - 1), r)
      else Node(n, ring, l, Insert(r, x, s, lo + Pow2(w - 1), w - 1))
  }

  lemma RingInsertCount(ring: seq<int>, x: int, a: int)
    ensures multiset(RingInsert(ring, x))[a] == multiset(ring)[a] + if a == x then 1 else 0
    ensures a in RingInsert(ring, x) <==> a in ring || a == x
  {
    assert multiset(RingInsert(ring, x)) == multiset(ring) + multiset{x} by {
      if ring != [] {
        assert ring == [ring[0]] + ring[1..];
      }
    }
    assert a in RingInsert(ring, x) <==> a in multiset(RingInsert(ring, x));
  }

  lemma {:induction false} InsertCount(t: Tree, x: int, s: nat, lo: nat, w: nat, a: int)
    ensures Count(Insert(t, x, s, lo, w), a) == Count(t, a) + if a == x then 1 else 0
    decreases t
  {
    if t.Nil? {
    } else if t.size == s || w == 0 {
      RingInsertCount(t.ring, x, a);
    } else if s < lo + Pow2(w - 1) {
      InsertCount(t.left, x, s, lo, w - 1, a);
    } else {
      InsertCount(t.right, x, s, lo + Pow2(w - 1), w - 1, a);
    }
  }

  lemma {:induction false} InsertSizes(t: Tree, x: int, s: nat, lo: nat, w: nat)
    requires Shape(t, lo, w) && lo <= s < lo + Pow2(w)
    ensures Sizes(Insert(t, x, s, lo, w)) == Sizes(t) + {s}
  {
    if t.Node? && t.size != s && w > 0 {
      if s < lo + Pow2(w - 1) {
        InsertSizes(t.left, x, s, lo, w - 1);
      } else {
        InsertSizes(t.right, x, s, lo + Pow2(w - 1), w - 1);
      }
    }
  }

  lemma {:induction false} InsertShape(t: Tree, x: int, s: nat, lo: nat, w: nat)
    requires Shape(t, lo, w) && lo <= s < lo + Pow2(w)
    ensures Shape(Insert(t, x, s, lo, w), lo, w)
  {
    if t.Node? && t.size != s && w > 0 {
      if s < lo + Pow2(w - 1) {
        InsertShape(t.left, x, s, lo, w - 1);
        InsertSizes(t.left, x, s, lo, w - 1);
      } else {
        InsertShape(t.right, x, s, lo + Pow2(w - 1), w - 1);
        InsertSizes(t.right, x, s, lo + Pow2(w - 1), w - 1);
      }
    }
  }

  /** The size of a chunk of a node with one side changed. */
  lemma SideSize(n: nat, ring: seq<int>, l: Tree, r: Tree, k: Tree, x: int, a: int)
    requires Count(Node(n, ring, l, r), x) == 0 && (a == x || Has(Node(n, ring, l, r), a))
    ensures (Has(k, a) <==> a == x || Has(l, a)) && (Has(l, a) ==> SizeOf(k, a) == SizeOf(l, a)) ==>
      SizeOf(Node(n, ring, k, r), a) == if a == x then SizeOf(k, x) else SizeOf(Node(n, ring, l, r), a)
    ensures (Has(k, a) <==> a == x || Has(r, a)) && (Has(r, a) ==> SizeOf(k, a) == SizeOf(r, a)) ==>
      SizeOf(Node(n, ring, l, k), a) == if a == x then SizeOf(k, x) else SizeOf(Node(n, ring, l, r), a)
  {
    assert a in ring <==> a in multiset(ring);
  }

  lemma {:induction false} InsertSize(t: Tree, x: int, s: nat, lo: nat, w: nat, a: int)
    requires Shape(t, lo, w) && lo <= s < lo + Pow2(w) && !Has(t, x) && (a == x || Has(t, a))
    ensures SizeOf(Insert(t, x, s, lo, w), a) == if a == x then s else SizeOf(t, a)
    decreases t
  {
    if t.Nil? {
    } else if t.size == s || w == 0 {
      RingInsertCount(t.ring, x, a);
    } else {
      var left := s < lo + Pow2(w - 1);
      var side, at := if left then t.left else t.right, if left then lo else lo + Pow2(w - 1);
      InsertCount(side, x, s, at, w - 1, a);
      if a == x || Has(side, a) {
        InsertSize(side, x, s, at, w - 1, a);
      }
      SideSize(t.size, t.ring, t.left, t.right, Insert(side, x, s, at, w - 1), x, a);
    }
  }

  // ----- removal -----

  /** The leaf that replaces a removed node: always the upper child if there is one. */
  ghost function DeepLeaf(t: Tree): (leaf: Tree)
    requires t.Node?
    ensures leaf.Node? && leaf.left == Nil && leaf.right == Nil
  {
    if t.right.Node? then DeepLeaf(t.right) else if t.left.Node? then DeepLeaf(t.left) else t
  }

  ghost function DropDeep(t: Tree): Tree
    requires t.Node?
  {
    if t.right.Node? then Node(t.size, t.ring, t.left, DropDeep(t.right))
    else if t.left.Node? then Node(t.size, t.ring, DropDeep(t.left), t.right)
    else Nil
  }

  /** What takes the place of a node whose own ring is exhausted. */
  ghost function Promote(l: Tree, r: Tree): Tree {
    if r.Node? then Node(DeepLeaf(r).size, DeepLeaf(r).ring, l, DropDeep(r))
    else if l.Node? then Node(DeepLeaf(l).size, DeepLeaf(l).ring, DropDeep(l), r)
    else Nil
  }

  ghost function Without(s: seq<int>, x: int): seq<int> {
    if s == [] then [] else if s[0] == x then s[1..] else [s[0]] + Without(s[1..], x)
  }

  /** The ring without x; when x is the first chunk, the last one takes its place. */
  ghost function RingDelete(ring: seq<int>, x: int): seq<int>
    requires x in ring && |ring| > 1
  {
    if ring[0] == x then [ring[|ring| - 1]] + ring[1..|ring| - 1] else Without(ring, x)
  }

  /** The subtree left after taking x out of the node that holds it. */
  ghost function Unring(t: Tree, x: int): Tree
    requires t.Node? && x in t.ring
  {
    if |t.ring| > 1 then Node(t.size, RingDelete(t.ring, x), t.left, t.right) else Promote(t.left, t.right)
  }

  ghost function Delete(t: Tree, x: int): Tree {
    match t
    case Nil => Nil
    case Node(s, ring, l, r) =>
      if x in ring then Unring(t, x)
      else if Has(l, x) then Node(s, ring, Delete(l, x), r)
      else Node(s, ring, l, Delete(r, x))
  }

  lemma {:induction false} WithoutBag(s: seq<int>, x: int)
    requires x in s
    ensures multiset(Without(s, x)) == multiset(s) - multiset{x} && |Without(s, x)| == |s| - 1
  {
    assert s == [s[0]] + s[1..];
    if s[0] != x {
      WithoutBag(s[1..], x);
    }
  }

  lemma RingDeleteCount(ring: seq<int>, x: int, a: int)
    requires x in ring && |ring| > 1
    ensures multiset(RingDelete(ring, x))[a] == multiset(ring)[a] - if a == x then 1 else 0
    ensures |RingDelete(ring, x)| == |ring| - 1
    ensures a != x ==> (a in RingDelete(ring, x) <==> a in ring)
  {
    if ring[0] == x {
      var n := |ring|;
      assert ring == [x] + ring[1..n - 1] + [ring[n - 1]];
    } else {
      WithoutBag(ring, x);
    }
    assert a in RingDelete(ring, x) <==> a in multiset(RingDelete(ring, x));
  }

  lemma {:induction false} DropDeepCount(t: Tree, a: int)
    requires t.Node?
    ensures Count(t, a) == Count(DropDeep(t), a) + multiset(DeepLeaf(t).ring)[a]
  {
    if t.right.Node? {
      DropDeepCount(t.right, a);
    } else if t.left.Node? {
      DropDeepCount(t.left, a);
    }
  }

  lemma PromoteCount(l: Tree, r: Tree, a: int)
    ensures Count(Promote(l, r), a) == Count(l, a) + Count(r, a)
  {
    if r.Node? {
      DropDeepCount(r, a);
    } else if l.Node? {
      DropDeepCount(l, a);
    }
  }

  lemma {:induction false} DeleteCount(t: Tree, x: int, a: int)
    requires Has(t, x)
    ensures Count(Delete(t, x), a) == Count(t, a) - if a == x then 1 else 0
  {
    if x in t.ring {
      if |t.ring| > 1 {
        RingDeleteCount(t.ring, x, a);
      } else {
        assert t.ring == [x];
        PromoteCount(t.left, t.right, a);
      }
    } else if Has(t.left, x) {
      DeleteCount(t.left, x, a);
    } else {
      DeleteCount(t.right, x, a);
    }
  }

  lemma {:induction false} DropDeepSizes(t: Tree)
    requires t.Node?
    ensures Sizes(DropDeep(t)) <= Sizes(t) && DeepLeaf(t).size in Sizes(t)
  {
    if t.right.Node? {
      DropDeepSizes(t.right);
    } else if t.left.Node? {
      DropDeepSizes(t.left);
    }
  }

  lemma {:induction false} DropDeepShape(t: Tree, lo: nat, w: nat)
    requires t.Node? && Shape(t, lo, w)
    ensures Shape(DropDeep(t), lo, w) && DeepLeaf(t).size !in Sizes(DropDeep(t))
    ensures lo <= DeepLeaf(t).size < lo + Pow2(w) && DeepLeaf(t).ring != []
  {
    if t.right.Node? {
      DropDeepShape(t.right, lo + Pow2(w - 1), w - 1);
      DropDeepSizes(t.right);
      SizesApart(t.left, t.right, lo, w);
    } else if t.left.Node? {
      DropDeepShape(t.left, lo, w - 1);
      DropDeepSizes(t.left);
    }
  }

  lemma UnringShape(t: Tree, x: int, lo: nat, w: nat)
    requires t.Node? && Shape(t, lo, w) && x in t.ring
    ensures Shape(Unring(t, x), lo, w) && Sizes(Unring(t, x)) <= Sizes(t)
  {
    if |t.ring| > 1 {
      RingDeleteCount(t.ring, x, x);
    } else if t.right.Node? {
      DropDeepShape(t.right, lo + Pow2(w - 1), w - 1);
      DropDeepSizes(t.right);
      SizesApart(t.left, t.right, lo, w);
    } else if t.left.Node? {
      DropDeepShape(t.left, lo, w - 1);
      DropDeepSizes(t.left);
    }
  }

  lemma {:induction false} DeleteShape(t: Tree, x: int, lo: nat, w: nat)
    requires Shape(t, lo, w) && Has(t, x)
    ensures Shape(Delete(t, x), lo, w) && Sizes(Delete(t, x)) <= Sizes(t)
  {
    if x in t.ring {
      UnringShape(t, x, lo, w);
    } else if Has(t.left, x) {
      DeleteShape(t.left, x, lo, w - 1);
    } else {
      DeleteShape(t.right, x, lo + Pow2(w - 1), w - 1);
    }
  }

  lemma {:induction false} DropDeepSize(t: Tree, a: int)
    requires t.Node? && Distinct(t) && Has(t, a)
    ensures a in DeepLeaf(t).ring ==> SizeOf(t, a) == DeepLeaf(t).size
    ensures a !in DeepLeaf(t).ring ==> Has(DropDeep(t), a) && SizeOf(DropDeep(t), a) == SizeOf(t, a)
  {
    DropDeepCount(t, a);
    DistinctParts(t);
    if t.right.Node? {
      DropDeepCount(t.right, a);
      if Has(t.right, a) {
        DropDeepSize(t.right, a);
      }
    } else if t.left.Node? {
      DropDeepCount(t.left, a);
      if Has(t.left, a) {
        DropDeepSize(t.left, a);
      }
    }
  }

  lemma PromoteSize(t: Tree, a: int)
    requires t.Node? && Distinct(t) && (Has(t.left, a) || Has(t.right, a))
    ensures SizeOf(Promote(t.left, t.right), a) == SizeOf(t, a)
  {
    DistinctParts(t);
    var l, r := t.left, t.right;
    if r.Node? {
      DropDeepCount(r, a);
      if Has(r, a) {
        DropDeepSize(r, a);
      }
    } else {
      DropDeepCount(l, a);
      DropDeepSize(l, a);
    }
  }

  lemma {:induction false} DeleteSize(t: Tree, x: int, a: int)
    requires Distinct(t) && Has(t, x) && Has(t, a) && a != x
    ensures SizeOf(Delete(t, x), a) == SizeOf(t, a)
  {
    DistinctParts(t);
    if x in t.ring {
      if |t.ring| > 1 {
        RingDeleteCount(t.ring, x, a);
      } else {
        assert t.ring == [x];
        PromoteSize(t, a);
      }
    } else if Has(t.left, x) {
      DeleteCount(t.left, x, a);
      if Has(t.left, a) {
        DeleteSize(t.left, x, a);
      }
    } else {
      DeleteCount(t.right, x, a);
      if Has(t.right, a) {
        DeleteSize(t.right, x, a);
      }
    }
  }

  // ----- best fit -----

  /** The child a leftmost walk goes to. */
  ghost function LeftmostChild(t: Tree): Tree
    requires t.Node?
  {
    if t.left.Node? then t.left else t.right
  }

  /** The least size met on the leftmost walk. */
  ghost function LeastOnWalk(t: Tree): nat
    requires t.Node?
  {
    var c := LeftmostChild(t);
    if c.Node? && LeastOnWalk(c) < t.size then LeastOnWalk(c) else t.size
  }

  /** The leftmost walk meets the least size of the whole tree. */
  lemma {:induction false} LeastOnWalkIsLeast(t: Tree, lo: nat, w: nat)
    requires t.Node? && Shape(t, lo, w)
    ensures forall a | Has(t, a) :: LeastOnWalk(t) <= SizeOf(t, a)
    ensures lo <= LeastOnWalk(t) < lo + Pow2(w)
  {
    if t.left.Node? {
      LeastOnWalkIsLeast(t.left, lo, w - 1);
      SizeBounds(t.right, lo + Pow2(w - 1), w - 1);
    } else if t.right.Node? {
      LeastOnWalkIsLeast(t.right, lo + Pow2(w - 1), w - 1);
    }
  }
}
