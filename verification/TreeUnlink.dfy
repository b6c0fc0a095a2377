/** What the link stores of `unlink_large_chunk` do to the trie that memory spells. */
module TreeUnlink {
  import opened Memory
  import opened Rings
  import opened Trie
  import opened TreeLinks

  /** Tree chunks are large, so their link fields do not overlap. */
  ghost predicate Spaced(t: Tree) {
    forall a, b | Has(t, a) && Has(t, b) && a != b :: a + 64 <= b || b + 64 <= a
  }

  lemma SpacedParts(t: Tree)
    requires t.Node? && Spaced(t)
    ensures Spaced(t.left) && Spaced(t.right)
  {
    RingMembers(t);
    forall a, b | Has(t.left, a) && Has(t.left, b) && a != b
      ensures a + 64 <= b || b + 64 <= a
    {
      assert Has(t, a) && Has(t, b);
    }
    forall a, b | Has(t.right, a) && Has(t.right, b) && a != b
      ensures a + 64 <= b || b + 64 <= a
    {
      assert Has(t, a) && Has(t, b);
    }
  }

  /** The subtree whose top node holds x. */
  ghost function Holder(t: Tree, x: int): (h: Tree)
    requires Has(t, x)
    ensures h.Node? && x in h.ring
  {
    if x in t.ring then t else if Has(t.left, x) then Holder(t.left, x) else Holder(t.right, x)
  }

  lemma {:induction false} HolderRep(m: Mem, t: Tree, par: int, idx: int, x: int)
    requires Has(t, x) && Rep(m, t, par, idx) && Distinct(t)
    ensures var h := Holder(t, x);
      Distinct(h) && NodeAt(m, h.ring, Addr(h.left), Addr(h.right), Parent(m, h.ring[0]), idx)
    ensures Rep(m, Holder(t, x), Parent(m, Addr(Holder(t, x))), idx)
    ensures forall a | Has(Holder(t, x), a) :: Has(t, a)
    ensures x in t.ring ==> Parent(m, Addr(Holder(t, x))) == par
    ensures x !in t.ring ==> Has(t, Parent(m, Addr(Holder(t, x)))) && !Has(Holder(t, x), Parent(m, Addr(Holder(t, x))))
  {
    DistinctParts(t);
    RingMembers(t);
    if x !in t.ring {
      if Has(t.left, x) {
        HolderRep(m, t.left, t.ring[0], idx, x);
      } else {
        HolderRep(m, t.right, t.ring[0], idx, x);
      }
    }
  }

  // ----- a chunk that only hangs off a ring -----

  /** The two stores that link a chunk out of its ring. */
  ghost predicate UnringStores(m: Mem, n: Mem, t: Tree, x: int) {
    var f, b := Fd(m, x), Bk(m, x);
    && Bk(n, f) == b && Fd(n, b) == f
    && (forall a | Has(t, a) && a != x :: SameTreeLinks(m, n, a))
    && (forall a | Has(t, a) && a != b && a != x :: Fd(n, a) == Fd(m, a))
    && (forall a | Has(t, a) && a != f && a != x :: Bk(n, a) == Bk(m, a))
  }

  lemma RingUnlinked(m: Mem, n: Mem, t: Tree, x: int)
    requires t.Node? && x in t.ring && |t.ring| > 1 && Distinct(t) && RingAt(m, t.ring) && UnringStores(m, n, t, x)
    ensures RingAt(n, RingDelete(t.ring, x))
    ensures Fd(m, x) in t.ring && Bk(m, x) in t.ring
    ensures x == t.ring[0] ==> Bk(m, x) == RingDelete(t.ring, x)[0] && Bk(m, x) != x && Fd(m, x) != x
  {
    hide Distinct, RingAt, Unique;
    DistinctParts(t);
    RingMembers(t);
    assert Unique(t.ring) by {
      NoRepeatsUnique(t.ring);
    }
    var k :| 0 <= k < |t.ring| && t.ring[k] == x;
    RingNeighbours(m, t.ring, k);
    assert forall a | a in t.ring :: Has(t, a);
    RingDeleteLinks(m, n, t.ring, k);
    if k > 0 {
      WithoutAt(t.ring, k);
    }
  }

  lemma NoRepeatsUnique(s: seq<int>)
    requires forall i, j | 0 <= i < j < |s| :: s[i] != s[j]
    ensures Unique(s)
  {
  }

  lemma {:induction false} WithoutAt(s: seq<int>, k: nat)
    requires Unique(s) && k < |s|
    ensures Without(s, s[k]) == s[..k] + s[k + 1..]
  {
    if k > 0 {
      WithoutAt(s[1..], k - 1);
      assert s[1..][k - 1] == s[k];
      assert [s[0]] + (s[1..][..k - 1] + s[1..][k..]) == s[..k] + s[k + 1..];
    }
  }

  lemma MateHere(m: Mem, n: Mem, t: Tree, par: int, idx: int, x: int)
    requires t.Node? && Rep(m, t, par, idx) && Distinct(t) && x in t.ring && x != t.ring[0]
    requires UnringStores(m, n, t, x)
    ensures Rep(n, Delete(t, x), par, idx)
  {
    hide RingAt, RingDelete;
    MateNode(m, n, t, par, idx, x);
    MateAside(m, n, t, par, idx, x);
  }

  /** The node's fields once its ring mate x is gone. */
  lemma MateNode(m: Mem, n: Mem, t: Tree, par: int, idx: int, x: int)
    requires t.Node? && NodeAt(m, t.ring, Addr(t.left), Addr(t.right), par, idx) && Distinct(t)
    requires x in t.ring && x != t.ring[0] && UnringStores(m, n, t, x)
    ensures |t.ring| > 1 && RingDelete(t.ring, x)[0] == t.ring[0]
    ensures NodeAt(n, RingDelete(t.ring, x), Addr(t.left), Addr(t.right), par, idx)
  {
    RingUnlinked(m, n, t, x);
    RingMembers(t);
    var r := RingDelete(t.ring, x);
    forall k | 0 <= k < |r|
      ensures r[k] in t.ring && r[k] != x && (k > 0 ==> r[k] != t.ring[0])
    {
      MateStays(t, x, k);
    }
    MateStays(t, x, 0);
    hide RingAt, RingDelete, Distinct, Has;
    forall k | 0 <= k < |r|
      ensures TreeIdx(n, r[k]) == idx && (k > 0 ==> OffTree(n, r[k]))
    {
      var j :| 0 <= j < |t.ring| && t.ring[j] == r[k];
      assert Has(t, t.ring[j]);
    }
  }

  lemma MateStays(t: Tree, x: int, k: nat)
    requires t.Node? && Distinct(t) && x in t.ring && x != t.ring[0] && k < |RingDelete(t.ring, x)|
    ensures var r := RingDelete(t.ring, x); r[k] in t.ring && r[k] != x && (r[k] == t.ring[0] <==> k == 0)
  {
    DistinctParts(t);
    NoRepeatsUnique(t.ring);
    hide Distinct, Has, Unique;
    var i :| 0 <= i < |t.ring| && t.ring[i] == x;
    WithoutAt(t.ring, i);
    WithoutElem(t.ring, i, k);
  }

  lemma WithoutElem(s: seq<int>, i: nat, k: nat)
    requires Unique(s) && 0 < i < |s| && k < |s| - 1
    ensures var r := s[..i] + s[i + 1..]; r[k] in s && r[k] != s[i] && (r[k] == s[0] <==> k == 0)
  {
    var j := if k < i then k else k + 1;
    assert (s[..i] + s[i + 1..])[k] == s[j] && j != i;
  }

  lemma MateAside(m: Mem, n: Mem, t: Tree, par: int, idx: int, x: int)
    requires t.Node? && Rep(m, t, par, idx) && Distinct(t) && x in t.ring && |t.ring| > 1 && UnringStores(m, n, t, x)
    ensures Rep(n, t.left, t.ring[0], idx) && Rep(n, t.right, t.ring[0], idx)
  {
    RingUnlinked(m, n, t, x);
    RingMembers(t);
    DistinctParts(t);
    hide Rep, RingAt, RingDelete, Distinct;
    forall a | Has(t.left, a) || Has(t.right, a)
      ensures SameLinks(m, n, a)
    {
      assert Has(t, a) && a !in t.ring;
    }
    RepFrame(m, n, t.left, t.ring[0], idx);
    RepFrame(m, n, t.right, t.ring[0], idx);
  }

  /** Linking a ring chunk out spells the tree without it. */
  lemma {:induction false} MateRep(m: Mem, n: Mem, t: Tree, par: int, idx: int, x: int)
    requires Has(t, x) && Rep(m, t, par, idx) && Distinct(t) && x != Holder(t, x).ring[0]
    requires UnringStores(m, n, t, x)
    ensures Rep(n, Delete(t, x), par, idx) && (x !in t.ring ==> Addr(Delete(t, x)) == Addr(t))
    ensures Addr(Delete(t, x)) == Addr(t)
  {
    if x in t.ring {
      MateHere(m, n, t, par, idx, x);
    } else if Has(t.left, x) {
      MateBelow(m, n, t, t.left, t.right, par, idx, x);
      MateRep(m, n, t.left, t.ring[0], idx, x);
    } else {
      MateBelow(m, n, t, t.right, t.left, par, idx, x);
      MateRep(m, n, t.right, t.ring[0], idx, x);
    }
  }

  lemma MateBelow(m: Mem, n: Mem, t: Tree, c: Tree, other: Tree, par: int, idx: int, x: int)
    requires t.Node? && Rep(m, t, par, idx) && Distinct(t) && x !in t.ring && Has(c, x)
    requires (c == t.left && other == t.right) || (c == t.right && other == t.left)
    requires UnringStores(m, n, t, x)
    ensures Distinct(c) && UnringStores(m, n, c, x)
    ensures NodeAt(n, t.ring, Addr(t.left), Addr(t.right), par, idx) && Rep(n, other, t.ring[0], idx)
  {
    DistinctParts(t);
    RingMembers(t);
    MateLinks(m, c, t.ring[0], idx, x);
    forall a | a in t.ring || Has(other, a)
      ensures SameLinks(m, n, a)
    {
      assert Has(t, a) && !Has(c, a);
    }
    NodeFrame(m, n, t.ring, Addr(t.left), Addr(t.right), par, idx);
    RepFrame(m, n, other, t.ring[0], idx);
  }

  /** The neighbours of a tree chunk are in the same tree. */
  lemma MateLinks(m: Mem, t: Tree, par: int, idx: int, x: int)
    requires Has(t, x) && Rep(m, t, par, idx) && Distinct(t)
    ensures Has(t, Fd(m, x)) && Has(t, Bk(m, x))
  {
    HolderRep(m, t, par, idx, x);
    var h := Holder(t, x);
    var k :| 0 <= k < |h.ring| && h.ring[k] == x;
    RingNeighbours(m, h.ring, k);
    RingMembers(h);
  }

  // ----- a chunk linked into the tree -----

  /** The stores that let ring r' with children l and r take over the place of a node below parent xp. */
  ghost predicate AdoptStores(m: Mem, n: Mem, ring: seq<int>, l: Tree, r: Tree, xp: int)
    requires ring != []
  {
    && Parent(n, ring[0]) == xp && Child0(n, ring[0]) == Addr(l) && Child1(n, ring[0]) == Addr(r)
    && (forall a | a in ring :: SameRing(m, n, a) && TreeIdx(n, a) == TreeIdx(m, a))
    && (forall a | a in ring && a != ring[0] :: SameTreeLinks(m, n, a))
    && ParentMoved(m, n, l, ring[0]) && ParentMoved(m, n, r, ring[0])
  }

  /** Only the parent field of the tree's own top node changed. */
  ghost predicate ParentMoved(m: Mem, n: Mem, t: Tree, q: int) {
    && (forall a | Has(t, a) && a != Addr(t) :: SameLinks(m, n, a))
    && (t.Node? ==>
      && SameRing(m, n, Addr(t)) && TreeIdx(n, Addr(t)) == TreeIdx(m, Addr(t)) && Parent(n, Addr(t)) == q
      && Child0(n, Addr(t)) == Child0(m, Addr(t)) && Child1(n, Addr(t)) == Child1(m, Addr(t)))
  }

  lemma Reparent(m: Mem, n: Mem, t: Tree, par: int, idx: int, q: int)
    requires Rep(m, t, par, idx) && Distinct(t) && ParentMoved(m, n, t, q)
    ensures Rep(n, t, q, idx)
  {
    if t.Node? {
      DistinctParts(t);
      RingMembers(t);
      NodeFrame(m, n, t.ring, Addr(t.left), Addr(t.right), par, idx);
      RepFrame(m, n, t.left, t.ring[0], idx);
      RepFrame(m, n, t.right, t.ring[0], idx);
    }
  }

  lemma AdoptRep(m: Mem, n: Mem, s: nat, ring: seq<int>, l: Tree, r: Tree, x: int, idx: int, xp: int)
    requires Rep(m, l, x, idx) && Rep(m, r, x, idx) && Distinct(l) && Distinct(r) && Unique(ring)
    requires ring != [] && NodeAt(m, ring, 0, 0, Parent(m, ring[0]), idx)
    requires AdoptStores(m, n, ring, l, r, xp)
    ensures Rep(n, Node(s, ring, l, r), xp, idx)
  {
    NodeFrame(m, n, ring, 0, 0, Parent(m, ring[0]), idx);
    Reparent(m, n, l, x, idx, ring[0]);
    Reparent(m, n, r, x, idx, ring[0]);
  }

  /** The slot that holds the deep leaf, for a tree whose own top is held in slot0. */
  ghost function DeepSlot(t: Tree, slot0: int): int
    requires t.Node?
  {
    if t.right.Node? then DeepSlot(t.right, Addr(t) + CHILD1)
    else if t.left.Node? then DeepSlot(t.left, Addr(t) + CHILD0)
    else slot0
  }

  /** Slot a is no link field of a chunk of t. */
  ghost predicate Outside(t: Tree, a: int) {
    forall b | Has(t, b) :: a < b + 16 || b + 64 <= a
  }

  lemma {:induction false} DeepSlotPlace(t: Tree, slot0: int)
    requires t.Node? && Spaced(t) && Distinct(t) && NonEmptyRings(t)
    ensures DeepSlot(t, slot0) == slot0 || exists q :: Has(t, q) && q + CHILD0 <= DeepSlot(t, slot0) <= q + CHILD1
    ensures t.right.Node? || t.left.Node? ==> exists q :: Has(t, q) && q + CHILD0 <= DeepSlot(t, slot0) <= q + CHILD1
  {
    RingMembers(t);
    SpacedParts(t);
    DistinctParts(t);
    if t.right.Node? {
      DeepSlotPlace(t.right, Addr(t) + CHILD1);
    } else if t.left.Node? {
      DeepSlotPlace(t.left, Addr(t) + CHILD0);
    }
  }

  ghost predicate NonEmptyRings(t: Tree) {
    t.Node? ==> t.ring != [] && NonEmptyRings(t.left) && NonEmptyRings(t.right)
  }

  lemma {:induction false} RepNonEmpty(m: Mem, t: Tree, par: int, idx: int)
    requires Rep(m, t, par, idx)
    ensures NonEmptyRings(t)
  {
    if t.Node? {
      RepNonEmpty(m, t.left, t.ring[0], idx);
      RepNonEmpty(m, t.right, t.ring[0], idx);
    }
  }

  /** Zeroing the slot of the deep leaf spells the tree without it, and leaves the leaf's own node intact. */
  lemma {:induction false} PopDeep(m: Mem, n: Mem, t: Tree, par: int, idx: int, slot0: int)
    requires t.Node? && Rep(m, t, par, idx) && Distinct(t) && Spaced(t) && Outside(t, slot0)
    requires n == m[DeepSlot(t, slot0) := 0]
    ensures Rep(n, DropDeep(t), par, idx)
    ensures var leaf := DeepLeaf(t); leaf.ring != [] && NodeAt(n, leaf.ring, 0, 0, Parent(n, leaf.ring[0]), idx)
  {
    DistinctParts(t);
    RingMembers(t);
    SpacedParts(t);
    RepNonEmpty(m, t, par, idx);
    if t.right.Node? {
      PopBelow(m, n, t, t.right, t.left, Addr(t) + CHILD1, idx, par, slot0);
      PopDeep(m, n, t.right, t.ring[0], idx, Addr(t) + CHILD1);
    } else if t.left.Node? {
      PopBelow(m, n, t, t.left, t.right, Addr(t) + CHILD0, idx, par, slot0);
      PopDeep(m, n, t.left, t.ring[0], idx, Addr(t) + CHILD0);
    } else {
      RepFrame(m, n, t, par, idx);
    }
  }

  /** The step of a deep walk from t to its child c, held in the given slot. */
  ghost predicate DeepStep(t: Tree, c: Tree, other: Tree, slot: int) {
    && t.Node? && c.Node?
    && if t.right.Node? then c == t.right && other == t.left && slot == Addr(t) + CHILD1
       else c == t.left && other == t.right && slot == Addr(t) + CHILD0
  }

  lemma PopBelow(m: Mem, n: Mem, t: Tree, c: Tree, other: Tree, slot: int, idx: int, par: int, slot0: int)
    requires DeepStep(t, c, other, slot) && Rep(m, t, par, idx) && Distinct(t) && Spaced(t) && NonEmptyRings(t)
    requires n == m[DeepSlot(t, slot0) := 0]
    ensures Distinct(c) && Spaced(c) && Outside(c, slot) && DeepSlot(t, slot0) == DeepSlot(c, slot)
    ensures Rep(n, other, t.ring[0], idx)
    ensures NodeAt(n, t.ring, if t.right.Nil? then Addr(DropDeep(c)) else Addr(t.left),
                              if t.right.Node? then Addr(DropDeep(c)) else Addr(t.right), par, idx)
  {
    DistinctParts(t);
    RingMembers(t);
    SpacedParts(t);
    assert Has(t, t.ring[0]);
    PopFrame(m, n, t, c, other, slot);
    assert Outside(c, slot) by {
      forall b | Has(c, b)
        ensures slot < b + 16 || b + 64 <= slot
      {
        assert Has(t, b) && b != t.ring[0];
      }
    }
    NodeFrame(m, n, t.ring, Addr(t.left), Addr(t.right), par, idx);
    RepFrame(m, n, other, t.ring[0], idx);
  }

  lemma PopFrame(m: Mem, n: Mem, t: Tree, c: Tree, other: Tree, slot: int)
    requires DeepStep(t, c, other, slot) && Distinct(t) && Spaced(t) && NonEmptyRings(t)
    requires n == m[DeepSlot(c, slot) := 0]
    ensures var a := t.ring[0];
      && SameRing(m, n, a) && TreeIdx(m, a) == TreeIdx(n, a) && Parent(m, a) == Parent(n, a)
      && (slot == a + CHILD1 ==>
        Child0(n, a) == Child0(m, a) && (Child1(m, a) == Addr(c) ==> Child1(n, a) == Addr(DropDeep(c))))
      && (slot == a + CHILD0 ==>
        Child1(n, a) == Child1(m, a) && (Child0(m, a) == Addr(c) ==> Child0(n, a) == Addr(DropDeep(c))))
    ensures forall a | a in t.ring && a != t.ring[0] :: SameLinks(m, n, a)
    ensures forall a | Has(other, a) :: SameLinks(m, n, a)
  {
    hide DeepSlot, NonEmptyRings, Distinct, DropDeep, Spaced, SameLinks, SameRing;
    RingMembers(t);
    PopSlot(t, c, other, slot);
    var d := DeepSlot(c, slot);
    var q := t.ring[0];
    if d != slot {
      q := PopOwner(t, c, other, slot);
    } else {
      SlotStore(m, q, d);
    }
    forall a | Has(t, a) && a != q
      ensures SameLinks(m, n, a)
    {
      FarSlot(m, t, a, q, d);
    }
    SameLinksParts(m, n, t.ring[0]);
    DistinctParts(t);
  }

  /** The chunk below c whose child field holds the deep leaf. */
  lemma PopOwner(t: Tree, c: Tree, other: Tree, slot: int) returns (q: int)
    requires DeepStep(t, c, other, slot) && Distinct(t) && Spaced(t) && NonEmptyRings(t) && DeepSlot(c, slot) != slot
    ensures Has(c, q) && Has(t, q) && q + CHILD0 <= DeepSlot(c, slot) <= q + CHILD1
  {
    DistinctParts(t);
    RingMembers(t);
    SpacedParts(t);
    DeepSlotPlace(c, slot);
    hide DeepSlot, NonEmptyRings, Distinct, Spaced;
    q :| Has(c, q) && q + CHILD0 <= DeepSlot(c, slot) <= q + CHILD1;
  }

  lemma SameLinksParts(m: Mem, n: Mem, a: int)
    ensures SameLinks(m, n, a) ==>
      SameRing(m, n, a) && TreeIdx(m, a) == TreeIdx(n, a) && Parent(m, a) == Parent(n, a) &&
      Child0(m, a) == Child0(n, a) && Child1(m, a) == Child1(n, a)
  {
  }

  /** A store to a child field of q leaves the links of every other chunk alone. */
  lemma FarSlot(m: Mem, t: Tree, a: int, q: int, d: int)
    requires Spaced(t) && Has(t, a) && Has(t, q) && a != q && q + CHILD0 <= d <= q + CHILD1
    ensures SameLinks(m, m[d := 0], a)
  {
  }

  lemma SlotStore(m: Mem, a: int, d: int)
    requires d == a + CHILD0 || d == a + CHILD1
    ensures var n := m[d := 0];
      && SameRing(m, n, a) && TreeIdx(m, a) == TreeIdx(n, a) && Parent(m, a) == Parent(n, a)
      && Child0(n, a) == (if d == a + CHILD0 then 0 else Child0(m, a))
      && Child1(n, a) == (if d == a + CHILD1 then 0 else Child1(m, a))
  {
  }

  /** Where the deep leaf of c hangs: in the slot that holds c if c is a leaf, and then c is dropped whole. */
  lemma PopSlot(t: Tree, c: Tree, other: Tree, slot: int)
    requires DeepStep(t, c, other, slot) && Distinct(t) && Spaced(t) && NonEmptyRings(t)
    ensures Has(t, t.ring[0]) && t.ring[0] in t.ring && !Has(c, t.ring[0]) && !Has(other, t.ring[0])
    ensures if c.left.Nil? && c.right.Nil? then DeepSlot(c, slot) == slot && Addr(DropDeep(c)) == 0
            else DeepSlot(c, slot) != slot && Addr(DropDeep(c)) == Addr(c)
  {
    DistinctParts(t);
    RingMembers(t);
    SpacedParts(t);
    DeepSlotPlace(c, slot);
    if c.left.Node? || c.right.Node? {
      var q :| Has(c, q) && q + CHILD0 <= DeepSlot(c, slot) <= q + CHILD1;
      assert Has(t, q) && q != t.ring[0];
    }
  }

  /** The store that puts a new subtree in the child slot of p that held x. */
  ghost predicate ReplaceStores(m: Mem, n: Mem, t: Tree, h: Tree, x: int, p: int, sub: Tree) {
    && (forall a | Has(t, a) && !Has(h, a) && a != p :: SameLinks(m, n, a))
    && SameRing(m, n, p) && Parent(n, p) == Parent(m, p) && TreeIdx(n, p) == TreeIdx(m, p)
    && Child0(n, p) == (if Child0(m, p) == x then Addr(sub) else Child0(m, p))
    && Child1(n, p) == (if Child0(m, p) == x then Child1(m, p) else Addr(sub))
  }

  /** Replacing the subtree of x, strictly inside t, spells t with x deleted. */
  lemma {:induction false} ReplaceRep(m: Mem, n: Mem, t: Tree, par: int, idx: int, x: int)
    requires Has(t, x) && x !in t.ring && Rep(m, t, par, idx) && Distinct(t) && x == Addr(Holder(t, x)) && x != 0
    requires Rep(n, Unring(Holder(t, x), x), Parent(m, x), idx)
    requires ReplaceStores(m, n, t, Holder(t, x), x, Parent(m, x), Unring(Holder(t, x), x))
    ensures Rep(n, Delete(t, x), par, idx) && Addr(Delete(t, x)) == Addr(t)
  {
    var left := Has(t.left, x);
    var c, other := if left then t.left else t.right, if left then t.right else t.left;
    ReplaceBelow(m, n, t, c, other, par, idx, x);
    if x !in c.ring {
      ReplaceRep(m, n, c, t.ring[0], idx, x);
    }
  }

  lemma ReplaceBelow(m: Mem, n: Mem, t: Tree, c: Tree, other: Tree, par: int, idx: int, x: int)
    requires Has(t, x) && x !in t.ring && Rep(m, t, par, idx) && Distinct(t) && x == Addr(Holder(t, x)) && x != 0
    requires ReplaceStores(m, n, t, Holder(t, x), x, Parent(m, x), Unring(Holder(t, x), x))
    requires if Has(t.left, x) then c == t.left && other == t.right else c == t.right && other == t.left
    ensures Has(c, x) && Distinct(c) && Holder(c, x) == Holder(t, x) && Rep(n, other, t.ring[0], idx)
    ensures x !in c.ring ==> ReplaceStores(m, n, c, Holder(c, x), x, Parent(m, x), Unring(Holder(c, x), x))
    ensures x !in c.ring ==> NodeAt(n, t.ring, Addr(t.left), Addr(t.right), par, idx)
    ensures x in c.ring ==> Parent(m, x) == t.ring[0]
    ensures x in c.ring ==>
      NodeAt(n, t.ring, if Has(t.left, x) then Addr(Unring(c, x)) else Addr(t.left),
                        if Has(t.left, x) then Addr(t.right) else Addr(Unring(c, x)), par, idx)
  {
    DistinctParts(t);
    RingMembers(t);
    HolderRep(m, c, t.ring[0], idx, x);
    var p := Parent(m, x);
    assert Has(t, t.ring[0]) && !Has(c, t.ring[0]);
    forall a | (a in t.ring && a != t.ring[0]) || Has(other, a)
      ensures SameLinks(m, n, a)
    {
      assert Has(t, a) && !Has(c, a);
    }
    assert Child0(m, t.ring[0]) == x <==> x in c.ring && Has(t.left, x) by {
      ChildIs(t, x);
    }
    NodeFrame(m, n, t.ring, Addr(t.left), Addr(t.right), par, idx);
    RepFrame(m, n, other, t.ring[0], idx);
  }

  lemma ChildIs(t: Tree, x: int)
    requires t.Node? && Distinct(t) && NonEmptyOrNil(t.left) && x != 0 && Has(t, x) && x !in t.ring
    requires x == Addr(Holder(t, x))
    ensures Addr(t.left) == x <==> Has(t.left, x) && x in t.left.ring
  {
    DistinctParts(t);
    if t.left.Node? {
      RingMembers(t.left);
    }
  }

  ghost predicate NonEmptyOrNil(t: Tree) {
    t.Node? ==> t.ring != []
  }
}
