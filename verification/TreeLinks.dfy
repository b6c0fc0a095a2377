/** How a trie lies in memory, and what the link stores of insertion and removal do to it. */
module TreeLinks {
  import opened TreeIndex
  import opened Memory
  import opened Rings
  import opened Trie

  /** A chunk that only hangs off a ring has no tree links. */
  ghost predicate OffTree(m: Mem, a: int) {
    Child0(m, a) == 0 && Child1(m, a) == 0 && Parent(m, a) == 0
  }

  /** The fields of one tree node and of the chunks on its ring. */
  ghost predicate NodeAt(m: Mem, ring: seq<int>, c0: int, c1: int, par: int, idx: int) {
    && RingAt(m, ring)
    && Child0(m, ring[0]) == c0 && Child1(m, ring[0]) == c1 && Parent(m, ring[0]) == par
    && (forall k | 0 < k < |ring| :: OffTree(m, ring[k]))
    && (forall k | 0 <= k < |ring| :: TreeIdx(m, ring[k]) == idx)
  }

  /** The links of memory m spell tree t below parent par; every chunk carries the bin index. */
  ghost predicate Rep(m: Mem, t: Tree, par: int, idx: int) {
    match t
    case Nil => true
    case Node(_, ring, l, r) =>
      NodeAt(m, ring, Addr(l), Addr(r), par, idx) && Rep(m, l, ring[0], idx) && Rep(m, r, ring[0], idx)
  }

  lemma RingMembers(t: Tree)
    requires t.Node?
    ensures forall a | a in t.ring :: Has(t, a)
    ensures forall k | 0 <= k < |t.ring| :: t.ring[k] in t.ring && Has(t, t.ring[k])
    ensures forall a | Has(t.left, a) || Has(t.right, a) :: Has(t, a)
  {
    forall a | a in t.ring
      ensures Has(t, a)
    {
      assert a in multiset(t.ring);
    }
  }

  lemma NodeFrame(m: Mem, n: Mem, ring: seq<int>, c0: int, c1: int, par: int, idx: int)
    requires NodeAt(m, ring, c0, c1, par, idx) && Unique(ring) && forall a | a in ring :: SameRing(m, n, a)
    requires forall a | a in ring && a != ring[0] :: SameTreeLinks(m, n, a)
    requires TreeIdx(n, ring[0]) == idx
    ensures NodeAt(n, ring, Child0(n, ring[0]), Child1(n, ring[0]), Parent(n, ring[0]), idx)
  {
    RingFrame(m, n, ring);
    forall k | 0 < k < |ring|
      ensures OffTree(n, ring[k]) && TreeIdx(n, ring[k]) == idx
    {
      assert ring[k] in ring && ring[0] != ring[k];
      assert OffTree(m, ring[k]);
    }
  }

  ghost predicate SameTreeLinks(m: Mem, n: Mem, a: int) {
    && Child0(m, a) == Child0(n, a) && Child1(m, a) == Child1(n, a)
    && Parent(m, a) == Parent(n, a) && TreeIdx(m, a) == TreeIdx(n, a)
  }

  lemma {:induction false} RepFrame(m: Mem, n: Mem, t: Tree, par: int, idx: int)
    requires Rep(m, t, par, idx) && Distinct(t) && forall a | Has(t, a) :: SameLinks(m, n, a)
    ensures Rep(n, t, par, idx)
  {
    if t.Node? {
      DistinctParts(t);
      RingMembers(t);
      NodeFrame(m, n, t.ring, Addr(t.left), Addr(t.right), par, idx);
      RepFrame(m, n, t.left, t.ring[0], idx);
      RepFrame(m, n, t.right, t.ring[0], idx);
    }
  }

  // ----- insertion -----

  /** The two halves of an interval. */
  lemma ChildInterval(lo: nat, w: nat)
    requires w > 0
    ensures lo + Pow2(w) == lo + Pow2(w - 1) + Pow2(w - 1)
  {
  }

  /** Where an insertion descent ends, with the interval reached. */
  ghost function StopAt(t: Tree, s: nat, lo: nat, w: nat): (r: (Tree, nat, nat))
    requires t.Node?
    ensures r.0.Node?
  {
    if t.size == s || w == 0 then (t, lo, w)
    else if s < lo + Pow2(w - 1) then if t.left.Nil? then (t, lo, w) else StopAt(t.left, s, lo, w - 1)
    else if t.right.Nil? then (t, lo, w) else StopAt(t.right, s, lo + Pow2(w - 1), w - 1)
  }

  lemma {:induction false} StopInside(t: Tree, s: nat, lo: nat, w: nat)
    requires t.Node? && Shape(t, lo, w) && lo <= s < lo + Pow2(w)
    ensures var (v, vlo, vw) := StopAt(t, s, lo, w);
      v.ring != [] && Has(t, v.ring[0]) && Shape(v, vlo, vw) && vlo <= s < vlo + Pow2(vw)
  {
    RingMembers(t);
    if t.size != s && w > 0 {
      if s < lo + Pow2(w - 1) {
        if t.left.Node? {
          StopInside(t.left, s, lo, w - 1);
        }
      } else if t.right.Node? {
        StopInside(t.right, s, lo + Pow2(w - 1), w - 1);
      }
    }
  }

  /** The stores that link x as a new child of tree chunk p. */
  ghost predicate AttachStores(m: Mem, n: Mem, t: Tree, p: int, upper: bool, x: int, idx: int) {
    && Fd(n, x) == x && Bk(n, x) == x && Child0(n, x) == 0 && Child1(n, x) == 0
    && Parent(n, x) == p && TreeIdx(n, x) == idx
    && (forall a | Has(t, a) && a != p :: SameLinks(m, n, a))
    && SameRing(m, n, p) && Parent(n, p) == Parent(m, p) && TreeIdx(n, p) == TreeIdx(m, p)
    && Child0(n, p) == (if upper then Child0(m, p) else x)
    && Child1(n, p) == (if upper then x else Child1(m, p))
  }

  /** The stores that link x into the ring of tree chunk p. */
  ghost predicate RingStores(m: Mem, n: Mem, t: Tree, p: int, x: int, idx: int) {
    && Fd(n, p) == x && Bk(n, Fd(m, p)) == x && Fd(n, x) == Fd(m, p) && Bk(n, x) == p
    && OffTree(n, x) && TreeIdx(n, x) == idx
    && (forall a | Has(t, a) :: SameTreeLinks(m, n, a))
    && (forall a | Has(t, a) && a != p :: Fd(n, a) == Fd(m, a))
    && (forall a | Has(t, a) && a != Fd(m, p) :: Bk(n, a) == Bk(m, a))
  }

  lemma InsertAddr(t: Tree, x: int, s: nat, lo: nat, w: nat)
    requires t.Node? && t.ring != []
    ensures Addr(Insert(t, x, s, lo, w)) == Addr(t)
  {
  }

  lemma LeafAt(n: Mem, x: int, s: nat, p: int, idx: int)
    requires Fd(n, x) == x && Bk(n, x) == x && Child0(n, x) == 0 && Child1(n, x) == 0
    requires Parent(n, x) == p && TreeIdx(n, x) == idx
    ensures Rep(n, Node(s, [x], Nil, Nil), p, idx)
  {
    assert RingAt(n, [x]);
    assert Rep(n, Nil, x, idx);
  }

  /** The descent never reaches the half the size is not in. */
  lemma OtherSide(t: Tree, p: int, s: nat, lo: nat, w: nat)
    requires t.Node? && Shape(t, lo, w) && Distinct(t) && lo <= s < lo + Pow2(w)
    requires w > 0 && t.size != s && p == Addr(StopAt(t, s, lo, w).0)
    ensures s < lo + Pow2(w - 1) ==> !Has(t.right, p) && (t.left.Node? ==> Has(t.left, p))
    ensures s >= lo + Pow2(w - 1) ==> !Has(t.left, p) && (t.right.Node? ==> Has(t.right, p))
  {
    DistinctParts(t);
    if s < lo + Pow2(w - 1) {
      if t.left.Node? {
        StopInside(t.left, s, lo, w - 1);
      }
    } else if t.right.Node? {
      StopInside(t.right, s, lo + Pow2(w - 1), w - 1);
    }
  }

  /** Linking x in below the stop spells the tree with x inserted. */
  lemma {:induction false} AttachRep(m: Mem, n: Mem, t: Tree, par: int, idx: int, x: int, s: nat, lo: nat, w: nat)
    requires t.Node? && Rep(m, t, par, idx) && Shape(t, lo, w) && Distinct(t) && lo <= s < lo + Pow2(w)
    requires StopsApart(t, s, lo, w) && AttachAtStop(m, n, t, t, x, s, lo, w, idx)
    ensures Rep(n, Insert(t, x, s, lo, w), par, idx)
  {
    hide NodeAt, Has, Distinct, AttachAtStop;
    ChildInterval(lo, w);
    if s < lo + Pow2(w - 1) {
      AttachBelow(m, n, t, t.left, t.right, par, idx, x, s, lo, w, lo);
      if t.left.Node? {
        AttachRep(m, n, t.left, t.ring[0], idx, x, s, lo, w - 1);
        InsertAddr(t.left, x, s, lo, w - 1);
      }
    } else {
      AttachBelow(m, n, t, t.right, t.left, par, idx, x, s, lo, w, lo + Pow2(w - 1));
      if t.right.Node? {
        AttachRep(m, n, t.right, t.ring[0], idx, x, s, lo + Pow2(w - 1), w - 1);
        InsertAddr(t.right, x, s, lo + Pow2(w - 1), w - 1);
      }
    }
  }

  /** The descent for size s ends on a node of another size. */
  ghost predicate StopsApart(t: Tree, s: nat, lo: nat, w: nat)
    requires t.Node?
  {
    var (v, vlo, vw) := StopAt(t, s, lo, w);
    v.size != s && vw > 0
  }

  /** The stores that link x below the node where the descent from c stops, seen from tree t. */
  ghost predicate AttachAtStop(m: Mem, n: Mem, t: Tree, c: Tree, x: int, s: nat, lo: nat, w: nat, idx: int)
    requires c.Node? && StopsApart(c, s, lo, w)
  {
    var (v, vlo, vw) := StopAt(c, s, lo, w);
    AttachStores(m, n, t, Addr(v), s >= vlo + Pow2(vw - 1), x, idx)
  }

  /** The node above the stop keeps its fields, and so does its other child. */
  lemma AttachBelow(m: Mem, n: Mem, t: Tree, c: Tree, other: Tree, par: int, idx: int, x: int, s: nat, lo: nat,
      w: nat, clo: nat)
    requires t.Node? && Rep(m, t, par, idx) && Shape(t, lo, w) && Distinct(t) && lo <= s < lo + Pow2(w)
    requires StopsApart(t, s, lo, w) && AttachAtStop(m, n, t, t, x, s, lo, w, idx)
    requires w > 0 && if s < lo + Pow2(w - 1) then c == t.left && other == t.right && clo == lo
             else c == t.right && other == t.left && clo == lo + Pow2(w - 1)
    ensures Distinct(c) && Rep(n, other, t.ring[0], idx)
    ensures c.Node? ==> StopsApart(c, s, clo, w - 1) && AttachAtStop(m, n, c, c, x, s, clo, w - 1, idx)
    ensures c.Node? ==> NodeAt(n, t.ring, Addr(t.left), Addr(t.right), par, idx)
    ensures c.Nil? ==> Rep(n, Node(s, [x], Nil, Nil), t.ring[0], idx)
    ensures c.Nil? ==> NodeAt(n, t.ring, if c == t.left && s < lo + Pow2(w - 1) then x else Addr(t.left),
                              if s >= lo + Pow2(w - 1) then x else Addr(t.right), par, idx)
  {
    hide Has, Distinct, RingAt, OffTree;
    DistinctParts(t);
    RingMembers(t);
    ChildInterval(lo, w);
    var p := Addr(StopAt(t, s, lo, w).0);
    OtherSide(t, p, s, lo, w);
    NodeFrame(m, n, t.ring, Addr(t.left), Addr(t.right), par, idx);
    RepFrame(m, n, other, t.ring[0], idx);
    if c.Node? {
      StopInside(c, s, clo, w - 1);
    } else {
      LeafAt(n, x, s, t.ring[0], idx);
    }
  }

  lemma {:induction false} StopRing(m: Mem, t: Tree, par: int, idx: int, s: nat, lo: nat, w: nat)
    requires t.Node? && Rep(m, t, par, idx) && Shape(t, lo, w) && lo <= s < lo + Pow2(w)
    ensures var v := StopAt(t, s, lo, w).0; v.ring != [] && Fd(m, v.ring[0]) in v.ring && Has(t, Fd(m, v.ring[0]))
  {
    RingMembers(t);
    RingNeighbours(m, t.ring, 0);
    if t.size != s && w > 0 {
      if s < lo + Pow2(w - 1) {
        if t.left.Node? {
          StopRing(m, t.left, t.ring[0], idx, s, lo, w - 1);
        }
      } else if t.right.Node? {
        StopRing(m, t.right, t.ring[0], idx, s, lo + Pow2(w - 1), w - 1);
      }
    }
  }

  /** Linking x into the ring of the stop spells the tree with x inserted. */
  lemma {:induction false} JoinRep(m: Mem, n: Mem, t: Tree, par: int, idx: int, x: int, s: nat, lo: nat, w: nat)
    requires t.Node? && Rep(m, t, par, idx) && Shape(t, lo, w) && Distinct(t) && !Has(t, x)
    requires lo <= s < lo + Pow2(w)
    requires var v := StopAt(t, s, lo, w).0; v.size == s && RingStores(m, n, t, Addr(v), x, idx)
    ensures Rep(n, Insert(t, x, s, lo, w), par, idx)
  {
    hide NodeAt, Has, Distinct, RingStores;
    if w > 0 {
      ChildInterval(lo, w);
    }
    StopInside(t, s, lo, w);
    if t.size == s {
      JoinHere(m, n, t, par, idx, x);
    } else if s < lo + Pow2(w - 1) {
      JoinBelow(m, n, t, t.left, t.right, par, idx, x, s, lo, w, lo);
      JoinRep(m, n, t.left, t.ring[0], idx, x, s, lo, w - 1);
      InsertAddr(t.left, x, s, lo, w - 1);
    } else {
      JoinBelow(m, n, t, t.right, t.left, par, idx, x, s, lo, w, lo + Pow2(w - 1));
      JoinRep(m, n, t.right, t.ring[0], idx, x, s, lo + Pow2(w - 1), w - 1);
      InsertAddr(t.right, x, s, lo + Pow2(w - 1), w - 1);
    }
  }

  /** A ring store below one child touches neither this node nor the other child. */
  lemma JoinBelow(m: Mem, n: Mem, t: Tree, c: Tree, other: Tree, par: int, idx: int, x: int, s: nat, lo: nat, w: nat,
      clo: nat)
    requires t.Node? && Rep(m, t, par, idx) && Shape(t, lo, w) && Distinct(t) && !Has(t, x)
    requires lo <= s < lo + Pow2(w) && w > 0 && t.size != s
    requires if s < lo + Pow2(w - 1) then c == t.left && other == t.right && clo == lo
             else c == t.right && other == t.left && clo == lo + Pow2(w - 1)
    requires var v := StopAt(t, s, lo, w).0; v.size == s && RingStores(m, n, t, Addr(v), x, idx)
    ensures c.Node? && Distinct(c) && !Has(c, x) && StopAt(t, s, lo, w).0 == StopAt(c, s, clo, w - 1).0
    ensures RingStores(m, n, c, Addr(StopAt(c, s, clo, w - 1).0), x, idx)
    ensures NodeAt(n, t.ring, Addr(t.left), Addr(t.right), par, idx) && Rep(n, other, t.ring[0], idx)
  {
    hide RingAt, Has, Distinct, OffTree;
    DistinctParts(t);
    RingMembers(t);
    ChildInterval(lo, w);
    assert c.Node?;
    StopInside(c, s, clo, w - 1);
    StopRing(m, c, t.ring[0], idx, s, clo, w - 1);
    forall a | a in t.ring || Has(other, a)
      ensures SameLinks(m, n, a)
    {
      assert Has(t, a) && !Has(c, a);
    }
    NodeFrame(m, n, t.ring, Addr(t.left), Addr(t.right), par, idx);
    RepFrame(m, n, other, t.ring[0], idx);
  }

  lemma JoinHere(m: Mem, n: Mem, t: Tree, par: int, idx: int, x: int)
    requires t.Node? && Rep(m, t, par, idx) && Distinct(t) && !Has(t, x)
    requires RingStores(m, n, t, t.ring[0], x, idx)
    ensures Rep(n, Node(t.size, RingInsert(t.ring, x), t.left, t.right), par, idx)
  {
    DistinctParts(t);
    RingMembers(t);
    RingNeighbours(m, t.ring, 0);
    RingInsertLinks(m, n, t.ring, x);
    var r := RingInsert(t.ring, x);
    forall k | 0 <= k < |r|
      ensures TreeIdx(n, r[k]) == idx && (k > 0 ==> OffTree(n, r[k]))
    {
      if k > 1 {
        assert r[k] == t.ring[k - 1];
      }
    }
    forall a | Has(t.left, a) || Has(t.right, a)
      ensures SameLinks(m, n, a)
    {
      assert Has(t, a) && a !in t.ring;
    }
    RepFrame(m, n, t.left, t.ring[0], idx);
    RepFrame(m, n, t.right, t.ring[0], idx);
  }
}
