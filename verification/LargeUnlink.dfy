/** The stores of `unlink_large_chunk`, step by step, and the trie they spell. */
module LargeUnlink {
  import opened Memory
  import opened Rings
  import opened Trie
  import opened TreeLinks
  import opened TreeUnlink

  /** x taken out of its ring. */
  function Unrung(m: Mem, x: int): Mem {
    var f, r := Fd(m, x), Bk(m, x);
    m[f + BK := r][r + FD := f]
  }

  /** The child slot of xp that held x now holds r. */
  function Relinked(m: Mem, xp: int, x: int, r: int): Mem {
    if Child0(m, xp) == x then m[xp + CHILD0 := r] else m[xp + CHILD1 := r]
  }

  /** r takes over the parent and the children of x. */
  function Adopted(m: Mem, x: int, r: int, xp: int): Mem {
    AdoptedRight(AdoptedLeft(m[r + PARENT := xp], x, r), x, r)
  }

  function AdoptedLeft(m: Mem, x: int, r: int): Mem {
    var c := Child0(m, x);
    if c != 0 then m[r + CHILD0 := c][c + PARENT := r] else m
  }

  function AdoptedRight(m: Mem, x: int, r: int): Mem {
    var c := Child1(m, x);
    if c != 0 then m[r + CHILD1 := c][c + PARENT := r] else m
  }

  predicate Far(a: int, b: int) {
    a + 64 <= b || b + 64 <= a
  }

  lemma AdoptedWords(m: Mem, x: int, r: int, xp: int)
    requires Far(x, r)
    requires var c := Child0(m, x); c != 0 ==> Far(c, r) && Far(c, x)
    requires var c := Child1(m, x); c != 0 ==> Far(c, r) && Far(c, x)
    requires var c, d := Child0(m, x), Child1(m, x); c != 0 && d != 0 ==> Far(c, d)
    ensures var n, c, d := Adopted(m, x, r, xp), Child0(m, x), Child1(m, x);
      && Parent(n, r) == xp
      && Child0(n, r) == (if c != 0 then c else Child0(m, r)) && Child1(n, r) == (if d != 0 then d else Child1(m, r))
      && (c != 0 ==> Parent(n, c) == r) && (d != 0 ==> Parent(n, d) == r)
      && (forall w | w != r + PARENT && w != r + CHILD0 && w != r + CHILD1 && (c == 0 || w != c + PARENT)
            && (d == 0 || w != d + PARENT) :: Rd(n, w) == Rd(m, w))
  {
    var m0 := m[r + PARENT := xp];
    var m1 := AdoptedLeft(m0, x, r);
    assert Child0(m0, x) == Child0(m, x) && Child1(m1, x) == Child1(m, x);
  }

  /** Subtree u, without x, is made of chunks far from x and from each other. */
  ghost predicate Loose(u: Tree, x: int) {
    Distinct(u) && Spaced(u) && forall a | Has(u, a) :: Far(a, x)
  }

  /** The words that an adoption by r of children c and d may change. */
  ghost predicate AdoptsOnly(m: Mem, n: Mem, r: int, c: int, d: int) {
    forall w | w != r + PARENT && w != r + CHILD0 && w != r + CHILD1 && (c == 0 || w != c + PARENT)
      && (d == 0 || w != d + PARENT) :: Rd(n, w) == Rd(m, w)
  }

  lemma AdoptedFields(m: Mem, n: Mem, r: int, c: int, d: int, a: int)
    requires AdoptsOnly(m, n, r, c, d)
    requires (a == r || Far(a, r)) && (c == 0 || a == c || Far(a, c)) && (d == 0 || a == d || Far(a, d))
    ensures SameRing(m, n, a) && TreeIdx(n, a) == TreeIdx(m, a)
    ensures a != r ==> Child0(n, a) == Child0(m, a) && Child1(n, a) == Child1(m, a)
    ensures a != r && a != c && a != d ==> SameLinks(m, n, a)
  {
  }

  lemma AdoptedStores(m: Mem, u: Tree, x: int, xp: int, idx: int)
    requires u.Node? && NonEmptyRings(u) && Loose(u, x)
    requires NodeAt(m, u.ring, 0, 0, Parent(m, u.ring[0]), idx)
    requires Child0(m, x) == Addr(u.left) && Child1(m, x) == Addr(u.right)
    requires forall a | Has(u, a) :: a != 0
    ensures AdoptStores(m, Adopted(m, x, u.ring[0], xp), u.ring, u.left, u.right, xp)
  {
    hide NodeAt, Adopted, Has, SameRing, SameLinks, SameTreeLinks, ParentMoved, Distinct, Spaced;
    AdoptedTop(m, u, x, xp, idx);
    var n, r, c, d := Adopted(m, x, u.ring[0], xp), u.ring[0], Addr(u.left), Addr(u.right);
    TopsInside(u);
    RingMembers(u);
    TopsApart(u, x);
    forall a | Has(u, a)
      ensures AdoptedAt(m, n, r, c, d, a)
    {
      AdoptedChunk(m, u, x, r, c, d, a, n);
    }
    MovedChild(m, n, u, u.left, r);
    MovedChild(m, n, u, u.right, r);
    MovedRing(m, n, u);
  }

  lemma MovedRing(m: Mem, n: Mem, u: Tree)
    requires u.Node? && Distinct(u) && NonEmptyRings(u)
    requires forall a | Has(u, a) :: AdoptedAt(m, n, u.ring[0], Addr(u.left), Addr(u.right), a) && a != 0
    ensures forall a | a in u.ring :: SameRing(m, n, a) && TreeIdx(n, a) == TreeIdx(m, a)
    ensures forall a | a in u.ring && a != u.ring[0] :: SameTreeLinks(m, n, a)
  {
    DistinctParts(u);
    RingMembers(u);
    TopsInside(u);
    hide Distinct, SameRing, NonEmptyRings, Has;
    forall a | a in u.ring
      ensures AdoptedAt(m, n, u.ring[0], Addr(u.left), Addr(u.right), a) && a != Addr(u.left) && a != Addr(u.right)
    {
      assert Has(u, a);
    }
  }

  /** What adoption does to chunk a of the subtree. */
  ghost predicate AdoptedAt(m: Mem, n: Mem, r: int, c: int, d: int, a: int) {
    && SameRing(m, n, a) && TreeIdx(n, a) == TreeIdx(m, a)
    && (a != r ==> Child0(n, a) == Child0(m, a) && Child1(n, a) == Child1(m, a))
    && (a != r && a != c && a != d ==> SameLinks(m, n, a))
  }

  lemma AdoptedTop(m: Mem, u: Tree, x: int, xp: int, idx: int)
    requires u.Node? && NonEmptyRings(u) && Loose(u, x)
    requires NodeAt(m, u.ring, 0, 0, Parent(m, u.ring[0]), idx)
    requires Child0(m, x) == Addr(u.left) && Child1(m, x) == Addr(u.right)
    requires forall a | Has(u, a) :: a != 0
    ensures var n, r, c, d := Adopted(m, x, u.ring[0], xp), u.ring[0], Addr(u.left), Addr(u.right);
      && Parent(n, r) == xp && Child0(n, r) == c && Child1(n, r) == d && AdoptsOnly(m, n, r, c, d)
      && (c != 0 ==> Parent(n, c) == r) && (d != 0 ==> Parent(n, d) == r)
  {
    TopsInside(u);
    TopsApart(u, x);
    hide Loose, Adopted, NonEmptyRings, Has;
    AdoptedWords(m, x, u.ring[0], xp);
  }

  /** The head, its children and x are far from each other. */
  lemma TopsApart(u: Tree, x: int)
    requires u.Node? && NonEmptyRings(u) && Loose(u, x) && forall a | Has(u, a) :: a != 0
    ensures var r, c, d := u.ring[0], Addr(u.left), Addr(u.right);
      && Far(x, r) && (c != 0 ==> Far(c, r) && Far(c, x)) && (d != 0 ==> Far(d, r) && Far(d, x)) &&
        (c != 0 && d != 0 ==> Far(c, d))
  {
    TopsInside(u);
    DistinctParts(u);
    RingMembers(u);
    hide Distinct, Has, NonEmptyRings;
  }

  lemma AdoptedChunk(m: Mem, u: Tree, x: int, r: int, c: int, d: int, a: int, n: Mem)
    requires u.Node? && Loose(u, x) && AdoptsOnly(m, n, r, c, d) && Has(u, a) && Has(u, r)
    requires (c == 0 || Has(u, c)) && (d == 0 || Has(u, d))
    ensures AdoptedAt(m, n, r, c, d, a)
  {
    hide AdoptsOnly, Has, Distinct, SameRing, SameLinks;
    AdoptedFields(m, n, r, c, d, a);
  }

  lemma TopsInside(u: Tree)
    requires u.Node? && NonEmptyRings(u) && forall a | Has(u, a) :: a != 0
    ensures u.left.Node? ==> Has(u.left, Addr(u.left)) && Addr(u.left) != 0
    ensures u.right.Node? ==> Has(u.right, Addr(u.right)) && Addr(u.right) != 0
    ensures Has(u, u.ring[0])
  {
    RingMembers(u);
    if u.left.Node? {
      RingMembers(u.left);
    }
    if u.right.Node? {
      RingMembers(u.right);
    }
  }

  lemma MovedChild(m: Mem, n: Mem, u: Tree, t: Tree, q: int)
    requires u.Node? && (t == u.left || t == u.right) && Distinct(u) && NonEmptyRings(u) && q == u.ring[0] && Has(u, q)
    requires forall a | Has(u, a) :: AdoptedAt(m, n, q, Addr(u.left), Addr(u.right), a) && a != 0
    requires t.Node? ==> Parent(n, Addr(t)) == q
    ensures ParentMoved(m, n, t, q)
  {
    DistinctParts(u);
    RingMembers(u);
    TopsInside(u);
    hide Distinct, SameLinks, SameRing, NonEmptyRings;
    forall a | Has(t, a)
      ensures AdoptedAt(m, n, q, Addr(u.left), Addr(u.right), a) && a != q
      ensures a != Addr(t) ==> SameLinks(m, n, a)
    {
      assert q in u.ring;
    }
  }

  /** The subtree of holder h once its head x is gone. */
  lemma UnringLoose(h: Tree, x: int)
    requires h.Node? && x in h.ring && Distinct(h) && Spaced(h)
    ensures Loose(Unring(h, x), x)
    ensures forall a | Has(Unring(h, x), a) :: Has(h, a) && a != x
  {
    var u := Unring(h, x);
    RingMembers(h);
    forall a
      ensures Count(u, a) == Count(h, a) - if a == x then 1 else 0
    {
      assert Delete(h, x) == u;
      DeleteCount(h, x, a);
    }
    forall a | Has(u, a)
      ensures Has(h, a) && a != x
    {
      assert Count(h, x) <= 1;
    }
  }

  /** The holder's subtree after its head's ring or child links were cut, before adoption. */
  ghost predicate Cut(m: Mem, h: Tree, x: int, idx: int) {
    && h.Node? && x in h.ring && Unring(h, x).Node? && Unring(h, x).ring != []
    && var u := Unring(h, x);
    && NodeAt(m, u.ring, 0, 0, Parent(m, u.ring[0]), idx)
    && Rep(m, u.left, x, idx) && Rep(m, u.right, x, idx)
    && Child0(m, x) == Addr(u.left) && Child1(m, x) == Addr(u.right)
  }

  /** Cutting the head out of a ring of several chunks. */
  lemma CutRing(m: Mem, h: Tree, x: int, xp: int, idx: int)
    requires h.Node? && Rep(m, h, xp, idx) && Distinct(h) && Spaced(h) && x == h.ring[0] && |h.ring| > 1
    ensures Cut(Unrung(m, x), h, x, idx) && Addr(Unring(h, x)) == Bk(m, x)
    ensures Has(h, Fd(m, x)) && Has(h, Bk(m, x)) && Fd(m, x) != x && Bk(m, x) != x
  {
    var n := Unrung(m, x);
    var ring := RingDelete(h.ring, x);
    HeadIn(m, h, x, xp, idx);
    MateLinks(m, h, xp, idx, x);
    UnrungFields(m, x, h);
    RingUnlinked(m, n, h, x);
    RingInside(h, Fd(m, x));
    RingInside(h, Bk(m, x));
    UnrungNode(m, n, h, x, xp, idx);
    UnrungAside(m, n, h, x, xp, idx);
    hide NodeAt, Rep, Has, Unrung, UnringStores, SameTreeLinks, Distinct, Spaced, RingAt, RingDelete, Unique;
  }

  lemma HeadIn(m: Mem, h: Tree, x: int, xp: int, idx: int)
    requires h.Node? && Rep(m, h, xp, idx) && Distinct(h) && x == h.ring[0]
    ensures NodeAt(m, h.ring, Addr(h.left), Addr(h.right), xp, idx) && RingAt(m, h.ring) && Unique(h.ring) &&
      x in h.ring && Has(h, x)
  {
    DistinctParts(h);
    RingMembers(h);
  }

  lemma RingInside(h: Tree, a: int)
    requires h.Node? && a in h.ring
    ensures Has(h, a)
  {
    RingMembers(h);
  }

  lemma UnrungNode(m: Mem, n: Mem, h: Tree, x: int, xp: int, idx: int)
    requires h.Node? && NodeAt(m, h.ring, Addr(h.left), Addr(h.right), xp, idx) && x == h.ring[0] && |h.ring| > 1
    requires forall a | Has(h, a) && a != x :: SameTreeLinks(m, n, a)
    requires Unique(h.ring) && RingAt(n, RingDelete(h.ring, x))
    ensures var ring := RingDelete(h.ring, x); NodeAt(n, ring, 0, 0, Parent(n, ring[0]), idx)
  {
    RingMembers(h);
    var ring := RingDelete(h.ring, x);
    forall k | 0 <= k < |ring|
      ensures TreeIdx(n, ring[k]) == idx && OffTree(n, ring[k])
    {
      var j := if k == 0 then |h.ring| - 1 else k;
      assert 0 < j && h.ring[j] == ring[k];
      assert OffTree(m, h.ring[j]) && h.ring[j] != x;
    }
  }

  lemma UnrungAside(m: Mem, n: Mem, h: Tree, x: int, xp: int, idx: int)
    requires h.Node? && Rep(m, h, xp, idx) && Distinct(h) && x == h.ring[0] && |h.ring| > 1
    requires UnringStores(m, n, h, x) && SameTreeLinks(m, n, x) && Fd(m, x) in h.ring && Bk(m, x) in h.ring
    ensures Rep(n, h.left, x, idx) && Rep(n, h.right, x, idx) && Child0(n, x) == Addr(h.left) &&
      Child1(n, x) == Addr(h.right)
  {
    RingMembers(h);
    DistinctParts(h);
    hide Distinct, Rep, RingAt;
    forall a | Has(h.left, a) || Has(h.right, a)
      ensures SameLinks(m, n, a)
    {
      assert Has(h, a) && a !in h.ring;
    }
    RepFrame(m, n, h.left, x, idx);
    RepFrame(m, n, h.right, x, idx);
  }

  lemma UnrungFields(m: Mem, x: int, h: Tree)
    requires Spaced(h) && Has(h, x) && Has(h, Fd(m, x)) && Has(h, Bk(m, x))
    ensures UnringStores(m, Unrung(m, x), h, x)
    ensures SameTreeLinks(m, Unrung(m, x), x)
  {
    var n := Unrung(m, x);
    var f, r := Fd(m, x), Bk(m, x);
    forall a | Has(h, a)
      ensures SameTreeLinks(m, n, a)
      ensures a != r ==> Fd(n, a) == Fd(m, a)
      ensures a != f ==> Bk(n, a) == Bk(m, a)
    {
      assert a == f || Far(a, f);
      assert a == r || Far(a, r);
    }
  }

  /** Cutting the deep leaf off the children of a head that is alone on its ring. */
  lemma CutLeaf(m: Mem, h: Tree, x: int, xp: int, idx: int, c: Tree, other: Tree, slot: int)
    requires h.Node? && Rep(m, h, xp, idx) && Distinct(h) && Spaced(h) && h.ring == [x] && NonEmptyRings(h)
    requires DeepStep(h, c, other, slot)
    ensures Cut(m[DeepSlot(c, slot) := 0], h, x, idx) && Addr(Unring(h, x)) == Addr(DeepLeaf(c))
  {
    var n := m[DeepSlot(c, slot) := 0];
    DistinctParts(h);
    RingMembers(h);
    SpacedParts(h);
    assert Outside(c, slot) by {
      forall b | Has(c, b)
        ensures slot < b + 16 || b + 64 <= slot
      {
        assert Has(h, b) && b != x;
      }
    }
    PopDeep(m, n, c, x, idx, slot);
    PopFrame(m, n, h, c, other, slot);
    RepFrame(m, n, other, x, idx);
  }

  /** Only link words of chunks of h changed. */
  ghost predicate OnlyOf(m: Mem, n: Mem, h: Tree) {
    forall w | Outside(h, w) :: Rd(n, w) == Rd(m, w)
  }

  lemma OnlyOfSelf(m: Mem, h: Tree)
    ensures OnlyOf(m, m, h)
  {
  }

  lemma OnlyOfAside(m: Mem, n: Mem, h: Tree, a: int)
    requires OnlyOf(m, n, h) && forall b | Has(h, b) :: Far(a, b)
    ensures SameLinks(m, n, a)
  {
    assert Outside(h, a + FD) && Outside(h, a + BK) && Outside(h, a + CHILD0);
    assert Outside(h, a + CHILD1) && Outside(h, a + PARENT) && Outside(h, a + INDEX);
  }

  lemma CutFrame(m: Mem, n: Mem, h: Tree, x: int, idx: int)
    requires Cut(m, h, x, idx) && Distinct(h) && Spaced(h) && forall a | Has(h, a) :: SameLinks(m, n, a)
    ensures Cut(n, h, x, idx)
  {
    var u := Unring(h, x);
    UnringLoose(h, x);
    DistinctParts(u);
    RingMembers(u);
    RingMembers(h);
    NodeFrame(m, n, u.ring, 0, 0, Parent(m, u.ring[0]), idx);
    RepFrame(m, n, u.left, x, idx);
    RepFrame(m, n, u.right, x, idx);
  }

  /** Adoption completes the subtree, and touches only its chunks. */
  lemma AdoptedSubtree(m: Mem, h: Tree, x: int, xp: int, idx: int)
    requires Cut(m, h, x, idx) && Distinct(h) && Spaced(h) && forall a | Has(h, a) :: a != 0
    ensures var u := Unring(h, x); var n := Adopted(m, x, u.ring[0], xp);
      Rep(n, u, xp, idx) && OnlyOf(m, n, h)
  {
    var u := Unring(h, x);
    var r := u.ring[0];
    UnringLoose(h, x);
    RepNonEmpty(m, u.left, x, idx);
    RepNonEmpty(m, u.right, x, idx);
    TopsInside(u);
    DistinctParts(u);
    AdoptedStores(m, u, x, xp, idx);
    AdoptRep(m, Adopted(m, x, r, xp), u.size, u.ring, u.left, u.right, x, idx, xp);
    RingMembers(u);
    AdoptedWords(m, x, r, xp);
    AdoptedOnly(m, h, x, r, xp);
  }

  lemma AdoptedOnly(m: Mem, h: Tree, x: int, r: int, xp: int)
    requires Has(h, r)
    requires Far(x, r)
    requires var c := Child0(m, x); c != 0 ==> Has(h, c) && Far(c, r) && Far(c, x)
    requires var c := Child1(m, x); c != 0 ==> Has(h, c) && Far(c, r) && Far(c, x)
    requires var c, d := Child0(m, x), Child1(m, x); c != 0 && d != 0 ==> Far(c, d)
    ensures OnlyOf(m, Adopted(m, x, r, xp), h)
  {
    AdoptedWords(m, x, r, xp);
    hide Adopted;
    var n, c, d := Adopted(m, x, r, xp), Child0(m, x), Child1(m, x);
    forall w | Outside(h, w)
      ensures Rd(n, w) == Rd(m, w)
    {
      assert w < r + 16 || r + 64 <= w;
      assert c != 0 ==> w < c + 16 || c + 64 <= w;
      assert d != 0 ==> w < d + 16 || d + 64 <= w;
    }
  }

  /** The holder of x is below tree chunk xp, far from all of it. */
  lemma HolderBelow(m: Mem, t: Tree, par: int, idx: int, x: int)
    requires Has(t, x) && Rep(m, t, par, idx) && Distinct(t) && Spaced(t) && x !in t.ring
    requires x == Addr(Holder(t, x))
    ensures var h, xp := Holder(t, x), Parent(m, x);
      && Rep(m, h, xp, idx) && Distinct(h) && Spaced(h) && Has(h, x)
      && Has(t, xp) && (forall a | Has(h, a) :: Has(t, a) && Far(a, xp))
      && (forall a, b | Has(t, a) && !Has(h, a) && Has(h, b) :: Far(a, b))
  {
    HolderRep(m, t, par, idx, x);
    var h, xp := Holder(t, x), Parent(m, x);
    forall a, b | Has(h, a) && Has(h, b) && a != b
      ensures a + 64 <= b || b + 64 <= a
    {
      assert Has(t, a) && Has(t, b);
    }
  }

  /** Unlinking a head below the root: cut, relink at the parent, adopt. */
  lemma InnerUnlinked(m: Mem, m1: Mem, n: Mem, t: Tree, par: int, idx: int, x: int, xp: int, r: int)
    requires Has(t, x) && Rep(m, t, par, idx) && Distinct(t) && Spaced(t) && x !in t.ring
    requires forall a | Has(t, a) :: a != 0
    requires x == Addr(Holder(t, x)) && xp == Parent(m, x) && r == Addr(Unring(Holder(t, x), x))
    requires OnlyOf(m, m1, Holder(t, x))
    requires if Unring(Holder(t, x),
      x).Node? then Cut(m1, Holder(t, x), x, idx) && n == Adopted(Relinked(m1, xp, x, r), x, r, xp)
             else m1 == m && n == Relinked(m1, xp, x, r)
    ensures Rep(n, Delete(t, x), par, idx)
  {
    hide NodeAt, Rep, Has, Distinct, Spaced, Delete, Cut, SameLinks, Adopted, OnlyOf;
    var h := Holder(t, x);
    var u := Unring(h, x);
    var m2 := Relinked(m1, xp, x, r);
    HolderBelow(m, t, par, idx, x);
    RelinkedFields(m1, t, h, xp, x, r);
    if u.Node? {
      CutFrame(m1, m2, h, x, idx);
      AdoptedSubtree(m2, h, x, xp, idx);
    } else {
      OnlyOfSelf(m2, h);
    }
    InnerReplaced(m, m1, m2, n, t, h, x, xp, r);
    ReplaceRep(m, n, t, par, idx, x);
  }

  lemma RelinkedFields(m: Mem, t: Tree, h: Tree, xp: int, x: int, r: int)
    requires Spaced(t) && Has(t, xp)
    ensures forall a | Has(t, a) && a != xp :: SameLinks(m, Relinked(m, xp, x, r), a)
    ensures var n := Relinked(m, xp, x, r);
      && SameRing(m, n, xp) && Parent(n, xp) == Parent(m, xp) && TreeIdx(n, xp) == TreeIdx(m, xp)
      && Child0(n, xp) == (if Child0(m, xp) == x then r else Child0(m, xp))
      && Child1(n, xp) == (if Child0(m, xp) == x then Child1(m, xp) else r)
  {
  }

  lemma InnerReplaced(m: Mem, m1: Mem, m2: Mem, n: Mem, t: Tree, h: Tree, x: int, xp: int, r: int)
    requires Has(t, x) && Spaced(t) && Has(t, xp) && h == Holder(t, x) && Has(h, x)
    requires forall a, b | Has(t, a) && !Has(h, a) && Has(h, b) :: Far(a, b)
    requires forall b | Has(h, b) :: Far(b, xp)
    requires OnlyOf(m, m1, h) && m2 == Relinked(m1, xp, x, r) && OnlyOf(m2, n, h) && r == Addr(Unring(h, x))
    ensures ReplaceStores(m, n, t, h, x, xp, Unring(h, x))
  {
    RelinkedFields(m1, t, h, xp, x, r);
    hide Relinked;
    forall a | Has(t, a) && !Has(h, a)
      ensures SameLinks(m, m1, a) && SameLinks(m2, n, a)
    {
      OnlyOfAside(m, m1, h, a);
      OnlyOfAside(m2, n, h, a);
    }
    OnlyOfAside(m, m1, h, xp);
    OnlyOfAside(m2, n, h, xp);
  }

  /** Unlinking the root: cut, then adopt below the bin itself. */
  lemma RootUnlinked(m: Mem, m1: Mem, n: Mem, t: Tree, par: int, idx: int, x: int)
    requires t.Node? && Rep(m, t, par, idx) && Distinct(t) && Spaced(t) && x == Addr(t)
    requires forall a | Has(t, a) :: a != 0
    requires if Unring(t, x).Node? then Cut(m1, t, x, idx) && n == Adopted(m1, x, Addr(Unring(t, x)), par) else n == m1
    ensures Rep(n, Delete(t, x), par, idx)
  {
    if Unring(t, x).Node? {
      AdoptedSubtree(m1, t, x, par, idx);
    }
  }
}
