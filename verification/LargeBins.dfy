/** Linking free chunks into and out of the tree bins. */
module LargeBins {
  import opened BinMap
  import opened TreeIndex
  import opened Memory
  import opened Rings
  import opened Trie
  import opened TreeLinks
  import opened TreeUnlink
  import opened Layout
  import opened Bins

  /** The table with chunk x of size s put into tree bin i. */
  ghost function PutLarge(b: BinTable, i: nat, x: int, s: nat): BinTable
    requires i < |b.trees| && i < |b.roots|
  {
    var t := Insert(b.trees[i], x, s, Low(i), Width(i));
    b.(trees := b.trees[i := t], roots := b.roots[i := Addr(t)], treemap := Mark(b.treemap, i))
  }

  /** The table with chunk x taken out of tree bin i. */
  ghost function TakeLarge(b: BinTable, i: nat, x: int): BinTable
    requires i < |b.trees| && i < |b.roots|
  {
    var t := Delete(b.trees[i], x);
    b.(trees := b.trees[i := t], roots := b.roots[i := Addr(t)],
       treemap := if t.Nil? then Clear(b.treemap, i) else b.treemap)
  }

  /** Only link words of x and of chunks of t changed. */
  ghost predicate OnlyTree(m: Mem, n: Mem, t: Tree, x: int) {
    && n.Keys == m.Keys
    && forall w | (w < x + 16 || x + 64 <= w) && Outside(t, w) :: Rd(n, w) == Rd(m, w)
  }

  /** Chunk x belongs to tree bin i, or will. */
  ghost predicate LargeAt(cs: Chunks, b: BinTable, i: nat, x: int, loose: set<int>) {
    && FreeAt(cs, x) && cs[x].size >= MIN_LARGE_SIZE && i < |b.trees|
    && (Has(b.trees[i], x) || (x in loose && cs[x].size < ADDRESS_LIMIT && i == Index(cs[x].size)))
  }

  lemma LargeLinksOnly(m: Mem, n: Mem, cs: Chunks, b: BinTable, msp: int, dv: int, loose: set<int>, i: nat, x: int)
    requires TreesHold(cs, b, dv, loose) && i < 32 && FreeAt(cs, x) && cs[x].size >= MIN_LARGE_SIZE
    requires OnlyTree(m, n, b.trees[i], x)
    ensures LinksOnly(m, n, cs, msp)
  {
    forall w | !LinkWord(cs, msp, w)
      ensures Rd(n, w) == Rd(m, w)
    {
      assert w < x + 16 || x + 64 <= w;
      forall c | Has(b.trees[i], c)
        ensures w < c + 16 || c + 64 <= w
      {
        assert FreeAt(cs, c);
      }
    }
  }

  lemma LargeAsideTree(m: Mem, n: Mem, cs: Chunks, b: BinTable, msp: int, dv: int, dvsize: int, loose: set<int>,
      i: nat, x: int, j: nat)
    requires Tiled(cs) && TreesOK(m, b, msp) && Match(cs, b, dv, dvsize, loose) && i < 32 && j < 32 && i != j
    requires LargeAt(cs, b, i, x, loose) && OnlyTree(m, n, b.trees[i], x)
    ensures TreeOK(n, b.trees[j], b.roots[j], j, msp)
  {
    assert TreeOK(m, b.trees[j], b.roots[j], j, msp);
    OtherMembers(cs, b, dv, dvsize, loose, i, x, j);
    hide Match, TreesOK, Tiled;
    forall a | Has(b.trees[j], a)
      ensures SameLinks(m, n, a)
    {
      LargeElsewhere(m, n, cs, b, i, x, a);
    }
    RepFrame(m, n, b.trees[j], TreeBin(msp, j), j);
  }

  lemma OtherMembers(cs: Chunks, b: BinTable, dv: int, dvsize: int, loose: set<int>, i: nat, x: int, j: nat)
    requires Match(cs, b, dv, dvsize, loose) && i < 32 && j < 32 && i != j && LargeAt(cs, b, i, x, loose)
    ensures forall c | Has(b.trees[i], c) :: FreeAt(cs, c) && cs[c].size >= MIN_LARGE_SIZE
    ensures forall a | Has(b.trees[j], a) ::
      FreeAt(cs, a) && cs[a].size >= MIN_LARGE_SIZE && a != x && !Has(b.trees[i], a)
  {
  }

  lemma LargeAsideRing(m: Mem, n: Mem, cs: Chunks, b: BinTable, msp: int, dv: int, dvsize: int, loose: set<int>,
      i: nat, x: int, j: nat)
    requires Tiled(cs) && StateAt(cs, msp) && SmallOK(m, b, msp) && Match(cs, b, dv, dvsize, loose) && i < 32 && j < 32
    requires LargeAt(cs, b, i, x, loose) && OnlyTree(m, n, b.trees[i], x) && b.small[j] != []
    ensures RingAt(n, [SmallBin(msp, j)] + b.small[j])
  {
    var ring := [SmallBin(msp, j)] + b.small[j];
    forall a | a in ring
      ensures SameRing(m, n, a)
    {
      if a in b.small[j] {
        LargeElsewhere(m, n, cs, b, i, x, a);
      } else {
        HeadersElsewhere(m, n, cs, b, msp, i, x, a);
      }
    }
    RingFrame(m, n, ring);
  }

  /** What linking in a tree bin does not touch: the other trees and all small bins. */
  lemma LargeAside(m: Mem, n: Mem, cs: Chunks, b: BinTable, msp: int, dv: int, dvsize: int, loose: set<int>, i: nat,
      x: int)
    requires Tiled(cs) && StateAt(cs, msp) && BinInv(m, cs, b, msp, dv, dvsize, loose) && i < 32
    requires LargeAt(cs, b, i, x, loose) && OnlyTree(m, n, b.trees[i], x)
    ensures SmallOK(n, b, msp)
    ensures forall j | 0 <= j < 32 && j != i :: TreeOK(n, b.trees[j], b.roots[j], j, msp)
    ensures LinksOnly(m, n, cs, msp)
  {
    LargeLinksOnly(m, n, cs, b, msp, dv, loose, i, x);
    forall j | 0 <= j < 32 && j != i
      ensures TreeOK(n, b.trees[j], b.roots[j], j, msp)
    {
      LargeAsideTree(m, n, cs, b, msp, dv, dvsize, loose, i, x, j);
    }
    forall j | 0 <= j < 32 && b.small[j] != []
      ensures RingAt(n, [SmallBin(msp, j)] + b.small[j])
    {
      LargeAsideRing(m, n, cs, b, msp, dv, dvsize, loose, i, x, j);
    }
  }

  lemma LargeElsewhere(m: Mem, n: Mem, cs: Chunks, b: BinTable, i: nat, x: int, a: int)
    requires Tiled(cs) && i < |b.trees| && FreeAt(cs, a) && a != x && !Has(b.trees[i], a)
    requires FreeAt(cs, x) && cs[x].size >= MIN_LARGE_SIZE
    requires forall c | Has(b.trees[i], c) :: FreeAt(cs, c) && cs[c].size >= MIN_LARGE_SIZE
    requires OnlyTree(m, n, b.trees[i], x)
    ensures SameRing(m, n, a) && (cs[a].size >= MIN_LARGE_SIZE ==> SameLinks(m, n, a))
  {
    forall c | Has(b.trees[i], c) || c == x
      ensures a + 32 <= c || c + 64 <= a + 16
      ensures cs[a].size >= MIN_LARGE_SIZE ==> a + 64 <= c || c + 64 <= a
    {
      FreeApart(cs, a, c);
      FreeApart(cs, c, a);
    }
    assert Outside(b.trees[i], a + FD) && Outside(b.trees[i], a + BK);
    if cs[a].size >= MIN_LARGE_SIZE {
      assert Outside(b.trees[i], a + CHILD0) && Outside(b.trees[i], a + CHILD1);
      assert Outside(b.trees[i], a + PARENT) && Outside(b.trees[i], a + INDEX);
    }
  }

  lemma HeadersElsewhere(m: Mem, n: Mem, cs: Chunks, b: BinTable, msp: int, i: nat, x: int, h: int)
    requires Tiled(cs) && StateAt(cs, msp) && i < |b.trees| && msp + 72 <= h <= msp + 568
    requires FreeAt(cs, x) && cs[x].size >= MIN_LARGE_SIZE
    requires forall c | Has(b.trees[i], c) :: FreeAt(cs, c) && cs[c].size >= MIN_LARGE_SIZE
    requires OnlyTree(m, n, b.trees[i], x)
    ensures SameRing(m, n, h)
  {
    forall c | Has(b.trees[i], c) || c == x
      ensures c + 64 <= h || h + 32 <= c
    {
      FreeOffState(cs, msp, c);
    }
    assert Outside(b.trees[i], h + FD) && Outside(b.trees[i], h + BK);
  }

  lemma TreeSpaced(cs: Chunks, t: Tree)
    requires Tiled(cs) && forall c | Has(t, c) :: FreeAt(cs, c) && cs[c].size >= MIN_LARGE_SIZE
    ensures Spaced(t)
  {
    forall a, c | Has(t, a) && Has(t, c) && a != c
      ensures a + 64 <= c || c + 64 <= a
    {
      FreeApart(cs, a, c);
    }
  }

  lemma PutLargeItems(t: Tree, x: int, s: nat, lo: nat, w: nat)
    requires Shape(t, lo, w) && lo <= s < lo + Pow2(w) && !Has(t, x)
    ensures var u := Insert(t, x, s, lo, w);
      forall a ::
        (Has(u, a) <==> Has(t, a) || a == x) && (Has(u, a) ==> SizeOf(u, a) == if a == x then s else SizeOf(t, a))
  {
    var u := Insert(t, x, s, lo, w);
    forall a
      ensures Has(u, a) <==> Has(t, a) || a == x
      ensures Has(u, a) ==> SizeOf(u, a) == if a == x then s else SizeOf(t, a)
    {
      InsertCount(t, x, s, lo, w, a);
      if a == x || Has(t, a) {
        InsertSize(t, x, s, lo, w, a);
      }
    }
  }

  lemma PutLargeMatch(cs: Chunks, b: BinTable, dv: int, dvsize: int, loose: set<int>, i: nat, x: int)
    requires SizesOK(cs) && Match(cs, b, dv, dvsize, loose) && x in loose && x != dv && i < 32 && |b.roots| == 32
    requires cs[x].size >= MIN_LARGE_SIZE && i == Index(cs[x].size) && Shape(b.trees[i], Low(i), Width(i))
    ensures Match(cs, PutLarge(b, i, x, cs[x].size), dv, dvsize, loose - {x})
  {
    hide Insert, Low, Width, Has, SizeOf, Shape, Index, Mark, SmallHold;
    var s := cs[x].size;
    var c := PutLarge(b, i, x, s);
    ChunkIndex(cs, x);
    PutLargeItems(b.trees[i], x, s, Low(i), Width(i));
    assert c.trees[i] == Insert(b.trees[i], x, s, Low(i), Width(i));
    SmallHoldLess(cs, b, c, dv, loose, x);
    PutLargeHold(cs, b, c, dv, loose, i, x);
    PutLargeBinned(cs, b, c, dv, loose, i, x);
  }

  lemma SmallHoldLess(cs: Chunks, b: BinTable, c: BinTable, dv: int, loose: set<int>, x: int)
    requires SmallHold(cs, b, dv, loose) && c.small == b.small
    ensures SmallHold(cs, c, dv, loose - {x})
  {
    forall i, a | 0 <= i < 32 && a in c.small[i]
      ensures FreeAt(cs, a) && a != dv && a !in loose - {x} && cs[a].size == 8 * i
    {
      assert FreeAt(cs, a) && a != dv && a !in loose && cs[a].size == 8 * i;
    }
  }

  lemma PutLargeHold(cs: Chunks, b: BinTable, c: BinTable, dv: int, loose: set<int>, i: nat, x: int)
    requires TreesHold(cs, b, dv, loose) && x in loose && FreeAt(cs, x) && x != dv && i < 32
    requires cs[x].size >= MIN_LARGE_SIZE && Index(cs[x].size) == i
    requires |c.trees| == 32 && forall j | 0 <= j < 32 && j != i :: c.trees[j] == b.trees[j]
    requires forall a | Has(c.trees[i], a) ::
      (Has(b.trees[i], a) || a == x) && SizeOf(c.trees[i], a) == if a == x then cs[x].size else SizeOf(b.trees[i], a)
    ensures TreesHold(cs, c, dv, loose - {x})
  {
    hide Has, SizeOf, Index;
    forall j, a | 0 <= j < 32 && Has(c.trees[j], a)
      ensures TreeItem(cs, c.trees[j], dv, loose - {x}, j, a)
    {
      if j != i || a != x {
        assert TreeItem(cs, b.trees[j], dv, loose, j, a);
      }
    }
  }

  lemma PutLargeBinned(cs: Chunks, b: BinTable, c: BinTable, dv: int, loose: set<int>, i: nat, x: int)
    requires |b.small| == 32 && |b.trees| == 32 && |c.trees| == 32 && c.small == b.small
    requires AllBinned(cs, b, dv, loose) && FreeAt(cs, x) && i < 32 && cs[x].size >= MIN_LARGE_SIZE &&
      Index(cs[x].size) == i
    requires forall j | 0 <= j < 32 && j != i :: c.trees[j] == b.trees[j]
    requires Has(c.trees[i], x) && forall a | Has(b.trees[i], a) :: Has(c.trees[i], a)
    ensures AllBinned(cs, c, dv, loose - {x})
  {
    forall a | FreeAt(cs, a) && a != dv && a !in loose - {x}
      ensures IsBinned(cs, c, a)
    {
      if a != x {
        assert IsBinned(cs, b, a);
      }
    }
  }

  lemma TakeLargeItems(t: Tree, x: int)
    requires Distinct(t) && Has(t, x)
    ensures var u := Delete(t, x);
      forall a :: (Has(u, a) <==> Has(t, a) && a != x) && (Has(u, a) ==> SizeOf(u, a) == SizeOf(t, a))
  {
    var u := Delete(t, x);
    forall a
      ensures Has(u, a) <==> Has(t, a) && a != x
      ensures Has(u, a) ==> SizeOf(u, a) == SizeOf(t, a)
    {
      DeleteCount(t, x, a);
      assert Count(t, a) <= 1;
      if a != x && Has(t, a) {
        DeleteSize(t, x, a);
      }
    }
  }

  lemma TakeLargeMatch(cs: Chunks, b: BinTable, dv: int, dvsize: int, loose: set<int>, i: nat, x: int)
    requires SizesOK(cs) && Match(cs, b, dv, dvsize, loose) && i < 32 && |b.roots| == 32 && Has(b.trees[i], x)
    requires Distinct(b.trees[i])
    ensures Match(cs, TakeLarge(b, i, x), dv, dvsize, loose + {x})
  {
    var c := TakeLarge(b, i, x);
    TakeLargeItems(b.trees[i], x);
    assert c.trees[i] == Delete(b.trees[i], x);
    hide Delete, Has, SizeOf, Index, Distinct;
    TakeLargeHold(cs, b, c, dv, loose, i, x);
    forall a | FreeAt(cs, a) && a != dv && a !in loose + {x}
      ensures IsBinned(cs, c, a)
    {
      assert IsBinned(cs, b, a);
    }
  }

  lemma TakeLargeHold(cs: Chunks, b: BinTable, c: BinTable, dv: int, loose: set<int>, i: nat, x: int)
    requires TreesHold(cs, b, dv, loose) && SmallHold(cs, b, dv, loose) && SizesOK(cs) && i < 32 && Has(b.trees[i], x)
    requires c.small == b.small && |c.trees| == 32 && forall j | 0 <= j < 32 && j != i :: c.trees[j] == b.trees[j]
    requires forall a | Has(c.trees[i], a) ::
      Has(b.trees[i], a) && a != x && SizeOf(c.trees[i], a) == SizeOf(b.trees[i], a)
    ensures TreesHold(cs, c, dv, loose + {x}) && SmallHold(cs, c, dv, loose + {x})
  {
    hide Has, SizeOf, Index;
    assert TreeItem(cs, b.trees[i], dv, loose, i, x);
    forall j, a | 0 <= j < 32 && Has(c.trees[j], a)
      ensures TreeItem(cs, c.trees[j], dv, loose + {x}, j, a)
    {
      assert TreeItem(cs, b.trees[j], dv, loose, j, a);
    }
    SmallHoldMore(cs, b, c, dv, loose, x);
  }

  lemma SmallHoldMore(cs: Chunks, b: BinTable, c: BinTable, dv: int, loose: set<int>, x: int)
    requires SmallHold(cs, b, dv, loose) && c.small == b.small && x in cs && cs[x].size >= MIN_LARGE_SIZE
    ensures SmallHold(cs, c, dv, loose + {x})
  {
    forall i, a | 0 <= i < 32 && a in c.small[i]
      ensures FreeAt(cs, a) && a != dv && a !in loose + {x} && cs[a].size == 8 * i
    {
      assert FreeAt(cs, a) && a != dv && a !in loose && cs[a].size == 8 * i;
    }
  }

  /** A table whose bin i alone was rewritten. */
  lemma PutLargeOK(n: Mem, b: BinTable, msp: int, i: nat, x: int, s: nat)
    requires |b.trees| == |b.roots| == 32 && i < 32
    requires forall j | 0 <= j < 32 :: Marked(b.treemap, j) <==> b.trees[j].Node?
    requires forall j | j >= 32 :: !Marked(b.treemap, j)
    requires forall j | 0 <= j < 32 && j != i :: TreeOK(n, b.trees[j], b.roots[j], j, msp)
    requires var t := Insert(b.trees[i], x, s, Low(i), Width(i)); TreeOK(n, t, Addr(t), i, msp)
    ensures TreesOK(n, PutLarge(b, i, x, s), msp)
  {
    forall j: nat
      ensures Marked(Mark(b.treemap, i), j) == (Marked(b.treemap, j) || i == j)
    {
      MarkSets(b.treemap, i, j);
    }
  }

  lemma TakeLargeOK(n: Mem, b: BinTable, msp: int, i: nat, x: int)
    requires |b.trees| == |b.roots| == 32 && i < 32
    requires forall j | 0 <= j < 32 :: Marked(b.treemap, j) <==> b.trees[j].Node?
    requires forall j | j >= 32 :: !Marked(b.treemap, j)
    requires forall j | 0 <= j < 32 && j != i :: TreeOK(n, b.trees[j], b.roots[j], j, msp)
    requires var t := Delete(b.trees[i], x); TreeOK(n, t, Addr(t), i, msp)
    requires Has(b.trees[i], x)
    ensures TreesOK(n, TakeLarge(b, i, x), msp)
  {
    forall j: nat
      ensures Marked(Clear(b.treemap, i), j) == (Marked(b.treemap, j) && i != j)
    {
      ClearResets(b.treemap, i, j);
    }
  }

  // ----- insertion -----

  /** The first stores of `insert_large_chunk`. */
  function Prepared(m: Mem, x: int, i: int): Mem {
    m[x + INDEX := i][x + CHILD0 := 0][x + CHILD1 := 0]
  }

  /** x as the root of an empty bin. */
  function Rooted(m: Mem, x: int, i: int, slot: int): Mem {
    Prepared(m, x, i)[x + PARENT := slot][x + BK := x][x + FD := x]
  }

  /** x as a new child of chunk p. */
  function Attached(m: Mem, x: int, i: int, p: int, slot: int): Mem {
    Prepared(m, x, i)[slot := x][x + PARENT := p][x + BK := x][x + FD := x]
  }

  /** x linked into the ring of chunk p. */
  function Joined(m: Mem, x: int, i: int, p: int): Mem {
    var f := Fd(m, p);
    Prepared(m, x, i)[f + BK := x][p + FD := x][x + FD := f][x + BK := p][x + PARENT := 0]
  }

  /** Chunk x keeps its distance from the chunks of t. */
  ghost predicate ClearOf(t: Tree, x: int) {
    forall a | Has(t, a) :: a + 64 <= x || x + 64 <= a
  }

  lemma RootedOK(m: Mem, x: int, i: nat, s: nat, msp: int)
    requires Low(i) <= s < Low(i) + Pow2(Width(i)) && x != 0
    ensures var n := Rooted(m, x, i, TreeBin(msp, i)); TreeOK(n, Insert(Nil, x, s, Low(i), Width(i)), x, i, msp)
    ensures LinksMapped(m, x) ==> OnlyTree(m, Rooted(m, x, i, TreeBin(msp, i)), Nil, x)
  {
    var n := Rooted(m, x, i, TreeBin(msp, i));
    LeafAt(n, x, s, TreeBin(msp, i), i);
    forall a
      ensures Count(Insert(Nil, x, s, Low(i), Width(i)), a) <= 1
    {
      InsertCount(Nil, x, s, Low(i), Width(i), a);
    }
  }

  /** All link fields of x are mapped. */
  predicate LinksMapped(m: Mem, x: int) {
    && x + FD in m && x + BK in m && x + CHILD0 in m && x + CHILD1 in m && x + PARENT in m && x + INDEX in m
  }

  lemma InsertOK(t: Tree, x: int, s: nat, lo: nat, w: nat)
    requires Shape(t, lo, w) && Distinct(t) && !Has(t, x) && lo <= s < lo + Pow2(w)
    ensures Shape(Insert(t, x, s, lo, w), lo, w) && Distinct(Insert(t, x, s, lo, w))
  {
    InsertShape(t, x, s, lo, w);
    forall a
      ensures Count(Insert(t, x, s, lo, w), a) <= 1
    {
      InsertCount(t, x, s, lo, w, a);
    }
  }

  lemma AttachedOK(m: Mem, t: Tree, x: int, i: nat, s: nat, par: int, p: int, slot: int, lo: nat, w: nat)
    requires t.Node? && Rep(m, t, par, i) && Shape(t, lo, w) && Distinct(t) && ClearOf(t, x) && Spaced(t)
    requires lo <= s < lo + Pow2(w) && StopsApart(t, s, lo, w)
    requires var (v, vlo, vw) := StopAt(t, s, lo, w);
      p == Addr(v) && slot == p + if s >= vlo + Pow2(vw - 1) then CHILD1 else CHILD0
    requires LinksMapped(m, x) && slot in m
    ensures Rep(Attached(m, x, i, p, slot), Insert(t, x, s, lo, w), par, i)
    ensures OnlyTree(m, Attached(m, x, i, p, slot), t, x)
  {
    var n := Attached(m, x, i, p, slot);
    StopInside(t, s, lo, w);
    AttachedStores(m, t, x, i, p, slot);
    assert AttachAtStop(m, n, t, t, x, s, lo, w, i);
    AttachRep(m, n, t, par, i, x, s, lo, w);
  }

  lemma AttachedStores(m: Mem, t: Tree, x: int, i: nat, p: int, slot: int)
    requires ClearOf(t, x) && Spaced(t) && Has(t, p) && (slot == p + CHILD0 || slot == p + CHILD1)
    requires LinksMapped(m, x) && slot in m
    ensures AttachStores(m, Attached(m, x, i, p, slot), t, p, slot == p + CHILD1, x, i)
    ensures OnlyTree(m, Attached(m, x, i, p, slot), t, x)
  {
    hide Has, AttachStores;
    AttachedFields(m, t, x, i, p, slot);
  }

  lemma AttachedFields(m: Mem, t: Tree, x: int, i: nat, p: int, slot: int)
    requires ClearOf(t, x) && Spaced(t) && Has(t, p) && (slot == p + CHILD0 || slot == p + CHILD1)
    ensures AttachStores(m, Attached(m, x, i, p, slot), t, p, slot == p + CHILD1, x, i)
  {
    hide Has, Attached, SameLinks;
    AttachedHere(m, x, i, p, slot);
    forall a | Has(t, a) && a != p
      ensures SameLinks(m, Attached(m, x, i, p, slot), a)
    {
      assert a + 64 <= p || p + 64 <= a;
      AttachedAside(m, x, i, p, slot, a);
    }
  }

  lemma AttachedHere(m: Mem, x: int, i: int, p: int, slot: int)
    requires (slot == p + CHILD0 || slot == p + CHILD1) && (p + 64 <= x || x + 64 <= p)
    ensures var n := Attached(m, x, i, p, slot);
      && Fd(n, x) == x && Bk(n, x) == x && Child0(n, x) == 0 && Child1(n, x) == 0 && Parent(n, x) == p &&
        TreeIdx(n, x) == i
      && SameRing(m, n, p) && Parent(n, p) == Parent(m, p) && TreeIdx(n, p) == TreeIdx(m, p)
      && Child0(n, p) == (if slot == p + CHILD1 then Child0(m, p) else x) &&
        Child1(n, p) == (if slot == p + CHILD1 then x else Child1(m, p))
  {
  }

  lemma AttachedAside(m: Mem, x: int, i: int, p: int, slot: int, a: int)
    requires (slot == p + CHILD0 || slot == p + CHILD1) && (a + 64 <= p || p + 64 <= a) && (a + 64 <= x || x + 64 <= a)
    ensures SameLinks(m, Attached(m, x, i, p, slot), a)
  {
  }

  lemma JoinedOK(m: Mem, t: Tree, x: int, i: nat, s: nat, par: int, p: int, lo: nat, w: nat)
    requires t.Node? && Rep(m, t, par, i) && Shape(t, lo, w) && Distinct(t) && ClearOf(t, x) && Spaced(t) && !Has(t, x)
    requires lo <= s < lo + Pow2(w)
    requires var v := StopAt(t, s, lo, w).0; v.size == s && p == Addr(v)
    requires LinksMapped(m, x) && p + FD in m && Fd(m, p) + BK in m
    ensures Rep(Joined(m, x, i, p), Insert(t, x, s, lo, w), par, i)
    ensures OnlyTree(m, Joined(m, x, i, p), t, x)
  {
    StopInside(t, s, lo, w);
    StopRing(m, t, par, i, s, lo, w);
    JoinedStores(m, t, x, i, p);
    JoinRep(m, Joined(m, x, i, p), t, par, i, x, s, lo, w);
  }

  lemma JoinedStores(m: Mem, t: Tree, x: int, i: nat, p: int)
    requires ClearOf(t, x) && Spaced(t) && Has(t, p) && Has(t, Fd(m, p))
    requires LinksMapped(m, x) && p + FD in m && Fd(m, p) + BK in m
    ensures RingStores(m, Joined(m, x, i, p), t, p, x, i)
    ensures OnlyTree(m, Joined(m, x, i, p), t, x)
  {
    var n := Joined(m, x, i, p);
    var f := Fd(m, p);
    assert p + 64 <= x || x + 64 <= p;
    assert f + 64 <= x || x + 64 <= f;
    JoinedWords(m, x, i, p);
    hide Joined;
    forall a | Has(t, a)
      ensures SameTreeLinks(m, n, a)
      ensures a != p ==> Fd(n, a) == Fd(m, a)
      ensures a != f ==> Bk(n, a) == Bk(m, a)
    {
      assert a != p ==> a + 64 <= p || p + 64 <= a;
      assert a != f ==> a + 64 <= f || f + 64 <= a;
    }
  }

  lemma JoinedWords(m: Mem, x: int, i: nat, p: int)
    requires LinksMapped(m, x) && p + FD in m && Fd(m, p) + BK in m
    requires p + 64 <= x || x + 64 <= p
    requires var f := Fd(m, p); f + 64 <= x || x + 64 <= f
    ensures var n, f := Joined(m, x, i, p), Fd(m, p);
      && n.Keys == m.Keys
      && Fd(n, p) == x && Bk(n, f) == x && Fd(n, x) == f && Bk(n, x) == p && OffTree(n, x) && TreeIdx(n, x) == i
      && forall w | (w < x + 16 || x + 64 <= w) && w != f + BK && w != p + FD :: Rd(n, w) == Rd(m, w)
  {
  }

  /** Putting loose chunk x into its tree bin. */
  lemma LargeInserted(m: Mem, n: Mem, cs: Chunks, b: BinTable, msp: int, dv: int, dvsize: int, loose: set<int>,
      i: nat, x: int)
    requires Tiled(cs) && StateAt(cs, msp) && BinInv(m, cs, b, msp, dv, dvsize, loose) && i < 32
    requires x in loose && x != dv && FreeAt(cs, x) && cs[x].size >= MIN_LARGE_SIZE && i == Index(cs[x].size)
    requires OnlyTree(m, n, b.trees[i], x)
    requires Rep(n, Insert(b.trees[i], x, cs[x].size, Low(i), Width(i)), TreeBin(msp, i), i)
    ensures BinInv(n, cs, PutLarge(b, i, x, cs[x].size), msp, dv, dvsize, loose - {x}) && LinksOnly(m, n, cs, msp)
  {
    hide Rep, Insert, OnlyTree, StateAt, Low, Width, Pow2, Has, Apart, Linked, Preceded, LinksOnly;
    assert TreeOK(m, b.trees[i], b.roots[i], i, msp);
    ChunkIndex(cs, x);
    LargeAside(m, n, cs, b, msp, dv, dvsize, loose, i, x);
    InsertOK(b.trees[i], x, cs[x].size, Low(i), Width(i));
    PutLargeOK(n, b, msp, i, x, cs[x].size);
    PutLargeMatch(cs, b, dv, dvsize, loose, i, x);
  }

  // ----- removal -----

  lemma DeleteOK(t: Tree, x: int, lo: nat, w: nat)
    requires Shape(t, lo, w) && Distinct(t) && Has(t, x)
    ensures Shape(Delete(t, x), lo, w) && Distinct(Delete(t, x))
  {
    DeleteShape(t, x, lo, w);
    forall a
      ensures Count(Delete(t, x), a) <= 1
    {
      DeleteCount(t, x, a);
    }
  }

  /** Taking chunk x out of its tree bin. */
  lemma LargeRemoved(m: Mem, n: Mem, cs: Chunks, b: BinTable, msp: int, dv: int, dvsize: int, loose: set<int>, i: nat,
      x: int)
    requires Tiled(cs) && StateAt(cs, msp) && BinInv(m, cs, b, msp, dv, dvsize, loose) && i < 32
    requires Has(b.trees[i], x) && OnlyTree(m, n, b.trees[i], x)
    requires Rep(n, Delete(b.trees[i], x), TreeBin(msp, i), i)
    ensures BinInv(n, cs, TakeLarge(b, i, x), msp, dv, dvsize, loose + {x}) && LinksOnly(m, n, cs, msp)
  {
    assert TreeOK(m, b.trees[i], b.roots[i], i, msp);
    LargeAside(m, n, cs, b, msp, dv, dvsize, loose, i, x);
    DeleteOK(b.trees[i], x, Low(i), Width(i));
    TakeLargeOK(n, b, msp, i, x);
    TakeLargeMatch(cs, b, dv, dvsize, loose, i, x);
  }
}
