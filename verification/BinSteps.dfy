/** The invariant as a predicate on values, and what linking free chunks into and out of bins does to it. */
module BinSteps {
  import opened BinMap
  import opened TreeIndex
  import opened Memory
  import opened Rings
  import opened Trie
  import opened TreeLinks
  import opened TreeUnlink
  import opened Layout
  import opened Bins
  import opened SmallBins
  import opened LargeBins
  import opened LargeUnlink
  import opened Segments
  import opened Descent

  /** The values that the invariant relates. */
  datatype View = View(mem: Mem, chunks: Chunks, top: int, topsize: int, segs: seq<Seg>, direct: map<int, int>,
    msp: int,
                       bins: BinTable, dv: int, dvsize: int)
  {
    ghost predicate Laid() {
      LayoutInv(mem, chunks, top, topsize, segs, direct, msp)
    }

    ghost predicate Binned(loose: set<int>) {
      BinInv(mem, chunks, bins, msp, dv, dvsize, loose)
    }
  }

  lemma FreeMapped(m: Mem, cs: Chunks, a: int)
    requires Tiled(cs) && Mapped(m.Keys, cs) && FreeAt(cs, a)
    ensures a + HEAD in m && a + FD in m && a + BK in m
    ensures cs[a].size >= MIN_LARGE_SIZE ==> LinksMapped(m, a)
  {
    assert ChunkOK(a, cs[a]);
  }

  lemma HeaderMapped(m: Mem, cs: Chunks, msp: int, i: int)
    requires Mapped(m.Keys, cs) && StateAt(cs, msp) && 0 <= i < 32
    ensures SmallBin(msp, i) + FD in m && SmallBin(msp, i) + BK in m
  {
  }

  // ----- small bins -----

  lemma TableShape(v: View, loose: set<int>)
    requires v.Binned(loose)
    ensures |v.bins.small| == |v.bins.trees| == |v.bins.roots| == 32
  {
  }

  lemma SmallSize(v: View, loose: set<int>, p: int)
    requires v.Laid() && v.Binned(loose) && p in v.chunks && v.chunks[p].size < MIN_LARGE_SIZE
    ensures 0 <= v.chunks[p].size / 8 < 32 && |v.bins.small| == 32
  {
    assert ChunkOK(p, v.chunks[p]);
  }

  /** Before `insert_small_chunk`: its operands are in place and mapped. */
  lemma SmallInsertReady(v: View, loose: set<int>, p: int, i: nat, h: int, f: int)
    requires v.Laid() && v.Binned(loose) && p in loose && v.chunks[p].size < MIN_LARGE_SIZE && i == v.chunks[p].size / 8
    requires h == SmallBin(v.msp, i) && f == if Marked(v.bins.smallmap, i) then Fd(v.mem, h) else h
    ensures h + FD in v.mem && p + FD in v.mem && p + BK in v.mem && f + BK in v.mem
    ensures InsertPlace(v.mem, v.chunks, v.bins, v.msp, loose, p, i, h, f) && (f == h || FreeAt(v.chunks, f))
  {
    hide Tiled, Tagged, Mapped, TopIs, StateAt, SegsOK, DirectOK, SmallOK, TreesOK, TreesHold, AllBinned, VictimOK;
    SmallSize(v, loose, p);
    FreeMapped(v.mem, v.chunks, p);
    HeaderMapped(v.mem, v.chunks, v.msp, i);
    InsertedRings(v.mem, v.chunks, v.bins, v.msp, v.dv, v.dvsize, loose, p, i, h, f);
    if f != h {
      FreeMapped(v.mem, v.chunks, f);
    }
  }

  lemma SmallInsertDone(v: View, loose: set<int>, p: int, i: nat, h: int, f: int, n: Mem, w: View)
    requires v.Laid() && v.Binned(loose) && p != v.dv
    requires InsertPlace(v.mem, v.chunks, v.bins, v.msp, loose, p, i, h, f) && (f == h || FreeAt(v.chunks, f))
    requires h + FD in v.mem && p + FD in v.mem && p + BK in v.mem && f + BK in v.mem
    requires n == LinkedSmall(v.mem, h, f, p) && w == v.(mem := n, bins := PutSmall(v.bins, i, p))
    ensures w.Laid() && w.Binned(loose - {p}) && DataKept(v.mem, n, v.chunks, v.direct, {}, v.msp)
  {
    hide Tiled, Tagged, Mapped, TopIs, StateAt, SegsOK, DirectOK, SmallOK, TreesOK, Match, DataKept, OnlyRings;
    hide LinkedSmall;
    hide FreeAt, PutSmall;
    OnlyInserted(v.mem, h, f, p);
    SmallInserted(v.mem, n, v.chunks, v.bins, v.msp, v.dv, v.dvsize, loose, p, i, h, f);
    RingsKeep(v, n, i, {h, f, p});
  }

  /** Stores to ring links of bin i leave chunks, segments and data alone. */
  lemma RingsKeep(v: View, n: Mem, i: nat, q: set<int>)
    requires v.Laid() && OnlyRings(v.mem, n, q) && i < 32
    requires forall a | a in q :: a == SmallBin(v.msp, i) || FreeAt(v.chunks, a)
    ensures v.(mem := n).Laid() && DataKept(v.mem, n, v.chunks, v.direct, {}, v.msp)
  {
    SmallLinksOnly(v.mem, n, v.chunks, v.msp, i, q);
    LinksKeep(v.mem, n, v.chunks, v.top, v.topsize, v.segs, v.direct, v.msp);
  }

  lemma SmallUnlinkReady(v: View, loose: set<int>, p: int)
    requires v.Laid() && v.Binned(loose) && FreeAt(v.chunks, p) && p !in loose && p != v.dv &&
      v.chunks[p].size < MIN_LARGE_SIZE
    ensures 0 <= v.chunks[p].size / 8 < 32 && |v.bins.small| == 32 && p in v.bins.small[v.chunks[p].size / 8]
    ensures p + FD in v.mem && p + BK in v.mem && Fd(v.mem, p) + BK in v.mem && Bk(v.mem, p) + FD in v.mem
    ensures var i, f, k := v.chunks[p].size / 8, Fd(v.mem, p), Bk(v.mem, p);
      && (f == SmallBin(v.msp, i) || FreeAt(v.chunks, f)) && (k == SmallBin(v.msp, i) || FreeAt(v.chunks, k))
      && (f == k <==> Without(v.bins.small[i], p) == [])
  {
    hide Tiled, Tagged, Mapped, TopIs, StateAt, SegsOK, DirectOK, SmallOK, TreesOK, TreesHold, VictimOK;
    var i := v.chunks[p].size / 8;
    SmallSize(v, loose, p);
    TableShape(v, loose);
    assert IsBinned(v.chunks, v.bins, p);
    FreeMapped(v.mem, v.chunks, p);
    HeaderMapped(v.mem, v.chunks, v.msp, i);
    RemovedRing(v.mem, v.chunks, v.bins, v.msp, v.dv, v.dvsize, loose, p, i);
    var f, k := Fd(v.mem, p), Bk(v.mem, p);
    if f != SmallBin(v.msp, i) {
      FreeMapped(v.mem, v.chunks, f);
    }
    if k != SmallBin(v.msp, i) {
      FreeMapped(v.mem, v.chunks, k);
    }
  }

  lemma SmallUnlinkDone(v: View, loose: set<int>, p: int, i: nat, n: Mem, w: View)
    requires v.Laid() && v.Binned(loose) && i < 32 && |v.bins.small| == 32 && p in v.bins.small[i]
    requires var f, k := Fd(v.mem, p), Bk(v.mem, p);
      && (f == SmallBin(v.msp, i) || FreeAt(v.chunks, f)) && (k == SmallBin(v.msp, i) || FreeAt(v.chunks, k))
      && (if f == k then n == v.mem else n == UnlinkedSmall(v.mem, f, k))
      && f + BK in v.mem && k + FD in v.mem
    requires w == v.(mem := n, bins := TakeSmall(v.bins, i, p))
    ensures w.Laid() && w.Binned(loose + {p}) && DataKept(v.mem, n, v.chunks, v.direct, {}, v.msp)
  {
    hide Tiled, Tagged, Mapped, TopIs, StateAt, SegsOK, DirectOK, SmallOK, TreesOK, Match, DataKept, FreeAt, TakeSmall;
    var f, k := Fd(v.mem, p), Bk(v.mem, p);
    OnlyUnlinked(v.mem, n, f, k);
    SmallRemoved(v.mem, n, v.chunks, v.bins, v.msp, v.dv, v.dvsize, loose, p, i);
    RingsKeep(v, n, i, {f, k});
  }

  lemma OnlyUnlinked(m: Mem, n: Mem, f: int, k: int)
    requires if f == k then n == m else n == UnlinkedSmall(m, f, k)
    requires f + BK in m && k + FD in m
    ensures OnlyRings(m, n, {f, k})
  {
  }

  /** The two stores of a removal go to different words, so their order does not matter. */
  lemma SwappedStores(m: Mem, n: Mem, p: int)
    requires var f, k := Fd(m, p), Bk(m, p); if f == k then n == m else n == m[k + FD := f][f + BK := k]
    requires Fd(m, p) + BK != Bk(m, p) + FD
    ensures var f, k := Fd(m, p), Bk(m, p); if f == k then n == m else n == UnlinkedSmall(m, f, k)
  {
  }

  lemma SmallFirst(v: View, loose: set<int>, p: int, i: nat)
    requires v.Laid() && v.Binned(loose) && i < 32 && |v.bins.small| == 32 && v.bins.small[i] != []
    requires p == Fd(v.mem, SmallBin(v.msp, i))
    ensures p == v.bins.small[i][0] && FreeAt(v.chunks, p) && p !in loose && p != v.dv && v.chunks[p].size == 8 * i
    ensures Bk(v.mem, p) == SmallBin(v.msp, i) && Fd(v.mem, p) + BK != Bk(v.mem, p) + FD
  {
    hide Tiled, Tagged, Mapped, TopIs, StateAt, SegsOK, DirectOK, TreesOK, TreesHold, VictimOK, AllBinned;
    var h := SmallBin(v.msp, i);
    var ring := [h] + v.bins.small[i];
    RingNeighbours(v.mem, ring, 0);
    RingNeighbours(v.mem, ring, 1);
    assert p == v.bins.small[i][0] && p in v.bins.small[i];
    RemovedRing(v.mem, v.chunks, v.bins, v.msp, v.dv, v.dvsize, loose, p, i);
    var f := Fd(v.mem, p);
    if f != h {
      FreeOffHeader(v, f, i);
    }
  }

  /** A marked small bin has a first chunk. */
  lemma MarkedBin(v: View, loose: set<int>, i: nat)
    requires v.Laid() && v.Binned(loose) && Marked(v.bins.smallmap, i)
    ensures i < 32 && |v.bins.small| == 32 && v.bins.small[i] != [] && SmallBin(v.msp, i) + FD in v.mem
  {
    hide Tiled, Tagged, TopIs, SegsOK, DirectOK, TreesOK, Match;
    HeaderMapped(v.mem, v.chunks, v.msp, if i < 32 then i else 0);
  }

  lemma FreeOffHeader(v: View, a: int, i: nat)
    requires v.Laid() && FreeAt(v.chunks, a) && i < 32
    ensures a + 32 <= SmallBin(v.msp, i) || SmallBin(v.msp, i) + 32 <= a
  {
    hide Tagged, Mapped, TopIs, SegsOK, DirectOK, Linked, Preceded;
    assert ChunkOK(a, v.chunks[a]);
    FreeOffState(v.chunks, v.msp, a);
  }

  lemma SmallLinksOnly(m: Mem, n: Mem, cs: Chunks, msp: int, i: int, q: set<int>)
    requires Tiled(cs) && OnlyRings(m, n, q) && 0 <= i < 32
    requires forall a | a in q :: a == SmallBin(msp, i) || FreeAt(cs, a)
    ensures LinksOnly(m, n, cs, msp)
  {
    forall w | !LinkWord(cs, msp, w)
      ensures Rd(n, w) == Rd(m, w)
    {
      forall a | a in q
        ensures w != a + FD && w != a + BK
      {
        if a in cs {
          assert ChunkOK(a, cs[a]);
        }
      }
    }
  }

  // ----- tree bins -----

  lemma RootTree(v: View, loose: set<int>, i: nat)
    requires v.Laid() && v.Binned(loose) && i < 32
    ensures |v.bins.trees| == |v.bins.roots| == 32
    ensures TreeOK(v.mem, v.bins.trees[i], v.bins.roots[i], i, v.msp) &&
      (Marked(v.bins.treemap, i) <==> v.bins.trees[i].Node?)
    ensures Within(v.bins.trees[i], v.bins.trees[i]) && Spaced(v.bins.trees[i])
    ensures forall a | Has(v.bins.trees[i], a) :: a != 0
  {
    hide Tagged, Mapped, TopIs, StateAt, SegsOK, DirectOK, SmallOK, Linked, Preceded, AllBinned, SmallHold, VictimOK;
    hide TreeOK, Apart;
    assert TreeOK(v.mem, v.bins.trees[i], v.bins.roots[i], i, v.msp);
    TreeParts(v.mem, v.bins.trees[i], v.bins.roots[i], i, v.msp);
    TreeSpaced(v.chunks, v.bins.trees[i]);
    forall a | Has(v.bins.trees[i], a)
      ensures a != 0
    {
      assert ChunkOK(a, v.chunks[a]);
    }
  }

  lemma TreeParts(m: Mem, t: Tree, root: int, i: nat, msp: int)
    requires TreeOK(m, t, root, i, msp)
    ensures Rep(m, t, TreeBin(msp, i), i) && Shape(t, Low(i), Width(i)) && Distinct(t) && root == Addr(t)
  {
  }

  /** A chunk of a tree: free, mapped, with its size in its head. */
  lemma TreeChunk(v: View, loose: set<int>, i: nat, a: int)
    requires v.Laid() && v.Binned(loose) && i < 32 && |v.bins.trees| == 32 && Has(v.bins.trees[i], a)
    ensures FreeAt(v.chunks, a) && a != v.dv && a !in loose && LinksMapped(v.mem, a) && a + HEAD in v.mem
    ensures v.chunks[a].size == SizeOf(v.bins.trees[i], a) == ChunkSize(Head(v.mem, a)) &&
      v.chunks[a].size >= MIN_LARGE_SIZE
    ensures Index(v.chunks[a].size) == i && a > 0
  {
    hide TopIs, StateAt, SegsOK, DirectOK, SmallOK, TreesOK, Linked, Preceded, AllBinned, SmallHold, VictimOK, Apart;
    hide LinksMapped;
    assert ChunkOK(a, v.chunks[a]);
    HeadBits(v.chunks[a]);
    FreeMapped(v.mem, v.chunks, a);
  }

  /** The same for the top chunk of a subtree. */
  lemma TreeNode(v: View, loose: set<int>, i: nat, cur: Tree, par: int)
    requires v.Laid() && v.Binned(loose) && i < 32 && |v.bins.trees| == 32
    requires cur.Node? && Within(v.bins.trees[i], cur) && Rep(v.mem, cur, par, i)
    ensures var t := Addr(cur);
      && Has(v.bins.trees[i], t) && t > 0 && LinksMapped(v.mem, t) && t + HEAD in v.mem
      && ChunkSize(Head(v.mem, t)) == cur.size && Child0(v.mem, t) == Addr(cur.left) &&
        Child1(v.mem, t) == Addr(cur.right)
      && (Addr(cur.left) != 0 <==> cur.left.Node?) && (Addr(cur.right) != 0 <==> cur.right.Node?)
  {
    hide View.Laid, View.Binned, Within, LinksMapped;
    WithinTop(v.bins.trees[i], cur);
    TreeChunk(v, loose, i, Addr(cur));
    WithinChild(v.bins.trees[i], cur);
    if cur.left.Node? {
      WithinTop(v.bins.trees[i], cur.left);
      TreeChunk(v, loose, i, Addr(cur.left));
    }
    if cur.right.Node? {
      WithinTop(v.bins.trees[i], cur.right);
      TreeChunk(v, loose, i, Addr(cur.right));
    }
  }

  /** A loose large chunk and the bin it goes to. */
  lemma LargeInsertReady(v: View, loose: set<int>, x: int, i: nat)
    requires v.Laid() && v.Binned(loose) && x in loose && v.chunks[x].size >= MIN_LARGE_SIZE &&
      i == Index(v.chunks[x].size)
    ensures i < 32 && x > 0 && FreeAt(v.chunks, x) && LinksMapped(v.mem, x) && |v.bins.trees| == |v.bins.roots| == 32
    ensures var t, s := v.bins.trees[i], v.chunks[x].size;
      && s > 0 && !Has(t, x) && ClearOf(t, x) && Low(i) <= s < Low(i) + Pow2(Width(i))
      && OnPath(t, Low(i), Width(i), s, s * Pow2(LeftShift(i)) % Pow2(64))
  {
    hide Tagged, TopIs, StateAt, SegsOK, DirectOK, SmallOK, Linked, Preceded, AllBinned, SmallHold, VictimOK, TreeOK;
    hide LinksMapped, Pow2, Shape;
    assert ChunkOK(x, v.chunks[x]);
    ChunkIndex(v.chunks, x);
    RootTree(v, loose, i);
    TreeParts(v.mem, v.bins.trees[i], v.bins.roots[i], i, v.msp);
    FreeMapped(v.mem, v.chunks, x);
    forall a | Has(v.bins.trees[i], a)
      ensures a + 64 <= x || x + 64 <= a
    {
      FreeApart(v.chunks, a, x);
    }
  }

  /** Chunk x of s bytes is about to enter tree bin i. */
  ghost predicate LinkingIn(v: View, loose: set<int>, i: nat, x: int, s: nat) {
    && v.Laid() && v.Binned(loose) && x in loose && x in v.chunks && v.chunks[x].size == s >= MIN_LARGE_SIZE &&
      i == Index(s)
  }

  /** It did, with memory n, roots and bit map as after the insertion. */
  ghost predicate LinkedIn(v: View, i: nat, x: int, s: nat, n: Mem, roots: seq<int>, bits: nat) {
    && i < 32 == |v.bins.trees| == |v.bins.roots|
    && var t := Insert(v.bins.trees[i], x, s, Low(i), Width(i));
    && OnlyTree(v.mem, n, v.bins.trees[i], x) && Rep(n, t, TreeBin(v.msp, i), i)
    && roots == v.bins.roots[i := Addr(t)] && bits == Mark(v.bins.treemap, i)
  }

  lemma LinksAll(m: Mem, x: int)
    requires LinksMapped(m, x)
    ensures x + INDEX in m && x + CHILD0 in m && x + CHILD1 in m
  {
  }

  /** x as the only chunk of an empty bin. */
  lemma EmptyBinInsert(v: View, x: int, s: nat, i: nat)
    requires LinksMapped(v.mem, x) && x != 0 && Low(i) <= s < Low(i) + Pow2(Width(i))
    ensures var n := Rooted(v.mem, x, i, TreeBin(v.msp, i));
      OnlyTree(v.mem, n, Nil, x) && Rep(n, Insert(Nil, x, s, Low(i), Width(i)), TreeBin(v.msp, i), i)
    ensures Addr(Insert(Nil, x, s, Low(i), Width(i))) == x
  {
    RootedOK(v.mem, x, i, s, v.msp);
  }

  /** The state of an insertion descent at node cur of the tree in bin i. */
  ghost predicate Descending(v: View, i: nat, cur: Tree, par: int, lo: nat, w: nat, s: nat, key: nat)
    requires |v.bins.trees| == 32 && i < 32 && v.bins.trees[i].Node?
  {
    && cur.Node? && Within(v.bins.trees[i], cur) && Rep(v.mem, cur, par, i) && OnPath(cur, lo, w, s, key)
    && StopAt(v.bins.trees[i], s, Low(i), Width(i)) == StopAt(cur, s, lo, w)
  }

  lemma DescentStart(v: View, loose: set<int>, i: nat, s: nat, key: nat)
    requires v.Laid() && v.Binned(loose) && i < 32 && |v.bins.trees| == |v.bins.roots| == 32 && v.bins.trees[i].Node?
    requires OnPath(v.bins.trees[i], Low(i), Width(i), s, key)
    ensures Descending(v, i, v.bins.trees[i], TreeBin(v.msp, i), Low(i), Width(i), s, key)
  {
    hide View.Laid, View.Binned, Rep, Within, OnPath, TreeOK;
    RootTree(v, loose, i);
    TreeParts(v.mem, v.bins.trees[i], v.bins.roots[i], i, v.msp);
  }

  /** Preparing x leaves the fields of the tree's chunks alone. */
  lemma PreparedElsewhere(v: View, i: nat, x: int, t: int)
    requires i < |v.bins.trees| && ClearOf(v.bins.trees[i], x) && Has(v.bins.trees[i], t)
    ensures var n := Prepared(v.mem, x, i);
      && Head(n, t) == Head(v.mem, t) && Fd(n, t) == Fd(v.mem, t)
      && Child0(n, t) == Child0(v.mem, t) && Child1(n, t) == Child1(v.mem, t)
  {
    hide Has;
    assert t + 64 <= x || x + 64 <= t;
  }

  lemma RepChildren(m: Mem, cur: Tree, par: int, idx: int)
    requires cur.Node? && Rep(m, cur, par, idx)
    ensures Rep(m, cur.left, Addr(cur), idx) && Rep(m, cur.right, Addr(cur), idx)
  {
  }

  lemma StopStep(cur: Tree, s: nat, lo: nat, w: nat)
    requires cur.Node? && cur.size != s && w > 0
    ensures s < lo + Pow2(w - 1) && cur.left.Node? ==> StopAt(cur, s, lo, w) == StopAt(cur.left, s, lo, w - 1)
    ensures s >= lo + Pow2(w - 1) && cur.right.Node? ==>
      StopAt(cur, s, lo, w) == StopAt(cur.right, s, lo + Pow2(w - 1), w - 1)
    ensures (if s < lo + Pow2(w - 1) then cur.left.Nil? else cur.right.Nil?) ==> StopAt(cur, s, lo, w) == (cur, lo, w)
  {
  }

  /** One step of the descent, from a node of another size. */
  lemma DescendStep(v: View, i: nat, cur: Tree, par: int, lo: nat, w: nat, s: nat, key: nat)
    requires |v.bins.trees| == 32 && i < 32 && v.bins.trees[i].Node?
    requires Descending(v, i, cur, par, lo, w, s, key) && cur.size != s
    ensures w > 0 && ChildAt(key) == if s < lo + Pow2(w - 1) then CHILD0 else CHILD1
    ensures s < lo + Pow2(w - 1) && cur.left.Node? ==>
      Descending(v, i, cur.left, Addr(cur), lo, w - 1, s, key * 2 % Pow2(64))
    ensures s >= lo + Pow2(w - 1) && cur.right.Node? ==>
      Descending(v, i, cur.right, Addr(cur), lo + Pow2(w - 1), w - 1, s, key * 2 % Pow2(64))
    ensures (if s < lo + Pow2(w - 1) then cur.left.Nil? else cur.right.Nil?) ==> StopAt(cur, s, lo, w) == (cur, lo, w)
  {
    hide Within, OnPath, Pow2, Rep, StopAt, ChildAt, Addr;
    PathOpen(cur, lo, w, s, key);
    PathBit(cur, lo, w, s, key);
    WithinChild(v.bins.trees[i], cur);
    RepChildren(v.mem, cur, par, i);
    StopStep(cur, s, lo, w);
  }

  /** What the descent reads at node cur, x being prepared already. */
  lemma DescendLook(v: View, loose: set<int>, i: nat, cur: Tree, par: int, lo: nat, w: nat, s: nat, key: nat, x: int,
      n: Mem)
    requires v.Laid() && v.Binned(loose) && i < 32 && |v.bins.trees| == 32 && v.bins.trees[i].Node? && cur.Node?
    requires Descending(v, i, cur, par, lo, w, s, key)
    requires ClearOf(v.bins.trees[i], x) && LinksMapped(v.mem, x) && n == Prepared(v.mem, x, i)
    ensures var t := Addr(cur);
      && t + HEAD in n && t + CHILD0 in n && t + CHILD1 in n && t + FD in n
      && ChunkSize(Rd(n, t + HEAD)) == cur.size
      && Rd(n, t + CHILD0) == Addr(cur.left) && Rd(n, t + CHILD1) == Addr(cur.right) && Rd(n, t + FD) == Fd(v.mem, t)
      && (Addr(cur.left) != 0 <==> cur.left.Node?) && (Addr(cur.right) != 0 <==> cur.right.Node?)
    ensures n.Keys == v.mem.Keys
  {
    hide View.Laid, View.Binned, Within, Rep, OnPath, StopAt, Has, ClearOf;
    TreeNode(v, loose, i, cur, par);
    PreparedElsewhere(v, i, x, Addr(cur));
  }

  lemma AttachDone(v: View, loose: set<int>, x: int, i: nat, s: nat, cur: Tree, par: int, lo: nat, w: nat, key: nat)
    requires v.Laid() && v.Binned(loose) && i < 32 && |v.bins.trees| == |v.bins.roots| == 32 && v.bins.trees[i].Node?
    requires Descending(v, i, cur, par, lo, w, s, key) && cur.size != s && StopAt(cur, s, lo, w) == (cur, lo, w)
    requires ClearOf(v.bins.trees[i], x) && LinksMapped(v.mem, x)
    requires OnPath(v.bins.trees[i], Low(i), Width(i), s, s * Pow2(LeftShift(i)) % Pow2(64))
    ensures var n := Attached(v.mem, x, i, Addr(cur), Addr(cur) + ChildAt(key));
      && OnlyTree(v.mem, n, v.bins.trees[i], x)
      && Rep(n, Insert(v.bins.trees[i], x, s, Low(i), Width(i)), TreeBin(v.msp, i), i)
  {
    hide View.Laid, View.Binned, Rep, Within, LinksMapped, OnlyTree, Insert, TreeOK, Low, Width, LeftShift, Pow2;
    hide StopAt, Shape, ClearOf, Spaced;
    var t := v.bins.trees[i];
    RootTree(v, loose, i);
    TreeParts(v.mem, t, v.bins.roots[i], i, v.msp);
    PathOpen(cur, lo, w, s, key);
    PathBit(cur, lo, w, s, key);
    TreeNode(v, loose, i, cur, par);
    SlotMapped(v.mem, Addr(cur), ChildAt(key));
    AttachedOK(v.mem, t, x, i, s, TreeBin(v.msp, i), Addr(cur), Addr(cur) + ChildAt(key), Low(i), Width(i));
  }

  lemma SlotMapped(m: Mem, a: int, c: int)
    requires LinksMapped(m, a) && (c == CHILD0 || c == CHILD1)
    ensures a + c in m
  {
  }

  /** The stores that attach x below node cur, whose selected child is missing. */
  lemma AttachStart(v: View, loose: set<int>, x: int, i: nat, s: nat, cur: Tree, par: int, lo: nat, w: nat, key: nat,
      n: Mem)
    requires v.Laid() && v.Binned(loose) && i < 32 && |v.bins.trees| == |v.bins.roots| == 32 && v.bins.trees[i].Node?
    requires Descending(v, i, cur, par, lo, w, s, key) && cur.size != s && StopAt(cur, s, lo, w) == (cur, lo, w)
    requires ClearOf(v.bins.trees[i], x) && LinksMapped(v.mem, x) && n == Prepared(v.mem, x, i)
    requires OnPath(v.bins.trees[i], Low(i), Width(i), s, s * Pow2(LeftShift(i)) % Pow2(64))
    ensures x + PARENT in n && x + BK in n && x + FD in n
    ensures var t := Addr(cur); var d := n[t + ChildAt(key) := x][x + PARENT := t][x + BK := x][x + FD := x];
      && OnlyTree(v.mem, d, v.bins.trees[i], x)
      && Rep(d, Insert(v.bins.trees[i], x, s, Low(i), Width(i)), TreeBin(v.msp, i), i)
  {
    hide View.Laid, View.Binned, Rep, Within, OnlyTree, Insert, Low, Width, LeftShift, Pow2, StopAt, ClearOf;
    hide Descending, OnPath;
    AttachDone(v, loose, x, i, s, cur, par, lo, w, key);
  }

  /** The stores that join x to the ring of node cur. */
  lemma JoinStart(v: View, loose: set<int>, x: int, i: nat, s: nat, cur: Tree, par: int, lo: nat, w: nat, key: nat,
      n: Mem)
    requires v.Laid() && v.Binned(loose) && i < 32 && |v.bins.trees| == |v.bins.roots| == 32 && v.bins.trees[i].Node?
    requires Descending(v, i, cur, par, lo, w, s, key) && cur.size == s
    requires ClearOf(v.bins.trees[i], x) && !Has(v.bins.trees[i], x) && LinksMapped(v.mem, x) &&
      n == Prepared(v.mem, x, i)
    requires OnPath(v.bins.trees[i], Low(i), Width(i), s, s * Pow2(LeftShift(i)) % Pow2(64))
    ensures x + PARENT in n && x + BK in n && x + FD in n && Fd(v.mem, Addr(cur)) + BK in n
    ensures var t, f := Addr(cur), Fd(v.mem, Addr(cur));
      var d := n[f + BK := x][t + FD := x][x + FD := f][x + BK := t][x + PARENT := 0];
      && OnlyTree(v.mem, d, v.bins.trees[i], x)
      && Rep(d, Insert(v.bins.trees[i], x, s, Low(i), Width(i)), TreeBin(v.msp, i), i)
  {
    hide View.Laid, View.Binned, Rep, Within, OnlyTree, Insert, Low, Width, LeftShift, Pow2, StopAt, ClearOf, OnPath;
    hide Has;
    JoinReady(v, loose, i, cur, par);
    JoinDone(v, loose, x, i, s, cur, par, lo, w, key);
  }

  lemma JoinReady(v: View, loose: set<int>, i: nat, cur: Tree, par: int)
    requires v.Laid() && v.Binned(loose) && i < 32 && |v.bins.trees| == 32
    requires cur.Node? && Within(v.bins.trees[i], cur) && Rep(v.mem, cur, par, i)
    ensures Has(v.bins.trees[i], Fd(v.mem, Addr(cur))) && LinksMapped(v.mem, Fd(v.mem, Addr(cur)))
  {
    hide View.Laid, View.Binned, LinksMapped;
    RingMembers(cur);
    RingNeighbours(v.mem, cur.ring, 0);
    TreeChunk(v, loose, i, Fd(v.mem, Addr(cur)));
  }

  lemma JoinDone(v: View, loose: set<int>, x: int, i: nat, s: nat, cur: Tree, par: int, lo: nat, w: nat, key: nat)
    requires v.Laid() && v.Binned(loose) && i < 32 && |v.bins.trees| == |v.bins.roots| == 32 && v.bins.trees[i].Node?
    requires Descending(v, i, cur, par, lo, w, s, key) && cur.size == s
    requires ClearOf(v.bins.trees[i], x) && !Has(v.bins.trees[i], x) && LinksMapped(v.mem, x)
    requires OnPath(v.bins.trees[i], Low(i), Width(i), s, s * Pow2(LeftShift(i)) % Pow2(64))
    ensures var n := Joined(v.mem, x, i, Addr(cur));
      && OnlyTree(v.mem, n, v.bins.trees[i], x)
      && Rep(n, Insert(v.bins.trees[i], x, s, Low(i), Width(i)), TreeBin(v.msp, i), i)
  {
    hide View.Laid, View.Binned, Rep, Within, OnlyTree, Insert, TreeOK, Low, Width, LeftShift, Pow2, Shape, ClearOf;
    hide Spaced;
    var t := v.bins.trees[i];
    RootTree(v, loose, i);
    TreeParts(v.mem, t, v.bins.roots[i], i, v.msp);
    TreeNode(v, loose, i, cur, par);
    JoinReady(v, loose, i, cur, par);
    JoinedOK(v.mem, t, x, i, s, TreeBin(v.msp, i), Addr(cur), Low(i), Width(i));
  }

  lemma LargeInsertDone(v: View, loose: set<int>, x: int, i: nat, n: Mem, w: View)
    requires v.Laid() && v.Binned(loose) && i < 32 && x in loose && x != v.dv && FreeAt(v.chunks, x)
    requires |v.bins.trees| == |v.bins.roots| == 32
    requires v.chunks[x].size >= MIN_LARGE_SIZE && i == Index(v.chunks[x].size)
    requires OnlyTree(v.mem, n, v.bins.trees[i], x)
    requires Rep(n, Insert(v.bins.trees[i], x, v.chunks[x].size, Low(i), Width(i)), TreeBin(v.msp, i), i)
    requires w == v.(mem := n, bins := PutLarge(v.bins, i, x, v.chunks[x].size))
    ensures w.Laid() && w.Binned(loose - {x}) && DataKept(v.mem, n, v.chunks, v.direct, {}, v.msp)
  {
    hide Tiled, Tagged, Mapped, TopIs, StateAt, SegsOK, DirectOK, SmallOK, TreesOK, Match, DataKept, FreeAt, PutLarge;
    hide Rep, OnlyTree;
    LargeInserted(v.mem, n, v.chunks, v.bins, v.msp, v.dv, v.dvsize, loose, i, x);
    LinksKeep(v.mem, n, v.chunks, v.top, v.topsize, v.segs, v.direct, v.msp);
  }

  lemma LinkingReady(v: View, loose: set<int>, x: int, s: nat, i: nat)
    requires LinkingIn(v, loose, i, x, s)
    ensures i < 32 && |v.bins.trees| == 32 && x + INDEX in v.mem && x + CHILD0 in v.mem && x + CHILD1 in v.mem
  {
    hide View.Laid, View.Binned, Has, ClearOf, OnPath, Index;
    LargeInsertReady(v, loose, x, i);
    LinksAll(v.mem, x);
  }

  /** The table after the insertion. */
  ghost function LinkedView(v: View, i: nat, t: Tree, n: Mem, roots: seq<int>, bits: nat): View
    requires i < |v.bins.trees|
  {
    v.(mem := n, bins := v.bins.(trees := v.bins.trees[i := t], roots := roots, treemap := bits))
  }

  lemma LinkedDone(v: View, loose: set<int>, i: nat, x: int, s: nat, n: Mem, roots: seq<int>, bits: nat)
    requires LinkingIn(v, loose, i, x, s) && x != v.dv && LinkedIn(v, i, x, s, n, roots, bits)
    ensures |v.bins.trees| == 32 && i < 32
    ensures var w := LinkedView(v, i, Insert(v.bins.trees[i], x, s, Low(i), Width(i)), n, roots, bits);
      w.Laid() && w.Binned(loose - {x}) && DataKept(v.mem, n, v.chunks, v.direct, {}, v.msp)
  {
    hide View.Laid, View.Binned, Has, ClearOf, OnPath, Index, DataKept, OnlyTree, Rep, Insert, Low, Width;
    LargeInsertReady(v, loose, x, i);
    var t := Insert(v.bins.trees[i], x, s, Low(i), Width(i));
    LargeInsertDone(v, loose, x, i, n, LinkedView(v, i, t, n, roots, bits));
  }

  // ----- unlinking from a tree bin -----

  lemma SpacedWithin(t: Tree, h: Tree)
    requires Spaced(t) && forall a | Has(h, a) :: Has(t, a)
    ensures Spaced(h)
  {
  }

  lemma {:induction false} HolderWithin(t: Tree, x: int)
    requires Has(t, x) && Distinct(t)
    ensures Within(t, Holder(t, x))
  {
    DistinctParts(t);
    RingMembers(t);
    if x !in t.ring {
      if Has(t.left, x) {
        HolderWithin(t.left, x);
      } else {
        HolderWithin(t.right, x);
      }
    }
  }

  /** The tree chunk x, the node h that holds it, and what its links say. */
  ghost predicate HeldBy(m: Mem, t: Tree, i: nat, slot: int, h: Tree, x: int) {
    && Has(t, x) && h == Holder(t, x) && Distinct(t) && Spaced(t) && Rep(m, t, slot, i)
    && Within(t, h) && Spaced(h) && NonEmptyRings(h) && Rep(m, h, Parent(m, h.ring[0]), i)
    && (forall a | Has(t, a) :: a != 0)
    && (h.ring[0] == Addr(t) <==> x in t.ring)
  }

  lemma HolderFacts(v: View, loose: set<int>, i: nat, x: int)
    requires v.Laid() && v.Binned(loose) && i < 32 && |v.bins.trees| == |v.bins.roots| == 32 && Has(v.bins.trees[i], x)
    ensures var t := v.bins.trees[i]; HeldBy(v.mem, t, i, TreeBin(v.msp, i), Holder(t, x), x)
  {
    hide View.Laid, View.Binned, Has, Rep, TreeOK, Shape, NodeAt, Spaced, NonEmptyRings;
    var t := v.bins.trees[i];
    var h := Holder(t, x);
    RootTree(v, loose, i);
    TreeParts(v.mem, t, v.bins.roots[i], i, v.msp);
    HolderRep(v.mem, t, TreeBin(v.msp, i), i, x);
    HolderWithin(t, x);
    SpacedWithin(t, h);
    RepNonEmpty(v.mem, h, Parent(v.mem, Addr(h)), i);
    RepNonEmpty(v.mem, t, TreeBin(v.msp, i), i);
    RootHolder(t, x);
  }

  lemma RootHolder(t: Tree, x: int)
    requires Has(t, x) && Distinct(t) && NonEmptyRings(t)
    ensures Holder(t, x).ring[0] == Addr(t) <==> x in t.ring
  {
    DistinctParts(t);
    RingMembers(t);
    if x !in t.ring {
      var c := if Has(t.left, x) then t.left else t.right;
      HolderWithin(c, x);
      RingMembers(Holder(c, x));
    }
  }

  /** The links of x itself. */
  lemma HeldLinks(m: Mem, t: Tree, i: nat, slot: int, h: Tree, x: int)
    requires HeldBy(m, t, i, slot, h, x)
    ensures TreeIdx(m, x) == i && Has(t, Fd(m, x)) && Has(t, Bk(m, x))
    ensures Bk(m, x) == x <==> |h.ring| == 1
    ensures x != h.ring[0] ==> Parent(m, x) == 0 && Bk(m, x) != x
    ensures x == h.ring[0] && x in t.ring ==> Parent(m, x) == slot
    ensures x == h.ring[0] && x !in t.ring ==> Has(t, Parent(m, x)) && Parent(m, x) != 0
  {
    HolderRep(m, t, slot, i, x);
    DistinctParts(h);
    var k :| 0 <= k < |h.ring| && h.ring[k] == x;
    RingNeighbours(m, h.ring, k);
    RingMembers(h);
  }

  /** After the first half of `unlink_large_chunk`, with r found to take the place of head x. */
  ghost predicate CutOut(m: Mem, n: Mem, t: Tree, i: nat, h: Tree, x: int, r: int) {
    && Has(t, x) && h == Holder(t, x) && h.ring != []
    && n.Keys == m.Keys && TreeIdx(n, x) == TreeIdx(m, x)
    && if x != h.ring[0] then n == Unrung(m, x)
       else r == Addr(Unring(h, x)) && OnlyOf(m, n, h) && if Unring(h, x).Node? then Cut(n, h, x, i) else n == m
  }

  lemma CutRingDone(m: Mem, t: Tree, i: nat, slot: int, h: Tree, x: int)
    requires HeldBy(m, t, i, slot, h, x) && Bk(m, x) != x && Fd(m, x) + BK in m && Bk(m, x) + FD in m
    ensures CutOut(m, Unrung(m, x), t, i, h, x, Bk(m, x))
  {
    hide Rep, NodeAt, Cut, OnlyOf, Spaced, Distinct, NonEmptyRings, Has;
    HeldLinks(m, t, i, slot, h, x);
    UnrungIndex(m, t, x);
    if x == h.ring[0] {
      CutRing(m, h, x, Parent(m, x), i);
      UnrungOnly(m, h, x);
      UnringMany(h, x);
    }
  }

  lemma UnrungOnly(m: Mem, h: Tree, x: int)
    requires Has(h, Fd(m, x)) && Has(h, Bk(m, x))
    ensures OnlyOf(m, Unrung(m, x), h)
  {
  }

  lemma UnrungIndex(m: Mem, t: Tree, x: int)
    requires Spaced(t) && Has(t, x) && Has(t, Fd(m, x)) && Has(t, Bk(m, x))
    ensures TreeIdx(Unrung(m, x), x) == TreeIdx(m, x)
  {
    UnrungFields(m, x, t);
  }

  lemma UnringMany(h: Tree, x: int)
    requires h.Node? && x in h.ring && |h.ring| > 1
    ensures Unring(h, x).Node?
  {
  }

  lemma CutNoneDone(m: Mem, t: Tree, i: nat, slot: int, h: Tree, x: int)
    requires HeldBy(m, t, i, slot, h, x) && Bk(m, x) == x && h.left.Nil? && h.right.Nil?
    ensures CutOut(m, m, t, i, h, x, 0)
  {
    HeldLinks(m, t, i, slot, h, x);
    assert Unring(h, x) == Nil;
  }

  /** The walk to the deep leaf: c is the child it starts at, in slot0; cur is where it is, held in slot rp. */
  ghost predicate Sinking(m: Mem, t: Tree, i: nat, c: Tree, slot0: int, cur: Tree, par: int, rp: int) {
    && c.Node? && cur.Node? && Within(t, cur) && Rep(m, cur, par, i)
    && DeepSlot(c, slot0) == DeepSlot(cur, rp) && DeepLeaf(c) == DeepLeaf(cur)
  }

  lemma SinkStep(m: Mem, t: Tree, i: nat, c: Tree, slot0: int, cur: Tree, par: int, rp: int)
    requires Sinking(m, t, i, c, slot0, cur, par, rp)
    ensures cur.right.Node? ==> Sinking(m, t, i, c, slot0, cur.right, Addr(cur), Addr(cur) + CHILD1)
    ensures cur.right.Nil? && cur.left.Node? ==> Sinking(m, t, i, c, slot0, cur.left, Addr(cur), Addr(cur) + CHILD0)
    ensures cur.right.Nil? && cur.left.Nil? ==> DeepSlot(c, slot0) == rp && DeepLeaf(c) == cur
  {
    hide NodeAt, Has, Distinct;
    WithinChild(t, cur);
    RepChildren(m, cur, par, i);
  }

  lemma CutLeafDone(m: Mem, t: Tree, i: nat, slot: int, h: Tree, x: int, c: Tree, other: Tree, slot0: int, rp: int,
      r: int)
    requires HeldBy(m, t, i, slot, h, x) && Bk(m, x) == x && DeepStep(h, c, other, slot0)
    requires DeepSlot(c, slot0) == rp && Addr(DeepLeaf(c)) == r && rp in m
    ensures CutOut(m, m[rp := 0], t, i, h, x, r)
  {
    hide Rep, NodeAt, Cut, OnlyOf, Distinct, Spaced, NonEmptyRings, DeepSlot, DeepLeaf, Has, DeepStep;
    HeldLinks(m, t, i, slot, h, x);
    HolderRep(m, t, slot, i, x);
    assert h.Node? && h.ring == [x];
    CutLeaf(m, h, x, Parent(m, x), i, c, other, slot0);
    DeepSlotOnly(m, h, x, c, other, slot0);
    UnringLast(h, x, c, other, slot0);
  }

  lemma UnringLast(h: Tree, x: int, c: Tree, other: Tree, slot0: int)
    requires h.Node? && h.ring == [x] && DeepStep(h, c, other, slot0)
    ensures Unring(h, x).Node? && x == h.ring[0]
  {
  }

  /** The link to the deep leaf lies in chunks of h, and is no index field of x. */
  lemma DeepSlotOnly(m: Mem, h: Tree, x: int, c: Tree, other: Tree, slot0: int)
    requires h.Node? && h.ring == [x] && Spaced(h) && Distinct(h) && DeepStep(h, c, other, slot0) && NonEmptyRings(h)
    ensures OnlyOf(m, m[DeepSlot(c, slot0) := 0], h) && DeepSlot(c, slot0) != x + INDEX
  {
    var rp := DeepSlot(c, slot0);
    RingMembers(h);
    SpacedParts(h);
    DistinctParts(h);
    DeepSlotPlace(c, slot0);
    assert Has(h, x);
    hide DeepSlot;
    if rp != slot0 {
      var q :| Has(c, q) && q + CHILD0 <= rp <= q + CHILD1;
      assert Has(h, q);
    }
  }

  /** Chunk x, binned in tree i, is about to be cut out. */
  ghost predicate Cutting(v: View, loose: set<int>, i: nat, x: int) {
    && v.Laid() && v.Binned(loose) && i < 32 && |v.bins.trees| == |v.bins.roots| == 32 && Has(v.bins.trees[i], x)
    && Holder(v.bins.trees[i], x).ring != []
    && HeldBy(v.mem, v.bins.trees[i], i, TreeBin(v.msp, i), Holder(v.bins.trees[i], x), x)
  }

  /** Chunk x was cut out; r is to take its place. */
  ghost predicate WasCut(v: View, n: Mem, i: nat, x: int, r: int) {
    && i < 32 && |v.bins.trees| == 32 && Has(v.bins.trees[i], x)
    && CutOut(v.mem, n, v.bins.trees[i], i, Holder(v.bins.trees[i], x), x, r)
  }

  /** What `unlink_large_chunk` reads at x. */
  lemma CutReady(v: View, loose: set<int>, i: nat, x: int)
    requires v.Laid() && v.Binned(loose) && i < 32 && |v.bins.trees| == 32 && Has(v.bins.trees[i], x)
    requires HeldBy(v.mem, v.bins.trees[i], i, TreeBin(v.msp, i), Holder(v.bins.trees[i], x), x)
    ensures x + FD in v.mem && x + BK in v.mem && x + CHILD0 in v.mem && x + CHILD1 in v.mem && x + PARENT in v.mem &&
      x + INDEX in v.mem
    ensures Fd(v.mem, x) + BK in v.mem && Bk(v.mem, x) + FD in v.mem
    ensures var h := Holder(v.bins.trees[i], x);
      Bk(v.mem, x) == x ==>
        && x == h.ring[0] && Child0(v.mem, x) == Addr(h.left) && Child1(v.mem, x) == Addr(h.right)
        && (Addr(h.left) != 0 <==> h.left.Node?) && (Addr(h.right) != 0 <==> h.right.Node?)
  {
    hide View.Laid, View.Binned, Has, NodeAt, Within, Distinct, Spaced, NonEmptyRings;
    var t := v.bins.trees[i];
    var h := Holder(t, x);
    HeldLinks(v.mem, t, i, TreeBin(v.msp, i), h, x);
    TreeChunk(v, loose, i, x);
    TreeChunk(v, loose, i, Fd(v.mem, x));
    TreeChunk(v, loose, i, Bk(v.mem, x));
    if Bk(v.mem, x) == x {
      assert x in h.ring && |h.ring| == 1;
      TreeNode(v, loose, i, h, Parent(v.mem, x));
    }
  }

  lemma SinkStart(v: View, loose: set<int>, i: nat, h: Tree, x: int, c: Tree, rp: int)
    requires i < 32 && |v.bins.trees| == 32 && Has(v.bins.trees[i], x) && h == Holder(v.bins.trees[i], x) &&
      x == h.ring[0]
    requires HeldBy(v.mem, v.bins.trees[i], i, TreeBin(v.msp, i), h, x)
    requires c.Node? && (c == h.left || c == h.right)
    ensures Sinking(v.mem, v.bins.trees[i], i, c, rp, c, x, rp)
  {
    hide Has, NodeAt, Distinct, Spaced, NonEmptyRings;
    WithinChild(v.bins.trees[i], h);
    RepChildren(v.mem, h, Parent(v.mem, x), i);
  }

  lemma SinkLook(v: View, loose: set<int>, i: nat, c: Tree, slot0: int, cur: Tree, par: int, rp: int)
    requires v.Laid() && v.Binned(loose) && i < 32 && |v.bins.trees| == 32
    requires Sinking(v.mem, v.bins.trees[i], i, c, slot0, cur, par, rp)
    ensures var t := Addr(cur);
      && t + CHILD0 in v.mem && t + CHILD1 in v.mem
      && Child0(v.mem, t) == Addr(cur.left) && Child1(v.mem, t) == Addr(cur.right)
      && (Addr(cur.left) != 0 <==> cur.left.Node?) && (Addr(cur.right) != 0 <==> cur.right.Node?)
  {
    hide View.Laid, View.Binned, Has, Rep, Within, DeepSlot;
    TreeNode(v, loose, i, cur, par);
  }

  lemma UnlinkReady(v: View, loose: set<int>, x: int, i: nat)
    requires v.Laid() && v.Binned(loose) && FreeAt(v.chunks, x) && x !in loose && x != v.dv
    requires v.chunks[x].size >= MIN_LARGE_SIZE && i == Index(v.chunks[x].size)
    ensures i < 32 && |v.bins.trees| == |v.bins.roots| == 32 && Has(v.bins.trees[i], x)
    ensures x + PARENT in v.mem && x + INDEX in v.mem && Holder(v.bins.trees[i], x).ring != []
    ensures v.bins.trees[i].Node? && v.bins.roots[i] == Addr(v.bins.trees[i]) && Addr(v.bins.trees[i]) != 0
    ensures HeldBy(v.mem, v.bins.trees[i], i, TreeBin(v.msp, i), Holder(v.bins.trees[i], x), x)
  {
    hide Tiled, Tagged, Mapped, TopIs, StateAt, SegsOK, DirectOK, SmallOK, TreesOK, SmallHold, TreesHold, VictimOK;
    hide Has, HeldBy;
    TableShape(v, loose);
    ChunkIndexOf(v, x);
    assert IsBinned(v.chunks, v.bins, x);
    HolderFacts(v, loose, i, x);
    TreeChunk(v, loose, i, x);
    RootAddr(v, loose, i, x);
  }

  lemma RootAddr(v: View, loose: set<int>, i: nat, x: int)
    requires v.Laid() && v.Binned(loose) && i < 32 && |v.bins.trees| == |v.bins.roots| == 32 && Has(v.bins.trees[i], x)
    ensures v.bins.trees[i].Node? && v.bins.roots[i] == Addr(v.bins.trees[i]) && Addr(v.bins.trees[i]) != 0
  {
    hide View.Laid, View.Binned, TreeOK, Spaced, Within;
    RootTree(v, loose, i);
    TreeParts(v.mem, v.bins.trees[i], v.bins.roots[i], i, v.msp);
    RingMembers(v.bins.trees[i]);
  }

  lemma ChunkIndexOf(v: View, x: int)
    requires v.Laid() && x in v.chunks && v.chunks[x].size >= MIN_LARGE_SIZE
    ensures 0 <= Index(v.chunks[x].size) < 32
  {
    hide Index, Tagged, Mapped, TopIs, StateAt, SegsOK, DirectOK, Apart, Linked, Preceded;
    ChunkIndex(v.chunks, x);
  }

  /** The unlinking of x from the tree of bin i, up to memory m1, where the first half is done. */
  ghost predicate Unlinking(v: View, i: nat, x: int, xp: int, r: int, m1: Mem)
    requires i < 32 && |v.bins.trees| == 32
  {
    var t := v.bins.trees[i];
    && Has(t, x) && Holder(t, x).ring != []
    && HeldBy(v.mem, t, i, TreeBin(v.msp, i), Holder(t, x), x)
    && CutOut(v.mem, m1, t, i, Holder(t, x), x, r)
    && xp == Parent(v.mem, x)
    && (xp != 0 <==> x == Holder(t, x).ring[0])
  }

  lemma CutLook(v: View, loose: set<int>, x: int, i: nat, xp: int, r: int, m1: Mem)
    requires v.Laid() && v.Binned(loose) && i < 32 && |v.bins.trees| == |v.bins.roots| == 32
    requires var t := v.bins.trees[i];
      && Has(t, x) && Holder(t, x).ring != [] && HeldBy(v.mem, t, i, TreeBin(v.msp, i), Holder(t, x), x)
      && CutOut(v.mem, m1, t, i, Holder(t, x), x, r)
    requires xp == Parent(v.mem, x)
    ensures Unlinking(v, i, x, xp, r, m1)
    ensures xp != 0 ==> TreeIdx(m1, x) == i && x + INDEX in m1
    ensures xp != 0 ==> (x == v.bins.roots[i] <==> x in v.bins.trees[i].ring)
  {
    hide View.Laid, View.Binned, Rep, Spaced, Distinct, NodeAt, NonEmptyRings, TreeOK;
    var t := v.bins.trees[i];
    var h := Holder(t, x);
    HeldLinks(v.mem, t, i, TreeBin(v.msp, i), h, x);
    RootTree(v, loose, i);
    TreeParts(v.mem, t, v.bins.roots[i], i, v.msp);
    TreeChunk(v, loose, i, x);
    StateAbove(v, i);
  }

  lemma StateAbove(v: View, i: nat)
    requires v.Laid()
    ensures TreeBin(v.msp, i) > 0
  {
    assert ChunkOK(v.msp, v.chunks[v.msp]);
  }

  /** An inner node's parent is a tree chunk. */
  lemma RelinkLook(v: View, loose: set<int>, x: int, i: nat, xp: int, r: int, m1: Mem)
    requires v.Laid() && v.Binned(loose) && i < 32 && |v.bins.trees| == 32
    requires Unlinking(v, i, x, xp, r, m1) && xp != 0 && x !in v.bins.trees[i].ring
    ensures xp + CHILD0 in m1 && xp + CHILD1 in m1
  {
    hide View.Laid, View.Binned, Rep, Spaced, Distinct, NonEmptyRings, Has;
    HeldLinks(v.mem, v.bins.trees[i], i, TreeBin(v.msp, i), Holder(v.bins.trees[i], x), x);
    TreeChunk(v, loose, i, xp);
  }

  lemma RelinkIs(m: Mem, xp: int, x: int, r: int, n: Mem)
    requires n == if Child0(m, xp) == x then m[xp + CHILD0 := r] else m[xp + CHILD1 := r]
    ensures n == Relinked(m, xp, x, r)
  {
  }

  /** The memory after the parent's link was set: the root's link is in `treebins`. */
  ghost predicate LinkSet(v: View, i: nat, x: int, xp: int, r: int, m1: Mem, m2: Mem)
    requires i < 32 && |v.bins.trees| == 32 && v.bins.trees[i].Node?
  {
    if x in v.bins.trees[i].ring then m2 == m1 else m2 == Relinked(m1, xp, x, r) && m2.Keys == m1.Keys
  }

  /** The cut subtree is still in place when x's children are to be adopted. */
  lemma CutStays(v: View, i: nat, x: int, xp: int, r: int, m1: Mem, m2: Mem)
    requires i < 32 && |v.bins.trees| == 32 && v.bins.trees[i].Node?
    requires Unlinking(v, i, x, xp, r, m1) && xp != 0 && r != 0 && LinkSet(v, i, x, xp, r, m1, m2)
    ensures var h := Holder(v.bins.trees[i], x); Unring(h, x).Node? && Cut(m2, h, x, i)
  {
    hide Rep, Spaced, Distinct, NonEmptyRings, Has, Cut, Unring, Relinked;
    var t := v.bins.trees[i];
    var h := Holder(t, x);
    assert Unring(h, x).Node? by {
      NilAddr(Unring(h, x));
    }
    if x !in t.ring {
      HolderBelow(v.mem, t, TreeBin(v.msp, i), i, x);
      RelinkedFields(m1, t, h, xp, x, r);
      CutFrame(m1, m2, h, x, i);
    }
  }

  lemma NilAddr(u: Tree)
    ensures u.Nil? ==> Addr(u) == 0
  {
  }

  lemma AdoptLook(v: View, loose: set<int>, x: int, i: nat, xp: int, r: int, m1: Mem, m2: Mem)
    requires v.Laid() && v.Binned(loose) && i < 32 && |v.bins.trees| == 32 && v.bins.trees[i].Node?
    requires Unlinking(v, i, x, xp, r, m1) && xp != 0 && r != 0 && LinkSet(v, i, x, xp, r, m1, m2)
    ensures x + CHILD0 in m2 && x + CHILD1 in m2 && r + PARENT in m2 && r + CHILD0 in m2 && r + CHILD1 in m2
    ensures Child0(m2, x) != 0 ==> Child0(m2, x) + PARENT in m2 && Far(Child0(m2, x), x)
    ensures Child1(m2, x) != 0 ==> Child1(m2, x) + PARENT in m2
    ensures Far(x, r)
  {
    hide View.Laid, View.Binned, Rep, Spaced, NonEmptyRings, Has, Relinked, NodeAt, Unring, CutOut, Distinct;
    var t := v.bins.trees[i];
    var h := Holder(t, x);
    CutStays(v, i, x, xp, r, m1, m2);
    LinkKeys(v, i, x, xp, r, m1, m2);
    TreeChunk(v, loose, i, x);
    var u := Unring(h, x);
    UnringLoose(h, x);
    assert Addr(u) == r by {
      CutAddr(v.mem, m1, t, i, h, x, r);
    }
    PartTops(m2, u, x, i);
    InTree(v, loose, i, h, u, x, r);
    if u.left.Node? {
      InTree(v, loose, i, h, u, x, Addr(u.left));
    }
    if u.right.Node? {
      InTree(v, loose, i, h, u, x, Addr(u.right));
    }
  }

  lemma CutAddr(m: Mem, n: Mem, t: Tree, i: nat, h: Tree, x: int, r: int)
    requires Has(t, x) && h == Holder(t, x) && h.ring != [] && x == h.ring[0] && CutOut(m, n, t, i, h, x, r)
    ensures Addr(Unring(h, x)) == r && n.Keys == m.Keys
  {
  }

  lemma LinkKeys(v: View, i: nat, x: int, xp: int, r: int, m1: Mem, m2: Mem)
    requires i < 32 && |v.bins.trees| == 32 && v.bins.trees[i].Node?
    requires Unlinking(v, i, x, xp, r, m1) && LinkSet(v, i, x, xp, r, m1, m2)
    ensures m2.Keys == v.mem.Keys
  {
    hide Rep, Spaced, Distinct, NonEmptyRings, Has, Cut, Unring, Relinked;
  }

  lemma PartTops(m: Mem, u: Tree, x: int, i: nat)
    requires u.Node? && u.ring != [] && Rep(m, u.left, x, i) && Rep(m, u.right, x, i)
    ensures Has(u, Addr(u))
    ensures u.left.Node? ==> Has(u, Addr(u.left))
    ensures u.right.Node? ==> Has(u, Addr(u.right))
    ensures u.left.Nil? ==> Addr(u.left) == 0
    ensures u.right.Nil? ==> Addr(u.right) == 0
  {
    RingMembers(u);
    if u.left.Node? {
      RingMembers(u.left);
    }
    if u.right.Node? {
      RingMembers(u.right);
    }
  }

  /** A chunk of what is left of the holder's subtree. */
  lemma InTree(v: View, loose: set<int>, i: nat, h: Tree, u: Tree, x: int, a: int)
    requires v.Laid() && v.Binned(loose) && i < 32 && |v.bins.trees| == 32
    requires Within(v.bins.trees[i], h) && Loose(u, x) && Has(u, a) && forall b | Has(u, b) :: Has(h, b) && b != x
    ensures a + PARENT in v.mem && a + CHILD0 in v.mem && a + CHILD1 in v.mem && Far(a, x) && a != 0
  {
    hide View.Laid, View.Binned, Has, Spaced, Distinct, Far;
    TreeChunk(v, loose, i, a);
  }

  lemma MateUnlinked(v: View, i: nat, x: int, xp: int, r: int, m1: Mem)
    requires i < 32 && |v.bins.trees| == 32 && Unlinking(v, i, x, xp, r, m1) && xp == 0
    ensures var t := v.bins.trees[i];
      Rep(m1, Delete(t, x), TreeBin(v.msp, i), i) && OnlyTree(v.mem, m1, t, x) && Addr(Delete(t, x)) == Addr(t)
  {
    hide Rep, Distinct, NonEmptyRings, Has, Delete, Within, Unrung;
    var t := v.bins.trees[i];
    HeldLinks(v.mem, t, i, TreeBin(v.msp, i), Holder(t, x), x);
    UnrungFields(v.mem, x, t);
    MateRep(v.mem, m1, t, TreeBin(v.msp, i), i, x);
    UnrungTree(v.mem, t, x);
  }

  lemma UnrungTree(m: Mem, t: Tree, x: int)
    requires Has(t, Fd(m, x)) && Has(t, Bk(m, x)) && Unrung(m, x).Keys == m.Keys
    ensures OnlyTree(m, Unrung(m, x), t, x)
  {
  }

  /** Chunk x was cut out; the link of its parent xp, or of its bin, is about to be set. */
  ghost predicate Passing(v: View, loose: set<int>, i: nat, x: int, xp: int, r: int, m: Mem) {
    && v.Laid() && v.Binned(loose) && i < 32 && |v.bins.trees| == |v.bins.roots| == 32 && v.bins.trees[i].Node?
    && Unlinking(v, i, x, xp, r, m) && xp != 0
    && (x == v.bins.roots[i] <==> x in v.bins.trees[i].ring)
  }

  /** The link was set: in the bin for the root, in the parent otherwise. */
  ghost predicate Passed(v: View, i: nat, x: int, xp: int, r: int, m1: Mem, m2: Mem, roots: seq<int>, bits: nat) {
    && i < 32 && |v.bins.trees| == |v.bins.roots| == 32 && v.bins.trees[i].Node?
    && LinkSet(v, i, x, xp, r, m1, m2)
    && roots == (if x in v.bins.trees[i].ring then v.bins.roots[i := r] else v.bins.roots)
    && bits == (if x in v.bins.trees[i].ring && r == 0 then Clear(v.bins.treemap, i) else v.bins.treemap)
  }

  /** What a head's unlinking leaves: its subtree cut, the parent's link set, and the children adopted. */
  ghost predicate HeadDone(v: View, i: nat, x: int, xp: int, r: int, m1: Mem, m2: Mem, n: Mem)
    requires i < 32 && |v.bins.trees| == 32 && v.bins.trees[i].Node?
  {
    && Unlinking(v, i, x, xp, r, m1) && xp != 0 && LinkSet(v, i, x, xp, r, m1, m2)
    && n.Keys == m2.Keys
    && n == if r != 0 then Adopted(m2, x, r, xp) else m2
  }

  lemma HeadRep(v: View, i: nat, x: int, xp: int, r: int, m1: Mem, m2: Mem, n: Mem)
    requires i < 32 && |v.bins.trees| == 32 && v.bins.trees[i].Node? && HeadDone(v, i, x, xp, r, m1, m2, n)
    ensures var t := v.bins.trees[i];
      Rep(n, Delete(t, x), TreeBin(v.msp, i), i) && Addr(Delete(t, x)) == if x in t.ring then r else Addr(t)
  {
    hide Rep, Distinct, Has, Within, Relinked, Adopted, Cut, Spaced, Unring, NonEmptyRings;
    var t := v.bins.trees[i];
    var h := Holder(t, x);
    HeldLinks(v.mem, t, i, TreeBin(v.msp, i), h, x);
    UnringAddr(v, i, x, xp, r, m1);
    if x in t.ring {
      RootUnlinked(v.mem, m1, n, t, TreeBin(v.msp, i), i, x);
    } else {
      InnerUnlinked(v.mem, m1, n, t, TreeBin(v.msp, i), i, x, xp, r);
    }
  }

  lemma UnringAddr(v: View, i: nat, x: int, xp: int, r: int, m1: Mem)
    requires i < 32 && |v.bins.trees| == 32 && Unlinking(v, i, x, xp, r, m1) && xp != 0
    ensures var u := Unring(Holder(v.bins.trees[i], x), x); Addr(u) == r && (u.Node? <==> r != 0)
  {
    hide Rep, Distinct, Relinked, Spaced, Unring;
    var t := v.bins.trees[i];
    var h := Holder(t, x);
    var u := Unring(h, x);
    if u.Node? {
      UnringLoose(h, x);
      PartTops(m1, u, x, i);
    }
  }

  lemma HeadOnly(v: View, i: nat, x: int, xp: int, r: int, m1: Mem, m2: Mem, n: Mem)
    requires i < 32 && |v.bins.trees| == 32 && v.bins.trees[i].Node? && HeadDone(v, i, x, xp, r, m1, m2, n)
    ensures OnlyTree(v.mem, n, v.bins.trees[i], x)
  {
    hide Rep, Distinct, Relinked, Adopted, Cut, Spaced, Unring, NonEmptyRings, Has, NodeAt;
    var t := v.bins.trees[i];
    var h := Holder(t, x);
    HeldLinks(v.mem, t, i, TreeBin(v.msp, i), h, x);
    if r != 0 {
      CutStays(v, i, x, xp, r, m1, m2);
      UnringAddr(v, i, x, xp, r, m1);
      AdoptedSubtree(m2, h, x, xp, i);
    }
    if x !in t.ring {
      RelinkedOnly(m1, t, xp, x, r);
    }
    forall w | Outside(t, w)
      ensures Outside(h, w)
    {
    }
  }

  lemma RelinkedOnly(m: Mem, t: Tree, xp: int, x: int, r: int)
    requires Has(t, xp)
    ensures forall w | Outside(t, w) :: Rd(Relinked(m, xp, x, r), w) == Rd(m, w)
  {
  }

  lemma UnlinkedTree(v: View, loose: set<int>, x: int, i: nat, xp: int, r: int, m1: Mem, m2: Mem, n: Mem)
    requires v.Laid() && v.Binned(loose) && i < 32 && |v.bins.trees| == |v.bins.roots| == 32 && Has(v.bins.trees[i], x)
    requires v.bins.trees[i].Node?
    requires if xp == 0 then Unlinking(v, i, x, xp, r, m1) && n == m1 else HeadDone(v, i, x, xp, r, m1, m2, n)
    ensures var t := v.bins.trees[i];
      && OnlyTree(v.mem, n, t, x) && Rep(n, Delete(t, x), TreeBin(v.msp, i), i)
      && Addr(Delete(t, x)) == (if xp != 0 && x in t.ring then r else Addr(t))
      && (Delete(t, x).Nil? <==> Addr(Delete(t, x)) == 0)
  {
    hide View.Laid, View.Binned, Rep, Unlinking, HeadDone, Has, Delete, OnlyTree;
    if xp == 0 {
      MateUnlinked(v, i, x, xp, r, m1);
    } else {
      HeadRep(v, i, x, xp, r, m1, m2, n);
      HeadOnly(v, i, x, xp, r, m1, m2, n);
    }
    DeletedAddr(v, loose, x, i, n);
  }

  lemma DeletedAddr(v: View, loose: set<int>, x: int, i: nat, n: Mem)
    requires v.Laid() && v.Binned(loose) && i < 32 && |v.bins.trees| == |v.bins.roots| == 32 && Has(v.bins.trees[i], x)
    requires Rep(n, Delete(v.bins.trees[i], x), TreeBin(v.msp, i), i)
    ensures Delete(v.bins.trees[i], x).Nil? <==> Addr(Delete(v.bins.trees[i], x)) == 0
  {
    hide View.Laid, View.Binned, Delete, TreeOK, Spaced;
    var t := v.bins.trees[i];
    var d := Delete(t, x);
    RootTree(v, loose, i);
    TakeLargeItems(t, x) by {
      TreeParts(v.mem, t, v.bins.roots[i], i, v.msp);
    }
    if d.Node? {
      RingMembers(d);
    }
  }

  lemma LargeUnlinkDone(v: View, loose: set<int>, x: int, i: nat, n: Mem, w: View)
    requires v.Laid() && v.Binned(loose) && i < 32 && |v.bins.trees| == |v.bins.roots| == 32 && Has(v.bins.trees[i], x)
    requires OnlyTree(v.mem, n, v.bins.trees[i], x) && Rep(n, Delete(v.bins.trees[i], x), TreeBin(v.msp, i), i)
    requires w == v.(mem := n, bins := TakeLarge(v.bins, i, x))
    ensures w.Laid() && w.Binned(loose + {x}) && DataKept(v.mem, n, v.chunks, v.direct, {}, v.msp)
  {
    hide Tiled, Tagged, Mapped, TopIs, StateAt, SegsOK, DirectOK, SmallOK, TreesOK, Match, DataKept, TakeLarge, Rep;
    hide OnlyTree, Has;
    LargeRemoved(v.mem, n, v.chunks, v.bins, v.msp, v.dv, v.dvsize, loose, i, x);
    LinksKeep(v.mem, n, v.chunks, v.top, v.topsize, v.segs, v.direct, v.msp);
  }
}
