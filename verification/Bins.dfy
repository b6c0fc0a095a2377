/** The small bins, the tree bins and the designated victim, and which free chunks they hold. */
module Bins {
  import opened BinMap
  import opened TreeIndex
  import opened Memory
  import opened Rings
  import opened Trie
  import opened TreeLinks
  import opened Layout

  /** small and trees are what the links stand for; roots are the words of `treebins`. */
  datatype BinTable = BinTable(small: seq<seq<int>>, smallmap: nat, trees: seq<Tree>, roots: seq<int>, treemap: nat)

  // The layout of `malloc_state` in the user part of the chunk at msp.
  const STATE_SIZE := 872
  function SmallBin(msp: int, i: int): int { msp + 72 + 16 * i }
  function TreeBin(msp: int, i: int): int { msp + 600 + 8 * i }

  const MIN_LARGE_SIZE := 256

  /** Words of bin headers and of free chunks' bodies: the only ones that linking and unlinking write. */
  ghost predicate LinkWord(cs: Chunks, msp: int, w: int) {
    || msp + 88 <= w < msp + 600
    || exists a :: a in cs && cs[a].kind.Free? && a + 16 <= w < a + cs[a].size
  }

  ghost predicate LinksOnly(m: Mem, n: Mem, cs: Chunks, msp: int) {
    && n.Keys == m.Keys
    && forall w | !LinkWord(cs, msp, w) :: Rd(n, w) == Rd(m, w)
  }

  ghost predicate StateAt(cs: Chunks, msp: int) {
    msp in cs && cs[msp].kind.State? && cs[msp].size == STATE_SIZE
  }

  ghost predicate SmallOK(m: Mem, b: BinTable, msp: int) {
    && |b.small| == 32
    && (forall i | 0 <= i < 32 ::
      && (Marked(b.smallmap, i) <==> b.small[i] != [])
      && (b.small[i] != [] ==> RingAt(m, [SmallBin(msp, i)] + b.small[i]))
      && Unique(b.small[i]))
    && (forall i | i >= 32 :: !Marked(b.smallmap, i))
  }

  ghost predicate TreesOK(m: Mem, b: BinTable, msp: int) {
    && |b.trees| == |b.roots| == 32
    && (forall i | 0 <= i < 32 ::
      TreeOK(m, b.trees[i], b.roots[i], i, msp) && (Marked(b.treemap, i) <==> b.trees[i].Node?))
    && (forall i | i >= 32 :: !Marked(b.treemap, i))
  }

  ghost predicate TreeOK(m: Mem, t: Tree, root: int, i: nat, msp: int) {
    root == Addr(t) && Rep(m, t, TreeBin(msp, i), i) && Shape(t, Low(i), Width(i)) && Distinct(t)
  }

  ghost predicate FreeAt(cs: Chunks, a: int) {
    a in cs && cs[a].kind.Free?
  }

  ghost predicate IsBinned(cs: Chunks, b: BinTable, a: int)
    requires |b.small| == 32 && |b.trees| == 32 && a in cs
  {
    var s := cs[a].size;
    if s < MIN_LARGE_SIZE then 0 <= s / 8 < 32 && a in b.small[s / 8]
    else 0 <= Index(s) < 32 && Has(b.trees[Index(s)], a)
  }

  ghost predicate SmallHold(cs: Chunks, b: BinTable, dv: int, loose: set<int>) {
    && |b.small| == 32
    && forall i, a | 0 <= i < 32 && a in b.small[i] ::
      FreeAt(cs, a) && a != dv && a !in loose && cs[a].size == 8 * i
  }

  ghost predicate TreesHold(cs: Chunks, b: BinTable, dv: int, loose: set<int>) {
    && |b.trees| == 32
    && forall i, a | 0 <= i < 32 && Has(b.trees[i], a) :: TreeItem(cs, b.trees[i], dv, loose, i, a)
  }

  ghost predicate TreeItem(cs: Chunks, t: Tree, dv: int, loose: set<int>, i: int, a: int) {
    && FreeAt(cs, a) && a != dv && a !in loose
    && cs[a].size == SizeOf(t, a) && cs[a].size >= MIN_LARGE_SIZE && Index(cs[a].size) == i
  }

  ghost predicate AllBinned(cs: Chunks, b: BinTable, dv: int, loose: set<int>)
    requires |b.small| == 32 && |b.trees| == 32
  {
    forall a | FreeAt(cs, a) && a != dv && a !in loose :: IsBinned(cs, b, a)
  }

  ghost predicate VictimOK(cs: Chunks, dv: int, dvsize: int, loose: set<int>) {
    && (dvsize == 0 <==> dv == 0)
    && (dv != 0 ==> FreeAt(cs, dv) && dv !in loose && cs[dv].size == dvsize)
  }

  /** Each free chunk that is not in loose is the designated victim or in the one bin for its size, and bins hold
      nothing else. */
  ghost predicate Match(cs: Chunks, b: BinTable, dv: int, dvsize: int, loose: set<int>) {
    && SmallHold(cs, b, dv, loose) && TreesHold(cs, b, dv, loose) && AllBinned(cs, b, dv, loose)
    && VictimOK(cs, dv, dvsize, loose)
    && forall a | a in loose :: FreeAt(cs, a)
  }

  ghost predicate BinInv(m: Mem, cs: Chunks, b: BinTable, msp: int, dv: int, dvsize: int, loose: set<int>) {
    SmallOK(m, b, msp) && TreesOK(m, b, msp) && Match(cs, b, dv, dvsize, loose)
  }

  /** The tree index of a chunk size is right, since all memory is below 2^31. */
  lemma ChunkIndex(cs: Chunks, a: int)
    requires SizesOK(cs) && a in cs && cs[a].size >= MIN_LARGE_SIZE
    ensures InBin(cs[a].size, Index(cs[a].size))
    ensures var i := Index(cs[a].size); Low(i) <= cs[a].size < Low(i) + Pow2(Width(i)) && Low(i) % Pow2(Width(i)) == 0
  {
    IndexCorrect(cs[a].size);
    Pow2Values();
    BinInterval(cs[a].size, Index(cs[a].size));
  }

  // ----- stores elsewhere leave the bins alone -----

  /** The bodies of the free chunks outside loose, and the bin headers, are the same in both memories. */
  ghost predicate BodiesKept(m: Mem, n: Mem, cs: Chunks, msp: int, loose: set<int>) {
    && (forall w | msp + 88 <= w < msp + 600 :: Rd(n, w) == Rd(m, w))
    && (forall a, w | FreeAt(cs, a) && a !in loose && a + 16 <= w < a + cs[a].size :: Rd(n, w) == Rd(m, w))
  }

  lemma BodyLinks(m: Mem, n: Mem, cs: Chunks, msp: int, loose: set<int>, a: int)
    requires BodiesKept(m, n, cs, msp, loose) && FreeAt(cs, a) && a !in loose && cs[a].size >= MIN_CHUNK_SIZE
    ensures SameRing(m, n, a)
    ensures cs[a].size >= MIN_LARGE_SIZE ==> SameLinks(m, n, a)
  {
  }

  lemma SmallFrame(m: Mem, n: Mem, cs: Chunks, b: BinTable, msp: int, dv: int, dvsize: int, loose: set<int>)
    requires SizesOK(cs) && SmallOK(m, b, msp) && Match(cs, b, dv, dvsize, loose) && BodiesKept(m, n, cs, msp, loose)
    ensures SmallOK(n, b, msp)
  {
    forall i | 0 <= i < 32 && b.small[i] != []
      ensures RingAt(n, [SmallBin(msp, i)] + b.small[i])
    {
      var ring := [SmallBin(msp, i)] + b.small[i];
      forall a | a in ring
        ensures SameRing(m, n, a)
      {
        if a in b.small[i] {
          BodyLinks(m, n, cs, msp, loose, a);
        }
      }
      RingFrame(m, n, ring);
    }
  }

  lemma TreesFrame(m: Mem, n: Mem, cs: Chunks, b: BinTable, msp: int, dv: int, dvsize: int, loose: set<int>)
    requires SizesOK(cs) && TreesOK(m, b, msp) && Match(cs, b, dv, dvsize, loose) && BodiesKept(m, n, cs, msp, loose)
    ensures TreesOK(n, b, msp)
  {
    forall i | 0 <= i < 32
      ensures TreeOK(n, b.trees[i], b.roots[i], i, msp)
    {
      forall a | Has(b.trees[i], a)
        ensures SameLinks(m, n, a)
      {
        BodyLinks(m, n, cs, msp, loose, a);
      }
      RepFrame(m, n, b.trees[i], TreeBin(msp, i), i);
    }
  }

  lemma BinsFrame(m: Mem, n: Mem, cs: Chunks, b: BinTable, msp: int, dv: int, dvsize: int, loose: set<int>)
    requires SizesOK(cs) && BinInv(m, cs, b, msp, dv, dvsize, loose) && BodiesKept(m, n, cs, msp, loose)
    ensures BinInv(n, cs, b, msp, dv, dvsize, loose)
  {
    SmallFrame(m, n, cs, b, msp, dv, dvsize, loose);
    TreesFrame(m, n, cs, b, msp, dv, dvsize, loose);
  }

  /** Two free chunks keep their link words apart. */
  lemma FreeApart(cs: Chunks, a: int, b: int)
    requires SizesOK(cs) && Apart(cs) && FreeAt(cs, a) && FreeAt(cs, b) && a != b
    ensures a + 32 <= b || b + 32 <= a
    ensures cs[a].size >= MIN_LARGE_SIZE && cs[b].size >= MIN_LARGE_SIZE ==> a + 64 <= b || b + 64 <= a
    ensures a < b && cs[a].size >= MIN_LARGE_SIZE ==> a + 64 <= b
  {
  }

  lemma FreeOffState(cs: Chunks, msp: int, a: int)
    requires SizesOK(cs) && Apart(cs) && StateAt(cs, msp) && FreeAt(cs, a)
    ensures a + cs[a].size <= msp || msp + STATE_SIZE <= a
  {
  }
}
