/** The two searches of the tree bins, on values: what is left to look at, and what is ruled out already. */
module BestFit {
  import opened TreeIndex
  import opened BinMap
  import opened Memory
  import opened Trie
  import opened TreeLinks
  import opened TreeUnlink
  import opened Layout
  import opened Bins
  import opened LargeBins
  import opened Descent
  import opened BinSteps

  const WORD := 0x1_0000_0000_0000_0000

  /** Arithmetic on size_t. */
  function Wrap(x: int): nat {
    x % WORD
  }

  /** Chunk a lies in some tree bin. */
  ghost predicate InTrees(v: View, a: int) {
    |v.bins.trees| == 32 && exists i :: 0 <= i < 32 && Has(v.bins.trees[i], a)
  }

  /** x is the smallest of all chunks in tree bins. */
  ghost predicate Smallest(v: View, x: int) {
    x in v.chunks && InTrees(v, x) && forall a | InTrees(v, a) :: a in v.chunks && v.chunks[x].size <= v.chunks[a].size
  }

  /** x is the smallest chunk of at least nb bytes in the tree bins; x = 0 says that there is none. */
  ghost predicate BestFor(v: View, nb: int, x: int) {
    && (x == 0 ==> forall a | InTrees(v, a) :: a in v.chunks && v.chunks[a].size < nb)
    && (x != 0 ==> x in v.chunks && InTrees(v, x) && nb <= v.chunks[x].size)
    && (x != 0 ==>
      forall a | InTrees(v, a) ::
        a in v.chunks && (nb <= v.chunks[a].size ==> v.chunks[x].size <= v.chunks[a].size))
  }

  /** The least size that a leftmost walk from c still meets, or the bound if there is none below it. */
  ghost function WalkMin(c: Tree, bound: int): int {
    if c.Node? && LeastOnWalk(c) < bound then LeastOnWalk(c) else bound
  }

  lemma WalkStep(c: Tree, bound: int)
    requires c.Node?
    ensures WalkMin(c, bound) == WalkMin(LeftmostChild(c), if c.size < bound then c.size else bound)
  {
  }

  lemma WalkBegin(t: Tree)
    requires t.Node?
    ensures LeastOnWalk(t) == WalkMin(LeftmostChild(t), t.size)
  {
  }

  /** Tree bins below i are empty. */
  ghost predicate EmptyBelow(v: View, i: nat)
    requires |v.bins.trees| == 32
  {
    forall j | 0 <= j < i && j < 32 :: v.bins.trees[j].Nil?
  }

  lemma MapEmpty(v: View, loose: set<int>, j: nat)
    requires v.Binned(loose)
    ensures |v.bins.trees| == |v.bins.roots| == 32
    ensures j < 32 ==> (Marked(v.bins.treemap, j) <==> v.bins.trees[j].Node?)
    ensures j >= 32 ==> !Marked(v.bins.treemap, j)
  {
  }

  /** The first marked bin. */
  lemma FirstBin(v: View, loose: set<int>, i: nat)
    requires v.Binned(loose) && v.bins.treemap != 0 && i == Ffs(v.bins.treemap)
    ensures i < 32 && |v.bins.trees| == 32 && v.bins.trees[i].Node? && EmptyBelow(v, i)
  {
    hide View.Binned;
    FfsLeast(v.bins.treemap);
    MapEmpty(v, loose, i);
    forall j: nat | j < i && j < 32
      ensures v.bins.trees[j].Nil?
    {
      MapEmpty(v, loose, j);
    }
  }

  /** The first marked bin above idx. */
  lemma NextBin(v: View, loose: set<int>, idx: nat, left: nat)
    requires v.Binned(loose) && left == LeftOf(v.bins.treemap, idx)
    ensures |v.bins.trees| == 32
    ensures left == 0 ==> forall j | idx < j < 32 :: v.bins.trees[j].Nil?
    ensures left != 0 ==> idx < Ffs(left) < 32 && v.bins.trees[Ffs(left)].Node?
    ensures left != 0 ==> forall j | idx < j < Ffs(left) && j < 32 :: v.bins.trees[j].Nil?
  {
    hide View.Binned;
    MapEmpty(v, loose, 0);
    forall j: nat | idx < j < 32
      ensures left == 0 ==> v.bins.trees[j].Nil?
      ensures left != 0 && j < Ffs(left) ==> v.bins.trees[j].Nil?
    {
      MapEmpty(v, loose, j);
      LeftOfKeeps(v.bins.treemap, idx, j);
      if left == 0 {
        ZeroHasNone(j);
      } else {
        FfsLeast(left);
      }
    }
    if left != 0 {
      FfsLeast(left);
      LeftOfKeeps(v.bins.treemap, idx, Ffs(left));
      MapEmpty(v, loose, Ffs(left));
    }
  }

  /** Chunks of a higher bin are larger. */
  lemma HigherBin(v: View, loose: set<int>, i: nat, j: nat, a: int, b: int)
    requires v.Laid() && v.Binned(loose) && i < j < 32 && |v.bins.trees| == 32
    requires Has(v.bins.trees[i], a) && Has(v.bins.trees[j], b)
    ensures a in v.chunks && b in v.chunks && v.chunks[a].size < v.chunks[b].size
  {
    hide View.Laid, View.Binned, Index, Has;
    TreeChunk(v, loose, i, a);
    TreeChunk(v, loose, j, b);
    SmallAddress(v, a);
    SmallAddress(v, b);
    if v.chunks[b].size <= v.chunks[a].size {
      IndexMonotone(v.chunks[b].size, v.chunks[a].size);
    }
  }

  lemma SmallAddress(v: View, a: int)
    requires v.Laid() && a in v.chunks
    ensures a > 0 && a + v.chunks[a].size <= ADDRESS_LIMIT
  {
    assert ChunkOK(a, v.chunks[a]);
  }

  /** The least chunk of the first tree is the least of all. */
  lemma SmallestOfAll(v: View, loose: set<int>, i: nat, x: int)
    requires v.Laid() && v.Binned(loose) && i < 32 && |v.bins.trees| == |v.bins.roots| == 32 && EmptyBelow(v, i)
    requires v.bins.trees[i].Node? && Has(v.bins.trees[i], x) &&
      SizeOf(v.bins.trees[i], x) == LeastOnWalk(v.bins.trees[i])
    ensures Smallest(v, x)
  {
    hide View.Laid, View.Binned, Has, SizeOf, LeastOnWalk, Shape, TreeOK, Rep, Low, Width, Distinct;
    var t := v.bins.trees[i];
    RootTree(v, loose, i);
    TreeParts(v.mem, t, v.bins.roots[i], i, v.msp);
    LeastOnWalkIsLeast(t, Low(i), Width(i));
    TreeChunk(v, loose, i, x);
    forall a | InTrees(v, a)
      ensures a in v.chunks && v.chunks[x].size <= v.chunks[a].size
    {
      var j :| 0 <= j < 32 && Has(v.bins.trees[j], a);
      TreeChunk(v, loose, j, a);
      if j > i {
        HigherBin(v, loose, i, j, x, a);
      } else if j < i {
        NilHasNone(v.bins.trees[j], a);
      }
    }
  }

  lemma NilHasNone(t: Tree, a: int)
    requires Has(t, a)
    ensures t.Node?
  {
  }

  /** A leftmost walk at node cur of tree bin i. */
  ghost predicate Walking(v: View, i: nat, cur: Tree, par: int) {
    i < 32 && |v.bins.trees| == 32 && cur.Node? && Within(v.bins.trees[i], cur) && Rep(v.mem, cur, par, i)
  }

  lemma WalkStart(v: View, loose: set<int>, i: nat)
    requires v.Laid() && v.Binned(loose) && i < 32 && |v.bins.trees| == |v.bins.roots| == 32 && v.bins.trees[i].Node?
    ensures Walking(v, i, v.bins.trees[i], TreeBin(v.msp, i)) && v.bins.roots[i] == Addr(v.bins.trees[i])
    ensures Shape(v.bins.trees[i], Low(i), Width(i))
  {
    hide View.Laid, View.Binned, Rep, Within, TreeOK;
    RootTree(v, loose, i);
    TreeParts(v.mem, v.bins.trees[i], v.bins.roots[i], i, v.msp);
  }

  /** What the walk reads at cur, and the child it goes to. */
  lemma WalkLook(v: View, loose: set<int>, i: nat, cur: Tree, par: int)
    requires v.Laid() && v.Binned(loose) && Walking(v, i, cur, par)
    ensures var t := Addr(cur);
      && t > 0 && t + HEAD in v.mem && t + CHILD0 in v.mem && t + CHILD1 in v.mem
      && t in v.chunks && InTrees(v, t) && v.chunks[t].size == cur.size && ChunkSize(Rd(v.mem, t + HEAD)) == cur.size
      && Has(v.bins.trees[i], t) && SizeOf(v.bins.trees[i], t) == cur.size
      && MIN_LARGE_SIZE <= cur.size < ADDRESS_LIMIT
    ensures var t := Addr(cur);
      && Rd(v.mem, t + CHILD0) == Addr(cur.left) && Rd(v.mem, t + CHILD1) == Addr(cur.right)
      && (Addr(cur.left) != 0 <==> cur.left.Node?) && (Addr(cur.right) != 0 <==> cur.right.Node?)
    ensures cur.left.Node? ==> Walking(v, i, cur.left, Addr(cur))
    ensures cur.right.Node? ==> Walking(v, i, cur.right, Addr(cur))
  {
    hide View.Laid, View.Binned, Within, Has, SizeOf, NodeAt, LinksMapped;
    TreeNode(v, loose, i, cur, par);
    var t := Addr(cur);
    TreeChunk(v, loose, i, t);
    WithinTop(v.bins.trees[i], cur);
    WithinChild(v.bins.trees[i], cur);
    SmallAddress(v, t);
    TreeLinksMapped(v, t);
  }

  lemma TreeLinksMapped(v: View, t: int)
    requires LinksMapped(v.mem, t)
    ensures t + CHILD0 in v.mem && t + CHILD1 in v.mem
  {
  }

  // ----- the search for a large request -----

  /** The candidate x so far, rsize being what it has beyond nb; without one, rsize is the unsigned negation of nb. */
  ghost predicate Fit(v: View, nb: nat, x: int, rsize: nat) {
    if x == 0 then rsize == Wrap(0 - nb)
    else x in v.chunks && InTrees(v, x) && nb <= v.chunks[x].size < ADDRESS_LIMIT && rsize == v.chunks[x].size - nb
  }

  /** A chunk of s bytes is too small or no better than x. */
  ghost predicate Beaten(v: View, nb: nat, x: int, s: int) {
    s < nb || (x != 0 && x in v.chunks && v.chunks[x].size <= s)
  }

  ghost predicate Ruled(v: View, nb: nat, x: int, a: int) {
    a in v.chunks && Beaten(v, nb, x, v.chunks[a].size)
  }

  ghost predicate Settled(v: View, nb: nat, x: int) {
    forall a | InTrees(v, a) :: Ruled(v, nb, x, a)
  }

  /** y is x or a better candidate. */
  ghost predicate Improves(v: View, x: int, y: int) {
    x == y || (y != 0 && y in v.chunks && (x == 0 || (x in v.chunks && v.chunks[y].size <= v.chunks[x].size)))
  }

  /** All chunks are ruled out but those that a leftmost walk from c beats. */
  ghost predicate Pending(v: View, nb: nat, x: int, c: Tree) {
    && c.Node? && AllAtLeast(c, nb)
    && forall a | InTrees(v, a) :: a in v.chunks && (Ruled(v, nb, x, a) || LeastOnWalk(c) <= v.chunks[a].size)
  }

  ghost predicate AllAtLeast(c: Tree, nb: nat) {
    forall a | Has(c, a) :: nb <= SizeOf(c, a)
  }

  /** On the path to nb in bin idx: what is not ruled out is below cur or beaten by the last right subtree not taken. */
  ghost predicate PathPending(v: View, nb: nat, idx: nat, x: int, cur: Tree, rst: Tree)
    requires idx < |v.bins.trees|
  {
    forall a | Has(v.bins.trees[idx], a) ::
      a in v.chunks && (Ruled(v, nb, x, a) || Has(cur, a) || (rst.Node? && LeastOnWalk(rst) <= v.chunks[a].size))
  }

  /** The last right subtree not taken holds only sizes from the end of the interval on. */
  ghost predicate RightOf(rst: Tree, nb: nat, hi: nat) {
    rst.Node? ==> AllAtLeast(rst, nb) && hi <= LeastOnWalk(rst)
  }

  /** The unsigned comparison finds out whether a chunk of size s fits, and better than x. */
  lemma BetterFit(v: View, nb: nat, x: int, rsize: nat, s: nat)
    requires Fit(v, nb, x, rsize) && 0 < nb < WORD && s < ADDRESS_LIMIT
    ensures Wrap(s - nb) < rsize <==> nb <= s && (x == 0 || s < v.chunks[x].size)
    ensures nb <= s ==> Wrap(s - nb) == s - nb
    ensures x == 0 && s >= nb ==> s - nb < rsize
  {
    if s < nb {
      assert Wrap(s - nb) == s - nb + WORD;
    }
    assert Wrap(0 - nb) == WORD - nb;
  }

  /** What one comparison leaves. */
  lemma FitStep(v: View, nb: nat, x: int, rsize: nat, t: int, y: int, rsize': nat)
    requires Fit(v, nb, x, rsize) && 0 < nb < WORD && t in v.chunks && InTrees(v, t) && t != 0 &&
      0 <= v.chunks[t].size < ADDRESS_LIMIT
    requires var trem := Wrap(v.chunks[t].size - nb);
      if trem < rsize then y == t && rsize' == trem else y == x && rsize' == rsize
    ensures Fit(v, nb, y, rsize') && Improves(v, x, y) && Beaten(v, nb, y, v.chunks[t].size)
    ensures y == x || y == t
  {
    hide InTrees;
    BetterFit(v, nb, x, rsize, v.chunks[t].size);
  }

  lemma RuledStays(v: View, nb: nat, x: int, y: int, a: int)
    requires Ruled(v, nb, x, a) && Improves(v, x, y)
    ensures Ruled(v, nb, y, a)
  {
  }

  lemma SettledStays(v: View, nb: nat, x: int, y: int)
    requires Settled(v, nb, x) && Improves(v, x, y)
    ensures Settled(v, nb, y)
  {
    hide Ruled, InTrees, Improves;
    forall a | InTrees(v, a)
      ensures Ruled(v, nb, y, a)
    {
      RuledStays(v, nb, x, y, a);
    }
  }

  /** One step of the leftmost walk, after c was looked at. */
  lemma PendingStep(v: View, nb: nat, x: int, c: Tree, y: int)
    requires Pending(v, nb, x, c) && c.ring != [] && Distinct(c)
    requires Improves(v, x, y) && Beaten(v, nb, y, c.size)
    ensures LeftmostChild(c).Node? ==> Pending(v, nb, y, LeftmostChild(c))
    ensures LeftmostChild(c).Nil? ==> Settled(v, nb, y)
  {
    hide InTrees, Has, SizeOf, AllAtLeast, Distinct, Improves;
    var d := LeftmostChild(c);
    ChildAtLeast(c, nb);
    forall a | InTrees(v, a)
      ensures a in v.chunks && (Ruled(v, nb, y, a) || (d.Node? && LeastOnWalk(d) <= v.chunks[a].size))
    {
      if Ruled(v, nb, x, a) {
        RuledStays(v, nb, x, y, a);
      }
    }
  }

  lemma ChildAtLeast(c: Tree, nb: nat)
    requires c.Node? && AllAtLeast(c, nb) && Distinct(c) && c.ring != []
    ensures AllAtLeast(c.left, nb) && AllAtLeast(c.right, nb) && nb <= c.size
  {
    DistinctParts(c);
    RingMembers(c);
    assert c.ring[0] in c.ring && SizeOf(c, c.ring[0]) == c.size;
  }

  /** Requests of 2^31 bytes and more are above every chunk, whatever bin their index names. */
  lemma HugeSettled(v: View, loose: set<int>, nb: nat, x: int)
    requires v.Laid() && v.Binned(loose) && nb >= ADDRESS_LIMIT
    ensures Settled(v, nb, x)
  {
    hide View.Laid, View.Binned, Has;
    forall a | InTrees(v, a)
      ensures Ruled(v, nb, x, a)
    {
      InTreesChunk(v, loose, a);
      SmallAddress(v, a);
    }
  }

  lemma InTreesChunk(v: View, loose: set<int>, a: int)
    requires v.Laid() && v.Binned(loose) && InTrees(v, a)
    ensures FreeAt(v.chunks, a) && v.chunks[a].size >= MIN_LARGE_SIZE && a != v.dv && a !in loose && a > 0
  {
    hide View.Laid, View.Binned, Has;
    var i :| 0 <= i < 32 && Has(v.bins.trees[i], a);
    TreeChunk(v, loose, i, a);
  }

  lemma SmallestFree(v: View, x: int)
    requires v.Laid() && v.Binned({}) && Smallest(v, x)
    ensures FreeAt(v.chunks, x) && v.chunks[x].size >= MIN_LARGE_SIZE && x != v.dv && x > 0
  {
    hide View.Laid, View.Binned, InTrees;
    InTreesChunk(v, {}, x);
  }

  lemma IndexBelow(s: nat)
    ensures Index(s) < 32
  {
    var x := s / 256 % 0x1_0000_0000;
    if 0 < x <= 0xFFFF {
      IndexSmallX(x);
    }
  }

  /** The state of the descent in bin idx towards nb: candidate x, node cur, and the last right subtree not taken. */
  ghost predicate Searching(v: View, nb: nat, idx: nat, x: int, cur: Tree, rst: Tree, lo: nat, w: nat, key: nat) {
    && |v.bins.trees| == 32 && idx < 32
    && (x != 0 ==> Has(v.bins.trees[idx], x))
    && (nb < ADDRESS_LIMIT ==>
      OnPath(cur, lo, w, nb, key) && PathPending(v, nb, idx, x, cur, rst) && RightOf(rst, nb, lo + Pow2(w)))
  }

  lemma SearchStart(v: View, loose: set<int>, nb: nat, idx: nat)
    requires v.Laid() && v.Binned(loose) && idx == Index(nb) && idx < 32 && MIN_LARGE_SIZE <= nb
    requires |v.bins.trees| == |v.bins.roots| == 32
    ensures Searching(v, nb, idx, 0, v.bins.trees[idx], Nil, Low(idx), Width(idx), nb * Pow2(LeftShift(idx)) % Pow2(64))
  {
    hide View.Laid, View.Binned, Has, Rep, TreeOK, Shape, Pow2, Index;
    RootTree(v, loose, idx);
    TreeParts(v.mem, v.bins.trees[idx], v.bins.roots[idx], idx, v.msp);
    if nb < ADDRESS_LIMIT {
      IndexCorrect(nb);
      Pow2Values();
      BinInterval(nb, idx);
      forall a | Has(v.bins.trees[idx], a)
        ensures a in v.chunks
      {
        TreeChunk(v, loose, idx, a);
      }
    }
  }

  /** The chunks of the subtree at cur and their sizes. */
  lemma Below(v: View, loose: set<int>, idx: nat, cur: Tree, par: int, a: int)
    requires v.Laid() && v.Binned(loose) && Walking(v, idx, cur, par) && Has(cur, a)
    ensures a in v.chunks && v.chunks[a].size == SizeOf(cur, a) &&
      (a in cur.ring || Has(cur.left, a) || Has(cur.right, a))
    ensures a in cur.ring ==> v.chunks[a].size == cur.size
    ensures Has(cur.left, a) ==> v.chunks[a].size == SizeOf(cur.left, a)
    ensures Has(cur.right, a) ==> v.chunks[a].size == SizeOf(cur.right, a)
  {
    hide View.Laid, View.Binned, Rep;
    TreeChunk(v, loose, idx, a);
    DistinctParts(cur);
  }

  /** The last right subtree not taken, after a turn at cur. */
  function RestLeft(cur: Tree, rst: Tree): Tree
    requires cur.Node?
  {
    if cur.right.Node? then cur.right else rst
  }

  lemma PathLeft(v: View, loose: set<int>, nb: nat, idx: nat, x: int, y: int, cur: Tree, par: int, rst: Tree, lo: nat,
      w: nat)
    requires v.Laid() && v.Binned(loose) && Walking(v, idx, cur, par) && Shape(cur, lo, w) && w > 0 &&
      nb < lo + Pow2(w - 1)
    requires PathPending(v, nb, idx, x, cur, rst) && RightOf(rst, nb, lo + Pow2(w)) && Improves(v, x, y) &&
      Beaten(v, nb, y, cur.size)
    ensures PathPending(v, nb, idx, y, cur.left, RestLeft(cur, rst)) &&
      RightOf(RestLeft(cur, rst), nb, lo + Pow2(w - 1))
  {
    hide View.Laid, View.Binned, Within, Rep, Has, Improves, SizeOf, LeastOnWalk;
    DoublePow2(w);
    if cur.right.Node? {
      LeastOnWalkIsLeast(cur.right, lo + Pow2(w - 1), w - 1);
      assert rst.Node? ==> LeastOnWalk(cur.right) <= LeastOnWalk(rst);
    }
    forall a | Has(v.bins.trees[idx], a)
      ensures a in v.chunks
      ensures Ruled(v, nb, y, a) || Has(cur.left, a) ||
        (RestLeft(cur, rst).Node? && LeastOnWalk(RestLeft(cur, rst)) <= v.chunks[a].size)
    {
      NilHas(a);
      if Has(cur, a) {
        Below(v, loose, idx, cur, par, a);
      } else if Ruled(v, nb, x, a) {
        RuledStays(v, nb, x, y, a);
      }
    }
  }

  lemma PathRight(v: View, loose: set<int>, nb: nat, idx: nat, x: int, y: int, cur: Tree, par: int, rst: Tree,
      lo: nat, w: nat)
    requires v.Laid() && v.Binned(loose) && Walking(v, idx, cur, par) && Shape(cur, lo, w) && w > 0 &&
      nb >= lo + Pow2(w - 1)
    requires PathPending(v, nb, idx, x, cur, rst) && Improves(v, x, y) && Beaten(v, nb, y, cur.size)
    ensures PathPending(v, nb, idx, y, cur.right, rst)
  {
    hide View.Laid, View.Binned, Within, Rep, Has, Improves, SizeOf, LeastOnWalk;
    SizeBounds(cur.left, lo, w - 1);
    forall a | Has(v.bins.trees[idx], a)
      ensures a in v.chunks &&
        (Ruled(v, nb, y, a) || Has(cur.right, a) || (rst.Node? && LeastOnWalk(rst) <= v.chunks[a].size))
    {
      if Has(cur, a) {
        Below(v, loose, idx, cur, par, a);
      } else if Ruled(v, nb, x, a) {
        RuledStays(v, nb, x, y, a);
      }
    }
  }

  /** One turn of the descent: to the child d that the key selects. */
  lemma SearchStep(v: View, loose: set<int>, nb: nat, idx: nat, x: int, y: int, cur: Tree, par: int, rst: Tree,
      lo: nat, w: nat, key: nat)
    requires v.Laid() && v.Binned(loose) && Walking(v, idx, cur, par) && Searching(v, nb, idx, x, cur, rst, lo, w, key)
    requires Improves(v, x, y) && Beaten(v, nb, y, cur.size) && cur.size != nb && (y != 0 ==> Has(v.bins.trees[idx], y))
    ensures w == 0 ==> nb >= ADDRESS_LIMIT
    ensures ChildAt(key) == CHILD0 && w > 0 ==>
        Searching(v, nb, idx, y, cur.left, RestLeft(cur, rst), lo, w - 1, key * 2 % Pow2(64))
    ensures ChildAt(key) == CHILD1 && w > 0 ==>
        Searching(v, nb, idx, y, cur.right, rst, lo + Pow2(w - 1), w - 1, key * 2 % Pow2(64))
  {
    hide View.Laid, View.Binned, Within, Rep, Has, Improves, Beaten, PathPending, RightOf, OnPath, Pow2, ChildAt;
    if nb < ADDRESS_LIMIT {
      PathOpen(cur, lo, w, nb, key);
      PathBit(cur, lo, w, nb, key);
      assert Pow2(w) == 2 * Pow2(w - 1) by {
        DoublePow2(w);
      }
      if nb < lo + Pow2(w - 1) {
        PathShape(cur, lo, w, nb, key);
        PathLeft(v, loose, nb, idx, x, y, cur, par, rst, lo, w);
      } else {
        PathShape(cur, lo, w, nb, key);
        PathRight(v, loose, nb, idx, x, y, cur, par, rst, lo, w);
      }
    }
  }

  lemma DoublePow2(w: nat)
    requires w > 0
    ensures Pow2(w) == 2 * Pow2(w - 1)
  {
  }

  lemma PathShape(cur: Tree, lo: nat, w: nat, s: nat, key: nat)
    requires OnPath(cur, lo, w, s, key)
    ensures Shape(cur, lo, w)
  {
  }

  /** Bins below idx hold only chunks that are too small. */
  lemma LowerBin(v: View, loose: set<int>, nb: nat, j: nat, a: int)
    requires v.Laid() && v.Binned(loose) && MIN_LARGE_SIZE <= nb < ADDRESS_LIMIT && j < Index(nb)
    requires |v.bins.trees| == 32 && j < 32 && Has(v.bins.trees[j], a)
    ensures a in v.chunks && v.chunks[a].size < nb
  {
    hide View.Laid, View.Binned, Index, Has;
    TreeChunk(v, loose, j, a);
    SmallAddress(v, a);
    if nb <= v.chunks[a].size {
      IndexMonotone(nb, v.chunks[a].size);
    }
  }

  /** Bins above idx hold only chunks that are large enough. */
  lemma UpperBin(v: View, loose: set<int>, nb: nat, j: nat, a: int)
    requires v.Laid() && v.Binned(loose) && MIN_LARGE_SIZE <= nb < ADDRESS_LIMIT && j > Index(nb)
    requires |v.bins.trees| == 32 && j < 32 && Has(v.bins.trees[j], a)
    ensures a in v.chunks && nb <= v.chunks[a].size
  {
    hide View.Laid, View.Binned, Index, Has;
    TreeChunk(v, loose, j, a);
    SmallAddress(v, a);
    if v.chunks[a].size < nb {
      IndexMonotone(v.chunks[a].size, nb);
    }
  }

  /** The descent left subtree rst as the only one to look at. */
  lemma RestPending(v: View, loose: set<int>, nb: nat, idx: nat, y: int, rst: Tree, rpar: int, lo: nat, w: nat,
      key: nat)
    requires v.Laid() && v.Binned(loose) && idx == Index(nb) && MIN_LARGE_SIZE <= nb
    requires Searching(v, nb, idx, y, Nil, rst, lo, w, key) && Walking(v, idx, rst, rpar) && rst.ring != []
    ensures Pending(v, nb, y, rst) || Settled(v, nb, y)
  {
    hide View.Laid, View.Binned, Has, Index, LeastOnWalk, OnPath, SizeOf, Rep;
    if nb >= ADDRESS_LIMIT {
      HugeSettled(v, loose, nb, y);
    } else {
      RepNonEmpty(v.mem, rst, rpar, idx);
      var b := LeastChunk(rst);
      assert Has(v.bins.trees[idx], b) && LeastOnWalk(rst) == v.chunks[b].size by {
        Below(v, loose, idx, rst, rpar, b);
      }
      forall a | InTrees(v, a)
        ensures a in v.chunks && (Ruled(v, nb, y, a) || LeastOnWalk(rst) <= v.chunks[a].size)
      {
        var j :| 0 <= j < 32 && Has(v.bins.trees[j], a);
        if j < idx {
          LowerBin(v, loose, nb, j, a);
        } else if j > idx {
          HigherBin(v, loose, idx, j, b, a);
        } else {
          NilHas(a);
        }
      }
    }
  }

  lemma NilHas(a: int)
    ensures !Has(Nil, a)
  {
  }

  /** A chunk of the least size that a leftmost walk meets. */
  lemma {:induction false} LeastChunk(t: Tree) returns (b: int)
    requires t.Node? && t.ring != [] && Distinct(t) && NonEmptyRings(t)
    ensures Has(t, b) && SizeOf(t, b) == LeastOnWalk(t)
  {
    var c := LeftmostChild(t);
    DistinctParts(t);
    RingMembers(t);
    if c.Node? && LeastOnWalk(c) < t.size {
      b := LeastChunk(c);
    } else {
      b := t.ring[0];
    }
  }

  /** Nothing of bin idx is left to look at. */
  ghost predicate BinRuled(v: View, nb: nat, idx: nat, x: int) {
    && |v.bins.trees| == 32 && idx < 32 && (x != 0 ==> Has(v.bins.trees[idx], x))
    && (nb < ADDRESS_LIMIT ==> forall a | Has(v.bins.trees[idx], a) :: Ruled(v, nb, x, a))
  }

  lemma SearchEnd(v: View, nb: nat, idx: nat, x: int, lo: nat, w: nat, key: nat)
    requires Searching(v, nb, idx, x, Nil, Nil, lo, w, key)
    ensures BinRuled(v, nb, idx, x)
  {
    hide Has, OnPath;
    forall a
      ensures !Has(Nil, a)
    {
      NilHas(a);
    }
  }

  lemma EmptyRuled(v: View, nb: nat, idx: nat)
    requires |v.bins.trees| == 32 && idx < 32 && v.bins.trees[idx].Nil?
    ensures BinRuled(v, nb, idx, 0)
  {
  }

  /** A chunk of exactly nb bytes settles the search. */
  lemma ExactSettled(v: View, loose: set<int>, nb: nat, x: int, rsize: nat)
    requires v.Laid() && v.Binned(loose) && Fit(v, nb, x, rsize) && rsize == 0 && nb < WORD && nb > 0
    ensures Settled(v, nb, x)
  {
    hide View.Laid, View.Binned, InTrees;
    forall a | InTrees(v, a)
      ensures Ruled(v, nb, x, a)
    {
      InTreesChunk(v, loose, a);
    }
  }

  lemma NotEqual(v: View, nb: nat, x: int, rsize: nat, s: int)
    requires Fit(v, nb, x, rsize) && rsize > 0 && Beaten(v, nb, x, s)
    ensures s != nb
  {
  }

  /** No candidate. */
  lemma NoFit(v: View, nb: nat)
    requires 0 < nb < WORD
    ensures Fit(v, nb, 0, Wrap(0 - nb)) && Wrap(0 - nb) > 0
  {
  }

  lemma ChildrenDiffer(v: View, loose: set<int>, i: nat, cur: Tree, par: int)
    requires v.Laid() && v.Binned(loose) && Walking(v, i, cur, par) && cur.right.Node?
    ensures Addr(cur.left) != Addr(cur.right)
  {
    hide View.Laid, View.Binned, Has;
    WalkLook(v, loose, i, cur, par);
    DistinctParts(cur);
    RingMembers(cur.right);
    if cur.left.Node? {
      RingMembers(cur.left);
    }
  }

  /** Nothing of bin idx is left to look at, and a candidate was found there. */
  lemma FoundSettled(v: View, loose: set<int>, nb: nat, idx: nat, y: int)
    requires v.Laid() && v.Binned(loose) && idx == Index(nb) && MIN_LARGE_SIZE <= nb
    requires BinRuled(v, nb, idx, y) && y != 0 && y in v.chunks
    ensures Settled(v, nb, y)
  {
    hide View.Laid, View.Binned, Has, Index;
    if nb >= ADDRESS_LIMIT {
      HugeSettled(v, loose, nb, y);
    } else {
      forall a | InTrees(v, a)
        ensures Ruled(v, nb, y, a)
      {
        var j :| 0 <= j < 32 && Has(v.bins.trees[j], a);
        if j < idx {
          LowerBin(v, loose, nb, j, a);
        } else if j > idx {
          HigherBin(v, loose, idx, j, y, a);
        } else {
          NilHas(a);
        }
      }
    }
  }

  function Child(cur: Tree, key: nat): Tree
    requires cur.Node?
  {
    if ChildAt(key) == CHILD1 then cur.right else cur.left
  }

  /** The last right subtree not taken, when the descent goes to the child at address t. */
  function Rest(cur: Tree, rest: Tree, t: int): Tree
    requires cur.Node?
  {
    if Addr(cur.right) != 0 && Addr(cur.right) != t then cur.right else rest
  }

  /** One turn of the descent, in terms of what is read from memory. */
  lemma SearchTurn(v: View, loose: set<int>, nb: nat, idx: nat, x0: int, x: int, cur: Tree, par: int, rest: Tree,
      lo: nat, w: nat, key: nat)
    returns (lo': nat, w': nat)
    requires v.Laid() && v.Binned(loose) && Walking(v, idx, cur, par) &&
      Searching(v, nb, idx, x0, cur, rest, lo, w, key)
    requires Improves(v, x0, x) && (x == x0 || x == Addr(cur)) && Beaten(v, nb, x, cur.size) && cur.size != nb
    ensures Searching(v, nb, idx, x, Child(cur, key), Rest(cur, rest, Addr(Child(cur, key))), lo', w',
      key * 2 % Pow2(64))
  {
    hide View.Laid, View.Binned, Rep, Within, Improves, Beaten, Searching, Has, Pow2, OnPath;
    var d := Child(cur, key);
    WalkLook(v, loose, idx, cur, par);
    TurnHas(v, nb, idx, x0, x, cur, rest, lo, w, key);
    if cur.right.Node? {
      ChildrenDiffer(v, loose, idx, cur, par);
    }
    SearchStep(v, loose, nb, idx, x0, x, cur, par, rest, lo, w, key);
    if w == 0 {
      lo', w' := lo, w;
      HugeSearching(v, nb, idx, x, d, Rest(cur, rest, Addr(d)), lo, w, key * 2 % Pow2(64));
    } else {
      lo', w' := if ChildAt(key) == CHILD1 then lo + Pow2(w - 1) else lo, w - 1;
    }
  }

  /** What the turn reads, and the subtrees it leads to. */
  lemma TurnLook(v: View, loose: set<int>, idx: nat, cur: Tree, par: int, rest: Tree, restPar: int, key: nat)
    requires v.Laid() && v.Binned(loose) && Walking(v, idx, cur, par) && (rest.Node? ==> Walking(v, idx, rest, restPar))
    ensures Addr(cur) + CHILD1 in v.mem && Addr(cur) + ChildAt(key) in v.mem
    ensures var d := Child(cur, key);
      Rd(v.mem, Addr(cur) + ChildAt(key)) == Addr(d) && (d.Node? <==> Addr(d) != 0) &&
        (d.Node? ==> Walking(v, idx, d, Addr(cur)))
    ensures var rt, t := Rd(v.mem, Addr(cur) + CHILD1), Addr(Child(cur, key));
      Addr(Rest(cur, rest, t)) == if rt != 0 && rt != t then rt else Addr(rest)
    ensures var rt, t := Rd(v.mem, Addr(cur) + CHILD1), Addr(Child(cur, key)); var r := Rest(cur, rest, t);
      (r.Node? <==> Addr(r) != 0) && (r.Node? ==> Walking(v, idx, r, if rt != 0 && rt != t then Addr(cur) else restPar))
    ensures Child(cur, key).Node? ==> (cur decreases to Child(cur, key))
  {
    hide View.Laid, View.Binned, Rep, Within, Has;
    WalkLook(v, loose, idx, cur, par);
    if rest.Node? {
      WalkLook(v, loose, idx, rest, restPar);
    }
  }

  lemma TurnHas(v: View, nb: nat, idx: nat, x0: int, x: int, cur: Tree, rest: Tree, lo: nat, w: nat, key: nat)
    requires Searching(v, nb, idx, x0, cur, rest, lo, w, key) && (x == x0 || Has(v.bins.trees[idx], x))
    ensures x != 0 ==> Has(v.bins.trees[idx], x)
  {
  }

  lemma HugeSearching(v: View, nb: nat, idx: nat, x: int, d: Tree, rest: Tree, lo: nat, w: nat, key: nat)
    requires |v.bins.trees| == 32 && idx < 32 && nb >= ADDRESS_LIMIT && (x != 0 ==> Has(v.bins.trees[idx], x))
    ensures Searching(v, nb, idx, x, d, rest, lo, w, key)
  {
  }

  /** Nothing of bin idx is left to look at, and no candidate was found: the next bin that is not empty decides. */
  lemma NextPending(v: View, loose: set<int>, nb: nat, idx: nat, left: nat)
    requires v.Laid() && v.Binned(loose) && idx == Index(nb) && MIN_LARGE_SIZE <= nb &&
      left == LeftOf(v.bins.treemap, idx)
    requires BinRuled(v, nb, idx, 0)
    ensures |v.bins.roots| == 32
    ensures left == 0 ==> Settled(v, nb, 0)
    ensures left != 0 ==> idx < Ffs(left) < 32 && v.bins.trees[Ffs(left)].Node?
    ensures left != 0 ==> Pending(v, nb, 0, v.bins.trees[Ffs(left)]) || Settled(v, nb, 0)
  {
    hide View.Laid, View.Binned, Has, Index, Ffs, LeftOf, Pending;
    NextBin(v, loose, idx, left);
    TableShape(v, loose);
    if nb >= ADDRESS_LIMIT {
      HugeSettled(v, loose, nb, 0);
    } else if left != 0 {
      NextBinPending(v, loose, nb, idx, Ffs(left));
    } else {
      forall a | InTrees(v, a)
        ensures Ruled(v, nb, 0, a)
      {
        var j :| 0 <= j < 32 && Has(v.bins.trees[j], a);
        NilHas(a);
        if j < idx {
          LowerBin(v, loose, nb, j, a);
        }
      }
    }
  }

  lemma NextBinPending(v: View, loose: set<int>, nb: nat, idx: nat, j: nat)
    requires v.Laid() && v.Binned(loose) && idx == Index(nb) && MIN_LARGE_SIZE <= nb < ADDRESS_LIMIT
    requires BinRuled(v, nb, idx, 0)
    requires idx < j < 32 && |v.bins.trees| == |v.bins.roots| == 32 && v.bins.trees[j].Node?
    requires forall k | idx < k < j && k < 32 :: v.bins.trees[k].Nil?
    ensures Pending(v, nb, 0, v.bins.trees[j])
  {
    hide View.Laid, View.Binned, Has, Index, TreeOK, Low, Width, SizeOf, LeastOnWalk, Rep;
    var t := v.bins.trees[j];
    RootTree(v, loose, j);
    TreeParts(v.mem, t, v.bins.roots[j], j, v.msp);
    LeastOnWalkIsLeast(t, Low(j), Width(j));
    RepNonEmpty(v.mem, t, TreeBin(v.msp, j), j);
    var b := LeastChunk(t);
    TreeChunk(v, loose, j, b);
    forall a | Has(t, a)
      ensures nb <= SizeOf(t, a)
    {
      TreeChunk(v, loose, j, a);
      UpperBin(v, loose, nb, j, a);
    }
    forall a | InTrees(v, a)
      ensures a in v.chunks && (Ruled(v, nb, 0, a) || LeastOnWalk(t) <= v.chunks[a].size)
    {
      var k :| 0 <= k < 32 && Has(v.bins.trees[k], a);
      NilHas(a);
      if k < idx {
        LowerBin(v, loose, nb, k, a);
      } else if k > j {
        HigherBin(v, loose, j, k, b, a);
      } else if k == j {
        TreeChunk(v, loose, j, a);
      }
    }
  }

  lemma RootAddress(v: View, loose: set<int>, i: nat)
    requires v.Laid() && v.Binned(loose) && i < 32
    ensures |v.bins.trees| == |v.bins.roots| == 32
    ensures v.bins.roots[i] == Addr(v.bins.trees[i]) && (v.bins.roots[i] != 0 <==> v.bins.trees[i].Node?)
  {
    hide View.Laid, View.Binned, TreeOK, Rep, Within, Has;
    RootTree(v, loose, i);
    TreeParts(v.mem, v.bins.trees[i], v.bins.roots[i], i, v.msp);
    if v.bins.trees[i].Node? {
      WalkStart(v, loose, i);
      WalkLook(v, loose, i, v.bins.trees[i], TreeBin(v.msp, i));
    }
  }

  lemma FitIn(v: View, nb: nat, x: int, rsize: nat)
    requires Fit(v, nb, x, rsize) && x != 0
    ensures x in v.chunks
  {
  }

  /** One step of the leftmost walk through memory. */
  lemma WalkPending(v: View, loose: set<int>, nb: nat, i: nat, x: int, y: int, c: Tree, par: int)
    requires v.Laid() && v.Binned(loose) && Walking(v, i, c, par) && (Pending(v, nb, x, c) || Settled(v, nb, x))
    requires Improves(v, x, y) && Beaten(v, nb, y, c.size)
    ensures var d := LeftmostChild(c);
      if d.Node? then Walking(v, i, d, Addr(c)) && (Pending(v, nb, y, d) || Settled(v, nb, y)) else Settled(v, nb, y)
    ensures LeftmostChild(c).Node? <==> Addr(LeftmostChild(c)) != 0
    ensures c decreases to LeftmostChild(c)
    ensures Addr(LeftmostChild(c)) == if Rd(v.mem,
      Addr(c) + CHILD0) != 0 then Rd(v.mem, Addr(c) + CHILD0) else Rd(v.mem, Addr(c) + CHILD1)
  {
    hide View.Laid, View.Binned, Within, Pending, Settled, Improves, Beaten;
    WalkLook(v, loose, i, c, par);
    if Settled(v, nb, x) {
      SettledStays(v, nb, x, y);
    } else {
      PendingStep(v, nb, x, c, y) by {
        assert Distinct(c) by {
          WithinDistinct(v.bins.trees[i], c);
        }
      }
    }
  }

  lemma WithinDistinct(root: Tree, c: Tree)
    requires Within(root, c)
    ensures Distinct(c)
  {
  }

  /** A candidate that settles the search is the best fit. */
  lemma SettledBest(v: View, loose: set<int>, nb: nat, x: int, rsize: nat)
    requires v.Laid() && v.Binned(loose) && Settled(v, nb, x) && Fit(v, nb, x, rsize)
    ensures BestFor(v, nb, x)
  {
    hide View.Laid, View.Binned, InTrees;
  }
}
