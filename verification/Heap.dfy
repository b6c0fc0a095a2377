/** The allocator itself: `malloc_state` and the operations on it. */
module Heap {
  import opened BinMap
  import opened TreeIndex
  import opened Memory
  import opened Trie
  import opened TreeLinks
  import opened TreeUnlink
  import opened Layout
  import opened Bins
  import opened SmallBins
  import opened LargeBins
  import opened LargeUnlink
  import opened Segments
  import opened Descent
  import opened BinSteps
  import opened TagSteps
  import opened BestFit
  import opened Blocks
  import opened FreeSteps
  import opened SegSteps
  import opened DropSteps
  import opened TrimSteps
  import opened AddSteps
  import opened PrependSteps
  import opened DirectSteps
  import opened UserSteps
  import opened Bytes
  import opened CreateSteps

  const MAX_RELEASE_CHECK_RATE := 255
  const DEFAULT_TRIM_THRESHOLD := 0x20_0000
  const MAX_SIZE_T := WORD - 1
  const MAX_REQUEST := WORD - 128
  const MFAIL := MAX_SIZE_T
  const SIZEOF_SEGMENT := 24
  const DEFAULT_MMAP_THRESHOLD := 0x2_0000
  const MIN_REQUEST := 23
  const MAX_SMALL_REQUEST := 240

  /** `pad_request` */
  function PadRequest(req: int): int {
    (req + 15) / 8 * 8
  }

  /** The chunk size that `lj_alloc_malloc` looks for. */
  function ChunkRequest(nsize: nat): nat {
    if nsize <= MAX_SMALL_REQUEST then (if nsize < MIN_REQUEST then MIN_CHUNK_SIZE else PadRequest(nsize))
    else if nsize >= MAX_REQUEST then MAX_SIZE_T
    else PadRequest(nsize)
  }

  /** The request is so near 2^64 that its size wraps round when it is rounded up for `mmap`. */
  predicate Overflows(nsize: nat) {
    ChunkRequest(nsize) >= WORD - 0x2_0040
  }

  /** Nothing that is free suffices, and the chunk is large enough for a mapping of its own. */
  ghost predicate GoesDirect(v: View, nb: int) {
    !FreeFits(v, nb) && nb >= v.topsize && nb >= DEFAULT_MMAP_THRESHOLD
  }

  /** When p is released and its chunk merged into one that starts at a, that goes to a tree bin. */
  ghost predicate GoesToTree(v: View, p: int, a: int) {
    a != v.dv && Nxt(v.chunks, p) != v.dv && Nxt(v.chunks, p) != v.top && FreedSize(v.chunks, p, a) >= MIN_LARGE_SIZE
  }

  /** The count of such releases goes down by one; at 0, the segments have been walked and the count starts again. */
  ghost predicate Recounted(was: int, now: int, calls: seq<Unmapping>, more: seq<Unmapping>, w: View) {
    if (was - 1) % WORD != 0 then now == (was - 1) % WORD && more == calls
    else
      now >= MAX_RELEASE_CHECK_RATE && (Done(calls, more) ==> forall j | 1 <= j < |w.segs| :: !Spare(w, j))
  }

  /** What a release of chunk p from state v does to the count: nothing if it does not go to a tree, unless it makes the
      top chunk larger than the limit, so that this is trimmed. */
  ghost predicate Counts(v: View, p: int, a: int, limit: int, was: int, now: int, calls: seq<Unmapping>,
      more: seq<Unmapping>,
      w: View)
  {
    if GoesToTree(v, p, a) then Recounted(was, now, calls, more, w)
    else (Nxt(v.chunks, p) == v.top && v.topsize + (v.top - a) > limit) || (now == was && more == calls)
  }

  /** Only where chunks lie, the victim and the top chunk count. */
  lemma CountsSame(v: View, u: View, p: int, a: int, limit: int, was: int, now: int, calls: seq<Unmapping>,
      more: seq<Unmapping>, w: View)
    requires u.chunks == v.chunks && u.dv == v.dv && u.top == v.top && u.topsize == v.topsize
    requires Frees(v.chunks, p, a)
    ensures Counts(u, p, a, limit, was, now, calls, more, w) ==> Counted(v, p, limit, was, now, calls, more, w)
    ensures a == v.dv ==> Counted(v, p, limit, was, was, calls, calls, w)
  {
    hide Recounted, FreedSize;
  }

  ghost predicate Counted(v: View, p: int, limit: int, was: int, now: int, calls: seq<Unmapping>, more: seq<Unmapping>,
      w: View)
  {
    exists a :: Frees(v.chunks, p, a) && Counts(v, p, a, limit, was, now, calls, more, w)
  }

  /** A new block is no direct chunk if there are no others than before. */
  lemma GrantedInside(v: View, w: View, p: int, n: int)
    requires Sound(v) && Granted(v, w, p, n)
    ensures p - 16 !in v.direct
  {
    hide View.Laid, View.Binned, Coalesced, Keeps;
    if p - 16 in v.direct {
      DirectLook(v, p - 16);
    }
  }

  lemma ChosenFits(v: View, nb: int, a: int)
    requires Chosen(v, nb, a)
    ensures FreeFits(v, nb)
  {
  }

  lemma ChunkRequestOK(nsize: nat)
    requires nsize < WORD
    ensures var nb := ChunkRequest(nsize);
      && MIN_CHUNK_SIZE <= nb < WORD && (nb % 8 == 0 || nb == MAX_SIZE_T) && nb - 8 >= nsize - 8
      && (nsize >= MAX_REQUEST ==> nb == MAX_SIZE_T) &&
        (nsize < MAX_REQUEST ==> nb % 8 == 0 && nb - 8 >= nsize && nb <= WORD - 120)
      && (nsize <= MAX_SMALL_REQUEST ==> nb < MIN_LARGE_SIZE) && (nsize > MAX_SMALL_REQUEST ==> nb >= MIN_LARGE_SIZE)
  {
  }

  /** It is the least size of a chunk that leaves room for the request behind its head. */
  lemma ChunkRequestLeast(nsize: nat, s: nat)
    requires nsize < MAX_REQUEST && s % 8 == 0
    ensures s >= ChunkRequest(nsize) <==> s >= MIN_CHUNK_SIZE && s - 8 >= nsize
  {
  }

  class MState {
    var mem: Mem
    var smallmap: nat
    var treemap: nat
    var dvsize: int
    var topsize: int
    var dv: int
    var top: int
    var trimCheck: int
    var releaseChecks: int
    var treebins: seq<int>
    const msp: int

    ghost var chunks: Chunks
    ghost var small: seq<seq<int>>
    ghost var trees: seq<Tree>
    ghost var segs: seq<Seg>
    ghost var direct: map<int, int>

    /** How often `mmap` failed. */
    ghost var denied: nat
    /** How often `mremap` failed. */
    ghost var stuck: nat
    /** The calls of `munmap` so far. */
    ghost var unmaps: seq<Unmapping>

    ghost function Table(): BinTable
      reads this
    {
      BinTable(small, smallmap, trees, treebins, treemap)
    }

    ghost function Now(): View
      reads this
    {
      View(mem, chunks, top, topsize, segs, direct, msp, Table(), dv, dvsize)
    }

    /** `lj_alloc_create` in the mapping of GRANULARITY bytes at tbase. */
    constructor (tbase: int)
      requires FreshAt(map[], tbase, GRANULARITY)
      ensures Sound(Now()) && denied == 0 && stuck == 0 && unmaps == [] && forall p :: Usable(Now(), p) == 0
    {
      hide View.Laid, View.Binned, Sound, Usable, MapIn, FreshAt, FirstWords, FirstChunks, AlignOffset, SegField;
      msp := tbase + AlignOffset(tbase + 16);
      mem := MapIn(map[], tbase, GRANULARITY);
      smallmap, treemap := 0, 0;
      dv, dvsize := 0, 0;
      top, topsize := 0, 0;
      trimCheck := 0;
      releaseChecks := MAX_RELEASE_CHECK_RATE;
      treebins := EmptyTable().roots;
      small := EmptyTable().small;
      trees := EmptyTable().trees;
      segs := [Seg(tbase, GRANULARITY, SegField(tbase))];
      direct := map[];
      chunks := FirstChunks(tbase);
      denied, stuck, unmaps := 0, 0, [];
      new;
      FreshEight(tbase);
      SetUp(tbase);
      FirstSound(mem, tbase);
    }

    /** The stores into the new mapping. */
    method SetUp(tbase: int)
      requires FreshAt(map[], tbase, GRANULARITY) && mem == MapIn(map[], tbase, GRANULARITY) && msp == tbase
      modifies this`mem, this`top, this`topsize, this`trimCheck
      ensures FirstWords(mem, tbase) && top == tbase + STATE_SIZE && topsize == FIRST_TOP
    {
      hide MapIn, FreshAt, FirstWords;
      ghost var m0 := mem;
      ZeroMap(tbase);
      FreshFacts(map[], tbase, GRANULARITY);
      FreshEight(tbase);
      mem := Wr(mem, msp + HEAD, STATE_SIZE + 3);
      mem := Wr(mem, SegField(msp), tbase);
      mem := Wr(mem, SegField(msp) + 8, GRANULARITY);
      InitBins();
      assert Rd(mem, msp + HEAD) == STATE_SIZE + 3;
      var mn := msp + ChunkSize(Ld(mem, msp + HEAD));
      ghost var m := mem;
      InitTop(mn, tbase + GRANULARITY - mn - TOP_FOOT_SIZE);
      FirstStores(m0, m, mem, tbase);
    }

    /** `init_bins` */
    method InitBins()
      requires forall w | msp + 88 <= w < msp + 600 :: w in mem
      modifies this`mem
      ensures mem.Keys == old(mem).Keys && forall w | !(msp + 88 <= w < msp + 600) :: Rd(mem, w) == Rd(old(mem), w)
      ensures forall i | 0 <= i < 32 ::
        Fd(mem, SmallBin(msp, i)) == SmallBin(msp, i) && Bk(mem, SmallBin(msp, i)) == SmallBin(msp, i)
    {
      var i := 0;
      while i < 32
        invariant 0 <= i <= 32 && mem.Keys == old(mem).Keys
        invariant forall w | !(msp + 88 <= w < msp + 600) :: Rd(mem, w) == Rd(old(mem), w)
        invariant forall j | 0 <= j < i ::
          Fd(mem, SmallBin(msp, j)) == SmallBin(msp, j) && Bk(mem, SmallBin(msp, j)) == SmallBin(msp, j)
      {
        var bin := SmallBin(msp, i);
        mem := Wr(mem, bin + BK, bin);
        mem := Wr(mem, bin + FD, bin);
        i := i + 1;
      }
    }

    /** Links p in between the bin header b and the chunk f behind it. */
    method LinkSmall(b: int, f: int, p: int)
      requires b + FD in mem && f + BK in mem && p + FD in mem && p + BK in mem
      modifies this`mem
      ensures mem == LinkedSmall(old(mem), b, f, p)
    {
      mem := Wr(mem, b + FD, p);
      mem := Wr(mem, f + BK, p);
      mem := Wr(mem, p + FD, f);
      mem := Wr(mem, p + BK, b);
    }

    method InsertSmallChunk(p: int, s: int, ghost loose: set<int>)
      requires Now().Laid() && Now().Binned(loose)
      requires p in loose && p != dv && p in chunks && chunks[p].size == s < MIN_LARGE_SIZE
      modifies this`mem, this`smallmap, this`small
      ensures Now().Laid() && Now().Binned(loose - {p})
      ensures DataKept(old(mem), mem, chunks, direct, {}, msp)
    {
      hide View.Laid, View.Binned, DataKept, InsertPlace, FreeAt, Marked, Mark, LinkedSmall;
      ghost var v := Now();
      SmallSize(v, loose, p);
      var i := s / 8;
      var b := SmallBin(msp, i);
      var f := b;
      SmallInsertReady(v, loose, p, i, b, if Marked(smallmap, i) then Fd(mem, b) else b);
      if !Marked(smallmap, i) {
        smallmap := Mark(smallmap, i);
      } else {
        MarkAgain(smallmap, i);
        f := Ld(mem, b + FD);
      }
      LinkSmall(b, f, p);
      small := small[i := [p] + small[i]];
      SmallInsertDone(v, loose, p, i, b, f, mem, Now());
    }

    method UnlinkSmallChunk(p: int, s: int, ghost loose: set<int>)
      requires Now().Laid() && Now().Binned(loose)
      requires FreeAt(chunks, p) && p !in loose && p != dv && chunks[p].size == s < MIN_LARGE_SIZE
      modifies this`mem, this`smallmap, this`small
      ensures Now().Laid() && Now().Binned(loose + {p})
      ensures DataKept(old(mem), mem, chunks, direct, {}, msp)
    {
      hide View.Laid, View.Binned, DataKept, FreeAt, Marked, Clear, Without, UnlinkStores;
      ghost var v := Now();
      SmallUnlinkReady(v, loose, p);
      var f := Ld(mem, p + FD);
      var b := Ld(mem, p + BK);
      var i := s / 8;
      if f == b {
        smallmap := Clear(smallmap, i);
      } else {
        mem := Wr(mem, f + BK, b);
        mem := Wr(mem, b + FD, f);
      }
      small := small[i := Without(small[i], p)];
      SmallUnlinkDone(v, loose, p, i, mem, Now());
    }

    /** Takes the first chunk p of small bin i, whose header is b. */
    method UnlinkFirstSmallChunk(b: int, p: int, i: nat, ghost loose: set<int>)
      requires Now().Laid() && Now().Binned(loose)
      requires i < 32 && |small| == 32 && small[i] != [] && b == SmallBin(msp, i) && p == Fd(mem, b)
      modifies this`mem, this`smallmap, this`small
      ensures Now().Laid() && Now().Binned(loose + {p})
      ensures p == old(small[i][0]) && FreeAt(chunks, p) && chunks[p].size == 8 * i
      ensures DataKept(old(mem), mem, chunks, direct, {}, msp)
    {
      hide View.Laid, View.Binned, DataKept, FreeAt, Marked, Clear, Without, UnlinkStores;
      ghost var v := Now();
      SmallFirst(v, loose, p, i);
      SmallUnlinkReady(v, loose, p);
      var f := Ld(mem, p + FD);
      if b == f {
        smallmap := Clear(smallmap, i);
      } else {
        mem := Wr(mem, b + FD, f);
        mem := Wr(mem, f + BK, b);
      }
      small := small[i := Without(small[i], p)];
      SwappedStores(v.mem, mem, p);
      SmallUnlinkDone(v, loose, p, i, mem, Now());
    }

    /** The descent of `insert_large_chunk` in a bin that is not empty; v is the state before the insertion. */
    method LinkBelow(x: int, s: nat, i: nat, ghost v: View, ghost loose: set<int>)
      requires v.Laid() && v.Binned(loose) && i < 32 && |v.bins.trees| == |v.bins.roots| == 32 && |treebins| == 32
      requires v.bins.trees[i].Node? && treebins[i] == Addr(v.bins.trees[i]) && mem == Prepared(v.mem, x, i)
      requires ClearOf(v.bins.trees[i], x) && !Has(v.bins.trees[i], x) && LinksMapped(v.mem, x)
      requires OnPath(v.bins.trees[i], Low(i), Width(i), s, s * Pow2(LeftShift(i)) % Pow2(64))
      modifies this`mem
      ensures OnlyTree(v.mem, mem, v.bins.trees[i], x)
      ensures Rep(mem, Insert(v.bins.trees[i], x, s, Low(i), Width(i)), TreeBin(v.msp, i), i)
    {
      hide View.Laid, View.Binned, Shape, Has, Rep, OnlyTree, Insert, OnPath, ClearOf, Spaced, Pow2, Low, Width;
      hide ChildAt, Descending, Addr, Prepared;
      hide StopAt, LinksMapped;
      var t := treebins[i];
      var k: nat := s * Pow2(LeftShift(i)) % Pow2(64);
      ghost var cur, par := v.bins.trees[i], TreeBin(v.msp, i);
      ghost var lo: nat, w: nat := Low(i), Width(i);
      DescentStart(v, loose, i, s, k);
      while true
        invariant mem == Prepared(v.mem, x, i)
        invariant cur.Node? && t == Addr(cur) && Descending(v, i, cur, par, lo, w, s, k)
        decreases cur
      {
        DescendLook(v, loose, i, cur, par, lo, w, s, k, x, mem);
        if ChunkSize(Ld(mem, t + HEAD)) != s {
          DescendStep(v, i, cur, par, lo, w, s, k);
          var c := t + ChildAt(k);
          if Ld(mem, c) != 0 {
            k := k * 2 % Pow2(64);
            par := t;
            t := Ld(mem, c);
            if c == par + CHILD0 {
              cur, w := cur.left, w - 1;
            } else {
              cur, lo, w := cur.right, lo + Pow2(w - 1), w - 1;
            }
          } else {
            AttachStart(v, loose, x, i, s, cur, par, lo, w, k, mem);
            mem := Wr(mem, c, x);
            mem := Wr(mem, x + PARENT, t);
            mem := Wr(mem, x + BK, x);
            mem := Wr(mem, x + FD, x);
            break;
          }
        } else {
          JoinStart(v, loose, x, i, s, cur, par, lo, w, k, mem);
          var f := Ld(mem, t + FD);
          mem := Wr(mem, f + BK, x);
          mem := Wr(mem, t + FD, x);
          mem := Wr(mem, x + FD, f);
          mem := Wr(mem, x + BK, t);
          mem := Wr(mem, x + PARENT, 0);
          break;
        }
      }
    }

    /** x becomes the root of an empty bin. */
    method LinkRoot(x: int, s: nat, i: nat, ghost v: View)
      requires i < 32 && |treebins| == 32 && mem == Prepared(v.mem, x, i) && msp == v.msp
      requires LinksMapped(v.mem, x) && x != 0 && Low(i) <= s < Low(i) + Pow2(Width(i))
      modifies this`mem, this`treebins, this`treemap
      ensures treebins == old(treebins)[i := x] && treemap == Mark(old(treemap), i)
      ensures OnlyTree(v.mem, mem, Nil, x) && Rep(mem, Insert(Nil, x, s, Low(i), Width(i)), TreeBin(msp, i), i)
      ensures Addr(Insert(Nil, x, s, Low(i), Width(i))) == x
    {
      hide Pow2, Low, Width, Rep, OnlyTree, Insert, Mark, Addr;
      treemap := Mark(treemap, i);
      treebins := treebins[i := x];
      mem := Wr(mem, x + PARENT, TreeBin(msp, i));
      mem := Wr(mem, x + BK, x);
      mem := Wr(mem, x + FD, x);
      EmptyBinInsert(v, x, s, i);
    }

    method InsertLargeChunk(x: int, s: nat, ghost loose: set<int>)
      requires Now().Laid() && Now().Binned(loose)
      requires x in loose && x != dv && x in chunks && chunks[x].size == s >= MIN_LARGE_SIZE
      modifies this`mem, this`treemap, this`treebins, this`trees
      ensures Now().Laid() && Now().Binned(loose - {x})
      ensures DataKept(old(mem), mem, chunks, direct, {}, msp)
    {
      hide View.Laid, View.Binned, DataKept, Index, Insert, Low, Width, LinksMapped, LinkedIn, FreeAt;
      ghost var v := Now();
      var i := Index(s);
      LinkingReady(v, loose, x, s, i);
      mem := Wr(mem, x + INDEX, i);
      mem := Wr(mem, x + CHILD0, 0);
      mem := Wr(mem, x + CHILD1, 0);
      LinkTree(x, s, i, v, loose);
      LinkedDone(v, loose, i, x, s, mem, treebins, treemap);
      trees := trees[i := Insert(trees[i], x, s, Low(i), Width(i))];
    }

    /** The rest of `insert_large_chunk`: x goes into tree bin i; v is the state before the insertion. */
    method LinkTree(x: int, s: nat, i: nat, ghost v: View, ghost loose: set<int>)
      requires LinkingIn(v, loose, i, x, s) && Now() == v.(mem := mem) && mem == Prepared(v.mem, x, i)
      modifies this`mem, this`treemap, this`treebins
      ensures LinkedIn(v, i, x, s, mem, treebins, treemap)
    {
      hide View.Laid, View.Binned, Marked, Mark, Index, Shape, Has, Rep, OnlyTree, Insert, OnPath, StopAt, Within;
      hide Distinct;
      hide ClearOf, Spaced, TreeOK, Low, Width, Pow2, Prepared, LinksMapped, FreeAt;
      LargeInsertReady(v, loose, x, i);
      RootTree(v, loose, i);
      ghost var root := trees[i];
      TreeParts(v.mem, root, treebins[i], i, msp);
      if !Marked(treemap, i) {
        LinkRoot(x, s, i, v);
      } else {
        MarkAgain(treemap, i);
        LinkBelow(x, s, i, v, loose);
        InsertAddr(root, x, s, Low(i), Width(i));
      }
    }

    /** Walks from child c of x, linked at slot, down to the deepest leaf r, linked at rp. */
    method SinkToLeaf(slot: int, ghost x: int, ghost i: nat, ghost c: Tree, ghost loose: set<int>)
      returns (r: int, rp: int)
      requires Now().Laid() && Now().Binned(loose) && i < 32 && |trees| == 32
      requires slot in mem && c.Node? && Rd(mem, slot) == Addr(c) && Sinking(mem, trees[i], i, c, slot, c, x, slot)
      ensures rp in mem && DeepSlot(c, slot) == rp && Addr(DeepLeaf(c)) == r
    {
      hide View.Laid, View.Binned, DeepLeaf, DeepSlot, Sinking;
      ghost var v := Now();
      rp := slot;
      r := Ld(mem, rp);
      ghost var cur, par := c, x;
      while true
        invariant cur.Node? && r == Addr(cur) && rp in mem && Sinking(mem, v.bins.trees[i], i, c, slot, cur, par, rp)
        decreases cur
      {
        SinkLook(v, loose, i, c, slot, cur, par, rp);
        SinkStep(mem, v.bins.trees[i], i, c, slot, cur, par, rp);
        if Ld(mem, r + CHILD1) != 0 {
          rp := r + CHILD1;
          cur, par := cur.right, r;
        } else if Ld(mem, r + CHILD0) != 0 {
          rp := r + CHILD0;
          cur, par := cur.left, r;
        } else {
          break;
        }
        r := Ld(mem, rp);
      }
    }

    /** The first half of `unlink_large_chunk`: cuts x out of its ring, or the deepest leaf off its children. */
    method CutOutChunk(x: int, ghost i: nat, ghost loose: set<int>) returns (r: int)
      requires Cutting(Now(), loose, i, x)
      modifies this`mem
      ensures WasCut(old(Now()), mem, i, x, r)
    {
      hide View.Laid, View.Binned, Has, Rep, Within, Distinct, Spaced, CutOut, NonEmptyRings, HeldBy, LinksMapped;
      hide DeepStep;
      ghost var v := Now();
      ghost var t := trees[i];
      ghost var h := Holder(t, x);
      CutReady(v, loose, i, x);
      if Ld(mem, x + BK) != x {
        var f := Ld(mem, x + FD);
        r := Ld(mem, x + BK);
        mem := Wr(mem, f + BK, r);
        mem := Wr(mem, r + FD, f);
        CutRingDone(v.mem, t, i, TreeBin(msp, i), h, x);
      } else if Ld(mem, x + CHILD1) != 0 || Ld(mem, x + CHILD0) != 0 {
        var slot := if Ld(mem, x + CHILD1) != 0 then x + CHILD1 else x + CHILD0;
        r := CutDeepLeaf(x, slot, i, loose);
      } else {
        r := 0;
        CutNoneDone(v.mem, t, i, TreeBin(msp, i), h, x);
      }
    }

    /** Cuts the deepest leaf off the child of x at slot. */
    method CutDeepLeaf(x: int, slot: int, ghost i: nat, ghost loose: set<int>) returns (r: int)
      requires Cutting(Now(), loose, i, x) && slot in mem && Bk(mem, x) == x
      requires slot == if Child1(mem, x) != 0 then x + CHILD1 else x + CHILD0
      requires Child1(mem, x) != 0 || Child0(mem, x) != 0
      modifies this`mem
      ensures WasCut(old(Now()), mem, i, x, r)
    {
      hide View.Laid, View.Binned, Has, Rep, Within, Distinct, Spaced, CutOut, NonEmptyRings, DeepLeaf, DeepSlot;
      hide Sinking, HeldBy, LinksMapped;
      ghost var v := Now();
      ghost var t := trees[i];
      ghost var h := Holder(t, x);
      CutReady(v, loose, i, x);
      ghost var c, other := if h.right.Node? then h.right else h.left, if h.right.Node? then h.left else h.right;
      SinkStart(v, loose, i, h, x, c, slot);
      var rp;
      r, rp := SinkToLeaf(slot, x, i, c, loose);
      mem := Wr(mem, rp, 0);
      CutLeafDone(v.mem, t, i, TreeBin(msp, i), h, x, c, other, slot, rp, r);
    }

    /** The last part of `unlink_large_chunk`: r takes over the parent and the children of x. */
    method AdoptChunk(x: int, r: int, xp: int)
      requires x + CHILD0 in mem && x + CHILD1 in mem && r + PARENT in mem && r + CHILD0 in mem && r + CHILD1 in mem
      requires Child0(mem, x) != 0 ==> Child0(mem, x) + PARENT in mem
      requires Child1(mem, x) != 0 ==> Child1(mem, x) + PARENT in mem
      requires x + 64 <= r || r + 64 <= x
      requires Child0(mem, x) != 0 ==> Far(Child0(mem, x), x)
      modifies this`mem
      ensures mem == Adopted(old(mem), x, r, xp) && mem.Keys == old(mem).Keys
    {
      mem := Wr(mem, r + PARENT, xp);
      var c0 := Ld(mem, x + CHILD0);
      if c0 != 0 {
        mem := Wr(mem, r + CHILD0, c0);
        mem := Wr(mem, c0 + PARENT, r);
      }
      var c1 := Ld(mem, x + CHILD1);
      if c1 != 0 {
        mem := Wr(mem, r + CHILD1, c1);
        mem := Wr(mem, c1 + PARENT, r);
      }
    }

    /** The middle of `unlink_large_chunk`: r takes the place of x in bin i or below xp. */
    method PassLink(x: int, i: nat, xp: int, r: int, ghost v: View, ghost loose: set<int>)
      requires Passing(v, loose, i, x, xp, r, mem) && Now() == v.(mem := mem)
      modifies this`mem, this`treebins, this`treemap
      ensures Passed(v, i, x, xp, r, old(mem), mem, treebins, treemap)
    {
      hide View.Laid, View.Binned, Clear, Has, Rep, Within, Distinct, Relinked, Unlinking;
      ghost var m1 := mem;
      if x == treebins[i] {
        treebins := treebins[i := r];
        if r == 0 {
          treemap := Clear(treemap, i);
        }
      } else {
        RelinkLook(v, loose, x, i, xp, r, m1);
        if Ld(mem, xp + CHILD0) == x {
          mem := Wr(mem, xp + CHILD0, r);
        } else {
          mem := Wr(mem, xp + CHILD1, r);
        }
        RelinkIs(m1, xp, x, r, mem);
      }
    }

    method UnlinkLargeChunk(x: int, ghost loose: set<int>)
      requires Now().Laid() && Now().Binned(loose)
      requires x in chunks && FreeAt(chunks, x) && x !in loose && x != dv && chunks[x].size >= MIN_LARGE_SIZE
      modifies this`mem, this`treemap, this`treebins, this`trees
      ensures Now().Laid() && Now().Binned(loose + {x})
      ensures DataKept(old(mem), mem, chunks, direct, {}, msp)
    {
      hide View.Laid, View.Binned, DataKept, Clear, Index, Has, Rep, OnlyTree, Delete, Within, Distinct, HeldBy;
      hide CutOut, FreeAt, Relinked, Adopted;
      hide Unlinking;
      ghost var v := Now();
      ghost var i: nat := Index(chunks[x].size);
      UnlinkReady(v, loose, x, i);
      ghost var t := trees[i];
      ghost var h := Holder(t, x);
      var xp := Ld(mem, x + PARENT);
      var r := CutOutChunk(x, i, loose);
      ghost var m1 := mem;
      CutLook(v, loose, x, i, xp, r, m1);
      ghost var m2 := m1;
      if xp != 0 {
        var hi := Ld(mem, x + INDEX);
        PassLink(x, hi, xp, r, v, loose);
        m2 := mem;
        if r != 0 {
          AdoptLook(v, loose, x, i, xp, r, m1, m2);
          AdoptChunk(x, r, xp);
        }
      }
      UnlinkedTree(v, loose, x, i, xp, r, m1, m2, mem);
      trees := trees[i := Delete(t, x)];
      LargeUnlinkDone(v, loose, x, i, mem, Now());
    }

    // ----- searching the tree bins -----

    /** The search of `tmalloc_small`: the smallest chunk of all tree bins, and what it has beyond nb bytes. */
    method FindSmallest(nb: int) returns (x: int, rsize: int)
      requires Now().Laid() && Now().Binned({}) && treemap != 0
      ensures Smallest(Now(), x) && rsize == chunks[x].size - nb
    {
      hide View.Laid, View.Binned, Has, SizeOf, Walking, Smallest, Shape, InTrees, EmptyBelow, LeastOnWalk, Low, Width;
      ghost var v := Now();
      var i := Ffs(treemap);
      FirstBin(v, {}, i);
      TableShape(v, {});
      WalkStart(v, {}, i);
      var t := treebins[i];
      ghost var root, cur, par := trees[i], trees[i], TreeBin(msp, i);
      WalkLook(v, {}, i, cur, par);
      x := t;
      rsize := ChunkSize(Ld(mem, t + HEAD)) - nb;
      WalkBegin(root);
      while true
        invariant cur.Node? && t == Addr(cur) && Walking(v, i, cur, par)
        invariant Has(root, x) && x in chunks && SizeOf(root, x) == rsize + nb == chunks[x].size
        invariant LeastOnWalk(root) == WalkMin(LeftmostChild(cur), rsize + nb)
        decreases cur
      {
        WalkLook(v, {}, i, cur, par);
        t := if Ld(mem, t + CHILD0) != 0 then Ld(mem, t + CHILD0) else Ld(mem, t + CHILD1);
        if t == 0 {
          break;
        }
        WalkStep(LeftmostChild(cur), rsize + nb);
        cur, par := LeftmostChild(cur), Addr(cur);
        WalkLook(v, {}, i, cur, par);
        var trem := ChunkSize(Ld(mem, t + HEAD)) - nb;
        if trem < rsize {
          rsize := trem;
          x := t;
        }
      }
      SmallestOfAll(v, {}, i, x);
    }

    /** The descent of `tmalloc_large` in bin idx: a candidate, and the subtree c at t that is still to be walked. */
    method SearchBin(nb: nat, idx: nat) returns (x: int, rsize: nat, t: int, ghost c: Tree, ghost par: int)
      requires Now().Laid() && Now().Binned({}) && MIN_LARGE_SIZE <= nb < WORD && idx == Index(nb)
      requires idx < 32 && |trees| == |treebins| == 32 && trees[idx].Node? && treebins[idx] == Addr(trees[idx])
      ensures Fit(Now(), nb, x, rsize)
      ensures t != 0 ==>
        t == Addr(c) && Walking(Now(), idx, c, par) && (Pending(Now(), nb, x, c) || Settled(Now(), nb, x))
      ensures t == 0 ==> BinRuled(Now(), nb, idx, x)
    {
      hide View.Laid, View.Binned, Walking, Searching, Fit, Beaten, Improves, Pending, Settled, BinRuled, Index, Pow2;
      hide Has, ChildAt;
      hide Low, Width, InTrees, Child, Rest, Wrap;
      ghost var v := Now();
      x, rsize := 0, Wrap(0 - nb);
      NoFit(v, nb);
      t := treebins[idx];
      var sizebits: nat := nb * Pow2(LeftShift(idx)) % Pow2(64);
      c, par := trees[idx], TreeBin(msp, idx);
      var rst := 0;
      ghost var rest, restPar := Nil, 0;
      ghost var lo: nat, w: nat := Low(idx), Width(idx);
      SearchStart(v, {}, nb, idx);
      WalkStart(v, {}, idx);
      while true
        invariant c.Node? && t == Addr(c) && Walking(v, idx, c, par)
        invariant rst == Addr(rest) && (rest.Node? ==> Walking(v, idx, rest, restPar))
        invariant Searching(v, nb, idx, x, c, rest, lo, w, sizebits) && Fit(v, nb, x, rsize) && rsize > 0
        decreases c
      {
        WalkLook(v, {}, idx, c, par);
        var trem := Wrap(ChunkSize(Ld(mem, t + HEAD)) - nb);
        ghost var x0 := x;
        FitStep(v, nb, x, rsize, t, if trem < rsize then t else x, if trem < rsize then trem else rsize);
        if trem < rsize {
          x, rsize := t, trem;
          if rsize == 0 {
            ExactSettled(v, {}, nb, x, rsize);
            break;
          }
        }
        NotEqual(v, nb, x, rsize, c.size);
        TurnLook(v, {}, idx, c, par, rest, restPar, sizebits);
        lo, w := SearchTurn(v, {}, nb, idx, x0, x, c, par, rest, lo, w, sizebits);
        var rt := Ld(mem, t + CHILD1);
        ghost var up := t;
        t := Ld(mem, t + ChildAt(sizebits));
        if rt != 0 && rt != t {
          rst := rt;
          restPar := up;
        }
        rest := Rest(c, rest, t);
        c, par := Child(c, sizebits), up;
        sizebits := sizebits * 2 % Pow2(64);
        if t == 0 {
          t := rst;
          if t == 0 {
            SearchEnd(v, nb, idx, x, lo, w, sizebits);
          } else {
            RestPending(v, {}, nb, idx, x, rest, restPar, lo, w, sizebits);
            c, par := rest, restPar;
          }
          break;
        }
      }
    }

    /** The search of `tmalloc_large`: the smallest chunk of at least nb bytes, and what it has beyond them. */
    method FindBest(nb: nat) returns (x: int, rsize: nat)
      requires Now().Laid() && Now().Binned({}) && MIN_LARGE_SIZE <= nb < WORD
      ensures BestFor(Now(), nb, x) && Fit(Now(), nb, x, rsize)
    {
      hide View.Laid, View.Binned, Walking, Fit, Beaten, Improves, Pending, Settled, BinRuled, BestFor, Index, Ffs;
      hide LeftOf;
      hide LeastOnWalk, InTrees, LeftmostChild, Wrap;
      ghost var v := Now();
      var idx := Index(nb);
      IndexBelow(nb);
      TableShape(v, {});
      RootAddress(v, {}, idx);
      x, rsize := 0, Wrap(0 - nb);
      NoFit(v, nb);
      var t := treebins[idx];
      ghost var i: nat, c, par := idx, Nil, 0;
      if t != 0 {
        x, rsize, t, c, par := SearchBin(nb, idx);
      } else {
        EmptyRuled(v, nb, idx);
      }
      if t == 0 {
        if x == 0 {
          var leftbits := LeftOf(treemap, idx);
          NextPending(v, {}, nb, idx, leftbits);
          if leftbits != 0 {
            t := treebins[Ffs(leftbits)];
            i := Ffs(leftbits);
            WalkStart(v, {}, i);
            c, par := trees[i], TreeBin(msp, i);
            WalkLook(v, {}, i, c, par);
          }
        } else {
          FitIn(v, nb, x, rsize);
          FoundSettled(v, {}, nb, idx, x);
        }
      }
      while t != 0
        invariant if t == 0 then
          Settled(v, nb, x) else t == Addr(c) && Walking(v, i, c, par) && (Pending(v, nb, x, c) || Settled(v, nb, x))
        invariant Fit(v, nb, x, rsize)
        decreases c
      {
        WalkLook(v, {}, i, c, par);
        var trem := Wrap(ChunkSize(Ld(mem, t + HEAD)) - nb);
        ghost var x0 := x;
        FitStep(v, nb, x, rsize, t, if trem < rsize then t else x, if trem < rsize then trem else rsize);
        if trem < rsize {
          x, rsize := t, trem;
        }
        WalkPending(v, {}, nb, i, x0, x, c, par);
        par := t;
        t := if Ld(mem, t + CHILD0) != 0 then Ld(mem, t + CHILD0) else Ld(mem, t + CHILD1);
        c := LeftmostChild(c);
      }
      SettledBest(v, {}, nb, x, rsize);
    }

    // ----- relays -----

    method InsertChunk(p: int, s: int, ghost loose: set<int>)
      requires Now().Laid() && Now().Binned(loose)
      requires p in loose && p != dv && p in chunks && chunks[p].size == s
      modifies this`mem, this`smallmap, this`small, this`treemap, this`treebins, this`trees
      ensures Now().Laid() && Now().Binned(loose - {p}) && Keeps(old(Now()), Now(), {}) && mem.Keys == old(mem).Keys
    {
      hide View.Laid, View.Binned, DataKept, Keeps;
      ghost var v := Now();
      ChunkPositive(v, p);
      if s / 8 < 32 {
        InsertSmallChunk(p, s, loose);
      } else {
        InsertLargeChunk(p, s, loose);
      }
      SameKeysKept(v, Now());
      KeepsSame(v, Now());
    }

    method UnlinkChunk(p: int, s: int, ghost loose: set<int>)
      requires Now().Laid() && Now().Binned(loose)
      requires FreeAt(chunks, p) && p !in loose && p != dv && chunks[p].size == s
      modifies this`mem, this`smallmap, this`small, this`treemap, this`treebins, this`trees
      ensures Now().Laid() && Now().Binned(loose + {p}) && Keeps(old(Now()), Now(), {}) && mem.Keys == old(mem).Keys
    {
      hide View.Laid, View.Binned, DataKept, Keeps;
      ghost var v := Now();
      ChunkPositive(v, p);
      if s / 8 < 32 {
        UnlinkSmallChunk(p, s, loose);
      } else {
        UnlinkLargeChunk(p, loose);
      }
      SameKeysKept(v, Now());
      KeepsSame(v, Now());
    }

    /** Makes loose chunk p the designated victim and bins the old one. */
    method ReplaceDv(p: int, s: int)
      requires Now().Laid() && Now().Binned({p}) && p in chunks && chunks[p].size == s && dvsize < MIN_LARGE_SIZE
      modifies this`mem, this`smallmap, this`small, this`dv, this`dvsize
      ensures Now().Laid() && Now().Binned({}) && Keeps(old(Now()), Now(), {})
      ensures dv == p && dvsize == s
    {
      hide View.Laid, View.Binned, DataKept, Keeps;
      ghost var v := Now();
      var dvs, victim := dvsize, dv;
      DataSame(v);
      VictimGone(v, {p});
      dvsize := s;
      dv := p;
      VictimSet(v.(dv := 0, dvsize := 0), {p} + Victims(v), p, s, Now());
      assert {p} + Victims(v) - {p} == Victims(v);
      if dvs != 0 {
        InsertSmallChunk(victim, dvs, {victim});
        assert {victim} - {victim} == {};
      }
      KeepsSame(v, Now());
    }

    // ----- taking free chunks -----

    /** `set_inuse_and_pinuse` on a whole loose chunk. */
    method TakeWhole(x: int, s: int)
      requires Now().Laid() && Now().Binned({x}) && Coalesced(chunks) && x in chunks && chunks[x].size == s
      modifies this`mem, this`chunks
      ensures Sound(Now()) && Granted(old(Now()), Now(), x + 16, s - 8) && UsedAt(chunks, x, s)
    {
      hide View.Laid, View.Binned, DataKept, Coalesced, Granted;
      ghost var v := Now();
      LooseFree(v, {x});
      WholeReady(v, x);
      mem := Wr(mem, x + HEAD, s + 3);
      mem := Wr(mem, x + s + HEAD, SetPin(Ld(mem, x + s + HEAD)));
      chunks := UseWhole(chunks, x);
      WholeStores(v.mem, x, x + s, s);
      WholeDone(v, {x}, x, mem, Now());
      assert {x} - {x} == {};
      TakenGranted(v, Now(), x);
      WholeUsed(v, x);
    }

    /** Takes the first nb bytes of a loose chunk; the rest is loose then. */
    method TakeFirst(x: int, nb: int, rsize: int)
      requires Now().Laid() && Now().Binned({x}) && Coalesced(chunks) && x in chunks && chunks[x].size == nb + rsize
      requires nb % 8 == 0 && MIN_CHUNK_SIZE <= nb && MIN_CHUNK_SIZE <= rsize
      modifies this`mem, this`chunks
      ensures Now().Laid() && Now().Binned({x + nb}) && Coalesced(chunks) && FreeAt(chunks, x + nb) &&
        chunks[x + nb].size == rsize
      ensures x + nb != dv
      ensures Granted(old(Now()), Now(), x + 16, nb - 8) && UsedAt(chunks, x, nb)
    {
      hide View.Laid, View.Binned, DataKept, Coalesced, Granted;
      ghost var v := Now();
      LooseFree(v, {x});
      SplitReady(v, x, nb);
      mem := Wr(mem, x + HEAD, nb + 3);
      mem := Wr(mem, x + nb + HEAD, rsize + 1);
      mem := Wr(mem, x + nb + rsize, rsize);
      chunks := Split(chunks, x, nb, Kind.Free);
      SplitDone(v, {x}, x, nb, mem, Now());
      assert {x} - {x} + {x + nb} == {x + nb};
      LooseNotVictim(Now(), {x + nb}, x + nb);
      TakenGranted(v, Now(), x);
      SplitUsed(v.chunks, x, nb, Kind.Free);
    }

    /** Takes nb bytes from the smallest chunk of all tree bins. */
    method TmallocSmall(nb: int) returns (p: int)
      requires Sound(Now()) && treemap != 0 && nb % 8 == 0 && MIN_CHUNK_SIZE <= nb < MIN_LARGE_SIZE && dvsize < nb
      modifies this`mem, this`smallmap, this`small, this`treemap, this`treebins, this`trees, this`dv, this`dvsize,
        this`chunks
      ensures Sound(Now()) && Granted(old(Now()), Now(), p, nb - 8) && Smallest(old(Now()), p - 16)
      ensures Snug(chunks, p - 16, nb)
    {
      hide View.Laid, View.Binned, DataKept, Coalesced, Granted, Smallest, Keeps;
      ghost var v := Now();
      var x, rsize := FindSmallest(nb);
      SmallestFree(v, x);
      UnlinkLargeChunk(x, {});
      assert {} + {x} == {x};
      ghost var u := Now();
      KeepsSame(v, u);
      if rsize < MIN_CHUNK_SIZE {
        TakeWhole(x, rsize + nb);
        GrantedLess(u, Now(), x + 16, rsize + nb - 8, nb - 8);
      } else {
        TakeFirst(x, nb, rsize);
        ghost var w := Now();
        ReplaceDv(x + nb, rsize);
        GrantedThen(u, w, Now(), x + 16, nb - 8);
      }
      ThenGranted(v, u, Now(), x + 16, nb - 8);
      p := x + 16;
    }

    /** Takes nb bytes from the smallest chunk of all tree bins that has them, unless the designated victim fits at
        least as well. */
    method TmallocLarge(nb: nat) returns (p: int, ghost x: int)
      requires Sound(Now()) && nb % 8 == 0 && MIN_LARGE_SIZE <= nb < WORD
      modifies this`mem, this`smallmap, this`small, this`treemap, this`treebins, this`trees, this`chunks
      ensures Sound(Now()) && BestFor(old(Now()), nb, x)
      ensures p == 0 <==> x == 0 || nb <= dvsize <= old(chunks)[x].size
      ensures if p == 0 then
        Now() == old(Now())
      else
        p == x + 16 && Granted(old(Now()), Now(), p, nb - 8) && Snug(chunks, x, nb)
    {
      hide View.Laid, View.Binned, DataKept, Coalesced, Granted, Keeps, BestFor, InTrees, Wrap;
      ghost var v := Now();
      var y, rsize := FindBest(nb);
      x := y;
      p := 0;
      VictimSize(v, {});
      if y != 0 {
        VictimFits(nb, v.chunks[y].size, dvsize);
        InTreesChunk(v, {}, y);
        if rsize < Wrap(dvsize - nb) {
          UnlinkLargeChunk(y, {});
          assert {} + {y} == {y};
          ghost var u := Now();
          KeepsSame(v, u);
          if rsize < MIN_CHUNK_SIZE {
            TakeWhole(y, rsize + nb);
            GrantedLess(u, Now(), y + 16, rsize + nb - 8, nb - 8);
          } else {
            TakeFirst(y, nb, rsize);
            ghost var w := Now();
            InsertChunk(y + nb, rsize, {y + nb});
            assert {y + nb} - {y + nb} == {};
            GrantedThen(u, w, Now(), y + 16, nb - 8);
          }
          ThenGranted(v, u, Now(), y + 16, nb - 8);
          p := y + 16;
        }
      }
    }

    // ----- malloc -----

    /** Takes the first chunk of small bin i whole. */
    method TakeSmallChunk(i: nat) returns (p: int)
      requires Sound(Now()) && Marked(smallmap, i)
      modifies this`mem, this`smallmap, this`small, this`chunks
      ensures Sound(Now()) && Granted(old(Now()), Now(), p, 8 * i - 8) && UsedAt(chunks, p - 16, 8 * i)
      ensures InSmall(old(Now()), i, p - 16)
    {
      hide View.Laid, View.Binned, DataKept, Coalesced, Granted, Keeps, Marked;
      ghost var v := Now();
      MarkedBin(v, {}, i);
      FirstInSmall(v, i);
      var b := SmallBin(msp, i);
      var c := Ld(mem, b + FD);
      UnlinkFirstSmallChunk(b, c, i, {});
      assert {} + {c} == {c};
      ghost var u := Now();
      KeepsSame(v, u);
      TakeWhole(c, 8 * i);
      ThenGranted(v, u, Now(), c + 16, 8 * i - 8);
      p := c + 16;
    }

    /** Takes nb bytes of the first chunk of small bin i; the rest becomes the designated victim. */
    method SplitSmallChunk(i: nat, nb: int) returns (p: int)
      requires Sound(Now()) && Marked(smallmap, i) && nb % 8 == 0 && MIN_CHUNK_SIZE <= nb &&
        8 * i - nb >= MIN_CHUNK_SIZE && dvsize < MIN_LARGE_SIZE
      modifies this`mem, this`smallmap, this`small, this`chunks, this`dv, this`dvsize
      ensures Sound(Now()) && Granted(old(Now()), Now(), p, nb - 8) && UsedAt(chunks, p - 16, nb)
      ensures InSmall(old(Now()), i, p - 16)
    {
      hide View.Laid, View.Binned, DataKept, Coalesced, Granted, Keeps, Marked;
      ghost var v := Now();
      MarkedBin(v, {}, i);
      FirstInSmall(v, i);
      var b := SmallBin(msp, i);
      var c := Ld(mem, b + FD);
      UnlinkFirstSmallChunk(b, c, i, {});
      assert {} + {c} == {c};
      ghost var u := Now();
      KeepsSame(v, u);
      var rsize := 8 * i - nb;
      TakeFirst(c, nb, rsize);
      ghost var w := Now();
      ReplaceDv(c + nb, rsize);
      GrantedThen(u, w, Now(), c + 16, nb - 8);
      ThenGranted(v, u, Now(), c + 16, nb - 8);
      p := c + 16;
    }

    /** The bins' part of a small request; 0 if it goes on to the designated victim and the top chunk. */
    method MallocSmall(nb: nat) returns (p: int)
      requires Sound(Now()) && nb % 8 == 0 && MIN_CHUNK_SIZE <= nb < MIN_LARGE_SIZE
      modifies this`mem, this`smallmap, this`small, this`treemap, this`treebins, this`trees, this`dv, this`dvsize,
        this`chunks
      ensures Sound(Now())
      ensures if p == 0 then
        Now() == old(Now()) && (if nb <= dvsize then Chosen(Now(), nb, dv) else !FreeFits(Now(), nb))
      else
        Granted(old(Now()), Now(), p, nb - 8) && Snug(chunks, p - 16, nb) && Chosen(old(Now()), nb, p - 16)
    {
      hide View.Laid, View.Binned, DataKept, Coalesced, Granted, Keeps, Marked, FreeFits, ShiftRight, ShiftLeft;
      hide LeftOf, Ffs, Smallest, Chosen, InSmall;
      p := 0;
      ghost var v := Now();
      var idx := nb / 8;
      var smallbits := ShiftRight(smallmap, idx);
      LowTwoBits(smallmap, idx);
      if smallbits % 4 != 0 {
        idx := idx + 1 - smallbits % 2;
        p := TakeSmallChunk(idx);
        GrantedPositive(old(Now()), Now(), p, 8 * idx - 8, nb - 8);
        SmallChosen(v, nb, idx, p - 16);
      } else if nb > dvsize {
        if smallbits != 0 {
          NextAbove(smallmap, idx);
          var leftbits := LeftOf(ShiftLeft(smallbits, idx), idx);
          var i := Ffs(leftbits);
          if 8 * i - nb < MIN_CHUNK_SIZE {
            p := TakeSmallChunk(i);
          } else {
            p := SplitSmallChunk(i, nb);
          }
          GrantedPositive(old(Now()), Now(), p, if 8 * i - nb < MIN_CHUNK_SIZE then 8 * i - 8 else nb - 8, nb - 8);
          SmallChosen(v, nb, i, p - 16);
        } else if treemap != 0 {
          p := TmallocSmall(nb);
          GrantedPositive(old(Now()), Now(), p, nb - 8, nb - 8);
          TreeChosen(v, nb, p - 16);
        } else {
          SmallNoFit(Now(), nb);
        }
      } else {
        VictimChosen(v, nb);
      }
    }

    /** Takes the first nb bytes of the designated victim; the rest is the victim then. */
    method SplitVictim(nb: nat) returns (p: int)
      requires Sound(Now()) && nb % 8 == 0 && MIN_CHUNK_SIZE <= nb && dvsize - nb >= MIN_CHUNK_SIZE
      modifies this`mem, this`chunks, this`dv, this`dvsize
      ensures Sound(Now()) && Granted(old(Now()), Now(), p, nb - 8) && p == old(dv) + 16 && UsedAt(chunks, old(dv), nb)
    {
      hide View.Laid, View.Binned, DataKept, Coalesced, Granted, Keeps, Split;
      ghost var v := Now();
      VictimGone(v, {});
      var rsize := dvsize - nb;
      var c := dv;
      SplitReady(v, c, nb);
      var r := c + nb;
      dv := r;
      dvsize := rsize;
      mem := Wr(mem, r + HEAD, rsize + 1);
      mem := Wr(mem, r + rsize, rsize);
      mem := Wr(mem, c + HEAD, nb + 3);
      chunks := Split(chunks, c, nb, Kind.Free);
      SplitOrder(v.mem, c, nb, rsize);
      VictimSplit(v, nb, mem, Now());
      SplitUsed(v.chunks, c, nb, Kind.Free);
      p := c + 16;
    }

    /** Takes the designated victim whole. */
    method ExhaustVictim() returns (p: int)
      requires Sound(Now()) && dvsize != 0
      modifies this`mem, this`chunks, this`dv, this`dvsize
      ensures Sound(Now()) && Granted(old(Now()), Now(), p, old(dvsize) - 8)
      ensures p == old(dv) + 16 && UsedAt(chunks, old(dv), old(dvsize))
    {
      hide View.Laid, View.Binned, DataKept, Coalesced, Granted, Keeps;
      ghost var v := Now();
      VictimGone(v, {});
      VictimLoose(v, {});
      assert {} + {dv} == {dv};
      ghost var u := v.(dv := 0, dvsize := 0);
      var c, dvs := dv, dvsize;
      dvsize := 0;
      dv := 0;
      WholeReady(u, c);
      mem := Wr(mem, c + HEAD, dvs + 3);
      mem := Wr(mem, c + dvs + HEAD, SetPin(Ld(mem, c + dvs + HEAD)));
      chunks := UseWhole(chunks, c);
      WholeStores(v.mem, c, c + dvs, dvs);
      WholeDone(u, {c}, c, mem, Now());
      assert {c} - {c} == {};
      TakenGranted(v, Now(), c);
      WholeUsed(u, c);
      p := c + 16;
    }

    /** Takes nb bytes of the designated victim. */
    method TakeVictim(nb: nat) returns (p: int)
      requires Sound(Now()) && nb % 8 == 0 && MIN_CHUNK_SIZE <= nb <= dvsize
      modifies this`mem, this`chunks, this`dv, this`dvsize
      ensures Sound(Now()) && Granted(old(Now()), Now(), p, nb - 8) && p == old(dv) + 16 && Snug(chunks, old(dv), nb)
    {
      hide View.Laid, View.Binned, DataKept, Coalesced, Granted, Keeps;
      if dvsize - nb >= MIN_CHUNK_SIZE {
        p := SplitVictim(nb);
      } else {
        ghost var v := Now();
        p := ExhaustVictim();
        GrantedLess(v, Now(), p, v.dvsize - 8, nb - 8);
      }
    }

    /** Takes the first nb bytes of the top chunk. */
    method TakeTop(nb: nat) returns (p: int)
      requires Sound(Now()) && nb % 8 == 0 && MIN_CHUNK_SIZE <= nb < topsize
      modifies this`mem, this`chunks, this`top, this`topsize
      ensures Sound(Now()) && Granted(old(Now()), Now(), p, nb - 8) && p == old(top) + 16 &&
        UsedAt(chunks, old(top), nb)
      ensures topsize == old(topsize) - nb && top == old(top) + nb
    {
      hide View.Laid, View.Binned, DataKept, Coalesced, Granted, Keeps;
      ghost var v := Now();
      TopReady(v, nb);
      topsize := topsize - nb;
      var c := top;
      top := c + nb;
      mem := Wr(mem, top + HEAD, topsize + 1);
      mem := Wr(mem, c + HEAD, nb + 3);
      chunks := Split(chunks, c, nb, Top);
      TopDone(v, {}, nb, mem, Now());
      TopKind(v);
      TakenGranted(v, Now(), c);
      SplitUsed(v.chunks, c, nb, Top);
      p := c + 16;
    }

    // ----- free -----

    /** `set_free_with_pinuse` for the chunk of s bytes at a; what follows it is in use. */
    method SetFree(ghost p: int, a: int, s: int, next: int)
      requires Now().Laid() && Coalesced(chunks) && Frees(chunks, p, a) && next == Nxt(chunks, p) && s == next - a &&
        !JoinsNext(chunks, p)
      modifies this`mem, this`chunks
      ensures Now() == FreedView(old(Now()), p, a)
    {
      hide View.Laid, Coalesced, Frees, JoinsNext, Freed, FreedView;
      SetFreeStores(Now(), p, a, s, next);
      mem := Wr(mem, next + HEAD, ClearPin(Ld(mem, next + HEAD)));
      mem := Wr(mem, a + HEAD, s + 1);
      mem := Wr(mem, a + s, s);
      chunks := Freed(chunks, p, a);
    }

    /** `set_size_and_pinuse_of_free_chunk` for the chunk of s bytes at a, which takes in the free chunk behind p. */
    method SetFreeJoined(ghost p: int, a: int, s: int)
      requires Now().Laid() && Coalesced(chunks) && Frees(chunks, p, a) && FreeAt(chunks, Nxt(chunks, p)) &&
        s == FreedSize(chunks, p, a)
      modifies this`mem, this`chunks
      ensures Now() == FreedView(old(Now()), p, a)
    {
      hide View.Laid, Coalesced;
      FreedReady(Now(), p, a);
      mem := Wr(mem, a + HEAD, s + 1);
      mem := Wr(mem, a + s, s);
      chunks := Freed(chunks, p, a);
    }

    /** The chunk at a becomes part of the top chunk. */
    method FreeIntoTop(ghost p: int, a: int, psize: int, ghost loose: set<int>)
      requires Freeing(Now(), loose, p, a) && Nxt(chunks, p) == top && psize == top - a
      modifies this`mem, this`chunks, this`top, this`topsize, this`dv, this`dvsize
      ensures Sound(Now()) && Gone(old(Now()), Now(), p) && topsize == old(topsize) + psize
    {
      hide View.Laid, View.Binned, Coalesced, Keeps, Merged, Freed, FreedSize, FreedMem, Usable, FreedMapped, Gone;
      hide Sound, Frees, FreedView, JoinsNext;
      ghost var v := Now();
      FreedTopIs(v, loose, p, a);
      topsize := topsize + psize;
      top := a;
      mem := Wr(mem, a + HEAD, topsize + 1);
      if a == dv {
        dv := 0;
        dvsize := 0;
      }
      chunks := Freed(chunks, p, a);
      FreedTop(v, loose, p, a, Now());
    }

    // ----- the system -----

    /** `munmap`; it may fail. */
    method CallMunmap(a: int, n: int) returns (ok: bool)
      modifies this`mem, this`unmaps
      ensures mem == if ok then Unmap(old(mem), a, n) else old(mem)
      ensures unmaps == old(unmaps) + [Unmapping(a, n, ok)]
    {
      ok := *;
      unmaps := unmaps + [Unmapping(a, n, ok)];
      if ok {
        mem := Unmap(mem, a, n);
      }
    }

    /** The free chunk that spans segment i leaves the bins or the designated victim's place. */
    method TakeSpanOut(ghost i: int, base: int, ghost size: int, ghost next: int, ghost pred: int, ghost psize: int)
      requires Sound(Now()) && Releasable(Now(), i, base, size, next, pred, psize)
      modifies this`mem, this`treemap, this`treebins, this`trees, this`dv, this`dvsize
      ensures Now().Laid() && Now().Binned({base}) && Coalesced(chunks) && Keeps(old(Now()), Now(), {})
      ensures Releasable(Now(), i, base, size, next, pred, psize)
    {
      hide View.Laid, View.Binned, DataKept, Coalesced, Keeps, Droppable, NextRec;
      ghost var v := Now();
      DropPre(v, i);
      if base == dv {
        VictimLoose(v, {});
        dv := 0;
        dvsize := 0;
        DataSame(v);
      } else {
        UnlinkLargeChunk(base, {});
      }
      assert {} + {base} == {base};
      KeepsSame(v, Now());
      DroppableStays(v, Now(), i);
    }

    /** The chunk at base goes back to its bin. */
    method PutSpanBack(base: int, psize: int)
      requires Now().Laid() && Now().Binned({base}) && Coalesced(chunks) && base in chunks &&
        chunks[base].size == psize >= MIN_LARGE_SIZE
      modifies this`mem, this`treemap, this`treebins, this`trees
      ensures Sound(Now()) && Keeps(old(Now()), Now(), {})
    {
      hide View.Laid, View.Binned, DataKept, Coalesced, Keeps;
      ghost var u := Now();
      LooseNotVictim(u, {base}, base);
      InsertLargeChunk(base, psize, {base});
      assert {base} - {base} == {};
      KeepsSame(u, Now());
    }

    /** Segment i, which is unmapped, leaves the list; u is the state before it was unmapped. */
    method UnlinkSegment(ghost i: int, base: int, ghost size: int, next: int, pred: int, ghost psize: int,
        ghost u: View)
      requires u.Laid() && u.Binned({base}) && Coalesced(u.chunks) && Releasable(u, i, base, size, next, pred, psize)
      requires Now() == u.(mem := Unmap(u.mem, base, size))
      modifies this`mem, this`chunks, this`segs
      ensures Sound(Now()) && Keeps(u, Now(), {}) && segs == WithoutSeg(u.segs, i) &&
        chunks == Dropped(u.chunks, base)
    {
      hide View.Laid, View.Binned, DataKept, Coalesced, Keeps, Droppable, Dropped, Unmap, NextRec, WithoutSeg;
      DropPre(u, i);
      SegLook(u, i - 1);
      DropChanges(u, i);
      mem := Wr(mem, pred + 16, next);
      chunks := Dropped(chunks, base);
      segs := WithoutSeg(segs, i);
      DropDone(u, i);
    }

    /** Gives segment i, which is free but for its record, back to the system if that lets it; pred is the record before
        its own. */
    method ReleaseSegment(ghost i: int, base: int, size: int, next: int, pred: int, psize: int) returns (ok: bool)
      requires Sound(Now()) && Releasable(Now(), i, base, size, next, pred, psize)
      modifies this`mem, this`treemap, this`treebins, this`trees, this`dv, this`dvsize, this`chunks, this`segs,
        this`unmaps
      ensures Sound(Now()) && Keeps(old(Now()), Now(), {})
      ensures segs == if ok then WithoutSeg(old(segs), i) else old(segs)
      ensures chunks == if ok then Dropped(old(chunks), base) else old(chunks)
      ensures unmaps == old(unmaps) + [Unmapping(base, size, ok)]
    {
      hide View.Laid, View.Binned, Coalesced, Keeps, Droppable, Sound, Unmap, WithoutSeg, NextRec;
      ghost var v := Now();
      TakeSpanOut(i, base, size, next, pred, psize);
      ghost var u := Now();
      ok := CallMunmap(base, size);
      if ok {
        UnlinkSegment(i, base, size, next, pred, psize, u);
      } else {
        PutSpanBack(base, psize);
      }
      KeepsChain(v, u, Now());
    }

    /** One round of the walk of `release_unused_segments`: segment i, whose record is at sp, goes if it is spare and
        the system takes it. */
    method TrySegment(ghost i: int, sp: int, pred: int) returns (next: int, size: int, ok: bool)
      requires Sound(Now()) && 1 <= i < |segs| && sp == segs[i].rec && pred == segs[i - 1].rec
      modifies this`mem, this`treemap, this`treebins, this`trees, this`dv, this`dvsize, this`chunks, this`segs,
        this`unmaps
      ensures Sound(Now()) && Keeps(old(Now()), Now(), {}) && old(unmaps) <= unmaps
      ensures next == NextRec(old(segs), i) && size == old(segs)[i].size
      ensures segs == (if ok then WithoutSeg(old(segs), i) else old(segs))
      ensures chunks == (if ok then Dropped(old(chunks), old(segs)[i].base) else old(chunks))
      ensures (ok ==> Spare(old(Now()), i)) && (Done(old(unmaps), unmaps) ==> ok == Spare(old(Now()), i))
    {
      hide View.Laid, View.Binned, Coalesced, Keeps, Sound, Droppable, WithoutSeg, NextRec, Spare, Dropped;
      ghost var u := Now();
      SoundLaid(u);
      KeepsAll(u);
      SegLook(u, i);
      NextRecIs(u, i);
      ReleaseTest(u, i);
      var base := Ld(mem, sp);
      size := Ld(mem, sp + 8);
      next := Ld(mem, sp + 16);
      var p := base + AlignOffset(base + 16);
      var psize := ChunkSize(Ld(mem, p + HEAD));
      ok := false;
      if !CInUse(Ld(mem, p + HEAD)) && p + psize >= base + size - TOP_FOOT_SIZE {
        ok := ReleaseSegment(i, base, size, next, pred, psize);
        assert unmaps[|old(unmaps)|].done == ok;
      }
    }

    /** `release_unused_segments`: only spare segments go, and all of them unless `munmap` fails. */
    method ReleaseUnusedSegments() returns (released: int)
      requires Sound(Now())
      modifies this`mem, this`treemap, this`treebins, this`trees, this`dv, this`dvsize, this`chunks, this`segs,
        this`releaseChecks, this`unmaps
      ensures Sound(Now()) && Keeps(old(Now()), Now(), {})
      ensures released == Total(old(segs)) - Total(segs)
      ensures old(unmaps) <= unmaps
      ensures Done(old(unmaps), unmaps) ==> forall j | 1 <= j < |segs| :: !Spare(Now(), j)
      ensures PartlyWalked(old(Now()), Now()) && (Done(old(unmaps), unmaps) ==> Walked(old(Now()), Now()))
      ensures releaseChecks >= MAX_RELEASE_CHECK_RATE
    {
      hide View.Laid, View.Binned, Coalesced, Keeps, Sound, Droppable, WithoutSeg, NextRec, Total, Done, Spare, Dropped;
      hide PartlyWalked, Walked;
      ghost var v := Now();
      SoundLaid(v);
      KeepsAll(v);
      released := 0;
      var nsegs := 0;
      var pred := SegField(msp);
      FirstRec(v);
      SegLook(v, 0);
      var sp := Ld(mem, pred + 16);
      ghost var i := 1;
      NextRecIs(v, 0);
      WalkBegins(v);
      while sp != 0
        invariant Sound(Now()) && Keeps(v, Now(), {}) && 1 <= i <= |segs| && pred == segs[i - 1].rec &&
          sp == NextRec(segs, i - 1)
        invariant sp != 0 <==> i < |segs|
        invariant released == Total(v.segs) - Total(segs) && old(unmaps) <= unmaps
        invariant PartlyWalked(v, Now()) && (Done(old(unmaps), unmaps) ==> NoSpare(Now(), i))
        decreases |segs| - i
      {
        ghost var u, calls := Now(), unmaps;
        SoundLaid(u);
        NextRecIs(u, i - 1);
        NextRecIs(u, i);
        DropLinks(u, i);
        nsegs := nsegs + 1;
        var next, size, ok := TrySegment(i, sp, pred);
        KeepsChain(v, u, Now());
        DoneApart(old(unmaps), calls, unmaps);
        SpareRound(u, Now(), i, ok);
        WalkRound(v, u, Now(), i, ok);
        if ok {
          released := released + size;
          sp := pred;
        } else {
          i := i + 1;
        }
        pred := sp;
        sp := next;
      }
      if Done(old(unmaps), unmaps) {
        WalkEnds(v, Now());
      }
      releaseChecks := if nsegs > MAX_RELEASE_CHECK_RATE then nsegs else MAX_RELEASE_CHECK_RATE;
    }

    /** `mremap` without moving; it may fail. */
    method CallMremap(a: int, oldSize: int, newSize: int) returns (ok: bool)
      modifies this`mem, this`stuck
      ensures if ok then Remapped(old(mem), mem, a, oldSize, newSize) else mem == old(mem)
      ensures stuck == old(stuck) + if ok then 0 else 1
    {
      ok := *;
      if newSize <= 0 || (newSize > oldSize &&
        !(a + newSize <= ADDRESS_LIMIT && Unmapped(mem, a + oldSize, newSize - oldSize))) {
        ok := false;
      }
      if ok {
        mem := if newSize <= oldSize then
          Unmap(mem, a + newSize, oldSize - newSize) else MapIn(mem, a + oldSize, newSize - oldSize);
      } else {
        stuck := stuck + 1;
      }
    }

    /** `init_top` for the current segment. */
    method InitTop(p: int, psize: int)
      requires p + AlignOffset(p + 16) + HEAD in mem && p + psize + HEAD in mem
      modifies this`mem, this`top, this`topsize, this`trimCheck
      ensures top == p + AlignOffset(p + 16) && top % 8 == 0 && top + topsize == p + psize
      ensures trimCheck == DEFAULT_TRIM_THRESHOLD
      ensures mem == old(mem)[top + HEAD := topsize + 1][p + psize + HEAD := TOP_FOOT_SIZE]
    {
      var offset := AlignOffset(p + 16);
      top := p + offset;
      topsize := psize - offset;
      mem := Wr(mem, top + HEAD, topsize + 1);
      mem := Wr(mem, top + topsize + HEAD, TOP_FOOT_SIZE);
      trimCheck := DEFAULT_TRIM_THRESHOLD;
    }

    /** `segment_holding`: the record of the segment that holds address a, or 0. */
    method SegmentHolding(a: int) returns (sp: int, ghost i: int)
      requires Now().Laid()
      ensures 0 <= i <= |segs| && (i < |segs| <==> sp != 0) && (i < |segs| ==> sp == segs[i].rec && Holds(segs[i], a))
      ensures forall j | 0 <= j < i :: !Holds(segs[j], a)
    {
      hide View.Laid, NextRec;
      FirstRec(Now());
      sp := SegField(msp);
      i := 0;
      while true
        invariant 0 <= i < |segs| && sp == segs[i].rec
        invariant forall j | 0 <= j < i :: !Holds(segs[j], a)
        decreases |segs| - i
      {
        SegLook(Now(), i);
        NextRecIs(Now(), i);
        if Ld(mem, sp) <= a < Ld(mem, sp) + Ld(mem, sp + 8) {
          return;
        }
        i := i + 1;
        sp := Ld(mem, sp + 16);
        if sp == 0 {
          return;
        }
      }
    }

    /** `has_segment_link`: whether segment k, whose record is at ss, holds a segment record. */
    method HasSegmentLink(ss: int, ghost k: int) returns (b: bool)
      requires Now().Laid() && 0 <= k < |segs| && ss == segs[k].rec
      ensures b <==> exists j :: 0 <= j < |segs| && Holds(segs[k], segs[j].rec)
    {
      hide View.Laid, NextRec;
      FirstRec(Now());
      var sp := SegField(msp);
      ghost var i := 0;
      SegLook(Now(), k);
      while true
        invariant 0 <= i < |segs| && sp == segs[i].rec
        invariant forall j | 0 <= j < i :: !Holds(segs[k], segs[j].rec)
        decreases |segs| - i
      {
        SegLook(Now(), i);
        NextRecIs(Now(), i);
        if Ld(mem, ss) <= sp < Ld(mem, ss) + Ld(mem, ss + 8) {
          return true;
        }
        i := i + 1;
        sp := Ld(mem, sp + 16);
        if sp == 0 {
          return false;
        }
      }
    }

    /** Sets the sizes of the current segment and of the top chunk; v is the state before memory was mapped or
        unmapped. */
    method ResizeTop(sp: int, segsize: int, psize: int, ghost v: View)
      requires v.Laid() && Now() == v.(mem := mem) && v.segs != [] && TopMoves(v, mem, psize)
      requires sp == segs[0].rec && segsize == top + psize + TOP_FOOT_SIZE - segs[0].base
      modifies this`mem, this`top, this`topsize, this`trimCheck, this`chunks, this`segs
      ensures Now() == TopView(v, old(mem), psize)
    {
      hide View.Laid, TopMoves, MoveFoot, Resized, AlignOffset, TopView;
      TopMovesIs(v, mem, psize);
      mem := Wr(mem, sp + 8, segsize);
      InitTop(top, psize);
      chunks := MoveFoot(chunks, top, v.topsize, psize);
      segs := Resized(segs, segsize);
    }

    /** The first part of `alloc_trim`: gives extra bytes at the end of the current segment back, if the system takes
        them. */
    method TrimTop(sp: int, extra: int) returns (released: int)
      requires Sound(Now()) && 0 <= extra < topsize && extra % GRANULARITY == 0 && segs != [] && sp == segs[0].rec
      modifies this`mem, this`top, this`topsize, this`trimCheck, this`chunks, this`segs, this`unmaps, this`stuck
      ensures Sound(Now()) && Keeps(old(Now()), Now(), {}) && (released == 0 || released == extra)
      ensures stuck >= old(stuck)
      ensures old(unmaps) <= unmaps && (Done(old(unmaps), unmaps) ==> released == extra)
      ensures topsize == old(topsize) - released && segs == Resized(old(segs), old(segs[0].size) - released)
    {
      hide View.Laid, View.Binned, Coalesced, Keeps, Unmap, TopMoves, MoveFoot, Resized, NextRec, TopMoved;
      ghost var v := Now();
      SegLook(v, 0);
      TrimMoves(v, extra);
      TopHeld(v, 0);
      TopKind(v);
      released := 0;
      var base, size := Ld(mem, sp), Ld(mem, sp + 8);
      var newSize := size - extra;
      UnmapNone(mem, base + newSize);
      ResizedSame(segs);
      KeepsAll(v);
      var ok := CallMremap(base, size, newSize);
      if !ok {
        ok := CallMunmap(base + newSize, extra);
        assert unmaps[|old(unmaps)|].done == ok;
      }
      if ok {
        released := extra;
      }
      if released != 0 {
        ghost var m1 := mem;
        ResizeTop(sp, size - released, topsize - released, v);
        TopResized(v, {}, m1, v.topsize - released, Now());
      }
    }

    /** The trimming of the top chunk in `alloc_trim`, which is to keep room bytes. */
    method TrimExcess(room: int) returns (released: int)
      requires Sound(Now()) && topsize > room >= 0
      modifies this`mem, this`top, this`topsize, this`trimCheck, this`chunks, this`segs, this`unmaps, this`stuck
      ensures Sound(Now()) && Keeps(old(Now()), Now(), {}) && released == Total(old(segs)) - Total(segs)
      ensures stuck >= old(stuck) && old(unmaps) <= unmaps
      ensures Done(old(unmaps), unmaps) && !Pinned(old(segs)) ==> topsize <= room + GRANULARITY
      ensures room < topsize <= old(topsize)
    {
      hide View.Laid, View.Binned, Coalesced, Keeps, Total, TrimExtra, Sound, Resized;
      ghost var v := Now();
      KeepsAll(v);
      SoundLaid(v);
      FirstRec(v);
      TopHeld(v, 0);
      released := 0;
      var extra := TrimExtra(topsize, room);
      TrimExtraIs(topsize, room);
      ghost var i;
      var sp;
      sp, i := SegmentHolding(top);
      SegLook(v, 0);
      if Ld(mem, sp + 8) >= extra {
        var link := HasSegmentLink(sp, 0);
        if !link {
          released := TrimTop(sp, extra);
          TotalResized(v.segs, v.segs[0].size - released);
        }
      }
    }

    /** `alloc_trim`: unless `munmap` fails, nothing is left that could be given back. */
    method AllocTrim(pad: nat) returns (r: int)
      requires Sound(Now())
      modifies this`mem, this`top, this`topsize, this`trimCheck, this`treemap, this`treebins, this`trees, this`dv,
        this`dvsize, this`chunks, this`segs, this`releaseChecks, this`unmaps, this`stuck
      ensures Sound(Now()) && Keeps(old(Now()), Now(), {})
      ensures r != 0 <==> Total(segs) != Total(old(segs))
      ensures r == 0 && pad < MAX_REQUEST ==> topsize <= trimCheck
      ensures stuck >= old(stuck) && old(unmaps) <= unmaps
      ensures pad < MAX_REQUEST && Done(old(unmaps), unmaps) ==> forall j | 1 <= j < |segs| :: !Spare(Now(), j)
      ensures pad < MAX_REQUEST && Done(old(unmaps), unmaps) && !Pinned(old(segs)) ==>
        topsize <= pad + TOP_FOOT_SIZE + GRANULARITY
      ensures topsize == old(topsize) || pad + TOP_FOOT_SIZE < topsize < old(topsize)
    {
      hide View.Laid, View.Binned, Coalesced, Keeps, Total, Sound, Spare, Pinned;
      ghost var v := Now();
      KeepsAll(v);
      TopUsed(v);
      var released := 0;
      if pad < MAX_REQUEST && top != 0 {
        if topsize > pad + TOP_FOOT_SIZE {
          released := TrimExcess(pad + TOP_FOOT_SIZE);
        }
        ghost var u := Now();
        var more := ReleaseUnusedSegments();
        KeepsChain(v, u, Now());
        released := released + more;
        TopUsed(Now());
        if released == 0 && topsize > trimCheck {
          trimCheck := MAX_SIZE_T;
        }
      }
      r := if released != 0 then 1 else 0;
    }

    // ----- freeing a chunk of a segment -----

    /** The free chunk at a is the designated victim and takes in p; what follows is in use. */
    method FreeBehindVictim(ghost p: int, a: int, psize: int, next: int, ghost loose: set<int>)
      requires Freeing(Now(), loose, p, a) && a == dv && next == Nxt(chunks, p) && next > p &&
        !JoinsNext(chunks, p) && psize == next - a
      modifies this`mem, this`chunks, this`dvsize
      ensures Sound(Now()) && Gone(old(Now()), Now(), p)
    {
      hide View.Laid, View.Binned, Coalesced, Merged, Freed, FreedMem, Gone, Sound;
      ghost var v := Now();
      FreeingFacts(v, loose, p, a);
      dvsize := psize;
      LaidAside(v, dv, dvsize);
      SetFree(p, a, psize, next);
      FreedVictim(v, loose, p, a, Now());
    }

    /** The chunk behind p is the designated victim. */
    method FreeBeforeVictim(ghost p: int, a: int, psize: int, ghost loose: set<int>)
      requires Freeing(Now(), loose, p, a) && Nxt(chunks, p) == dv && FreeAt(chunks, dv) && psize == dv - a
      modifies this`mem, this`chunks, this`dvsize, this`dv
      ensures Sound(Now()) && Gone(old(Now()), Now(), p)
    {
      hide View.Laid, View.Binned, Coalesced, Merged, Freed, FreedMem, Gone, Sound;
      ghost var v := Now();
      FreeingFacts(v, loose, p, a);
      dvsize := dvsize + psize;
      dv := a;
      LaidAside(v, dv, dvsize);
      SetFreeJoined(p, a, dvsize);
      FreedVictim(v, loose, p, a, Now());
    }

    /** The last part of a release: the merged chunk goes to its bin. */
    method BinFreed(ghost v: View, ghost p: int, a: int, psize: int)
      requires Now().Laid() && Now().Binned({a}) && Coalesced(chunks) && a != dv && a in chunks &&
        chunks[a].size == psize
      requires Gone(v, Now(), p)
      modifies this`mem, this`smallmap, this`small, this`treemap, this`treebins, this`trees, this`dv, this`dvsize,
        this`chunks, this`segs, this`releaseChecks, this`unmaps
      ensures Sound(Now()) && Gone(v, Now(), p)
      ensures if psize >= MIN_LARGE_SIZE
        then Recounted(old(releaseChecks), releaseChecks, old(unmaps), unmaps, Now())
        else releaseChecks == old(releaseChecks) && unmaps == old(unmaps)
    {
      hide View.Laid, View.Binned, Coalesced, Gone, DataKept, Spare, Done;
      ghost var u := Now();
      ChunkPositive(u, a);
      if psize / 8 < 32 {
        InsertSmallChunk(a, psize, {a});
        assert {a} - {a} == {};
        KeepsSame(u, Now());
        GoneThen(v, u, Now(), p);
      } else {
        InsertLargeChunk(a, psize, {a});
        assert {a} - {a} == {};
        KeepsSame(u, Now());
        GoneThen(v, u, Now(), p);
        releaseChecks := (releaseChecks - 1) % WORD;
        if releaseChecks == 0 {
          ghost var w := Now();
          var released := ReleaseUnusedSegments();
          GoneThen(v, w, Now(), p);
        }
      }
    }

    /** Consolidates forward with a free chunk that is binned; the merged chunk starts at a. */
    method FreeForward(ghost p: int, a: int, size: int, next: int)
      requires Now().Laid() && Now().Binned(if a != p && a != dv then {a} else {}) && Coalesced(chunks) &&
        Frees(chunks, p, a)
      requires next == Nxt(chunks, p) && next != dv && FreeAt(chunks, next) && size == next - a
      modifies this`mem, this`smallmap, this`small, this`treemap, this`treebins, this`trees, this`dv, this`dvsize,
        this`chunks, this`segs, this`releaseChecks, this`unmaps
      ensures Sound(Now()) && Gone(old(Now()), Now(), p)
      ensures Counts(old(Now()), p, a, old(trimCheck), old(releaseChecks), releaseChecks, old(unmaps), unmaps, Now())
    {
      hide View.Laid, View.Binned, Coalesced, Merged, Freed, FreedMem, Gone, Sound, Keeps, FreedSize, JoinsNext;
      hide Freeing, Recounted;
      ghost var v := Now();
      ghost var loose: set<int> := if a != p && a != dv then {a} else {};
      FreedReady(v, p, a);
      ForwardReady(v, loose, p, a);
      var nsize := ChunkSize(Ld(mem, next + HEAD));
      var psize := size + nsize;
      UnlinkChunk(next, nsize, loose);
      ghost var u := Now();
      assert loose + {next} == Neighbours(u, p, a);
      FreeingNow(u, p, a);
      FreeingFacts(u, Neighbours(u, p, a), p, a);
      SetFreeJoined(p, a, psize);
      if a == dv {
        dvsize := psize;
        FreedVictim(u, Neighbours(u, p, a), p, a, Now());
        ThenGone(v, u, Now(), p);
      } else {
        FreedPlain(u, Neighbours(u, p, a), p, a, Now());
        ThenGone(v, u, Now(), p);
        BinFreed(v, p, a, psize);
      }
    }

    /** Consolidates forward; the merged chunk starts at a. */
    method FreeMerged(ghost p: int, a: int, psize: int, next: int)
      requires Now().Laid() && Now().Binned(if a != p && a != dv then {a} else {}) && Coalesced(chunks) &&
        Frees(chunks, p, a)
      requires next == Nxt(chunks, p) && psize == next - a && (a == dv && a != p ==> JoinsNext(chunks, p))
      modifies this`mem, this`smallmap, this`small, this`treemap, this`treebins, this`trees, this`dv, this`dvsize,
        this`chunks, this`segs, this`releaseChecks, this`unmaps, this`stuck
      modifies this`top, this`topsize, this`trimCheck
      ensures Sound(Now()) && Gone(old(Now()), Now(), p) && stuck >= old(stuck)
      ensures topsize > trimCheck ==> topsize == old(topsize) || Total(segs) != Total(old(segs))
      ensures Counts(old(Now()), p, a, old(trimCheck), old(releaseChecks), releaseChecks, old(unmaps), unmaps, Now())
    {
      hide View.Laid, View.Binned, Coalesced, Merged, Freed, FreedMem, Gone, Sound, Keeps, FreedSize, Freeing;
      hide Recounted;
      ghost var v := Now();
      ghost var loose: set<int> := if a != p && a != dv then {a} else {};
      FreedReady(v, p, a);
      if !CInUse(Ld(mem, next + HEAD)) {
        if next == top {
          assert loose == Neighbours(v, p, a);
          FreeingNow(v, p, a);
          FreeIntoTop(p, a, psize, loose);
          if topsize > trimCheck {
            ghost var w := Now();
            var r := AllocTrim(0);
            GoneThen(v, w, Now(), p);
          }
        } else if next == dv {
          assert loose == Neighbours(v, p, a);
          FreeingNow(v, p, a);
          FreeBeforeVictim(p, a, psize, loose);
        } else {
          FreeForward(p, a, psize, next);
        }
      } else {
        assert loose == Neighbours(v, p, a);
        FreeingNow(v, p, a);
        FreeingFacts(v, loose, p, a);
        SetFree(p, a, psize, next);
        FreedPlain(v, loose, p, a, Now());
        BinFreed(v, p, a, psize);
      }
    }

    /** Consolidates backward: the merged chunk starts at p. It is done if that was the designated victim and what
        follows is in use. */
    method ConsolidateBack(q: int, next: int) returns (p: int, psize: int, done: bool)
      requires Sound(Now()) && q in chunks && chunks[q].kind.Used? && next == Nxt(chunks, q)
      modifies this`mem, this`smallmap, this`small, this`treemap, this`treebins, this`trees, this`chunks, this`dvsize
      ensures Frees(old(chunks), q, p) && psize == next - p
      ensures done ==> p == dv && Sound(Now()) && Gone(old(Now()), Now(), q)
      ensures !done ==>
        && Now().Laid() && Now().Binned(if p != q && p != dv then {p} else {}) && Coalesced(chunks)
        && chunks == old(chunks) && dvsize == old(dvsize) && (p == dv && p != q ==> JoinsNext(chunks, q))
        && Keeps(old(Now()), Now(), {})
    {
      hide View.Laid, View.Binned, Coalesced, Merged, Freed, FreedMem, Gone, Keeps, FreedSize, Freeing;
      ghost var v := Now();
      ghost var a := FreesFrom(v, q);
      FreedReady(v, q, a);
      KeepsAll(v);
      p, done := q, false;
      psize := ChunkSize(Ld(mem, p + HEAD));
      if !PInUse(Ld(mem, p + HEAD)) {
        var prevsize := Ld(mem, p);
        psize := psize + prevsize;
        p := p - prevsize;
        if p != dv {
          UnlinkChunk(p, prevsize, {});
          assert {} + {p} == {p};
        } else if CInUse(Ld(mem, next + HEAD)) && PInUse(Ld(mem, next + HEAD)) {
          assert Neighbours(v, q, p) == {};
          FreeingNow(v, q, p);
          FreeBehindVictim(q, p, psize, next, {});
          done := true;
        }
      }
    }

    /** `lj_alloc_free` for a chunk of a segment. */
    method FreeChunk(q: int)
      requires Sound(Now()) && q in chunks && chunks[q].kind.Used?
      modifies this
      ensures denied == old(denied) && stuck >= old(stuck)
      ensures topsize > trimCheck ==> topsize == old(topsize) || Total(segs) != Total(old(segs))
      ensures Sound(Now()) && Gone(old(Now()), Now(), q)
      ensures Counted(old(Now()), q, old(trimCheck), old(releaseChecks), releaseChecks, old(unmaps), unmaps, Now())
    {
      hide View.Laid, View.Binned, Coalesced, Gone, Keeps, Recounted, Counts, Counted, Frees, Sound, Total, JoinsNext;
      ghost var v := Now();
      SoundLaid(v);
      ChunkLook(v, q);
      var next := q + ChunkSize(Ld(mem, q + HEAD));
      var p, psize, done := ConsolidateBack(q, next);
      ghost var u, limit, was, calls := Now(), trimCheck, releaseChecks, unmaps;
      if !done {
        FreeMerged(q, p, psize, next);
        ThenGone(v, u, Now(), q);
        CountsSame(v, u, q, p, limit, was, releaseChecks, calls, unmaps, Now());
      } else {
        CountsSame(v, v, q, p, limit, was, releaseChecks, calls, unmaps, Now());
      }
    }

    // ----- system allocation -----

    /** `mmap` of anonymous memory in the low 2 GB; it may fail. */
    method CallMmap(size: int) returns (a: int)
      modifies this`mem, this`denied
      ensures if a == MFAIL then mem == old(mem) else FreshAt(old(mem), a, size) && mem == MapIn(old(mem), a, size)
      ensures denied == old(denied) + if a == MFAIL then 1 else 0
    {
      a := MFAIL;
      var c: int := *;
      if FreshAt(mem, c, size) {
        mem := MapIn(mem, c, size);
        a := c;
      } else {
        denied := denied + 1;
      }
    }

    /** The trailing fenceposts of `add_segment`. */
    method PlaceFenceposts(start: int, oldEnd: int)
      requires start % 8 == 0 && oldEnd % 8 == 0 && start + 32 <= oldEnd && forall w | start + 8 <= w < oldEnd ::
        w in mem
      modifies this`mem
      ensures mem.Keys == old(mem).Keys && forall w | !(start + 8 <= w < oldEnd) :: Rd(mem, w) == Rd(old(mem), w)
    {
      var p := start;
      while true
        invariant start <= p && p % 8 == 0 && p + 16 <= oldEnd && mem.Keys == old(mem).Keys
        invariant forall w | !(start + 8 <= w < oldEnd) :: Rd(mem, w) == Rd(old(mem), w)
        decreases oldEnd - p
      {
        var nextp := p + 8;
        mem := Wr(mem, p + HEAD, FENCEPOST_HEAD);
        if nextp + HEAD < oldEnd {
          p := nextp;
        } else {
          break;
        }
      }
    }

    /** Copies the record at seg to ss and overwrites it with one that links to the copy. */
    method PushRecord(ss: int, seg: int, tbase: int, tsize: int)
      requires ss in mem && ss + 8 in mem && ss + 16 in mem && seg in mem && seg + 8 in mem && seg + 16 in mem
      requires ss + 16 < seg || seg + 16 < ss
      modifies this`mem
      ensures var m := old(mem);
        mem == m[ss := Rd(m, seg)][ss + 8 := Rd(m, seg + 8)][ss + 16 := Rd(m,
          seg + 16)][seg := tbase][seg + 8 := tsize][seg + 16 := ss]
    {
      mem := Wr(mem, ss, Ld(mem, seg));
      mem := Wr(mem, ss + 8, Ld(mem, seg + 8));
      mem := Wr(mem, ss + 16, Ld(mem, seg + 16));
      mem := Wr(mem, seg, tbase);
      mem := Wr(mem, seg + 8, tsize);
      mem := Wr(mem, seg + 16, ss);
    }

    /** The new top chunk, and the head of the record chunk. */
    method PushTop(tbase: int, tsize: int, csp: int)
      requires AlignOffset(tbase + 16) == 0 && tbase + HEAD in mem && tbase + (tsize - TOP_FOOT_SIZE) + HEAD in mem &&
        csp + HEAD in mem
      modifies this`mem, this`top, this`topsize, this`trimCheck
      ensures top == tbase && topsize == tsize - TOP_FOOT_SIZE
      ensures mem == old(mem)[tbase + HEAD := tsize - TOP_FOOT_SIZE + 1][tbase + (tsize - TOP_FOOT_SIZE) + HEAD :=
        TOP_FOOT_SIZE][csp + HEAD := 35]
    {
      InitTop(tbase, tsize - TOP_FOOT_SIZE);
      mem := Wr(mem, csp + HEAD, PadRequest(SIZEOF_SEGMENT) + 3);
    }

    /** The first part of `add_segment`: the new top chunk and the records; v is the state before memory was mapped. */
    method PushSegment(tbase: int, tsize: int, csp: int, ghost v: View)
      requires NewSeg(v, tbase, tsize) && Now() == v.(mem := MapIn(v.mem, tbase, tsize)) && csp == RecAt(top, topsize)
      modifies this`mem, this`top, this`topsize, this`trimCheck
      ensures v.segs != []
      ensures mem == RecStores(old(mem), msp, tbase, tsize, csp, v.segs[0].base, v.segs[0].size, NextRec(v.segs, 0))
      ensures top == tbase && topsize == tsize - TOP_FOOT_SIZE && mem.Keys == old(mem).Keys
    {
      hide View.Laid, MapIn, NextRec, AlignOffset, NewSeg, RecAt, Unmapped, FreshAt;
      NewSegLaid(v, tbase, tsize);
      PushReady(v, tbase, tsize);
      PushTop(tbase, tsize, csp);
      PushRecord(csp + 16, SegField(msp), tbase, tsize);
    }

    /** Where `add_segment` puts the record of the current segment, and where that segment ends. */
    method RecordPlace() returns (csp: int, oldEnd: int)
      requires Now().Laid()
      ensures csp == RecAt(top, topsize) && oldEnd == top + topsize + TOP_FOOT_SIZE
    {
      hide View.Laid, NextRec;
      ghost var i;
      var oldsp;
      oldsp, i := SegmentHolding(top);
      TopHeldFirst(Now(), i);
      TopHeld(Now(), 0);
      SegLook(Now(), 0);
      TopEight(Now());
      oldEnd := Ld(mem, oldsp) + Ld(mem, oldsp + 8);
      var ssize := PadRequest(SIZEOF_SEGMENT);
      var rawsp := oldEnd - (ssize + 32 + 7);
      RecPlace(oldEnd);
      var asp := rawsp + AlignOffset(rawsp + 16);
      csp := if asp < top + MIN_CHUNK_SIZE then top else asp;
    }

    /** `set_free_with_pinuse` for what is left of the old top chunk, in front of the record chunk at csp. */
    method FreeOldTop(oldTop: int, csp: int)
      requires csp + HEAD in mem && oldTop + HEAD in mem && csp in mem && Head(mem, csp) == 35
      modifies this`mem
      ensures mem == if csp == oldTop then
        old(mem) else old(mem)[csp + HEAD := 34][oldTop + HEAD := csp - oldTop + 1][csp := csp - oldTop]
    {
      if csp != oldTop {
        mem := Wr(mem, csp + HEAD, ClearPin(Ld(mem, csp + HEAD)));
        mem := Wr(mem, oldTop + HEAD, csp - oldTop + 1);
        mem := Wr(mem, csp, csp - oldTop);
      }
    }

    /** The stores of `add_segment`; v is the state before memory was mapped. */
    method StoreSegment(tbase: int, tsize: int, csp: int, oldEnd: int, ghost v: View)
      requires NewSeg(v, tbase, tsize) && Now() == v.(mem := MapIn(v.mem, tbase, tsize))
      requires csp == RecAt(top, topsize) && oldEnd == top + topsize + TOP_FOOT_SIZE
      modifies this`mem, this`top, this`topsize, this`trimCheck
      ensures v.segs != [] && AddedWords(v, mem, tbase, tsize) && top == tbase && topsize == tsize - TOP_FOOT_SIZE
    {
      hide View.Laid, MapIn, NextRec, NewSeg, Unmapped, FreshAt, RecStores, AddedWords, ClearOfHeap;
      NewSegLaid(v, tbase, tsize);
      NewSegFacts(v, tbase, tsize);
      RecReady(v, tbase, tsize);
      TopEight(v);
      var oldTop := top;
      PushSegment(tbase, tsize, csp, v);
      RecHead35(mem, v, tbase, tsize);
      PlaceFenceposts(csp + PadRequest(SIZEOF_SEGMENT), oldEnd);
      ghost var n3 := mem;
      FreeOldTop(oldTop, csp);
      RecStoresOK(v, tbase, tsize, n3, mem);
    }

    /** `add_segment`; v is the state before memory was mapped. */
    method AddSegment(tbase: int, tsize: int, ghost v: View)
      requires Sound(v) && NewSeg(v, tbase, tsize) && Now() == v.(mem := MapIn(v.mem, tbase, tsize))
      modifies this`mem, this`smallmap, this`small, this`treemap, this`treebins, this`trees, this`top, this`topsize,
        this`trimCheck, this`chunks, this`segs
      ensures Sound(Now()) && Keeps(v, Now(), {}) && top == tbase && topsize == tsize - TOP_FOOT_SIZE
      ensures segs == AddedSegs(v, tbase, tsize) && chunks == Added(v, tbase, tsize)
    {
      hide View.Laid, View.Binned, MapIn, NewSeg, Unmapped, FreshAt, Coalesced, Keeps, Added, AddedWords, AddedSegs;
      hide ClearOfHeap;
      NewSegLaid(v, tbase, tsize);
      FreshLaid(v, tbase, tsize);
      var oldTop := top;
      var csp, oldEnd := RecordPlace();
      StoreSegment(tbase, tsize, csp, oldEnd, v);
      chunks := Added(v, tbase, tsize);
      segs := AddedSegs(v, tbase, tsize);
      AddedDone(v, mem, tbase, tsize);
      AddedSize(v);
      if csp != oldTop {
        ghost var w := Now();
        LooseNotVictim(w, {oldTop}, oldTop);
        InsertChunk(oldTop, csp - oldTop, {oldTop});
        assert {oldTop} - {oldTop} == {};
        KeepsChain(v, w, Now());
      }
    }

    /** The append case of `alloc_sys`; v is the state before memory was mapped. */
    method AppendTop(sp: int, tsize: int, ghost v: View)
      requires Sound(v) && v.segs != [] && FreshAt(v.mem, SegEnd(v.segs[0]), tsize) && tsize % GRANULARITY == 0 &&
        sp == v.segs[0].rec
      requires Now() == v.(mem := MapIn(v.mem, SegEnd(v.segs[0]), tsize))
      modifies this`mem, this`top, this`topsize, this`trimCheck, this`chunks, this`segs
      ensures Sound(Now()) && Keeps(v, Now(), {}) && topsize == v.topsize + tsize
      ensures top == v.top && segs == Resized(v.segs, v.segs[0].size + tsize)
    {
      hide View.Laid, View.Binned, MapIn, NextRec, FreshAt, Coalesced, Keeps, TopMoves, MoveFoot, Resized, TopMoved;
      AppendMoves(v, tsize);
      FreshFacts(v.mem, SegEnd(v.segs[0]), tsize);
      TopHeld(v, 0);
      TopKind(v);
      FreshLaid(v, SegEnd(v.segs[0]), tsize);
      SegLook(Now(), 0);
      ghost var m1 := mem;
      ResizeTop(sp, Ld(mem, sp + 8) + tsize, topsize + tsize, v);
      TopResized(v, {}, m1, v.topsize + tsize, Now());
    }

    /** The rest of the new memory goes to the top chunk, which lies right behind it. */
    method PrependTop(q: int, qsize: int, ghost v: View, ghost u: View, ghost b: int)
      requires Now() == v.(mem := mem) && Finishing(v, u, mem, {}, q, b, qsize) && b == top && u.bins == v.bins &&
        u.direct == v.direct && u.msp == v.msp
      modifies this`mem, this`top, this`topsize, this`chunks, this`segs
      ensures Sound(Now()) && Gone(u, Now(), q) && segs == u.segs
    {
      hide View.Laid, View.Binned, Coalesced, Freed, FreedMem, FreedSize, Freeing, Gone, Sound, Merged, JoinsNext;
      FreeingFacts(u, {}, q, q);
      topsize := topsize + qsize;
      top := q;
      mem := Wr(mem, q + HEAD, topsize + 1);
      chunks := Freed(u.chunks, q, q);
      segs := u.segs;
      VictimNotUsed(u, {}, q);
      FreedTop(u, {}, q, q, Now());
    }

    /** The rest of the new memory goes to the designated victim, which lies right behind it. */
    method PrependVictim(q: int, qsize: int, ghost v: View, ghost u: View, ghost b: int)
      requires Now() == v.(mem := mem) && Finishing(v, u, mem, {}, q, b, qsize) && b == dv && b != top &&
        u.bins == v.bins && u.direct == v.direct && u.msp == v.msp
      modifies this`mem, this`dv, this`dvsize, this`chunks, this`segs
      ensures Sound(Now()) && Gone(u, Now(), q) && segs == u.segs
    {
      hide View.Laid, View.Binned, Finishing, Freed, Gone, Sound;
      VictimLowers(v, u, mem, q, b, qsize);
      dvsize := dvsize + qsize;
      dv := q;
      mem := Wr(mem, q + HEAD, dvsize + 1);
      mem := Wr(mem, q + dvsize, dvsize);
      chunks := Freed(u.chunks, q, q);
      segs := u.segs;
    }

    /** The rest of the new memory becomes a free chunk, which takes in the first chunk behind it if that is free. */
    method PrependFree(q: int, qsize: int, oldfirst: int, nsize: int, ghost v: View, ghost u: View,
        ghost loose: set<int>)
      requires Now() == v.(mem := mem) && Finishing(v, u, mem, loose, q, oldfirst, qsize) && oldfirst != dv &&
        oldfirst != top && u.bins == v.bins && u.direct == v.direct && u.msp == v.msp
      requires nsize == if FreeAt(v.chunks, oldfirst) then v.chunks[oldfirst].size else 0
      modifies this`mem, this`smallmap, this`small, this`treemap, this`treebins, this`trees, this`chunks, this`segs
      ensures Sound(Now()) && Gone(u, Now(), q) && segs == u.segs
    {
      hide View.Laid, View.Binned, Coalesced, Freed, FreedMem, FreedSize, Freeing, Gone, Merged, JoinsNext, Keeps;
      FreeingFacts(u, loose, q, q);
      VictimNotUsed(u, loose, q);
      StoreRest(q, qsize, oldfirst, nsize, v, u, loose);
      chunks := Freed(u.chunks, q, q);
      segs := u.segs;
      ghost var w := Now();
      FreedPlain(u, loose, q, q, w);
      InsertChunk(q, qsize + nsize, {q});
      assert {q} - {q} == {};
      GoneThen(u, w, Now(), q);
    }

    /** `set_free_with_pinuse` for the rest of the new memory, joined with the free chunk of nsize bytes behind it if
        there is one. */
    method StoreRest(q: int, qsize: int, oldfirst: int, nsize: int, ghost v: View, ghost u: View, ghost loose: set<int>)
      requires Finishing(v, u, mem, loose, q, oldfirst, qsize) && oldfirst != v.top
      requires nsize == if FreeAt(v.chunks, oldfirst) then v.chunks[oldfirst].size else 0
      modifies this`mem
      ensures mem == FreedMem(u.mem, u.chunks, q, q) && FreedSize(u.chunks, q, q) == qsize + nsize
    {
      hide View.Laid, View.Binned, Coalesced, FreedMem, FreedSize, Finishing, FreeAt;
      FinishSize(v, u, mem, loose, q, oldfirst, qsize, nsize);
      var size, next := qsize + nsize, oldfirst + nsize;
      ghost var m := mem;
      mem := Wr(mem, next + HEAD, ClearPin(Ld(mem, next + HEAD)));
      SameStore(m, next + HEAD);
      mem := Wr(mem, q + HEAD, size + 1);
      mem := Wr(mem, q + size, size);
    }

    /** Unlinks the chunk at oldfirst if it is free and binned. */
    method TakeOutFirst(oldfirst: int) returns (nsize: int, ghost loose: set<int>)
      requires Sound(Now()) && oldfirst in chunks && BaseWords(Now(), oldfirst) && oldfirst + HEAD in mem
      modifies this`mem, this`smallmap, this`small, this`treemap, this`treebins, this`trees
      ensures Now().Laid() && Now().Binned(loose) && Keeps(old(Now()), Now(), {}) && mem.Keys == old(mem).Keys
      ensures loose == if FreeAt(chunks, oldfirst) && oldfirst != dv then {oldfirst} else {}
      ensures oldfirst != top && oldfirst != dv ==>
        nsize == if FreeAt(chunks, oldfirst) then chunks[oldfirst].size else 0
    {
      hide View.Laid, View.Binned, Coalesced, Keeps;
      ghost var v := Now();
      KeepsAll(v);
      nsize := 0;
      loose := {};
      if oldfirst != top && oldfirst != dv && !CInUse(Ld(mem, oldfirst + HEAD)) {
        nsize := ChunkSize(Ld(mem, oldfirst + HEAD));
        UnlinkChunk(oldfirst, nsize, {});
        loose := {oldfirst};
        assert {} + {oldfirst} == {oldfirst};
      }
    }

    /** The rest of the new memory is consolidated with the first chunk of the old base. */
    method MergeRest(q: int, qsize: int, oldfirst: int, nsize: int, ghost v: View, ghost u: View, ghost loose: set<int>)
      requires Now() == v.(mem := mem) && Finishing(v, u, mem, loose, q, oldfirst, qsize) && u.bins == v.bins &&
        u.direct == v.direct && u.msp == v.msp
      requires oldfirst in v.chunks && loose == if FreeAt(v.chunks, oldfirst) &&
        oldfirst != v.dv then {oldfirst} else {}
      requires oldfirst != top && oldfirst != dv ==>
        nsize == if FreeAt(v.chunks, oldfirst) then v.chunks[oldfirst].size else 0
      modifies this`mem, this`smallmap, this`small, this`treemap, this`treebins, this`trees, this`dv, this`dvsize,
        this`top, this`topsize, this`chunks, this`segs
      ensures Sound(Now()) && Gone(u, Now(), q) && segs == u.segs
    {
      hide View.Laid, View.Binned, Coalesced, Gone, FreedMem, ReleasedMem, Freeing, Releases;
      LooseWhere(v, loose, oldfirst);
      if oldfirst == top {
        PrependTop(q, qsize, v, u, oldfirst);
      } else if oldfirst == dv {
        PrependVictim(q, qsize, v, u, oldfirst);
      } else {
        PrependFree(q, qsize, oldfirst, nsize, v, u, loose);
      }
    }

    /** The new base and size of segment i, and the head of the chunk handed out. */
    method StoreFirst(sp: int, tbase: int, tsize: int, p: int, nb: int, ghost i: int)
      requires PrependWords(Now(), i, tbase, tsize, nb) && sp == Now().segs[i].rec && p == tbase
      modifies this`mem
      ensures 0 <= i < |segs| && mem == FirstLowered(old(mem), segs, i, tbase, nb, tsize)
    {
      hide BaseWords, AlignOffset;
      ghost var u := Now();
      var segsize := Ld(mem, sp + 8);
      mem := Wr(mem, sp, tbase);
      mem := Wr(mem, sp + 8, segsize + tsize);
      mem := Wr(mem, p + HEAD, nb + 3);
      FirstIs(u, i, tbase, nb, tsize, mem);
    }

    /** `prepend_alloc`, with the stores to the record at sp of the segment that begins at oldbase. A free first chunk
        is unlinked before the other stores; they go to different words. */
    method PrependAlloc(sp: int, tbase: int, tsize: int, oldbase: int, nb: int, ghost i: int) returns (ptr: int)
      requires Sound(Now()) && Prepends(Now(), i, tbase, tsize, nb) && sp == segs[i].rec && oldbase == tbase + tsize
      modifies this`mem, this`smallmap, this`small, this`treemap, this`treebins, this`trees, this`dv, this`dvsize,
        this`top, this`topsize, this`chunks, this`segs
      ensures Sound(Now()) && Granted(old(Now()), Now(), ptr, nb - 8) && Usable(Now(), ptr) == nb - 8
      ensures ptr == tbase + 16 && segs == Lowered(old(segs), i, tbase, tsize)
    {
      hide View.Laid, View.Binned, Coalesced, Prepends, Granted, Keeps, Finishing, TwoNew, Gone, FirstLowered;
      hide BaseWords, LoweredView;
      ghost var v := Now();
      PrependReady(v, i, tbase, tsize, nb);
      var p := tbase + AlignOffset(tbase + 16);
      var oldfirst := oldbase + AlignOffset(oldbase + 16);
      var q := p + nb;
      var qsize := oldfirst - p - nb;
      ghost var loose;
      var nsize;
      nsize, loose := TakeOutFirst(oldfirst);
      ghost var u := Now();
      PrependsStill(v, u, i, tbase, tsize, nb);
      PrependReady(u, i, tbase, tsize, nb);
      FinishReady(u, i, tbase, tsize, nb, loose);
      ghost var z := LoweredView(u, i, tbase, nb, tsize);
      LoweredSame(u, i, tbase, nb, tsize);
      StoreFirst(sp, tbase, tsize, p, nb, i);
      MergeRest(q, qsize, oldfirst, nsize, u, z, loose);
      TwoThenGone(u, z, Now(), tbase, q, nb);
      ptr := p + 16;
      ThenGranted(v, u, Now(), ptr, nb - 8);
    }

    // ----- direct chunks -----

    /** The head of a direct chunk and the fake chunks behind it. */
    method StoreDirect(p: int, psize: int)
      requires p + HEAD in mem && p + psize + HEAD in mem && p + psize + 8 + HEAD in mem
      modifies this`mem
      ensures mem == DirectMem(old(mem), p, psize)
    {
      mem := Wr(mem, p + HEAD, psize + 2);
      mem := Wr(mem, p + psize + HEAD, FENCEPOST_HEAD);
      mem := Wr(mem, p + psize + 8 + HEAD, 0);
    }

    /** `direct_alloc` */
    method DirectAlloc(nb: nat) returns (ptr: int)
      requires Sound(Now()) && nb < WORD
      modifies this`mem, this`direct, this`denied
      ensures Sound(Now())
      ensures if ptr == 0 then Now() == old(Now()) else nb < WORD - 4150 && Granted(old(Now()), Now(), ptr, nb)
      ensures ptr != 0 ==> ptr - 16 in direct && direct[ptr - 16] < nb + 2 * PAGE_SIZE && ptr - 8 !in old(mem)
      ensures denied >= old(denied) && (ptr == 0 ==> denied > old(denied) || nb >= WORD - 4150)
      ensures forall d | d != ptr - 16 :: d in direct <==> d in old(direct)
    {
      hide View.Laid, View.Binned, Coalesced, OnlyDirect, Granted, Keeps, DirectWords, DirectAt, MapIn, FreshAt;
      hide DirectSize, DirectMem, AlignOffset, Usable;
      ghost var v := Now();
      ptr := 0;
      DirectSizeOK(nb);
      var mmsize := DirectSize(nb);
      if mmsize > nb {
        var mm := CallMmap(mmsize);
        if mm != MFAIL {
          DirectMapped(v, mm, mmsize);
          var offset := AlignOffset(mm + 16);
          var psize := mmsize - offset - DIRECT_FOOT_PAD;
          var p := mm + offset;
          mem := Wr(mem, p, offset + 1);
          StoreDirect(p, psize);
          direct := direct[p := psize];
          DirectPut(v, mem, p, psize, mm + mmsize);
          ptr := p + 16;
          GrantedPositive(v, Now(), ptr, psize - 16, nb);
        }
      }
    }

    /** `lj_alloc_free` for direct chunk p; that the unmapping may fail is ignored. */
    method FreeDirect(p: int)
      requires Sound(Now()) && p in direct
      modifies this`mem, this`direct, this`unmaps
      ensures Sound(Now()) && Gone(old(Now()), Now(), p)
      ensures OneUnmap(old(mem), mem, p, DirectEnd(p, old(direct[p])) - p, old(unmaps), unmaps)
    {
      hide View.Laid, View.Binned, Coalesced, OnlyDirect, Gone, ClearOfHeap, Unmap;
      ghost var v := Now();
      DirectLook(v, p);
      var psize := ChunkSize(Ld(mem, p + HEAD));
      var prevsize := Ld(mem, p) - 1;
      psize := psize + prevsize + DIRECT_FOOT_PAD;
      var ok := CallMunmap(p - prevsize, psize);
      direct := direct - {p};
      UnmapOnly(v, mem, p, p + psize);
      UndirectDone(v, mem, p, p, p + psize);
    }

    /** `direct_resize`: 0 if the chunk cannot stay where it is. */
    method DirectResize(oldp: int, nb: nat) returns (newp: int)
      requires Sound(Now()) && oldp in direct && MIN_CHUNK_SIZE <= nb <= WORD - 120
      modifies this`mem, this`direct, this`stuck
      ensures Sound(Now()) && (newp == 0 || newp == oldp)
      ensures stuck >= old(stuck) && (newp == 0 && nb >= MIN_LARGE_SIZE ==> stuck > old(stuck))
      ensures if newp == 0 then Now() == old(Now()) else Regrown(old(Now()), Now(), oldp + 16, nb - 8)
    {
      hide View.Laid, View.Binned, Coalesced, ClearOfHeap, Keeps, DirectSize, Remapped, DirectMem;
      ghost var v := Now();
      newp := 0;
      DirectLook(v, oldp);
      var oldsize := ChunkSize(Ld(mem, oldp + HEAD));
      if nb / 8 < 32 {
        return;
      }
      DirectSizeOK(nb);
      if oldsize >= nb + 8 && oldsize - nb <= GRANULARITY / 2 {
        RegrownSame(v, oldp, nb - 8);
        newp := oldp;
      } else {
        var offset := Ld(mem, oldp) - 1;
        var oldmmsize := oldsize + offset + DIRECT_FOOT_PAD;
        var newmmsize := DirectSize(nb);
        var ok := CallMremap(oldp - offset, oldmmsize, newmmsize);
        if ok {
          var psize := newmmsize - offset - DIRECT_FOOT_PAD;
          RemapSize(v, mem, oldp, nb);
          ghost var m1 := mem;
          RemapDone(v, m1, oldp, psize);
          StoreDirect(oldp, psize);
          direct := direct[oldp := psize];
          RegrownDirect(v, Now(), oldp, psize, nb - 8);
          newp := oldp;
        }
      }
    }

    /** The segment that ends at a, if there is one. */
    method SegmentEnding(a: int) returns (sp: int, ghost i: int)
      requires Now().Laid()
      ensures 0 <= i <= |segs| && (i < |segs| <==> sp != 0) &&
        (i < |segs| ==> sp == segs[i].rec && SegEnd(segs[i]) == a)
      ensures forall j | 0 <= j < i :: SegEnd(segs[j]) != a
    {
      hide View.Laid, NextRec;
      FirstRec(Now());
      sp := SegField(msp);
      i := 0;
      SegLook(Now(), 0);
      while sp != 0
        invariant 0 <= i <= |segs| && (i < |segs| <==> sp != 0) && (i < |segs| ==> sp == segs[i].rec)
        invariant forall j | 0 <= j < i :: SegEnd(segs[j]) != a
        decreases |segs| - i
      {
        SegLook(Now(), i);
        NextRecIs(Now(), i);
        if a == Ld(mem, sp) + Ld(mem, sp + 8) {
          return;
        }
        sp := Ld(mem, sp + 16);
        i := i + 1;
      }
    }

    /** The segment that begins at a, if there is one. */
    method SegmentStarting(a: int) returns (sp: int, ghost i: int)
      requires Now().Laid()
      ensures 0 <= i <= |segs| && (i < |segs| <==> sp != 0) && (i < |segs| ==> sp == segs[i].rec && segs[i].base == a)
      ensures forall j | 0 <= j < i :: segs[j].base != a
    {
      hide View.Laid, NextRec;
      FirstRec(Now());
      sp := SegField(msp);
      i := 0;
      SegLook(Now(), 0);
      while sp != 0
        invariant 0 <= i <= |segs| && (i < |segs| <==> sp != 0) && (i < |segs| ==> sp == segs[i].rec)
        invariant forall j | 0 <= j < i :: segs[j].base != a
        decreases |segs| - i
      {
        SegLook(Now(), i);
        NextRecIs(Now(), i);
        if Ld(mem, sp) == a {
          return;
        }
        sp := Ld(mem, sp + 16);
        i := i + 1;
      }
    }

    /** What `alloc_sys` does with tsize fresh bytes at tbase; v is the state before memory was mapped. */
    method UseFresh(tbase: int, tsize: int, nb: nat, ghost v: View) returns (ptr: int)
      requires Sound(v) && NewSeg(v, tbase, tsize) && Now() == v.(mem := MapIn(v.mem, tbase, tsize))
      requires nb % 8 == 0 && MIN_CHUNK_SIZE <= nb <= tsize - TOP_FOOT_SIZE - 1
      modifies this`mem, this`smallmap, this`small, this`treemap, this`treebins, this`trees, this`dv, this`dvsize,
        this`top, this`topsize, this`trimCheck, this`chunks, this`segs
      ensures Sound(Now()) && Granted(v, Now(), ptr, nb - 8) && direct == old(direct) && Usable(Now(), ptr) == nb - 8
      ensures ptr == if SegEnd(v.segs[0]) == tbase then v.top + 16 else tbase + 16
    {
      hide View.Laid, View.Binned, Coalesced, NewSeg, MapIn, Granted, Keeps, Prepends, FreshAt, Unmapped;
      NewSegLaid(v, tbase, tsize);
      NewSegFacts(v, tbase, tsize);
      FreshSound(v, tbase, tsize);
      ghost var u := Now();
      ghost var i;
      var sp;
      sp, i := SegmentEnding(tbase);
      var appends := false;
      if sp != 0 {
        SegLook(u, i);
        TopHeld(u, i);
        appends := Ld(mem, sp) <= top < Ld(mem, sp) + Ld(mem, sp + 8);
      }
      if appends {
        AppendTop(sp, tsize, v);
      } else {
        sp, i := SegmentStarting(tbase + tsize);
        if sp != 0 {
          FreshPrepends(v, u, i, tbase, tsize, nb);
          SegLook(u, i);
          ptr := PrependAlloc(sp, tbase, tsize, Ld(mem, sp), nb, i);
          ThenGranted(v, u, Now(), ptr, nb - 8);
          return;
        }
        AddSegment(tbase, tsize, v);
      }
      TopHeld(v, 0);
      ghost var w := Now();
      ptr := TakeTop(nb);
      ThenGranted(v, w, Now(), ptr, nb - 8);
    }

    /** `alloc_sys`; it fails only if `mmap` did, or for a request near 2^64. */
    method AllocSys(nb: nat) returns (ptr: int)
      requires Sound(Now()) && MIN_CHUNK_SIZE <= nb < WORD && (nb % 8 == 0 || nb == MAX_SIZE_T)
      modifies this
      ensures Sound(Now())
      ensures if ptr == 0 then Now() == old(Now()) else Granted(old(Now()), Now(), ptr, nb - 8)
      ensures stuck == old(stuck) && denied >= old(denied) &&
        (ptr == 0 ==> denied > old(denied) || nb >= WORD - 0x2_0040)
      ensures ptr != 0 && ptr - 16 !in direct ==> Snug(chunks, ptr - 16, nb)
      ensures ptr != 0 ==> nb < WORD - TOP_FOOT_SIZE - 1
      ensures ptr != 0 ==> ptr == old(top) + 16 || ptr - 8 !in old(mem)
      ensures forall d | d != ptr - 16 :: d in direct <==> d in old(direct)
      ensures ptr != 0 ==> if ptr - 16 in direct then nb >= DEFAULT_MMAP_THRESHOLD
        else nb < DEFAULT_MMAP_THRESHOLD || denied > old(denied)
    {
      hide View.Laid, View.Binned, Coalesced, NewSeg, MapIn, Granted, Keeps, FreshAt, Unmapped, SysSize;
      ghost var v := Now();
      ptr := 0;
      if nb >= DEFAULT_MMAP_THRESHOLD {
        ptr := DirectAlloc(nb);
        if ptr != 0 {
          GrantedLess(v, Now(), ptr, nb, nb - 8);
          return;
        }
      }
      SysSizeOK(nb);
      var rsize := SysSize(nb);
      if rsize > nb {
        var mp := CallMmap(rsize);
        if mp != MFAIL {
          FreshNew(v, mp, rsize);
          ptr := UseFresh(mp, rsize, nb, v);
          GrantedPositive(v, Now(), ptr, nb - 8, nb - 8);
          GrantedInside(v, Now(), ptr, nb - 8);
        }
      }
    }

    // ----- the interface -----

    /** The bins' part of a large request; 0 if it goes on to the designated victim and the top chunk. */
    method MallocLarge(nb: nat) returns (p: int)
      requires Sound(Now()) && nb % 8 == 0 && MIN_LARGE_SIZE <= nb < WORD
      modifies this`mem, this`smallmap, this`small, this`treemap, this`treebins, this`trees, this`chunks
      ensures Sound(Now())
      ensures if p == 0 then
        Now() == old(Now()) && (if nb <= dvsize then Chosen(Now(), nb, dv) else !FreeFits(Now(), nb))
      else
        Granted(old(Now()), Now(), p, nb - 8) && Snug(chunks, p - 16, nb) && Chosen(old(Now()), nb, p - 16)
    {
      hide View.Laid, View.Binned, Coalesced, Granted, BestFor, FreeFits, Chosen;
      p := 0;
      ghost var v := Now();
      if treemap != 0 {
        ghost var x;
        p, x := TmallocLarge(nb);
        if p == 0 {
          NoneFits(v, nb, x);
          LargeVictimChosen(v, nb, x);
        } else {
          GrantedPositive(v, Now(), p, nb - 8, nb - 8);
          LargeChosen(v, nb, x);
        }
      } else if dvsize < nb {
        LargeNoFit(v, nb);
      } else {
        LargeVictimOnly(v, nb);
      }
    }

    /** The last part of `lj_alloc_malloc`: the designated victim, the top chunk, the system. */
    method MallocRest(nb: nat) returns (p: int)
      requires Sound(Now()) && MIN_CHUNK_SIZE <= nb < WORD && (nb % 8 == 0 || nb == MAX_SIZE_T)
      modifies this
      ensures Sound(Now())
      ensures if p == 0 then Now() == old(Now()) else nb < MAX_SIZE_T && Granted(old(Now()), Now(), p, nb - 8)
      ensures nb <= old(dvsize) ==> p == old(dv) + 16
      ensures nb <= old(dvsize) || nb < old(topsize) ==>
        p != 0 && segs == old(segs) && direct == old(direct) && denied == old(denied)
      ensures p != 0 && p - 16 !in direct ==> Snug(chunks, p - 16, nb)
      ensures stuck == old(stuck) && denied >= old(denied)
      ensures p == 0 ==> denied > old(denied) || nb >= WORD - 0x2_0040
      ensures forall d | d != p - 16 :: d in direct <==> d in old(direct)
      ensures p != 0 && p - 16 in direct ==> nb >= DEFAULT_MMAP_THRESHOLD && nb > old(dvsize) && nb >= old(topsize)
      ensures p != 0 && p - 16 !in direct && nb > old(dvsize) && nb >= old(topsize) ==>
        nb < DEFAULT_MMAP_THRESHOLD || denied > old(denied)
    {
      hide View.Laid, View.Binned, Coalesced, Granted, Sound;
      ghost var v := Now();
      SoundLaid(v);
      VictimSize(v, {});
      TopBelow(v);
      if nb <= dvsize {
        p := TakeVictim(nb);
        GrantedPositive(v, Now(), p, nb - 8, nb - 8);
        GrantedInside(v, Now(), p, nb - 8);
      } else if nb < topsize {
        p := TakeTop(nb);
        GrantedPositive(v, Now(), p, nb - 8, nb - 8);
        GrantedInside(v, Now(), p, nb - 8);
      } else {
        p := AllocSys(nb);
      }
    }

    /** `lj_alloc_malloc`: a new block of at least nsize bytes, or 0, in which case nothing has changed. If a free chunk
        suffices, `Chosen` says which one is taken; if one does or the top chunk does, the system is not asked.
        Otherwise a request of DEFAULT_MMAP_THRESHOLD bytes or more gets a mapping of its own, unless `mmap` fails, and
        a request fails only if `mmap` fails or its size is near 2^64. */
    method Malloc(nsize: nat) returns (p: int)
      requires Sound(Now()) && nsize < WORD
      modifies this
      ensures Sound(Now())
      ensures if p == 0 then Now() == old(Now()) else nsize < MAX_REQUEST && Granted(old(Now()), Now(), p, nsize)
      ensures FreeFits(old(Now()), ChunkRequest(nsize)) || ChunkRequest(nsize) < old(topsize) ==>
        p != 0 && segs == old(segs) && direct == old(direct) && denied == old(denied)
      ensures FreeFits(old(Now()), ChunkRequest(nsize)) ==> Chosen(old(Now()), ChunkRequest(nsize), p - 16)
      ensures p != 0 && p - 16 !in direct ==> Snug(chunks, p - 16, ChunkRequest(nsize))
      ensures stuck == old(stuck) && denied >= old(denied) && (p == 0 ==> denied > old(denied) || Overflows(nsize))
      ensures forall d | d != p - 16 :: d in direct <==> d in old(direct)
      ensures p != 0 ==>
        if p - 16 in direct then GoesDirect(old(Now()), ChunkRequest(nsize))
        else !GoesDirect(old(Now()), ChunkRequest(nsize)) || denied > old(denied)
    {
      hide View.Laid, View.Binned, Coalesced, Granted, FreeFits, ChunkRequest, Sound, Chosen, Snug;
      ghost var v := Now();
      SoundLaid(v);
      p := 0;
      ChunkRequestOK(nsize);
      var nb: nat := ChunkRequest(nsize);
      MaxFitsNot(v, nb);
      TopBelow(v);
      VictimSize(v, {});
      if nsize <= MAX_SMALL_REQUEST {
        p := MallocSmall(nb);
      } else if nsize < MAX_REQUEST {
        p := MallocLarge(nb);
      }
      if p == 0 {
        if nb <= dvsize {
          ChosenFits(v, nb, dv);
        }
        p := MallocRest(nb);
      } else {
        GrantedInside(v, Now(), p, nb - 8);
        ChosenFits(v, nb, p - 16);
      }
      if p != 0 {
        GrantedPositive(v, Now(), p, nb - 8, nsize);
      }
    }

    /** `lj_alloc_free`: the block at ptr is gone, everything else is kept. `Counts` says when the count for
        `release_unused_segments` goes down, and that the segments are walked when it gets to 0. */
    method Free(ptr: int)
      requires Sound(Now()) && (ptr == 0 || Usable(Now(), ptr) > 0)
      modifies this
      ensures Sound(Now())
      ensures ptr == 0 ==> Now() == old(Now())
      ensures ptr != 0 ==> Keeps(old(Now()), Now(), {ptr}) && Usable(Now(), ptr) == 0
      ensures denied == old(denied) && stuck >= old(stuck)
      ensures topsize > trimCheck ==> topsize == old(topsize) || Total(segs) != Total(old(segs))
      ensures ptr != 0 && ptr - 16 !in old(direct) ==>
        Counted(old(Now()), ptr - 16, old(trimCheck), old(releaseChecks), releaseChecks, old(unmaps), unmaps, Now())
    {
      hide View.Laid, View.Binned, Coalesced, Keeps, Usable, Sound, Counted;
      if ptr != 0 {
        var p := ptr - 16;
        BlockLook(Now(), p);
        if !PInUse(Ld(mem, p + HEAD)) && Ld(mem, p) % 2 == 1 {
          FreeDirect(p);
        } else {
          FreeChunk(p);
        }
      }
    }

    /** `memcpy`, byte by byte, into the block at dst. */
    method Memcpy(dst: int, src: int, n: nat)
      requires Sound(Now()) && n <= Usable(Now(), dst) && Usable(Now(), dst) > 0 && dst % 8 == 0
      requires src + n <= dst || dst + Usable(Now(), dst) <= src
      modifies this`mem
      ensures Sound(Now()) && Keeps(old(Now()), Now(), {dst})
      ensures Now() == old(Now()).(mem := mem)
      ensures SameBytes(old(mem), src, mem, dst, n)
    {
      hide View.Laid, View.Binned, Coalesced, Keeps, Usable, Byte, SetByte, WordOf, Sound;
      ghost var v := Now();
      BlockWords(v, dst);
      var i := 0;
      while i < n
        invariant 0 <= i <= n && BlockStores(v, mem, dst)
        invariant SameBytes(v.mem, src, mem, dst, i) && SameBytes(v.mem, src, mem, src, n)
      {
        var b := Byte(mem, src + i);
        ByteRange(mem, src + i);
        CopyByte(v.mem, mem, dst, src, i, n);
        SetByteStores(v, mem, dst, i, b);
        mem := SetByte(mem, dst + i, b);
        i := i + 1;
      }
      UserStores(v, mem, dst);
    }

    /** Shrinks the chunk in use at p to nb bytes and frees the rest. */
    method ShrinkInPlace(p: int, oldsize: int, nb: int)
      requires Sound(Now()) && p in chunks && chunks[p].kind.Used? && chunks[p].size == oldsize
      requires nb % 8 == 0 && MIN_CHUNK_SIZE <= nb && oldsize - nb >= MIN_CHUNK_SIZE
      modifies this
      ensures Sound(Now()) && Regrown(old(Now()), Now(), p + 16, nb - 8) && denied == old(denied) && stuck >= old(stuck)
      ensures Usable(Now(), p + 16) == nb - 8
    {
      hide View.Laid, View.Binned, Coalesced, CutBlock, Regrown, Gone, Keeps;
      ghost var v := Now();
      ShrinkReady(v, p, nb);
      var rsize := oldsize - nb;
      var rem := p + nb;
      mem := Wr(mem, p + HEAD, InUseHead(Ld(mem, p + HEAD), nb));
      mem := Wr(mem, rem + HEAD, SetPin(Ld(mem, rem + HEAD)));
      mem := Wr(mem, rem + HEAD, InUseHead(Ld(mem, rem + HEAD), rsize));
      mem := Wr(mem, rem + rsize + HEAD, SetPin(Ld(mem, rem + rsize + HEAD)));
      chunks := Split(chunks, p, nb, Used);
      ShrinkStores(v.mem, p, nb, rsize);
      ghost var u := Now();
      ShrinkDone(v, p, nb, u);
      FreeChunk(rem);
      CutThenGone(v, u, Now(), p, rem, nb - 8, nb - 8);
    }

    /** Extends the chunk in use at p, which lies before the top chunk, to nb bytes. */
    method GrowInPlace(p: int, oldsize: int, nb: int)
      requires Sound(Now()) && Grows(Now(), p, nb) && oldsize == chunks[p].size
      modifies this`mem, this`top, this`topsize, this`chunks
      ensures Sound(Now()) && Regrown(old(Now()), Now(), p + 16, nb - 8) && Usable(Now(), p + 16) == nb - 8
      ensures topsize == old(topsize) + oldsize - nb
    {
      hide View.Laid, View.Binned, Coalesced, Regrown, Grown, GrowMem, InUseHead, SetPin, Sound;
      ghost var v := Now();
      SoundLaid(v);
      GrowReady(v, p, nb);
      var newsize := oldsize + topsize;
      var newtopsize := newsize - nb;
      var newtop := p + nb;
      GrowHeads(p, nb, newtopsize);
      chunks := Grown(chunks, p, top, nb, newtopsize);
      top := newtop;
      topsize := newtopsize;
      GrowDone(v, p, nb, Now());
    }

    method GrowHeads(p: int, nb: int, newtopsize: int)
      requires p + HEAD in mem && p + nb + HEAD in mem
      modifies this`mem
      ensures mem == GrowMem(old(mem), p, nb, newtopsize)
    {
      hide GrowMem, InUseHead, SetPin;
      ghost var m := mem;
      mem := Wr(mem, p + HEAD, InUseHead(Ld(mem, p + HEAD), nb));
      mem := Wr(mem, p + nb + HEAD, SetPin(Ld(mem, p + nb + HEAD)));
      mem := Wr(mem, p + nb + HEAD, newtopsize + 1);
      GrowStores(m, p, nb, newtopsize);
    }

    /** The part of `lj_alloc_realloc` that keeps the block where it is; 0 if that is not possible. */
    method ResizeInPlace(ptr: int, nb: nat) returns (newp: int)
      requires Sound(Now()) && Usable(Now(), ptr) > 0 && nb % 8 == 0 && MIN_CHUNK_SIZE <= nb <= WORD - 120
      modifies this
      ensures Sound(Now()) && (newp == 0 || newp == ptr - 16) && denied == old(denied) && stuck >= old(stuck)
      ensures if newp == 0 then Now() == old(Now()) else Regrown(old(Now()), Now(), ptr, nb - 8)
      ensures Roomy(old(Now()), ptr, nb) ==> newp != 0 && Usable(Now(), ptr) < nb - 8 + MIN_CHUNK_SIZE
      ensures ptr - 16 in old(direct) && nb >= MIN_LARGE_SIZE && newp == 0 ==> stuck > old(stuck)
    {
      hide View.Laid, View.Binned, Coalesced, Regrown, Sound;
      ghost var v := Now();
      var oldp := ptr - 16;
      BlockLook(v, oldp);
      BlockBefore(v, ptr);
      var oldsize := ChunkSize(Ld(mem, oldp + HEAD));
      var next := oldp + oldsize;
      newp := 0;
      if !PInUse(Ld(mem, oldp + HEAD)) && Ld(mem, oldp) % 2 == 1 {
        newp := DirectResize(oldp, nb);
      } else if oldsize >= nb {
        newp := oldp;
        RegrownStays(v, ptr, nb - 8);
        if oldsize - nb >= MIN_CHUNK_SIZE {
          ShrinkInPlace(oldp, oldsize, nb);
        }
      } else if next == top && oldsize + topsize > nb {
        GrowsNow(v, oldp, nb);
        GrowInPlace(oldp, oldsize, nb);
        newp := oldp;
      }
    }

    /** `lj_alloc_realloc`: the block at ptr gets at least nsize bytes, here or elsewhere, and keeps its contents as far
        as they fit; 0 if that is not possible, in which case nothing has changed. A block in a segment that is large
        enough, or that lies before a top chunk with enough room, stays where it is. */
    method Realloc(ptr: int, nsize: nat) returns (q: int)
      requires Sound(Now()) && Usable(Now(), ptr) > 0 && 0 < nsize < WORD
      modifies this
      ensures Sound(Now())
      ensures if q == 0 then
        Now() == old(Now()) else nsize < MAX_REQUEST && Reallocated(old(Now()), Now(), ptr, q, nsize)
      ensures denied >= old(denied) && (q == 0 ==> denied > old(denied) || Overflows(nsize))
      ensures nsize < MAX_REQUEST && Roomy(old(Now()), ptr, ChunkRequest(nsize)) ==>
        q == ptr && denied == old(denied) && Usable(Now(), ptr) < ChunkRequest(nsize) - 8 + MIN_CHUNK_SIZE
      ensures nsize < MAX_REQUEST && ptr - 16 in old(direct) && ChunkRequest(nsize) >= MIN_LARGE_SIZE && q != ptr ==>
        stuck > old(stuck)
    {
      hide View.Laid, View.Binned, Coalesced, Regrown, Sound, Reallocated, Granted, Keeps, Usable, SameBytes, FreeFits;
      q := 0;
      ChunkRequestOK(nsize);
      if nsize < MAX_REQUEST {
        ghost var v := Now();
        var nb := if nsize < MIN_REQUEST then MIN_CHUNK_SIZE else PadRequest(nsize);
        BlockLook(v, ptr - 16);
        BlockBefore(v, ptr);
        var oldsize := ChunkSize(Ld(mem, ptr - 16 + HEAD));
        var newp := ResizeInPlace(ptr, nb);
        if newp != 0 {
          q := newp + 16;
          RegrownReallocated(v, Now(), ptr, nb - 8, nsize);
        } else {
          q := Malloc(nsize);
          if q != 0 {
            ghost var u := Now();
            GrantKept(v, u, ptr, q, nsize);
            BlockLook(u, ptr - 16);
            DirectStays(v, u, ptr);
            GrantedRoom(v, u, q, nsize);
            var overhead := if !PInUse(Ld(mem, ptr - 16 + HEAD)) && Ld(mem, ptr - 16) % 2 == 1 then 16 else 8;
            var oc := oldsize - overhead;
            var n := if oc < nsize then oc else nsize;
            ApartEither(u, ptr, q);
            BlockWords(u, q);
            Memcpy(q, ptr, n);
            ghost var w := Now();
            StillThere(u, w, ptr, q);
            Free(ptr);
            CopyReallocated(v, u, w, Now(), ptr, q, nsize, n);
          }
        }
      }
    }

    /** `lj_alloc_f`: frees for a size of 0, allocates for a null pointer, and reallocates otherwise. */
    method AllocF(ptr: int, osize: nat, nsize: nat) returns (q: int)
      requires Sound(Now()) && nsize < WORD && (ptr == 0 || Usable(Now(), ptr) > 0)
      modifies this
      ensures Sound(Now())
      ensures nsize == 0 ==>
        q == 0 && (if ptr == 0 then Now() == old(Now()) else Keeps(old(Now()), Now(), {ptr}) && Usable(Now(), ptr) == 0)
      ensures nsize != 0 && q == 0 ==> Now() == old(Now())
      ensures nsize != 0 && q != 0 ==>
        if ptr == 0 then Granted(old(Now()), Now(), q, nsize) else Reallocated(old(Now()), Now(), ptr, q, nsize)
      ensures denied >= old(denied) && (nsize != 0 && q == 0 ==> denied > old(denied) || Overflows(nsize))
      ensures ptr == 0 < nsize && ChunkRequest(nsize) < old(topsize) ==> q != 0
      ensures ptr == 0 < nsize && FreeFits(old(Now()), ChunkRequest(nsize)) ==> q != 0
      ensures ptr != 0 && 0 < nsize < MAX_REQUEST && Roomy(old(Now()), ptr, ChunkRequest(nsize)) ==> q == ptr
    {
      hide View.Laid, View.Binned, Coalesced, Sound, Reallocated, Granted, Keeps, Usable, FreeFits, Roomy;
      q := 0;
      if nsize == 0 {
        Free(ptr);
      } else if ptr == 0 {
        q := Malloc(nsize);
      } else {
        q := Realloc(ptr, nsize);
      }
    }

    /** `lj_alloc_destroy`: gives each segment back with one call of `munmap`, and touches nothing else. */
    method Destroy()
      requires Sound(Now())
      modifies this`mem, this`unmaps
      ensures old(unmaps) <= unmaps && Given(old(mem), mem, segs, unmaps[|old(unmaps)|..])
      ensures forall w | !InSegs(segs, w) :: Rd(mem, w) == Rd(old(mem), w) && (w in mem <==> w in old(mem))
    {
      hide View.Laid, View.Binned, Coalesced, NextRec, Unmap, Sound, InSegs, SegsCut, Given;
      ghost var v := Now();
      ghost var made: seq<Unmapping> := [];
      SoundLaid(v);
      FirstRec(v);
      var sp := SegField(msp);
      ghost var i := 0;
      SegLook(v, 0);
      NoSegsCut(v.mem, segs);
      while sp != 0
        invariant 0 <= i <= |segs| && (sp != 0 <==> i < |segs|) && (i < |segs| ==> sp == segs[i].rec)
        invariant SegsCut(v.mem, mem, segs[..i]) && Given(v.mem, mem, segs[..i], made) && unmaps == old(unmaps) + made
        decreases |segs| - i
      {
        SegLook(v, i);
        NextRecIs(v, i);
        RecordLeft(v, mem, i);
        var base := Ld(mem, sp);
        var size := Ld(mem, sp + 8);
        sp := Ld(mem, sp + 16);
        ghost var m := mem;
        var done := CallMunmap(base, size);
        CutOneMore(v, m, i, made, done);
        made := made + [Unmapping(base, size, done)];
        i := i + 1;
      }
      assert segs[..|segs|] == segs;
      assert unmaps[|old(unmaps)|..] == made;
      CutAll(v.mem, mem, segs);
    }
  }
}
