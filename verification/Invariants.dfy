/** What the invariant of the heap says about memory, chunk by chunk. */
module Invariants {
  import opened BinMap
  import opened TreeIndex
  import opened Memory
  import opened Rings
  import opened Trie
  import opened TreeLinks
  import opened Layout
  import opened Bins
  import opened Segments
  import opened BinSteps
  import opened Blocks
  import opened DropSteps
  import opened AddSteps

  /** Each address of each segment lies in a chunk: walking from a chunk at or before it, head by head, gets there. */
  lemma {:induction false} SegmentTiled(v: View, i: nat, a: int, w: int) returns (c: int)
    requires Sound(v) && i < |v.segs| && a in v.chunks && v.segs[i].base <= a <= w < SegEnd(v.segs[i])
    ensures a <= c && c in v.chunks && c <= w < c + v.chunks[c].size
    ensures forall d | d in v.chunks && d <= w < d + v.chunks[d].size :: d == c
    decreases SegEnd(v.segs[i]) - a
  {
    hide Tagged, Recorded, AllDirectWords, View.Binned, Mapped, StateAt, DirectOK, SegAt, NoCross, Coalesced, Preceded;
    if w < a + v.chunks[a].size {
      c := a;
      ChunkAlone(v, c, w);
    } else {
      if Ends(v.chunks[a].kind) {
        LastChunk(v, i, a);
      }
      assert ChunkOK(a, v.chunks[a]) && Nxt(v.chunks, a) in v.chunks;
      c := SegmentTiled(v, i, Nxt(v.chunks, a), w);
    }
  }

  lemma ChunkAlone(v: View, c: int, w: int)
    requires Sound(v) && c in v.chunks && c <= w < c + v.chunks[c].size
    ensures forall d | d in v.chunks && d <= w < d + v.chunks[d].size :: d == c
  {
    hide Tagged, Recorded, AllDirectWords, View.Binned, Mapped, StateAt, DirectOK, SegsOK, Coalesced, Linked, Preceded;
  }

  /** A foot or a record chunk ends its segment. */
  lemma LastChunk(v: View, i: nat, a: int)
    requires Sound(v) && i < |v.segs| && a in v.chunks && v.segs[i].base <= a < SegEnd(v.segs[i])
    requires Ends(v.chunks[a].kind)
    ensures a + v.chunks[a].size == SegEnd(v.segs[i])
  {
    hide View.Laid, View.Binned, Coalesced;
    var j := 0;
    if v.chunks[a].kind.Rec? {
      j := RecordEnds(v, a);
    } else {
      FootEnds(v, a);
    }
    OneSegment(v, i, j, a);
  }

  lemma RecordEnds(v: View, a: int) returns (j: nat)
    requires Sound(v) && a in v.chunks && v.chunks[a].kind.Rec?
    ensures j < |v.segs| && v.segs[j].base <= a < SegEnd(v.segs[j]) == a + v.chunks[a].size
  {
    hide Tagged, Recorded, AllDirectWords, View.Binned, Mapped, StateAt, DirectOK, SegAt, NoCross, Coalesced, SegsApart;
    hide Linked, Preceded, Apart, TopIs;
    assert ChunkOK(a, v.chunks[a]) && Owned(v.segs, a);
    j :| 1 <= j < |v.segs| && v.segs[j].rec == a + 16;
    assert Retired(v.chunks, v.segs[j]);
  }

  lemma FootEnds(v: View, a: int)
    requires Sound(v) && a in v.chunks && v.chunks[a].kind.Foot?
    ensures v.segs != [] && v.segs[0].base <= a < SegEnd(v.segs[0]) == a + v.chunks[a].size
  {
    hide Tagged, Recorded, AllDirectWords, View.Binned, Mapped, StateAt, DirectOK, SegAt, NoCross, Coalesced, SegsApart;
    hide Linked, Preceded, Apart, Retired, RecsOwned;
    assert ChunkOK(v.top, v.chunks[v.top]);
  }

  lemma OneSegment(v: View, i: nat, j: nat, a: int)
    requires Sound(v) && i < |v.segs| && j < |v.segs|
    requires v.segs[i].base <= a < SegEnd(v.segs[i]) && v.segs[j].base <= a < SegEnd(v.segs[j])
    ensures i == j
  {
    hide Tagged, Recorded, AllDirectWords, View.Binned, Mapped, StateAt, DirectOK, SegAt, NoCross, Coalesced, Tiled;
    hide Retired, RecsOwned, TopIs, CurrentSeg;
  }

  /** In memory: the chunk behind a mirrors whether a is in use; a free chunk's size is repeated at its foot, and its
      neighbours on both sides are in use. */
  lemma BoundaryTags(v: View, a: int)
    requires Sound(v) && a in v.chunks && !Ends(v.chunks[a].kind)
    ensures var n := a + ChunkSize(Head(v.mem, a));
      && n in v.chunks && (PInUse(Head(v.mem, n)) <==> CInUse(Head(v.mem, a)))
      && (FreeAt(v.chunks, a) ==> PrevFoot(v.mem, n) == ChunkSize(Head(v.mem, a)) && CInUse(Head(v.mem, n)))
      && (!CInUse(Head(v.mem, a)) ==> PInUse(Head(v.mem, a)))
  {
    hide Recorded, AllDirectWords, View.Binned, Mapped, StateAt, DirectOK, SegsOK, Preceded, Apart, TopIs, HeadWord;
    hide CInUse, PInUse, ChunkSize;
    var n := Nxt(v.chunks, a);
    assert n in v.chunks && ChunkOK(a, v.chunks[a]) && ChunkOK(n, v.chunks[n]);
    HeadBits(v.chunks[a]);
    HeadBits(v.chunks[n]);
  }

  /** Chunk a sits in small bin i or in tree bin i. */
  ghost predicate InSmallBin(v: View, i: nat, a: int) {
    i < 32 == |v.bins.small| && a in v.bins.small[i]
  }

  ghost predicate InTreeBin(v: View, i: nat, a: int) {
    i < 32 == |v.bins.trees| && Has(v.bins.trees[i], a)
  }

  /** A chunk is free if and only if it is the designated victim or binned; it sits in at most one bin, the one for its
      size. */
  lemma FreeChunkHeld(v: View, a: int)
    requires Sound(v) && a != 0
    ensures FreeAt(v.chunks, a) <==> a == v.dv || exists i: nat :: InSmallBin(v, i, a) || InTreeBin(v, i, a)
    ensures forall i: nat | InSmallBin(v, i, a) :: v.chunks[a].size == 8 * i < MIN_LARGE_SIZE && a != v.dv
    ensures forall i: nat | InTreeBin(v, i, a) ::
        Index(v.chunks[a].size) == i && v.chunks[a].size >= MIN_LARGE_SIZE && a != v.dv
  {
    hide View.Laid, SmallOK, TreesOK, Has, Index, SizeOf;
    var cs, b := v.chunks, v.bins;
    forall i: nat | InTreeBin(v, i, a)
      ensures FreeAt(cs, a) && Index(cs[a].size) == i && cs[a].size >= MIN_LARGE_SIZE && a != v.dv
    {
      assert TreeItem(cs, b.trees[i], v.dv, {}, i, a);
    }
    forall i: nat | InSmallBin(v, i, a)
      ensures FreeAt(cs, a) && cs[a].size == 8 * i && a != v.dv
    {
      assert FreeAt(cs, a) && a != v.dv && cs[a].size == 8 * i;
    }
    if FreeAt(cs, a) && a != v.dv {
      assert IsBinned(cs, b, a);
      var s := cs[a].size;
      if s < MIN_LARGE_SIZE {
        assert InSmallBin(v, s / 8, a);
      } else {
        assert InTreeBin(v, Index(s), a);
      }
    }
  }

  /** Two chunks of one tree bin have equal sizes if and only if they are on one ring, of which only the first chunk has
      links in the tree. */
  lemma EqualSizesShareRing(v: View, i: nat, a: int, b: int)
    requires Sound(v) && InTreeBin(v, i, a) && InTreeBin(v, i, b)
    ensures v.chunks[a].size == v.chunks[b].size <==>
      exists ring: seq<int>, c0: int, c1: int, par: int ::
        NodeAt(v.mem, ring, c0, c1, par, i) && a in ring && b in ring
  {
    hide View.Laid, SmallOK, Has, Index, SizeOf, Rep, Shape, Distinct, OnOneRing, NodeAt;
    var t := v.bins.trees[i];
    assert TreeOK(v.mem, t, v.bins.roots[i], i, v.msp);
    assert TreeItem(v.chunks, t, v.dv, {}, i, a) && TreeItem(v.chunks, t, v.dv, {}, i, b);
    EqualSizesOneRing(t, Low(i), Width(i), a, b);
    var r, d0, d1, p := RingInMemory(v.mem, t, TreeBin(v.msp, i), i, a, b);
    if ring: seq<int>, c0: int, c1: int, par: int :|
      NodeAt(v.mem, ring, c0, c1, par, i) && a in ring && b in ring {
      SameRings(v.mem, ring, r, a, c0, c1, par, d0, d1, p, i);
    }
  }

  lemma NodeHasRing(m: Mem, t: Tree, par: int, i: int)
    requires Rep(m, t, par, i) && t.Node?
    ensures t.ring != []
  {
  }

  /** The ring that chunk a is on. */
  lemma {:induction false} RingInMemory(m: Mem, t: Tree, par: int, i: int, a: int, b: int)
    returns (ring: seq<int>, c0: int, c1: int, p: int)
    requires Rep(m, t, par, i) && Has(t, a) && Distinct(t)
    ensures NodeAt(m, ring, c0, c1, p, i) && a in ring && (b in ring <==> OnOneRing(t, a, b))
  {
    hide NodeAt, Distinct;
    NodeHasRing(m, t, par, i);
    DistinctParts(t);
    if OnOneRing(t.left, a, b) {
      OnRingHas(t.left, a, b);
    }
    if OnOneRing(t.right, a, b) {
      OnRingHas(t.right, a, b);
    }
    if a in t.ring {
      ring, c0, c1, p := t.ring, Addr(t.left), Addr(t.right), par;
    } else if Has(t.left, a) {
      ring, c0, c1, p := RingInMemory(m, t.left, t.ring[0], i, a, b);
    } else {
      ring, c0, c1, p := RingInMemory(m, t.right, t.ring[0], i, a, b);
    }
  }

  /** Rings in memory that share a chunk have the same chunks. */
  lemma SameRings(m: Mem, r: seq<int>, u: seq<int>, a: int, c0: int, c1: int, p: int, d0: int, d1: int, q: int, i: int)
    requires NodeAt(m, r, c0, c1, p, i) && NodeAt(m, u, d0, d1, q, i) && a in r && a in u
    ensures forall b | b in r :: b in u
  {
    hide OffTree;
    var k :| 0 <= k < |r| && r[k] == a;
    RingWalk(m, r, u, k);
    RingNext(m, u, r[|r| - 1]);
    RingWalk(m, r, u, 0);
  }

  lemma RingNext(m: Mem, u: seq<int>, x: int)
    requires RingAt(m, u) && x in u
    ensures Fd(m, x) in u
  {
    var k :| 0 <= k < |u| && u[k] == x;
    if k + 1 < |u| {
      assert Fd(m, u[k]) == u[k + 1];
    }
  }

  lemma {:induction false} RingWalk(m: Mem, r: seq<int>, u: seq<int>, k: nat)
    requires RingAt(m, r) && RingAt(m, u) && k < |r| && r[k] in u
    ensures forall j | k <= j < |r| :: r[j] in u
    decreases |r| - k
  {
    hide RingAt;
    if k + 1 < |r| {
      RingStep(m, r, k);
      RingNext(m, u, r[k]);
      RingWalk(m, r, u, k + 1);
    }
  }

  lemma RingStep(m: Mem, r: seq<int>, k: nat)
    requires RingAt(m, r) && k + 1 < |r|
    ensures Fd(m, r[k]) == r[k + 1]
  {
  }

  /** A bit of the small or the tree map is set if and only if its bin holds a chunk. */
  lemma MapBits(v: View, i: nat)
    requires Sound(v)
    ensures Marked(v.bins.smallmap, i) <==> exists a :: InSmallBin(v, i, a)
    ensures Marked(v.bins.treemap, i) <==> exists a :: InTreeBin(v, i, a)
  {
    hide View.Laid, Match, Marked, Has, Rep, Shape, Distinct;
    if i < 32 {
      SmallShape(v, i);
      TreeShape(v, i);
    }
  }

  lemma SmallShape(v: View, i: nat)
    requires Sound(v) && i < 32
    ensures Marked(v.bins.smallmap, i) <==> exists a :: InSmallBin(v, i, a)
  {
    hide View.Laid, TreesOK, Match, Marked;
    if v.bins.small[i] != [] {
      assert InSmallBin(v, i, v.bins.small[i][0]);
    }
  }

  lemma TreeShape(v: View, i: nat)
    requires Sound(v) && i < 32
    ensures Marked(v.bins.treemap, i) <==> exists a :: InTreeBin(v, i, a)
  {
    hide View.Laid, SmallOK, Match, Marked, Rep, Distinct;
    var t := v.bins.trees[i];
    assert TreeOK(v.mem, t, v.bins.roots[i], i, v.msp);
    if t.Node? {
      RingMembers(t);
      assert InTreeBin(v, i, t.ring[0]);
    }
  }

  /** A segment that is free but for its own record is gone after the walk of `release_unused_segments`, from v to w, if
      and only if its record chunk has the least size. */
  lemma GivenBackIff(v: View, w: View, i: int)
    requires Sound(v) && Droppable(v, i) && Walked(v, w)
    ensures v.segs[i] !in w.segs[1..] <==> v.chunks[v.segs[i].rec - 16].size == TOP_FOOT_SIZE
  {
    hide View.Laid, View.Binned, Coalesced;
  }

  lemma TopIsTop(v: View)
    requires Sound(v)
    ensures TopIs(v.chunks, v.top, v.topsize)
  {
    hide Tagged, Recorded, AllDirectWords, Mapped, StateAt, DirectOK, SegsOK, Tiled, View.Binned, Coalesced;
  }

  /** `add_segment` leaves the old segment a record chunk of the least size if and only if the old top chunk had room
      for a free chunk; otherwise the record chunk takes the old top chunk in. */
  lemma RecordSize(v: View, tbase: int, tsize: int)
    requires Sound(v) && NewSeg(v, tbase, tsize)
    ensures var cs, s := Added(v, tbase, tsize), AddedSegs(v, tbase, tsize)[1];
      && s.rec - 16 in cs && cs[s.rec - 16].kind.Rec?
      && cs[s.rec - 16].size == TOP_FOOT_SIZE + if v.topsize >= MIN_CHUNK_SIZE then 0 else v.topsize
  {
    hide View.Laid, View.Binned, Coalesced, Retire;
    NewSegFacts(v, tbase, tsize);
    TopIsTop(v);
    RetireAt(v.chunks, v.top, v.topsize);
    assert SegEnd(v.segs[0]) <= tbase || tbase + tsize <= v.segs[0].base;
  }

  /** The size of the record chunk of segment i. */
  ghost function RecordOf(v: View, i: int): int {
    if 0 <= i < |v.segs| && v.segs[i].rec - 16 in v.chunks then v.chunks[v.segs[i].rec - 16].size else 0
  }

  /** Segment i of v is the one that was retired, with the record chunk it got then. */
  ghost predicate StillRetired(u: View, tbase: int, tsize: int, v: View, i: int) {
    && u.segs != [] && u.top in u.chunks && 1 <= i < |v.segs| && v.segs[i] == AddedSegs(u, tbase, tsize)[1]
    && var r := v.segs[i].rec - 16;
    && r in v.chunks && r in Added(u, tbase, tsize) && v.chunks[r].size == Added(u, tbase, tsize)[r].size
  }

  /** The segment that `add_segment` retires when 8 bytes are left in the top chunk is never given back: not by a walk
      from any later state v to w in which it still has its record chunk, even if it is free but for that. */
  lemma EightBytesStay(u: View, tbase: int, tsize: int, v: View, i: int, w: View)
    requires StillRetired(u, tbase, tsize, v, i) && u.topsize == 8 && w.segs != []
    requires Sound(u) && NewSeg(u, tbase, tsize) && Sound(v) && Walked(v, w)
    ensures v.segs[i] in w.segs[1..] && RecordOf(v, i) == 72
  {
    hide View.Laid, View.Binned, Coalesced, NewSeg, Added, Droppable, Sound;
    RecordSize(u, tbase, tsize);
    if Droppable(v, i) {
      GivenBackIff(v, w, i);
    }
  }
}
