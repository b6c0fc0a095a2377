/** Mapping and unmapping memory: what it does to the segments and to the invariant. */
module SegSteps {
  import opened Memory
  import opened Layout
  import opened Bins
  import opened Segments
  import opened Steps
  import opened BinSteps
  import opened TagSteps
  import opened Blocks

  predicate InRange(w: int, a: int, n: int) {
    a <= w < a + n
  }

  /** n bytes of zeroed memory mapped at a. */
  function MapIn(m: Mem, a: int, n: int): Mem {
    m + map w | a <= w < a + n && InRange(w, a, n) :: 0
  }

  function Unmap(m: Mem, a: int, n: int): Mem {
    map w | w in m && !(a <= w < a + n) :: m[w]
  }

  /** None of the n bytes at a is mapped. */
  predicate Unmapped(m: Mem, a: int, n: int) {
    forall w | a <= w < a + n :: w !in m
  }

  /** What `mmap` may return: page-aligned unused addresses below 2 GB. */
  predicate FreshAt(m: Mem, a: int, n: int) {
    0 < a && a % PAGE_SIZE == 0 && 0 < n && a + n <= ADDRESS_LIMIT && Unmapped(m, a, n)
  }

  lemma FreshHead(m: Mem, a: int, n: int)
    requires FreshAt(m, a, n) && n > 8
    ensures a + 8 !in m
  {
  }

  lemma MapInReads(m: Mem, a: int, n: int)
    requires Unmapped(m, a, n)
    ensures forall w :: Rd(MapIn(m, a, n), w) == Rd(m, w)
    ensures forall w :: w in MapIn(m, a, n) <==> w in m || a <= w < a + n
  {
  }

  lemma UnmapReads(m: Mem, a: int, n: int)
    ensures forall w | !(a <= w < a + n) :: Rd(Unmap(m, a, n), w) == Rd(m, w)
    ensures forall w :: w in Unmap(m, a, n) <==> w in m && !(a <= w < a + n)
  {
  }

  /** All of the heap lies outside the n bytes at a. */
  ghost predicate ClearOfHeap(cs: Chunks, segs: seq<Seg>, direct: map<int, int>, a: int, n: int) {
    && (forall c | c in cs :: c + cs[c].size <= a || a + n <= c)
    && (forall i | 0 <= i < |segs| :: SegEnd(segs[i]) <= a || a + n <= segs[i].base)
    && (forall p | p in direct :: DirectEnd(p, direct[p]) <= a || a + n <= p)
  }

  lemma RangeClear(keys: set<int>, b: int, e: int, a: int, n: int)
    requires b < e && n > 0 && (forall w | b <= w < e :: w in keys) && (forall w | a <= w < a + n :: w !in keys)
    ensures e <= a || a + n <= b
  {
    var w := if b <= a then a else b;
    assert w in keys || w >= e;
  }

  /** Fresh memory overlaps nothing. */
  lemma FreshClear(v: View, a: int, n: int)
    requires v.Laid() && Unmapped(v.mem, a, n) && n > 0
    ensures ClearOfHeap(v.chunks, v.segs, v.direct, a, n)
  {
    hide RecsOwned, Tiled, Tagged, TopIs, StateAt, Recorded, AllDirectWords, SegsApart, NoCross, Retired, CurrentSeg;
    hide DirectAlone;
    assert forall w | a <= w < a + n :: w !in v.mem.Keys;
    forall c | c in v.chunks
      ensures c + v.chunks[c].size <= a || a + n <= c
    {
      ChunkPositive(v, c);
      RangeClear(v.mem.Keys, c, c + v.chunks[c].size, a, n);
    }
    forall i | 0 <= i < |v.segs|
      ensures SegEnd(v.segs[i]) <= a || a + n <= v.segs[i].base
    {
      assert SegAt(v.mem.Keys, v.chunks, v.segs[i]);
      RangeClear(v.mem.Keys, v.segs[i].base, SegEnd(v.segs[i]), a, n);
    }
    forall p | p in v.direct
      ensures DirectEnd(p, v.direct[p]) <= a || a + n <= p
    {
      assert DirectAt(v.mem.Keys, p, v.direct[p]);
      RangeClear(v.mem.Keys, p, DirectEnd(p, v.direct[p]), a, n);
    }
  }

  /** More mapped memory does no harm. */
  lemma MapInLaid(v: View, a: int, n: int)
    requires v.Laid() && Unmapped(v.mem, a, n)
    ensures v.(mem := MapIn(v.mem, a, n)).Laid()
  {
    hide RecsOwned, Tiled, TopIs, StateAt, SegsApart, NoCross, Retired, CurrentSeg, DirectAlone, MapIn, Unmapped;
    MapInReads(v.mem, a, n);
    var m := MapIn(v.mem, a, n);
    assert Mapped(m.Keys, v.chunks);
    forall i | 0 <= i < |v.segs|
      ensures SegAt(m.Keys, v.chunks, v.segs[i])
    {
      assert SegAt(v.mem.Keys, v.chunks, v.segs[i]);
    }
    forall i | 0 <= i < |v.segs|
      ensures RecordAt(m, v.segs[i], NextRec(v.segs, i))
    {
      assert RecordAt(v.mem, v.segs[i], NextRec(v.segs, i));
    }
    forall p | p in v.direct
      ensures DirectAt(m.Keys, p, v.direct[p]) && DirectAlone(v.chunks, v.segs, p, v.direct[p]) &&
        DirectWords(m, p, v.direct[p])
    {
      assert DirectAt(v.mem.Keys, p, v.direct[p]) && DirectWords(v.mem, p, v.direct[p]);
    }
  }

  lemma MapInBinned(v: View, a: int, n: int, loose: set<int>)
    requires v.Laid() && v.Binned(loose) && Unmapped(v.mem, a, n)
    ensures v.(mem := MapIn(v.mem, a, n)).Binned(loose)
  {
    hide Tagged, TopIs, StateAt, SegsOK, Mapped, DirectOK, Recorded, AllDirectWords, MapIn, SmallOK, TreesOK, Match;
    hide Unmapped;
    MapInReads(v.mem, a, n);
    BinsFrame(v.mem, MapIn(v.mem, a, n), v.chunks, v.bins, v.msp, v.dv, v.dvsize, loose);
  }

  lemma MapInKeeps(v: View, a: int, n: int)
    requires Unmapped(v.mem, a, n)
    ensures Keeps(v, v.(mem := MapIn(v.mem, a, n)), {})
  {
    hide MapIn, Unmapped;
    MapInReads(v.mem, a, n);
  }

  // ----- the invariant for new segments -----

  /** Every part of the invariant but the bins. */
  lemma BinsRebuilt(v: View, w: View, x: set<int>, loose: set<int>, loose': set<int>)
    requires v.Laid() && v.Binned(loose) && BodiesKept(v.mem, w.mem, v.chunks, v.msp, x)
    requires (forall a | a in x && FreeAt(v.chunks, a) :: a in loose) && FreeStep(v.chunks, w.chunks, loose, loose')
    requires w.bins == v.bins && w.msp == v.msp && w.dv == v.dv && w.dvsize == v.dvsize
    ensures w.Binned(loose')
  {
    hide BodiesKept, FreeStep, BinInv, Mapped, TopIs, StateAt, SegsOK, DirectOK, SizesOK, Apart, Linked, Preceded;
    hide Tagged, Recorded, AllDirectWords;
    BinsStep(v.mem, w.mem, v.chunks, w.chunks, v.bins, v.msp, v.dv, v.dvsize, x, loose, loose');
  }

  // ----- moving the end of the top chunk -----

  function MoveFoot(cs: Chunks, top: int, topsize: int, size: int): Chunks
    requires top in cs
  {
    (cs - {top + topsize})[top := Chunk(size, Top, cs[top].pin)][top + size := Chunk(TOP_FOOT_SIZE, Foot, false)]
  }

  /** Chunks other than the top chunk and its foot stay out of where they are to be. */
  ghost predicate FootFits(cs: Chunks, top: int, topsize: int, size: int) {
    && 0 < size && size % 8 == 0 && top + size + TOP_FOOT_SIZE <= ADDRESS_LIMIT
    && forall a | a in cs && a != top && a != top + topsize :: a + cs[a].size <= top || top + size + TOP_FOOT_SIZE <= a
  }

  /** A chunk that stays, and lies outside the new top chunk and foot. */
  ghost predicate Stays(cs: Chunks, ds: Chunks, top: int, topsize: int, size: int, a: int) {
    a in cs && a in ds && ds[a] == cs[a] && a != top && a != top + topsize && a != top + size
    && ChunkOK(a, cs[a]) && (a + cs[a].size <= top || top + size + TOP_FOOT_SIZE <= a)
  }

  lemma MoveFootAt(cs: Chunks, top: int, topsize: int, size: int)
    requires SizesOK(cs) && TopIs(cs, top, topsize) && FootFits(cs, top, topsize, size)
    ensures var ds := MoveFoot(cs, top, topsize, size);
      && top in ds && ds[top] == Chunk(size, Top, cs[top].pin)
      && top + size in ds && ds[top + size] == Chunk(TOP_FOOT_SIZE, Foot, false)
      && forall a | a in ds && a != top && a != top + size :: Stays(cs, ds, top, topsize, size, a)
    ensures forall a | a in cs && a != top && a != top + topsize ::
      Stays(cs, MoveFoot(cs, top, topsize, size), top, topsize, size, a)
  {
    var ds := MoveFoot(cs, top, topsize, size);
    forall a | a in cs && a != top && a != top + topsize
      ensures Stays(cs, ds, top, topsize, size, a)
    {
      assert ChunkOK(a, cs[a]);
    }
  }

  lemma MoveFootTiled(cs: Chunks, top: int, topsize: int, size: int)
    requires Tiled(cs) && TopIs(cs, top, topsize) && FootFits(cs, top, topsize, size)
    ensures Tiled(MoveFoot(cs, top, topsize, size)) && TopIs(MoveFoot(cs, top, topsize, size), top, size)
  {
    hide SizesOK, Apart, Linked, Preceded, MoveFoot, FootFits;
    MoveFootSizes(cs, top, topsize, size);
    MoveFootApart(cs, top, topsize, size);
    MoveFootLinked(cs, top, topsize, size);
    MoveFootPreceded(cs, top, topsize, size);
    MoveFootTop(cs, top, topsize, size);
  }

  lemma MoveFootSizes(cs: Chunks, top: int, topsize: int, size: int)
    requires SizesOK(cs) && TopIs(cs, top, topsize) && FootFits(cs, top, topsize, size)
    ensures SizesOK(MoveFoot(cs, top, topsize, size))
  {
    hide MoveFoot;
    var ds := MoveFoot(cs, top, topsize, size);
    MoveFootAt(cs, top, topsize, size);
    assert ChunkOK(top, cs[top]);
    assert ChunkOK(top, ds[top]) && ChunkOK(top + size, ds[top + size]);
    forall a | a in ds
      ensures ChunkOK(a, ds[a])
    {
      assert a == top || a == top + size || Stays(cs, ds, top, topsize, size, a);
    }
  }

  lemma MoveFootApart(cs: Chunks, top: int, topsize: int, size: int)
    requires SizesOK(cs) && Apart(cs) && TopIs(cs, top, topsize) && FootFits(cs, top, topsize, size)
    ensures Apart(MoveFoot(cs, top, topsize, size))
  {
    hide MoveFoot;
    var ds, f := MoveFoot(cs, top, topsize, size), top + size;
    MoveFootAt(cs, top, topsize, size);
    forall a, b | a in ds && b in ds && a < b
      ensures a + ds[a].size <= b
    {
      assert a == top || a == f || Stays(cs, ds, top, topsize, size, a);
      assert b == top || b == f || Stays(cs, ds, top, topsize, size, b);
    }
  }

  lemma MoveFootLinked(cs: Chunks, top: int, topsize: int, size: int)
    requires Tiled(cs) && TopIs(cs, top, topsize) && FootFits(cs, top, topsize, size)
    ensures Linked(MoveFoot(cs, top, topsize, size))
  {
    hide MoveFoot, SizesOK, Apart, Preceded, FootFits;
    var ds, f := MoveFoot(cs, top, topsize, size), top + size;
    MoveFootAt(cs, top, topsize, size);
    assert Nxt(ds, top) == f;
    forall a {:trigger Nxt(ds, a)} | a in ds && !Ends(ds[a].kind)
      ensures Nxt(ds, a) in ds && ds[Nxt(ds, a)].pin == InUse(ds[a].kind)
    {
      if a != top {
        StaysNext(cs, ds, top, topsize, size, a);
        assert Nxt(cs, a) == top || Stays(cs, ds, top, topsize, size, Nxt(cs, a));
      }
    }
  }

  lemma StaysNext(cs: Chunks, ds: Chunks, top: int, topsize: int, size: int, a: int)
    requires Tiled(cs) && TopIs(cs, top, topsize) && a in cs && a in ds && a != top &&
      (a == top + size || Stays(cs, ds, top, topsize, size, a))
    requires !Ends(ds[a].kind) && top + size in ds && ds[top + size].kind.Foot?
    ensures Nxt(ds, a) == Nxt(cs, a) && Nxt(cs, a) in cs && Nxt(cs, a) != top + topsize &&
      cs[Nxt(cs, a)].pin == InUse(ds[a].kind)
  {
    NextNotFoot(cs, top, topsize, a);
  }

  lemma MoveFootPreceded(cs: Chunks, top: int, topsize: int, size: int)
    requires Tiled(cs) && TopIs(cs, top, topsize) && FootFits(cs, top, topsize, size)
    ensures Preceded(MoveFoot(cs, top, topsize, size))
  {
    hide MoveFoot, FootFits, Linked, Apart;
    var ds, f := MoveFoot(cs, top, topsize, size), top + size;
    MoveFootAt(cs, top, topsize, size);
    assert Nxt(ds, top) == f;
    forall a | a in ds && !ds[a].pin
      ensures exists b :: b in ds && !Ends(ds[b].kind) && Nxt(ds, b) == a
    {
      if a != f {
        assert a == top || Stays(cs, ds, top, topsize, size, a);
        var b :| b in cs && !Ends(cs[b].kind) && Nxt(cs, b) == a;
        assert Stays(cs, ds, top, topsize, size, b);
        assert Nxt(ds, b) == a;
      }
    }
  }

  lemma MoveFootTop(cs: Chunks, top: int, topsize: int, size: int)
    requires SizesOK(cs) && TopIs(cs, top, topsize) && FootFits(cs, top, topsize, size)
    ensures TopIs(MoveFoot(cs, top, topsize, size), top, size)
  {
    hide MoveFoot, FootFits;
    var ds := MoveFoot(cs, top, topsize, size);
    MoveFootAt(cs, top, topsize, size);
    forall a | a in ds && (ds[a].kind.Top? || ds[a].kind.Foot?)
      ensures a == top || a == top + size
    {
      assert a == top || a == top + size || Stays(cs, ds, top, topsize, size, a);
    }
  }

  function Resized(segs: seq<Seg>, size: int): seq<Seg>
    requires segs != []
  {
    segs[0 := segs[0].(size := size)]
  }

  /** The current segment ends at e from now on, and the words mapped are those it needs. */
  ghost predicate EndsAt(keys: set<int>, keys': set<int>, segs: seq<Seg>, direct: map<int, int>, e: int)
    requires segs != []
  {
    && (forall w | segs[0].base <= w < e :: w in keys')
    && (forall w | w in keys && !(e <= w < SegEnd(segs[0])) :: w in keys')
    && (e - segs[0].base) % GRANULARITY == 0
    && (forall i | 1 <= i < |segs| :: SegEnd(segs[i]) <= segs[0].base || e <= segs[i].base)
    && (forall p | p in direct :: DirectEnd(p, direct[p]) <= segs[0].base || e <= p)
  }

  lemma MoveFootShape(keys: set<int>, keys': set<int>, cs: Chunks, top: int, topsize: int, size: int, segs: seq<Seg>,
      direct: map<int, int>, msp: int)
    requires ShapeInv(keys, cs, top, topsize, segs, direct, msp) && FootFits(cs, top, topsize, size)
    requires EndsAt(keys, keys', segs, direct, top + size + TOP_FOOT_SIZE)
    ensures ShapeInv(keys', MoveFoot(cs, top, topsize, size), top, size,
      Resized(segs, top + size + TOP_FOOT_SIZE - segs[0].base), direct, msp)
  {
    hide Linked, Preceded, Mapped, DirectOK, SegsOK, MoveFoot, EndsAt, FootFits;
    MoveFootTiled(cs, top, topsize, size);
    MoveFootMapped(keys, keys', cs, top, topsize, size, segs, direct, msp);
    MoveFootSegs(keys, keys', cs, top, topsize, size, segs, direct, msp);
    MoveFootDirect(keys, keys', cs, top, topsize, size, segs, direct, msp);
    MoveFootAt(cs, top, topsize, size);
    assert Stays(cs, MoveFoot(cs, top, topsize, size), top, topsize, size, msp);
  }

  lemma MoveFootMapped(keys: set<int>, keys': set<int>, cs: Chunks, top: int, topsize: int, size: int, segs: seq<Seg>,
      direct: map<int, int>, msp: int)
    requires ShapeInv(keys, cs, top, topsize, segs, direct, msp) && FootFits(cs, top, topsize, size)
    requires EndsAt(keys, keys', segs, direct, top + size + TOP_FOOT_SIZE)
    ensures Mapped(keys', MoveFoot(cs, top, topsize, size))
  {
    hide RecsOwned, SizesOK, Linked, Preceded, DirectOK, SegAt, Retired, MoveFoot, FootFits;
    var ds := MoveFoot(cs, top, topsize, size);
    MoveFootAt(cs, top, topsize, size);
    FootFitsEnd(cs, top, topsize, size);
    forall a, w | a in ds && a <= w < a + ds[a].size
      ensures w in keys'
    {
      if a != top && a != top + size {
        assert Stays(cs, ds, top, topsize, size, a);
        OldSide(cs, top, topsize, a);
        assert w in keys && SegEnd(segs[0]) == top + topsize + TOP_FOOT_SIZE;
      }
    }
  }

  lemma OldSide(cs: Chunks, top: int, topsize: int, a: int)
    requires Apart(cs) && TopIs(cs, top, topsize) && a in cs && a != top && a != top + topsize && cs[a].size > 0
    ensures a + cs[a].size <= top || top + topsize + TOP_FOOT_SIZE <= a
  {
  }

  lemma MoveFootSegs(keys: set<int>, keys': set<int>, cs: Chunks, top: int, topsize: int, size: int, segs: seq<Seg>,
      direct: map<int, int>, msp: int)
    requires ShapeInv(keys, cs, top, topsize, segs, direct, msp) && FootFits(cs, top, topsize, size)
    requires EndsAt(keys, keys', segs, direct, top + size + TOP_FOOT_SIZE)
    ensures SegsOK(keys', MoveFoot(cs, top, topsize, size), Resized(segs, top + size + TOP_FOOT_SIZE - segs[0].base),
      msp, top, size)
  {
    hide RecsOwned, SizesOK, Linked, Preceded, Apart, DirectOK, MoveFoot, Mapped, NoCross, SegAt, Retired, EndsAt;
    var ds, e := MoveFoot(cs, top, topsize, size), top + size + TOP_FOOT_SIZE;
    var news := Resized(segs, e - segs[0].base);
    EndsApart(keys, keys', segs, direct, e);
    forall i | 0 <= i < |news|
      ensures SegAt(keys', ds, news[i])
      ensures i > 0 ==> Retired(ds, news[i])
    {
      MoveFootSeg(keys, keys', cs, top, topsize, size, segs, direct, msp, i);
    }
    MoveFootNoCross(keys, cs, top, topsize, size, segs, msp, e);
    MoveFootRecs(cs, top, topsize, size, segs, e - segs[0].base);
  }

  lemma MoveFootRecs(cs: Chunks, top: int, topsize: int, size: int, segs: seq<Seg>, segsize: int)
    requires SizesOK(cs) && TopIs(cs, top, topsize) && FootFits(cs, top, topsize, size) && RecsOwned(cs, segs) &&
      segs != []
    ensures RecsOwned(MoveFoot(cs, top, topsize, size), Resized(segs, segsize))
  {
    hide MoveFoot, FootFits, SizesOK;
    var ds, news := MoveFoot(cs, top, topsize, size), Resized(segs, segsize);
    MoveFootAt(cs, top, topsize, size);
    forall a | a in ds && ds[a].kind.Rec?
      ensures Owned(news, a)
    {
      assert Stays(cs, ds, top, topsize, size, a);
      var i :| 1 <= i < |segs| && segs[i].rec == a + 16;
      assert news[i].rec == a + 16;
    }
  }

  lemma EndsApart(keys: set<int>, keys': set<int>, segs: seq<Seg>, direct: map<int, int>, e: int)
    requires segs != [] && EndsAt(keys, keys', segs, direct, e) && SegsApart(segs)
    ensures SegsApart(Resized(segs, e - segs[0].base))
    ensures forall i | 1 <= i < |segs| :: SegEnd(segs[i]) <= segs[0].base || e <= segs[i].base
  {
  }

  lemma MoveFootSeg(keys: set<int>, keys': set<int>, cs: Chunks, top: int, topsize: int, size: int, segs: seq<Seg>,
      direct: map<int, int>, msp: int, i: int)
    requires ShapeInv(keys, cs, top, topsize, segs, direct, msp) && FootFits(cs, top, topsize, size) && 0 <= i < |segs|
    requires EndsAt(keys, keys', segs, direct, top + size + TOP_FOOT_SIZE)
    ensures var ds := MoveFoot(cs, top, topsize, size);
      var news := Resized(segs, top + size + TOP_FOOT_SIZE - segs[0].base);
      SegAt(keys', ds, news[i]) && (i > 0 ==> Retired(ds, news[i]))
  {
    hide RecsOwned, Linked, Preceded, Apart, DirectOK, MoveFoot, Mapped, NoCross, FootFits, EndsAt, SegAt, Retired;
    hide SegsApart;
    var ds := MoveFoot(cs, top, topsize, size);
    MoveFootAt(cs, top, topsize, size);
    BaseStays(keys, cs, ds, top, topsize, size, segs, msp, i);
    FootFitsEnd(cs, top, topsize, size);
    if i > 0 {
      OtherSeg(keys, keys', cs, ds, top, topsize, size, segs, direct, msp, i);
    } else {
      FirstSeg(keys, keys', cs, ds, segs, direct, top + size + TOP_FOOT_SIZE, top);
    }
  }

  lemma FirstSeg(keys: set<int>, keys': set<int>, cs: Chunks, ds: Chunks, segs: seq<Seg>, direct: map<int, int>,
      e: int, top: int)
    requires segs != [] && SegAt(keys, cs, segs[0]) && EndsAt(keys, keys', segs, direct, e) &&
      segs[0].base <= top < e <= ADDRESS_LIMIT
    requires segs[0].base in ds && ds[segs[0].base].pin
    ensures SegAt(keys', ds, Resized(segs, e - segs[0].base)[0])
  {
  }

  lemma OtherSeg(keys: set<int>, keys': set<int>, cs: Chunks, ds: Chunks, top: int, topsize: int, size: int,
      segs: seq<Seg>, direct: map<int, int>, msp: int, i: int)
    requires size > 0 && SegsOK(keys, cs, segs, msp, top, topsize) && TopIs(cs, top, topsize) && 0 < i < |segs| &&
      EndsAt(keys, keys', segs, direct, top + size + TOP_FOOT_SIZE)
    requires segs[i].base in ds && ds[segs[i].base].pin
    requires forall a | a in cs && a != top && a != top + topsize :: Stays(cs, ds, top, topsize, size, a)
    ensures SegAt(keys', ds, segs[i]) && Retired(ds, segs[i])
  {
    hide RecsOwned, NoCross;
    assert SegAt(keys, cs, segs[i]);
    assert SegEnd(segs[0]) <= segs[i].base || SegEnd(segs[i]) <= segs[0].base;
    assert Retired(cs, segs[i]);
    assert Stays(cs, ds, top, topsize, size, segs[i].rec - 16);
  }

  lemma FootFitsEnd(cs: Chunks, top: int, topsize: int, size: int)
    requires FootFits(cs, top, topsize, size)
    ensures size > 0 && top + size + TOP_FOOT_SIZE <= ADDRESS_LIMIT
  {
  }

  /** The base of a segment is the top chunk or a chunk that stays. */
  lemma BaseStays(keys: set<int>, cs: Chunks, ds: Chunks, top: int, topsize: int, size: int, segs: seq<Seg>, msp: int,
      i: int)
    requires TopIs(cs, top, topsize) && SegsOK(keys, cs, segs, msp, top, topsize) && 0 <= i < |segs| && top in ds &&
      ds[top].pin == cs[top].pin
    requires forall a | a in cs && a != top && a != top + topsize :: Stays(cs, ds, top, topsize, size, a)
    ensures segs[i].base in ds && ds[segs[i].base].pin
  {
    assert SegAt(keys, cs, segs[i]);
    var b := segs[i].base;
    assert b == top || Stays(cs, ds, top, topsize, size, b);
  }

  lemma MoveFootNoCross(keys: set<int>, cs: Chunks, top: int, topsize: int, size: int, segs: seq<Seg>, msp: int, e: int)
    requires Tiled(cs) && TopIs(cs, top, topsize) && FootFits(cs, top, topsize, size) &&
      SegsOK(keys, cs, segs, msp, top, topsize)
    requires e == top + size + TOP_FOOT_SIZE && forall i | 1 <= i < |segs| ::
      SegEnd(segs[i]) <= segs[0].base || e <= segs[i].base
    ensures NoCross(MoveFoot(cs, top, topsize, size), Resized(segs, e - segs[0].base))
  {
    hide RecsOwned, SizesOK, Linked, Preceded, MoveFoot, Apart, Retired, SegsApart;
    var ds, news := MoveFoot(cs, top, topsize, size), Resized(segs, e - segs[0].base);
    MoveFootAt(cs, top, topsize, size);
    forall i, a {:trigger news[i], Nxt(ds, a)} | 0 <= i < |news| && a in ds && !Ends(ds[a].kind)
      ensures Nxt(ds, a) != news[i].base
    {
      assert SegAt(keys, cs, segs[i]) && news[i].base == segs[i].base;
      if a != top {
        assert Stays(cs, ds, top, topsize, size, a);
        assert Nxt(ds, a) == Nxt(cs, a);
      }
    }
  }

  lemma MoveFootDirect(keys: set<int>, keys': set<int>, cs: Chunks, top: int, topsize: int, size: int, segs: seq<Seg>,
      direct: map<int, int>, msp: int)
    requires ShapeInv(keys, cs, top, topsize, segs, direct, msp) && FootFits(cs, top, topsize, size)
    requires EndsAt(keys, keys', segs, direct, top + size + TOP_FOOT_SIZE)
    ensures DirectOK(keys', MoveFoot(cs, top, topsize, size),
      Resized(segs, top + size + TOP_FOOT_SIZE - segs[0].base), direct)
  {
    hide RecsOwned, Tiled, Mapped, MoveFoot, SegAt, Retired, NoCross, SegsApart;
    var ds, e := MoveFoot(cs, top, topsize, size), top + size + TOP_FOOT_SIZE;
    var news := Resized(segs, e - segs[0].base);
    FootedAt(cs, top, topsize, size);
    forall p | p in direct
      ensures DirectAt(keys', p, direct[p]) && DirectAlone(ds, news, p, direct[p])
    {
      assert DirectAt(keys, p, direct[p]) && DirectAlone(cs, segs, p, direct[p]);
      forall a | a in ds
        ensures a + ds[a].size <= p || DirectEnd(p, direct[p]) <= a
      {
        assert a == top || a == top + size || Stays(cs, ds, top, topsize, size, a);
      }
    }
  }

  lemma FootedAt(cs: Chunks, top: int, topsize: int, size: int)
    requires Tiled(cs) && TopIs(cs, top, topsize) && FootFits(cs, top, topsize, size)
    ensures top in cs
    ensures var ds := MoveFoot(cs, top, topsize, size);
      && top in ds && ds[top].size == size && top + size in ds && ds[top + size].size == TOP_FOOT_SIZE
      && forall a | a in ds && a != top && a != top + size :: Stays(cs, ds, top, topsize, size, a)
  {
    MoveFootAt(cs, top, topsize, size);
  }

  ghost predicate SameOutside(m: Mem, n: Mem, lo: int, hi: int) {
    forall w | !(lo <= w < hi) :: Rd(n, w) == Rd(m, w)
  }

  /** The stores that give the current segment and the top chunk their new sizes. */
  function TopMoved(m: Mem, msp: int, top: int, size: int, segsize: int): Mem {
    m[SegField(msp) + 8 := segsize][top + HEAD := size + 1][top + size + HEAD := TOP_FOOT_SIZE]
  }

  /** The state with a top chunk of the given size, in memory m1 with the segment's new end. */
  ghost function TopView(v: View, m1: Mem, size: int): View
    requires v.top in v.chunks && v.segs != []
  {
    var segsize := v.top + size + TOP_FOOT_SIZE - v.segs[0].base;
    v.(mem := TopMoved(m1, v.msp, v.top, size, segsize), chunks := MoveFoot(v.chunks, v.top, v.topsize, size),
       topsize := size, segs := Resized(v.segs, segsize))
  }

  ghost predicate TopMoves(v: View, m1: Mem, size: int) {
    && v.top in v.chunks && v.segs != []
    && FootFits(v.chunks, v.top, v.topsize, size)
    && EndsAt(v.mem.Keys, m1.Keys, v.segs, v.direct, v.top + size + TOP_FOOT_SIZE)
    && SameOutside(v.mem, m1, v.top + size + TOP_FOOT_SIZE, v.top + v.topsize + TOP_FOOT_SIZE)
    && SegField(v.msp) + 8 in m1 && v.top + HEAD in m1 && v.top + size + HEAD in m1
  }

  lemma TopQuiet(v: View, m1: Mem, size: int, a: int, w: int)
    requires Tiled(v.chunks) && TopIs(v.chunks, v.top, v.topsize) && TopMoves(v, m1, size)
    requires a in v.chunks && a != v.top && a != v.top + v.topsize && a <= w < a + v.chunks[a].size + 8 &&
      w != SegField(v.msp) + 8
    ensures Rd(TopView(v, m1, size).mem, w) == Rd(v.mem, w)
  {
    hide Linked, Preceded, EndsAt, MoveFoot, SizesOK;
    assert ChunkOK(a, v.chunks[a]) by {
      SizeOf1(v.chunks, a);
    }
    OldSide(v.chunks, v.top, v.topsize, a);
  }

  lemma SizeOf1(cs: Chunks, a: int)
    requires Tiled(cs) && a in cs
    ensures ChunkOK(a, cs[a])
  {
  }

  lemma OffSegField(cs: Chunks, msp: int, a: int, w: int)
    requires Tiled(cs) && StateAt(cs, msp) && a in cs && a != msp && a <= w < a + cs[a].size + 8
    ensures w < msp + 8 || msp + STATE_SIZE <= w
  {
    assert ChunkOK(a, cs[a]);
  }

  lemma TopTagsMoved(v: View, m1: Mem, size: int)
    requires v.Laid() && Coalesced(v.chunks) && v.segs != [] && TopMoves(v, m1, size)
    ensures Tagged(TopView(v, m1, size).mem, MoveFoot(v.chunks, v.top, v.topsize, size))
  {
    hide Mapped, SegsOK, DirectOK, Recorded, AllDirectWords, MoveFoot, TopMoves, SizesOK, Apart, Linked, Preceded;
    hide TopView;
    var cs, n, ds := v.chunks, TopView(v, m1, size).mem, MoveFoot(v.chunks, v.top, v.topsize, size);
    MovesFits(v, m1, size);
    MoveFootAt(cs, v.top, v.topsize, size);
    TopHeads(v, m1, size);
    forall a | a in ds
      ensures Head(n, a) == HeadWord(ds[a])
      ensures ds[a].kind.Free? ==> PrevFoot(n, Nxt(ds, a)) == ds[a].size
    {
      if a != v.top && a != v.top + size {
        assert Stays(cs, ds, v.top, v.topsize, size, a);
        HeadsOff(v, a);
        TopQuiet(v, m1, size, a, a + 8);
        if cs[a].kind.Free? {
          assert Nxt(ds, a) == Nxt(cs, a);
          TopQuiet(v, m1, size, a, a + cs[a].size);
        }
      }
    }
  }

  lemma HeadsOff(v: View, a: int)
    requires Tiled(v.chunks) && StateAt(v.chunks, v.msp) && a in v.chunks
    ensures v.chunks[a].size >= 8 && a + 8 != SegField(v.msp) + 8
    ensures v.chunks[a].kind.Free? ==> a + v.chunks[a].size != SegField(v.msp) + 8
  {
    SizeOf1(v.chunks, a);
    if a != v.msp {
      OffSegField(v.chunks, v.msp, a, a + 8);
      OffSegField(v.chunks, v.msp, a, a + v.chunks[a].size);
    }
  }

  lemma MovesFits(v: View, m1: Mem, size: int)
    requires TopMoves(v, m1, size)
    ensures v.top in v.chunks && v.segs != [] && FootFits(v.chunks, v.top, v.topsize, size) && size > 0
    ensures EndsAt(v.mem.Keys, m1.Keys, v.segs, v.direct, v.top + size + TOP_FOOT_SIZE)
  {
  }

  lemma TopHeads(v: View, m1: Mem, size: int)
    requires Coalesced(v.chunks) && TopIs(v.chunks, v.top, v.topsize) && TopMoves(v, m1, size)
    ensures var n, ds := TopView(v, m1, size).mem, MoveFoot(v.chunks, v.top, v.topsize, size);
      && Head(n, v.top) == HeadWord(ds[v.top]) && Head(n, v.top + size) == HeadWord(ds[v.top + size])
  {
  }

  lemma TopRecords(v: View, m1: Mem, size: int)
    requires v.Laid() && TopMoves(v, m1, size)
    ensures Recorded(TopView(v, m1, size).mem, TopView(v, m1, size).segs)
  {
    hide RecsOwned, Mapped, DirectOK, AllDirectWords, MoveFoot, TopMoves, SizesOK, Apart, Linked, Preceded, TopView;
    hide NoCross, SegsApart, SegAt, Retired, Tagged, RecordAt, NextRec, Resized;
    var w := TopView(v, m1, size);
    MovesFits(v, m1, size);
    TopSegs(v, m1, size);
    forall i | 0 <= i < |w.segs|
      ensures RecordAt(w.mem, w.segs[i], NextRec(w.segs, i))
    {
      assert RecordAt(v.mem, v.segs[i], NextRec(v.segs, i));
      if i == 0 {
        FirstRecord(v, m1, size);
      } else {
        assert Retired(v.chunks, v.segs[i]);
        OtherRecord(v, m1, size, v.segs[i], NextRec(v.segs, i));
      }
    }
  }

  lemma TopSegs(v: View, m1: Mem, size: int)
    requires v.top in v.chunks && v.segs != []
    ensures var w := TopView(v, m1, size);
      && w.segs == Resized(v.segs, v.top + size + TOP_FOOT_SIZE - v.segs[0].base) && |w.segs| == |v.segs|
      && forall i | 0 <= i < |v.segs| :: NextRec(w.segs, i) == NextRec(v.segs, i) && (i > 0 ==> w.segs[i] == v.segs[i])
  {
  }

  lemma FirstRecord(v: View, m1: Mem, size: int)
    requires v.Laid() && TopMoves(v, m1, size) && RecordAt(v.mem, v.segs[0], NextRec(v.segs, 0))
    ensures RecordAt(TopView(v, m1, size).mem, TopView(v, m1, size).segs[0], NextRec(v.segs, 0))
  {
    hide RecsOwned, Mapped, DirectOK, AllDirectWords, MoveFoot, SizesOK, Linked, Preceded, NoCross, SegsApart, SegAt;
    hide Retired, Tagged, Recorded, EndsAt;
    SizeOf1(v.chunks, v.msp);
    OldSide(v.chunks, v.top, v.topsize, v.msp);
    assert v.segs[0].rec == SegField(v.msp);
  }

  lemma OtherRecord(v: View, m1: Mem, size: int, s: Seg, next: int)
    requires v.Laid() && v.segs != [] && TopMoves(v, m1, size) && Retired(v.chunks, s) && RecordAt(v.mem, s, next)
    ensures RecordAt(TopView(v, m1, size).mem, s, next)
  {
    hide Mapped, SegsOK, DirectOK, AllDirectWords, SizesOK, Linked, Preceded, Apart, Tagged, Recorded, TopMoves;
    hide TopView;
    var r := s.rec - 16;
    forall w | w in {s.rec, s.rec + 8, s.rec + 16}
      ensures Rd(TopView(v, m1, size).mem, w) == Rd(v.mem, w)
    {
      OffSegField(v.chunks, v.msp, r, w);
      TopQuiet(v, m1, size, r, w);
    }
  }

  /** Words of direct chunks are not touched. */
  lemma TopDirectQuiet(v: View, m1: Mem, size: int, p: int, w: int)
    requires v.Laid() && v.segs != [] && TopMoves(v, m1, size) && p in v.direct && p <= w < DirectEnd(p, v.direct[p])
    ensures Rd(TopView(v, m1, size).mem, w) == Rd(v.mem, w)
  {
    hide RecsOwned, Mapped, AllDirectWords, MoveFoot, SizesOK, Apart, Linked, Preceded, NoCross, SegsApart, Retired;
    hide Tagged, Recorded;
    assert DirectAlone(v.chunks, v.segs, p, v.direct[p]);
    assert SegAt(v.mem.Keys, v.chunks, v.segs[0]);
    assert v.msp in v.chunks;
  }

  lemma TopBodies(v: View, m1: Mem, size: int)
    requires v.Laid() && v.segs != [] && TopMoves(v, m1, size)
    ensures BodiesKept(v.mem, TopView(v, m1, size).mem, v.chunks, v.msp, {})
  {
    hide Mapped, SegsOK, DirectOK, AllDirectWords, MoveFoot, SizesOK, Apart, Linked, Preceded, Tagged, Recorded;
    hide TopMoves, TopView;
    forall w | v.msp + 88 <= w < v.msp + 600
      ensures Rd(TopView(v, m1, size).mem, w) == Rd(v.mem, w)
    {
      TopQuiet(v, m1, size, v.msp, w);
    }
    forall a, w | FreeAt(v.chunks, a) && a + 16 <= w < a + v.chunks[a].size
      ensures Rd(TopView(v, m1, size).mem, w) == Rd(v.mem, w)
    {
      OffSegField(v.chunks, v.msp, a, w);
      TopQuiet(v, m1, size, a, w);
    }
  }

  /** Chunks that are free or in use by the program are the same. */
  ghost predicate SameOccupied(cs: Chunks, ds: Chunks) {
    && (forall a :: FreeAt(ds, a) <==> FreeAt(cs, a))
    && (forall a | FreeAt(cs, a) :: a in ds && ds[a] == cs[a])
    && (forall a :: UsedSize(ds, a) == UsedSize(cs, a))
  }

  lemma TopFreeSame(v: View, size: int)
    requires v.Laid() && FootFits(v.chunks, v.top, v.topsize, size) && v.top in v.chunks
    ensures SameOccupied(v.chunks, MoveFoot(v.chunks, v.top, v.topsize, size))
  {
    hide Mapped, SegsOK, DirectOK, AllDirectWords, Apart, Linked, Preceded, Tagged, Recorded, MoveFoot, FootFits;
    var cs, ds := v.chunks, MoveFoot(v.chunks, v.top, v.topsize, size);
    MoveFootAt(cs, v.top, v.topsize, size);
    forall a | a in cs || a in ds
      ensures a == v.top || a == v.top + size || a == v.top + v.topsize || Stays(cs, ds, v.top, v.topsize, size, a)
    {
    }
    StrangeFoot(v, size);
  }

  /** The new foot is no old chunk but maybe the old foot. */
  lemma StrangeFoot(v: View, size: int)
    requires v.Laid() && FootFits(v.chunks, v.top, v.topsize, size) && v.top in v.chunks
    ensures v.top + size in v.chunks ==> size == v.topsize
    ensures v.top + v.topsize in MoveFoot(v.chunks, v.top, v.topsize, size) ==> size == v.topsize
    ensures v.chunks[v.top].kind.Top? && v.top + v.topsize in v.chunks && v.chunks[v.top + v.topsize].kind.Foot?
  {
    hide Mapped, SegsOK, DirectOK, AllDirectWords, Linked, Preceded, Tagged, Recorded;
    SizeOf1(v.chunks, v.top);
    if v.top + size in v.chunks {
      SizeOf1(v.chunks, v.top + size);
    }
  }

  lemma TopStillCoalesced(v: View, size: int)
    requires v.Laid() && Coalesced(v.chunks) && FootFits(v.chunks, v.top, v.topsize, size) && v.top in v.chunks
    ensures Coalesced(MoveFoot(v.chunks, v.top, v.topsize, size))
  {
    hide Mapped, SegsOK, DirectOK, AllDirectWords, Apart, Linked, Preceded, Tagged, Recorded, MoveFoot, FootFits;
    var cs, ds := v.chunks, MoveFoot(v.chunks, v.top, v.topsize, size);
    TopFreeSame(v, size);
    MoveFootAt(cs, v.top, v.topsize, size);
    forall a {:trigger Nxt(ds, a)} | a in ds && ds[a].kind.Free?
      ensures Nxt(ds, a) in ds && InUse(ds[Nxt(ds, a)].kind)
    {
      assert FreeAt(cs, a);
      var y := Nxt(cs, a);
      assert Nxt(ds, a) == y && y in cs && InUse(cs[y].kind);
      assert Stays(cs, ds, v.top, v.topsize, size, y);
    }
    forall a | a in ds && (ds[a].kind.Free? || ds[a].kind.Top?)
      ensures ds[a].pin
    {
      if a != v.top && a != v.top + size {
        assert Stays(cs, ds, v.top, v.topsize, size, a);
      }
    }
  }

  lemma TopKeeps(v: View, m1: Mem, size: int)
    requires v.Laid() && v.segs != [] && TopMoves(v, m1, size)
    ensures Keeps(v, TopView(v, m1, size), {})
  {
    hide View.Laid, MoveFoot, TopMoves, TopView;
    MovesFits(v, m1, size);
    TopFreeSame(v, size);
    TopSolid(v, size);
    forall p
      ensures BlockKept(v, TopView(v, m1, size), p)
    {
      TopBlock(v, m1, size, p);
    }
  }

  lemma TopSolid(v: View, size: int)
    requires v.Laid() && FootFits(v.chunks, v.top, v.topsize, size) && v.top in v.chunks
    ensures Solid(MoveFoot(v.chunks, v.top, v.topsize, size))
  {
    hide Mapped, SegsOK, DirectOK, AllDirectWords, Apart, Linked, Preceded, Tagged, Recorded, MoveFoot, FootFits;
    hide SizesOK, TopIs;
    MoveFootTiled(v.chunks, v.top, v.topsize, size);
    TiledSolid(MoveFoot(v.chunks, v.top, v.topsize, size));
  }

  lemma TopBlock(v: View, m1: Mem, size: int, p: int)
    requires v.Laid() && v.segs != [] && TopMoves(v, m1, size)
    requires UsedSize(MoveFoot(v.chunks, v.top, v.topsize, size), p - 16) == UsedSize(v.chunks, p - 16)
    requires forall a | a in MoveFoot(v.chunks, v.top, v.topsize, size) ::
      MoveFoot(v.chunks, v.top, v.topsize, size)[a].size > 0
    ensures BlockKept(v, TopView(v, m1, size), p)
  {
    hide Mapped, SegsOK, DirectOK, AllDirectWords, MoveFoot, SizesOK, Apart, Linked, Preceded, Tagged, Recorded;
    hide TopMoves, TopView;
    var a, w := p - 16, TopView(v, m1, size);
    TiledSolid(v.chunks);
    TopViewIs(v, m1, size);
    if Usable(v, p) > 0 {
      UsableCases(v, p);
      forall x | p <= x < p + Usable(v, p)
        ensures Rd(w.mem, x) == Rd(v.mem, x)
      {
        if UsedSize(v.chunks, a) > 0 {
          OffSegField(v.chunks, v.msp, a, x);
          TopQuiet(v, m1, size, a, x);
        } else {
          TopDirectQuiet(v, m1, size, a, x);
        }
      }
    }
    UsableSame(v, w, p);
  }

  lemma UsableSame(v: View, w: View, p: int)
    requires UsedSize(w.chunks, p - 16) == UsedSize(v.chunks, p - 16) && w.direct == v.direct
    requires (forall a | a in v.chunks :: v.chunks[a].size > 0) && (forall a | a in w.chunks :: w.chunks[a].size > 0)
    ensures Usable(w, p) == Usable(v, p)
  {
  }

  lemma TopViewIs(v: View, m1: Mem, size: int)
    requires v.segs != [] && TopMoves(v, m1, size)
    ensures TopView(v, m1, size).chunks == MoveFoot(v.chunks, v.top, v.topsize, size)
    ensures TopView(v, m1, size) == v.(mem := TopView(v, m1, size).mem, chunks := TopView(v, m1, size).chunks,
      topsize := size, segs := TopView(v, m1, size).segs)
  {
  }

  lemma UsableCases(v: View, p: int)
    requires Usable(v, p) > 0
    ensures UsedSize(v.chunks, p - 16) > 0 || p - 16 in v.direct
    ensures if UsedSize(v.chunks,
      p - 16) > 0 then Usable(v, p) == v.chunks[p - 16].size - 8 else Usable(v, p) == v.direct[p - 16] - 16
  {
  }

  lemma TopDirects(v: View, m1: Mem, size: int)
    requires v.Laid() && v.segs != [] && TopMoves(v, m1, size)
    ensures AllDirectWords(TopView(v, m1, size).mem, v.direct)
  {
    hide Mapped, SegsOK, MoveFoot, SizesOK, Apart, Linked, Preceded, Tagged, Recorded, TopMoves, TopView, DirectAlone;
    hide TopIs, StateAt;
    MovesFits(v, m1, size);
    forall p | p in v.direct
      ensures DirectWords(TopView(v, m1, size).mem, p, v.direct[p])
    {
      assert DirectWords(v.mem, p, v.direct[p]) && DirectAt(v.mem.Keys, p, v.direct[p]);
      var s := v.direct[p];
      TopDirectQuiet(v, m1, size, p, p);
      TopDirectQuiet(v, m1, size, p, p + 8);
      TopDirectQuiet(v, m1, size, p, p + s + 8);
      TopDirectQuiet(v, m1, size, p, p + s + 16);
    }
  }

  /** The top chunk with a new end, in memory whose mapping has changed accordingly. */
  lemma TopResized(v: View, loose: set<int>, m1: Mem, size: int, w: View)
    requires v.Laid() && v.Binned(loose) && Coalesced(v.chunks) && v.segs != [] && TopMoves(v, m1, size) &&
      w == TopView(v, m1, size)
    ensures w.Laid() && w.Binned(loose) && Coalesced(w.chunks) && Keeps(v, w, {})
  {
    hide View.Binned, Tagged, Recorded, AllDirectWords, MoveFoot, TopMoves, BodiesKept, FreeStep, Keeps, Coalesced;
    hide Mapped, SegsOK, DirectOK;
    hide TopView, EndsAt, FootFits, SizesOK, Apart, Linked, Preceded;
    MovesFits(v, m1, size);
    TopViewIs(v, m1, size);
    TopSegs(v, m1, size);
    MoveFootShape(v.mem.Keys, m1.Keys, v.chunks, v.top, v.topsize, size, v.segs, v.direct, v.msp);
    assert w.mem.Keys == m1.Keys by {
      TopKeys(v, m1, size);
    }
    TopTagsMoved(v, m1, size);
    TopRecords(v, m1, size);
    TopDirects(v, m1, size);
    TopBodies(v, m1, size);
    TopFreeStep(v, loose, size);
    BinsRebuilt(v, w, {}, loose, loose);
    TopStillCoalesced(v, size);
    TopKeeps(v, m1, size);
  }

  lemma TopKeys(v: View, m1: Mem, size: int)
    requires v.segs != [] && TopMoves(v, m1, size)
    ensures TopView(v, m1, size).mem.Keys == m1.Keys
  {
  }

  lemma TopFreeStep(v: View, loose: set<int>, size: int)
    requires v.Laid() && v.Binned(loose) && FootFits(v.chunks, v.top, v.topsize, size) && v.top in v.chunks
    ensures FreeStep(v.chunks, MoveFoot(v.chunks, v.top, v.topsize, size), loose, loose)
  {
    hide View.Laid, View.Binned, MoveFoot, FootFits;
    TopFreeSame(v, size);
    LooseFree(v, loose);
  }
}
