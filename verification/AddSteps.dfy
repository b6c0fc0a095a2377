/** A new segment that takes the place of the current one. */
module AddSteps {
  import opened Memory
  import opened Layout
  import opened Bins
  import opened Segments
  import opened Steps
  import opened BinSteps
  import opened TagSteps
  import opened Blocks
  import opened SegSteps
  import opened DropSteps
  import opened TrimSteps

  /** Where the record of the old segment goes: behind the old top chunk, or in its place when that is too small to be a
      chunk. */
  function RecAt(top: int, topsize: int): int {
    if topsize < MIN_CHUNK_SIZE then top else top + topsize
  }

  /** The old top chunk becomes a free chunk and a record chunk, or a record chunk alone. */
  function Retire(cs: Chunks, top: int, topsize: int): Chunks
    requires top in cs
  {
    if topsize < MIN_CHUNK_SIZE then
      (cs - {top + topsize})[top := Chunk(topsize + TOP_FOOT_SIZE, Rec, cs[top].pin)]
    else
      cs[top := Chunk(topsize, Free, cs[top].pin)][top + topsize := Chunk(TOP_FOOT_SIZE, Rec, false)]
  }

  /** A new top chunk with its foot. */
  function AddTop(cs: Chunks, tbase: int, size: int): Chunks {
    cs[tbase := Chunk(size, Top, true)][tbase + size := Chunk(TOP_FOOT_SIZE, Foot, false)]
  }

  /** A chunk of the heap that neither step touches. */
  lemma RetireAt(cs: Chunks, top: int, topsize: int)
    requires TopIs(cs, top, topsize) && topsize > 0
    ensures var ds := Retire(cs, top, topsize); var r := RecAt(top, topsize);
      && r in ds && ds[r].kind.Rec? && ds[r].size == top + topsize + TOP_FOOT_SIZE - r
      && (r != top ==> top in ds && ds[top] == Chunk(topsize, Free, cs[top].pin) && !ds[r].pin) &&
        (r == top ==> ds[r].pin == cs[top].pin)
      && (forall a | a in ds && a != top && a != r :: a in cs && ds[a] == cs[a] && a != top + topsize)
      && (forall a | a in cs && a != top && a != top + topsize :: a in ds && ds[a] == cs[a])
  {
  }

  lemma RetireTiled(cs: Chunks, top: int, topsize: int)
    requires Tiled(cs) && TopIs(cs, top, topsize) && topsize % 8 == 0 && topsize > 0
    ensures Tiled(Retire(cs, top, topsize))
    ensures forall a | a in Retire(cs, top, topsize) ::
      !Retire(cs, top, topsize)[a].kind.Top? && !Retire(cs, top, topsize)[a].kind.Foot?
  {
    hide SizesOK, Apart, Linked, Preceded, Retire;
    RetireAt(cs, top, topsize);
    RetireSizes(cs, top, topsize);
    RetireApart(cs, top, topsize);
    RetireLinked(cs, top, topsize);
    RetirePreceded(cs, top, topsize);
  }

  lemma RetireSizes(cs: Chunks, top: int, topsize: int)
    requires SizesOK(cs) && TopIs(cs, top, topsize) && topsize % 8 == 0 && topsize > 0
    ensures SizesOK(Retire(cs, top, topsize))
  {
    hide Retire;
    RetireAt(cs, top, topsize);
    assert ChunkOK(top, cs[top]) && ChunkOK(top + topsize, cs[top + topsize]);
    var ds := Retire(cs, top, topsize);
    forall a | a in ds
      ensures ChunkOK(a, ds[a])
    {
      if a != top && a != RecAt(top, topsize) {
        assert ChunkOK(a, cs[a]);
      }
    }
  }

  lemma RetireApart(cs: Chunks, top: int, topsize: int)
    requires SizesOK(cs) && Apart(cs) && TopIs(cs, top, topsize) && topsize % 8 == 0 && topsize > 0
    ensures Apart(Retire(cs, top, topsize))
  {
    hide Retire, SizesOK;
    RetireAt(cs, top, topsize);
    var ds := Retire(cs, top, topsize);
    forall a, b | a in ds && b in ds && a < b
      ensures a + ds[a].size <= b
    {
      if a == top && RecAt(top, topsize) == top {
        assert top + cs[top].size <= b;
      }
    }
  }

  lemma RetireLinked(cs: Chunks, top: int, topsize: int)
    requires Tiled(cs) && TopIs(cs, top, topsize) && topsize > 0
    ensures Linked(Retire(cs, top, topsize))
  {
    hide Retire, SizesOK, Apart, Preceded;
    RetireAt(cs, top, topsize);
    var ds := Retire(cs, top, topsize);
    forall a {:trigger Nxt(ds, a)} | a in ds && !Ends(ds[a].kind)
      ensures Nxt(ds, a) in ds && ds[Nxt(ds, a)].pin == InUse(ds[a].kind)
    {
      if a != top {
        assert Nxt(ds, a) == Nxt(cs, a);
        NextNotFoot(cs, top, topsize, a);
      }
    }
  }

  lemma RetirePreceded(cs: Chunks, top: int, topsize: int)
    requires Tiled(cs) && TopIs(cs, top, topsize) && topsize > 0
    ensures Preceded(Retire(cs, top, topsize))
  {
    hide Retire, SizesOK, Apart, Linked;
    RetireAt(cs, top, topsize);
    var ds := Retire(cs, top, topsize);
    forall a | a in ds && !ds[a].pin
      ensures exists b :: b in ds && !Ends(ds[b].kind) && Nxt(ds, b) == a
    {
      if a == top + topsize {
        assert Nxt(ds, top) == a;
      } else {
        var b :| b in cs && !Ends(cs[b].kind) && Nxt(cs, b) == a;
        assert b != top && Nxt(ds, b) == a;
      }
    }
  }

  // ----- adding chunks in fresh memory -----

  ghost predicate AwayFrom(cs: Chunks, a: int, n: int) {
    forall c | c in cs :: c + cs[c].size <= a || a + n <= c
  }

  lemma AddTopTiled(cs: Chunks, tbase: int, size: int)
    requires Tiled(cs) && AwayFrom(cs, tbase, size + TOP_FOOT_SIZE) && 0 < tbase && tbase % 8 == 0 && size % 8 == 0 &&
      size > 0
    requires tbase + size + TOP_FOOT_SIZE <= ADDRESS_LIMIT
    requires forall a | a in cs :: !cs[a].kind.Top? && !cs[a].kind.Foot?
    ensures Tiled(AddTop(cs, tbase, size)) && TopIs(AddTop(cs, tbase, size), tbase, size)
    ensures tbase !in cs && tbase + size !in cs
  {
    hide Linked, Preceded, SizesOK, Apart;
    AddTopFresh(cs, tbase, size);
    AddTopSizes(cs, tbase, size);
    AddTopApart(cs, tbase, size);
    AddTopLinked(cs, tbase, size);
  }

  lemma AddTopFresh(cs: Chunks, tbase: int, size: int)
    requires SizesOK(cs) && AwayFrom(cs, tbase, size + TOP_FOOT_SIZE) && size > 0
    ensures tbase !in cs && tbase + size !in cs
  {
    assert forall a | a in cs :: ChunkOK(a, cs[a]);
  }

  lemma AddTopSizes(cs: Chunks, tbase: int, size: int)
    requires SizesOK(cs) && 0 < tbase && tbase % 8 == 0 && size % 8 == 0 && size > 0 &&
      tbase + size + TOP_FOOT_SIZE <= ADDRESS_LIMIT
    ensures SizesOK(AddTop(cs, tbase, size))
  {
    var ds := AddTop(cs, tbase, size);
    assert ChunkOK(tbase, ds[tbase]) && ChunkOK(tbase + size, ds[tbase + size]);
    forall a | a in ds
      ensures ChunkOK(a, ds[a])
    {
      if a != tbase && a != tbase + size {
        assert ChunkOK(a, cs[a]);
      }
    }
  }

  lemma SolidSizes(cs: Chunks)
    requires SizesOK(cs)
    ensures forall a | a in cs :: ChunkOK(a, cs[a])
  {
  }

  lemma AddTopApart(cs: Chunks, tbase: int, size: int)
    requires Apart(cs) && AwayFrom(cs, tbase, size + TOP_FOOT_SIZE) && size > 0 && SizesOK(cs)
    ensures Apart(AddTop(cs, tbase, size))
  {
    hide SizesOK;
    var ds := AddTop(cs, tbase, size);
    SolidSizes(cs);
    forall a, b | a in ds && b in ds && a < b
      ensures a + ds[a].size <= b
    {
      assert a == tbase || a == tbase + size || (a in cs && ds[a] == cs[a] && ChunkOK(a, cs[a]));
      assert b == tbase || b == tbase + size || (b in cs && ChunkOK(b, cs[b]));
    }
  }

  lemma AddTopLinked(cs: Chunks, tbase: int, size: int)
    requires Linked(cs) && Preceded(cs) && tbase !in cs && tbase + size !in cs && size > 0
    ensures Linked(AddTop(cs, tbase, size)) && Preceded(AddTop(cs, tbase, size))
  {
    var ds := AddTop(cs, tbase, size);
    assert Nxt(ds, tbase) == tbase + size;
    forall a {:trigger Nxt(ds, a)} | a in ds && !Ends(ds[a].kind)
      ensures Nxt(ds, a) in ds && ds[Nxt(ds, a)].pin == InUse(ds[a].kind)
    {
      if a != tbase {
        assert Nxt(ds, a) == Nxt(cs, a);
      }
    }
    forall a | a in ds && !ds[a].pin
      ensures exists b :: b in ds && !Ends(ds[b].kind) && Nxt(ds, b) == a
    {
      if a == tbase + size {
        assert Nxt(ds, tbase) == a;
      } else {
        var b :| b in cs && !Ends(cs[b].kind) && Nxt(cs, b) == a;
        assert Nxt(ds, b) == a;
      }
    }
  }

  // ----- the shape of the heap with the new segment -----

  ghost function Added(v: View, tbase: int, tsize: int): Chunks
    requires v.top in v.chunks
  {
    AddTop(Retire(v.chunks, v.top, v.topsize), tbase, tsize - TOP_FOOT_SIZE)
  }

  ghost function AddedSegs(v: View, tbase: int, tsize: int): seq<Seg>
    requires v.segs != []
  {
    [Seg(tbase, tsize, SegField(v.msp))] + [v.segs[0].(rec := RecAt(v.top, v.topsize) + 16)] + v.segs[1..]
  }

  /** A new segment of tsize bytes at fresh address tbase. */
  ghost predicate NewSeg(v: View, tbase: int, tsize: int) {
    v.Laid() && v.segs != [] && v.top in v.chunks && FreshAt(v.mem, tbase, tsize) && tsize % GRANULARITY == 0
  }

  lemma NewSegFacts(v: View, tbase: int, tsize: int)
    requires NewSeg(v, tbase, tsize)
    ensures 0 < tbase && tbase % 8 == 0 && tsize % 8 == 0 && tsize >= GRANULARITY && tbase + tsize <= ADDRESS_LIMIT
    ensures ClearOfHeap(v.chunks, v.segs, v.direct, tbase, tsize) && Unmapped(v.mem, tbase, tsize)
    ensures v.topsize > 0 && v.topsize % 8 == 0 && SegEnd(v.segs[0]) == v.top + v.topsize + TOP_FOOT_SIZE &&
      v.segs[0].base <= v.top && v.segs[0].rec == SegField(v.msp)
  {
    hide View.Laid;
    FreshClear(v, tbase, tsize);
    PageAligned(tbase);
    MultipleOfEight(tsize);
    UnitAtLeast(tsize);
    TopHeld(v, 0);
    FirstRec(v);
  }

  lemma UnitAtLeast(n: int)
    requires n > 0 && n % GRANULARITY == 0
    ensures n >= GRANULARITY
  {
  }

  lemma AddedTiled(v: View, tbase: int, tsize: int)
    requires NewSeg(v, tbase, tsize)
    ensures var ds := Added(v, tbase, tsize); Tiled(ds) && TopIs(ds, tbase, tsize - TOP_FOOT_SIZE)
    ensures tbase !in v.chunks && tbase + (tsize - TOP_FOOT_SIZE) !in v.chunks
  {
    hide SizesOK, Apart, Linked, Preceded, Mapped, SegsOK, DirectOK, Tagged, Recorded, AllDirectWords, Retire, AddTop;
    hide FreshAt, AwayFrom, ClearOfHeap, TopIs;
    NewSegFacts(v, tbase, tsize);
    RetireTiled(v.chunks, v.top, v.topsize);
    AddedAway(v, tbase, tsize);
    AddTopTiled(Retire(v.chunks, v.top, v.topsize), tbase, tsize - TOP_FOOT_SIZE);
    assert tsize - TOP_FOOT_SIZE + TOP_FOOT_SIZE == tsize;
    AddedFresh(v, tbase, tsize);
  }

  lemma AddedFresh(v: View, tbase: int, tsize: int)
    requires NewSeg(v, tbase, tsize) && ClearOfHeap(v.chunks, v.segs, v.direct, tbase, tsize) && tsize >= GRANULARITY
    ensures tbase !in v.chunks && tbase + (tsize - TOP_FOOT_SIZE) !in v.chunks
  {
    hide Apart, Linked, Preceded, Mapped, SegsOK, DirectOK, Tagged, Recorded, AllDirectWords, FreshAt;
    assert forall a | a in v.chunks :: ChunkOK(a, v.chunks[a]);
  }

  lemma AddedAway(v: View, tbase: int, tsize: int)
    requires NewSeg(v, tbase, tsize) && ClearOfHeap(v.chunks, v.segs, v.direct, tbase, tsize)
    ensures AwayFrom(Retire(v.chunks, v.top, v.topsize), tbase, tsize)
  {
    hide SizesOK, Apart, Linked, Preceded, Mapped, DirectOK, Tagged, Recorded, AllDirectWords, Retire, FreshAt;
    TopHeld(v, 0);
    RetireAt(v.chunks, v.top, v.topsize);
    var ds := Retire(v.chunks, v.top, v.topsize);
    ClearSeg(v, tbase, tsize, 0);
    forall c | c in ds
      ensures c + ds[c].size <= tbase || tbase + tsize <= c
    {
      if c != v.top && c != RecAt(v.top, v.topsize) {
        ClearChunk(v, tbase, tsize, c);
      }
    }
  }

  lemma ClearSeg(v: View, b: int, n: int, i: int)
    requires ClearOfHeap(v.chunks, v.segs, v.direct, b, n) && 0 <= i < |v.segs|
    ensures SegEnd(v.segs[i]) <= b || b + n <= v.segs[i].base
  {
  }

  /** Chunks of the enlarged heap: old ones that stay, those that the old top chunk becomes, and the new top chunk with
      its foot at f. */
  ghost predicate NewParts(cs: Chunks, ds: Chunks, top: int, topsize: int, tbase: int, f: int) {
    var r := RecAt(top, topsize);
    && top in cs
    && r in ds && ds[r].kind.Rec? && ds[r].size == top + topsize + TOP_FOOT_SIZE - r &&
      ds[r].pin == (r == top && cs[top].pin)
    && (r != top ==> top in ds && ds[top] == Chunk(topsize, Free, cs[top].pin))
    && tbase in ds && ds[tbase] == Chunk(f - tbase, Top, true) && f in ds && ds[f] == Chunk(TOP_FOOT_SIZE, Foot, false)
    && (forall a | a in ds && a != top && a != r && a != tbase && a != f ::
      a in cs && ds[a] == cs[a] && a != top + topsize)
    && (forall a | a in cs && a != top && a != top + topsize :: a in ds && ds[a] == cs[a] && a != tbase && a != f)
  }

  lemma AddedAt(v: View, tbase: int, tsize: int)
    requires NewSeg(v, tbase, tsize)
    ensures NewParts(v.chunks, Added(v, tbase, tsize), v.top, v.topsize, tbase, tbase + (tsize - TOP_FOOT_SIZE))
  {
    hide SizesOK, Apart, Linked, Preceded, Mapped, SegsOK, DirectOK, Tagged, Recorded, AllDirectWords, Retire, FreshAt;
    NewSegFacts(v, tbase, tsize);
    AddedFresh(v, tbase, tsize);
    RetireAt(v.chunks, v.top, v.topsize);
    RecNotNew(v, tbase, tsize);
  }

  lemma RecNotNew(v: View, tbase: int, tsize: int)
    requires NewSeg(v, tbase, tsize)
    ensures var f := tbase + (tsize - TOP_FOOT_SIZE);
      v.top != tbase && v.top + v.topsize != tbase && v.top != f && v.top + v.topsize != f
  {
    hide View.Laid, FreshAt;
    NewSegFacts(v, tbase, tsize);
    ClearSeg(v, tbase, tsize, 0);
  }

  lemma AddedShape(v: View, tbase: int, tsize: int)
    requires NewSeg(v, tbase, tsize)
    ensures ShapeInv(MapIn(v.mem, tbase, tsize).Keys, Added(v, tbase, tsize), tbase, tsize - TOP_FOOT_SIZE,
      AddedSegs(v, tbase, tsize), v.direct, v.msp)
  {
    hide View.Laid, Tiled, Mapped, SegsOK, DirectOK, TopIs, Added, FreshAt, MapIn;
    AddedTiled(v, tbase, tsize);
    AddedMapped(v, tbase, tsize);
    AddedState(v, tbase, tsize);
    AddedSegsOK(v, tbase, tsize);
    AddedDirect(v, tbase, tsize);
  }

  lemma AddedState(v: View, tbase: int, tsize: int)
    requires NewSeg(v, tbase, tsize)
    ensures StateAt(Added(v, tbase, tsize), v.msp)
  {
    hide SizesOK, Apart, Linked, Preceded, Mapped, SegsOK, DirectOK, Tagged, Recorded, AllDirectWords, FreshAt, Added;
    AddedAt(v, tbase, tsize);
  }

  lemma AddedMapped(v: View, tbase: int, tsize: int)
    requires NewSeg(v, tbase, tsize)
    ensures Mapped(MapIn(v.mem, tbase, tsize).Keys, Added(v, tbase, tsize))
  {
    hide SizesOK, Apart, Linked, Preceded, SegsOK, DirectOK, Tagged, Recorded, AllDirectWords, FreshAt, Added, MapIn;
    hide TopIs, StateAt;
    AddedAt(v, tbase, tsize);
    NewSegFacts(v, tbase, tsize);
    MapInReads(v.mem, tbase, tsize);
    var ds, r, f := Added(v, tbase, tsize), RecAt(v.top, v.topsize), tbase + (tsize - TOP_FOOT_SIZE);
    OldTopMapped(v);
    forall a, w | a in ds && a <= w < a + ds[a].size
      ensures w in MapIn(v.mem, tbase, tsize).Keys
    {
      if a != v.top && a != r && a != tbase && a != f {
        assert w in v.mem.Keys;
      }
    }
  }

  lemma OldTopMapped(v: View)
    requires v.Laid()
    ensures forall w | v.top <= w < v.top + v.topsize + TOP_FOOT_SIZE :: w in v.mem
  {
    hide SizesOK, Apart, Linked, Preceded, SegsOK, DirectOK, Tagged, Recorded, AllDirectWords;
    forall w | v.top <= w < v.top + v.topsize + TOP_FOOT_SIZE
      ensures w in v.mem.Keys
    {
      var f := v.top + v.topsize;
      assert w < f ==> v.top <= w < v.top + v.chunks[v.top].size;
      assert w >= f ==> f <= w < f + v.chunks[f].size;
    }
  }

  lemma AddedSegsOK(v: View, tbase: int, tsize: int)
    requires NewSeg(v, tbase, tsize)
    ensures SegsOK(MapIn(v.mem, tbase, tsize).Keys, Added(v, tbase, tsize), AddedSegs(v, tbase, tsize), v.msp, tbase,
      tsize - TOP_FOOT_SIZE)
  {
    hide View.Laid, FreshAt, Added, MapIn, SegAt, Retired, NoCross, SegsApart, NewSeg, SegAt;
    NewSegLaid(v, tbase, tsize);
    var ds, ss, keys := Added(v, tbase, tsize), AddedSegs(v, tbase, tsize), MapIn(v.mem, tbase, tsize).Keys;
    AddedFirst(v, tbase, tsize);
    forall i | 1 <= i < |ss|
      ensures SegAt(keys, ds, ss[i]) && Retired(ds, ss[i])
    {
      if i == 1 {
        AddedSecond(v, tbase, tsize);
      } else {
        assert ss[i] == v.segs[i - 1];
        AddedOther(v, tbase, tsize, i - 1);
      }
    }
    AddedApart(v, tbase, tsize);
    AddedNoCross(v, tbase, tsize);
    AddedRecs(v, tbase, tsize);
  }

  lemma AddedRecs(v: View, tbase: int, tsize: int)
    requires NewSeg(v, tbase, tsize)
    ensures RecsOwned(Added(v, tbase, tsize), AddedSegs(v, tbase, tsize))
  {
    hide Tagged, Recorded, AllDirectWords, DirectOK, Mapped, Tiled, TopIs, StateAt, SegAt, Retired, NoCross;
    hide SegsApart, FreshAt, Added;
    AddedAt(v, tbase, tsize);
    var ds, ss := Added(v, tbase, tsize), AddedSegs(v, tbase, tsize);
    forall a | a in ds && ds[a].kind.Rec?
      ensures Owned(ss, a)
    {
      if a == RecAt(v.top, v.topsize) {
        assert ss[1].rec == a + 16;
      } else {
        assert Owned(v.segs, a);
        var j :| 1 <= j < |v.segs| && v.segs[j].rec == a + 16;
        assert ss[j + 1] == v.segs[j];
      }
    }
  }

  lemma NewSegLaid(v: View, tbase: int, tsize: int)
    requires NewSeg(v, tbase, tsize)
    ensures v.Laid() && v.segs != [] && v.top in v.chunks && FreshAt(v.mem, tbase, tsize) && tsize % GRANULARITY == 0
    ensures tbase % PAGE_SIZE == 0
  {
  }

  lemma AddedFirst(v: View, tbase: int, tsize: int)
    requires NewSeg(v, tbase, tsize)
    ensures SegAt(MapIn(v.mem, tbase, tsize).Keys, Added(v, tbase, tsize), Seg(tbase, tsize, SegField(v.msp)))
  {
    hide View.Laid, Added, MapIn;
    NewSegFacts(v, tbase, tsize);
    AddedAt(v, tbase, tsize);
    MapInReads(v.mem, tbase, tsize);
  }

  lemma AddedSecond(v: View, tbase: int, tsize: int)
    requires NewSeg(v, tbase, tsize)
    ensures var s := v.segs[0].(rec := RecAt(v.top, v.topsize) + 16);
      SegAt(MapIn(v.mem, tbase, tsize).Keys, Added(v, tbase, tsize), s) && Retired(Added(v, tbase, tsize), s)
  {
    hide RecsOwned, SizesOK, Apart, Linked, Preceded, Mapped, DirectOK, Tagged, Recorded, AllDirectWords, FreshAt;
    hide Added, MapIn, StateAt, NoCross, SegsApart, Retired;
    NewSegFacts(v, tbase, tsize);
    AddedAt(v, tbase, tsize);
    MapInReads(v.mem, tbase, tsize);
    var s := v.segs[0].(rec := RecAt(v.top, v.topsize) + 16);
    assert SegAt(v.mem.Keys, v.chunks, v.segs[0]);
    RetiredNow(v, tbase, tsize);
  }

  lemma RetiredNow(v: View, tbase: int, tsize: int)
    requires NewSeg(v, tbase, tsize)
    ensures Retired(Added(v, tbase, tsize), v.segs[0].(rec := RecAt(v.top, v.topsize) + 16))
  {
    hide View.Laid, FreshAt, Added, MapIn;
    NewSegFacts(v, tbase, tsize);
    AddedAt(v, tbase, tsize);
  }

  lemma AddedOther(v: View, tbase: int, tsize: int, i: int)
    requires NewSeg(v, tbase, tsize) && 1 <= i < |v.segs|
    ensures SegAt(MapIn(v.mem, tbase, tsize).Keys, Added(v, tbase, tsize), v.segs[i]) &&
      Retired(Added(v, tbase, tsize), v.segs[i])
  {
    hide RecsOwned, SizesOK, Apart, Linked, Preceded, Mapped, DirectOK, Tagged, Recorded, AllDirectWords, FreshAt;
    hide Added, MapIn, StateAt, NoCross, SegsApart;
    NewSegFacts(v, tbase, tsize);
    AddedAt(v, tbase, tsize);
    MapInReads(v.mem, tbase, tsize);
    TopHeld(v, i);
    assert SegAt(v.mem.Keys, v.chunks, v.segs[i]) && Retired(v.chunks, v.segs[i]);
  }

  lemma AddedApart(v: View, tbase: int, tsize: int)
    requires NewSeg(v, tbase, tsize)
    ensures SegsApart(AddedSegs(v, tbase, tsize))
  {
    hide RecsOwned, SizesOK, Apart, Linked, Preceded, Mapped, DirectOK, Tagged, Recorded, AllDirectWords, FreshAt;
    hide StateAt, NoCross, SegAt, Retired;
    NewSegFacts(v, tbase, tsize);
    var ss := AddedSegs(v, tbase, tsize);
    forall i, j | 0 <= i < j < |ss|
      ensures SegEnd(ss[i]) <= ss[j].base || SegEnd(ss[j]) <= ss[i].base
    {
      assert ss[j].base == v.segs[j - 1].base && SegEnd(ss[j]) == SegEnd(v.segs[j - 1]);
      if i == 0 {
        ClearSeg(v, tbase, tsize, j - 1);
      } else {
        assert ss[i].base == v.segs[i - 1].base && SegEnd(ss[i]) == SegEnd(v.segs[i - 1]);
      }
    }
  }

  lemma AddedNoCross(v: View, tbase: int, tsize: int)
    requires NewSeg(v, tbase, tsize)
    ensures NoCross(Added(v, tbase, tsize), AddedSegs(v, tbase, tsize))
  {
    hide RecsOwned, SizesOK, Apart, Preceded, Mapped, DirectOK, Tagged, Recorded, AllDirectWords, FreshAt, StateAt;
    hide Retired, Added, SegsApart, SegAt;
    NewSegFacts(v, tbase, tsize);
    AddedAt(v, tbase, tsize);
    AddedTiled(v, tbase, tsize);
    AddedFresh(v, tbase, tsize);
    var ds, ss, f := Added(v, tbase, tsize), AddedSegs(v, tbase, tsize), tbase + (tsize - TOP_FOOT_SIZE);
    forall i, a {:trigger ss[i], Nxt(ds, a)} | 0 <= i < |ss| && a in ds && !Ends(ds[a].kind)
      ensures Nxt(ds, a) != ss[i].base
    {
      AddedBase(v, tbase, tsize, i);
      if a == tbase {
        assert Nxt(ds, a) == f;
      } else if a == v.top {
        assert Nxt(ds, a) == v.top + v.topsize;
      } else {
        assert Nxt(ds, a) == Nxt(v.chunks, a) && Nxt(v.chunks, a) in v.chunks;
        if i > 0 {
          assert Nxt(v.chunks, a) != v.segs[i - 1].base;
        }
      }
    }
  }

  /** No segment begins at the end of a top chunk. */
  lemma AddedBase(v: View, tbase: int, tsize: int, i: int)
    requires NewSeg(v, tbase, tsize) && 0 <= i < |AddedSegs(v, tbase, tsize)|
    ensures var ss := AddedSegs(v, tbase, tsize);
      ss[i].base != tbase + (tsize - TOP_FOOT_SIZE) && ss[i].base != v.top + v.topsize &&
        (i > 0 ==> ss[i].base == v.segs[i - 1].base)
  {
    hide View.Laid, FreshAt;
    NewSegFacts(v, tbase, tsize);
    RecNotNew(v, tbase, tsize);
    if i > 0 {
      ClearSeg(v, tbase, tsize, i - 1);
      SegLook(v, i - 1);
      OldBase(v, i - 1);
    }
  }

  lemma OldBase(v: View, i: int)
    requires v.Laid() && 0 <= i < |v.segs|
    ensures v.segs[i].base != v.top + v.topsize
  {
    hide RecsOwned, SizesOK, Apart, Linked, Preceded, Mapped, DirectOK, Tagged, Recorded, AllDirectWords, Retired;
    hide SegsApart, SegAt;
    TopHeld(v, i);
    assert Nxt(v.chunks, v.top) != v.segs[i].base;
  }

  lemma AddedDirect(v: View, tbase: int, tsize: int)
    requires NewSeg(v, tbase, tsize)
    ensures DirectOK(MapIn(v.mem, tbase, tsize).Keys, Added(v, tbase, tsize), AddedSegs(v, tbase, tsize), v.direct)
  {
    hide RecsOwned, SizesOK, Apart, Linked, Preceded, Mapped, Tagged, Recorded, AllDirectWords, FreshAt, Added, MapIn;
    hide StateAt, NoCross, SegsApart, SegAt, Retired, DirectAt, DirectAlone;
    forall p | p in v.direct
      ensures DirectAt(MapIn(v.mem, tbase, tsize).Keys, p, v.direct[p]) &&
        DirectAlone(Added(v, tbase, tsize), AddedSegs(v, tbase, tsize), p, v.direct[p])
    {
      AddedOneDirect(v, tbase, tsize, p);
    }
  }

  lemma AddedOneDirect(v: View, tbase: int, tsize: int, p: int)
    requires NewSeg(v, tbase, tsize) && p in v.direct
    ensures DirectAt(MapIn(v.mem, tbase, tsize).Keys, p, v.direct[p]) &&
      DirectAlone(Added(v, tbase, tsize), AddedSegs(v, tbase, tsize), p, v.direct[p])
  {
    hide RecsOwned, Tiled, Mapped, Tagged, Recorded, AllDirectWords, FreshAt, Added, MapIn, StateAt, NoCross;
    hide SegsApart, SegAt, Retired, AddedSegs, NewParts;
    NewSegFacts(v, tbase, tsize);
    MapInReads(v.mem, tbase, tsize);
    assert DirectAt(v.mem.Keys, p, v.direct[p]) && DirectAlone(v.chunks, v.segs, p, v.direct[p]);
    ClearDirect(v, tbase, tsize, p);
    AddedBesides(v, tbase, tsize, p, DirectEnd(p, v.direct[p]));
    SegsBesides(v, tbase, tsize, p, DirectEnd(p, v.direct[p]));
  }

  /** A range that is off all old chunks and segments and off the new one is off all new chunks. */
  lemma AddedBesides(v: View, tbase: int, tsize: int, b: int, e: int)
    requires NewSeg(v, tbase, tsize) && (e <= tbase || tbase + tsize <= b) &&
      (SegEnd(v.segs[0]) <= b || e <= v.segs[0].base)
    requires forall a | a in v.chunks :: a + v.chunks[a].size <= b || e <= a
    ensures forall a | a in Added(v, tbase, tsize) :: a + Added(v, tbase, tsize)[a].size <= b || e <= a
  {
    hide View.Laid, FreshAt, Added;
    NewSegFacts(v, tbase, tsize);
    AddedAt(v, tbase, tsize);
  }

  lemma SegsBesides(v: View, tbase: int, tsize: int, b: int, e: int)
    requires NewSeg(v, tbase, tsize) && (e <= tbase || tbase + tsize <= b)
    requires forall i | 0 <= i < |v.segs| :: SegEnd(v.segs[i]) <= b || e <= v.segs[i].base
    ensures forall i | 0 <= i < |AddedSegs(v, tbase, tsize)| ::
      SegEnd(AddedSegs(v, tbase, tsize)[i]) <= b || e <= AddedSegs(v, tbase, tsize)[i].base
  {
    hide View.Laid, FreshAt, Added;
    var ss := AddedSegs(v, tbase, tsize);
    forall i | 0 <= i < |ss|
      ensures SegEnd(ss[i]) <= b || e <= ss[i].base
    {
      if i > 0 {
        assert ss[i].base == v.segs[i - 1].base && SegEnd(ss[i]) == SegEnd(v.segs[i - 1]);
      }
    }
  }

  lemma ClearDirect(v: View, b: int, n: int, p: int)
    requires ClearOfHeap(v.chunks, v.segs, v.direct, b, n) && p in v.direct
    ensures DirectEnd(p, v.direct[p]) <= b || b + n <= p
  {
  }

  // ----- memory with the new segment -----

  /** The words stored to outside the old top chunk. */
  ghost function AddedStores(v: View, tbase: int, tsize: int): set<int> {
    {SegField(v.msp), SegField(v.msp) + 8, SegField(v.msp) + 16, tbase + HEAD, tbase + (tsize - TOP_FOOT_SIZE) + HEAD}
  }

  ghost predicate AddedWords(v: View, n: Mem, tbase: int, tsize: int)
    requires v.segs != []
  {
    var r, f := RecAt(v.top, v.topsize), tbase + (tsize - TOP_FOOT_SIZE);
    && n.Keys == MapIn(v.mem, tbase, tsize).Keys
    && ChangesOnly(v.mem, n, v.top + 8, v.top + v.topsize + TOP_FOOT_SIZE, AddedStores(v, tbase, tsize))
    && Head(n, tbase) == tsize - TOP_FOOT_SIZE + 1 && Head(n, f) == TOP_FOOT_SIZE
    && Rd(n, SegField(v.msp)) == tbase && Rd(n, SegField(v.msp) + 8) == tsize && Rd(n, SegField(v.msp) + 16) == r + 16
    && Rd(n, r + 16) == v.segs[0].base && Rd(n, r + 24) == v.segs[0].size && Rd(n, r + 32) == NextRec(v.segs, 0)
    && Head(n, r) == 34 + (if r == v.top then 1 else 0)
    && (r != v.top ==> Head(n, v.top) == v.topsize + 1 && Rd(n, r) == v.topsize)
  }

  lemma StoresAside(v: View, tbase: int, tsize: int)
    requires NewSeg(v, tbase, tsize)
    ensures forall w | w in AddedStores(v, tbase, tsize) :: DataWord(v, w) && NotUser(v, w)
    ensures forall w, j | w in AddedStores(v, tbase, tsize) && 1 <= j < |v.segs| :: !RecWord(v.segs, j, w)
  {
    hide FreshAt, View.Laid, DataWord, NotUser, RecWord;
    NewSegFacts(v, tbase, tsize);
    StateWords(v);
    FreshAside(v, tbase, tsize, tbase + HEAD);
    FreshAside(v, tbase, tsize, tbase + (tsize - TOP_FOOT_SIZE) + HEAD);
  }

  lemma StateWords(v: View)
    requires v.Laid() && v.segs != []
    ensures forall w | w in {SegField(v.msp), SegField(v.msp) + 8, SegField(v.msp) + 16} ::
      DataWord(v, w) && NotUser(v, w)
    ensures forall w, j | w in {SegField(v.msp), SegField(v.msp) + 8, SegField(v.msp) + 16} && 1 <= j < |v.segs| ::
      !RecWord(v.segs, j, w)
  {
    hide View.Laid, DataWord, NotUser;
    FirstRec(v);
    var s := {SegField(v.msp), SegField(v.msp) + 8, SegField(v.msp) + 16};
    assert forall w | w in s :: RecWord(v.segs, 0, w);
    RecWordsData(v, s);
    RecWordsNotUser(v, s);
    forall w, j | w in s && 1 <= j < |v.segs|
      ensures !RecWord(v.segs, j, w)
    {
      RecsApart(v, 0, j, w);
    }
  }

  lemma FreshAside(v: View, tbase: int, tsize: int, w: int)
    requires v.Laid() && ClearOfHeap(v.chunks, v.segs, v.direct, tbase, tsize) && Unmapped(v.mem, tbase, tsize) &&
      tbase + 8 <= w < tbase + tsize
    ensures DataWord(v, w) && NotUser(v, w)
    ensures forall j | 0 <= j < |v.segs| :: !RecWord(v.segs, j, w)
  {
    hide Linked, Preceded, Mapped, SegsOK, DirectOK, Tagged, Recorded, AllDirectWords, Apart, RecWord;
    assert forall a | a in v.chunks :: ChunkOK(a, v.chunks[a]);
    forall j | 0 <= j < |v.segs|
      ensures !RecWord(v.segs, j, w)
    {
      if RecWord(v.segs, j, w) {
        RecWordIn(v, j, w);
      }
    }
  }

  /** Old chunks other than the top chunk and its foot lie off the old top chunk's words. */
  lemma OldOff(v: View, a: int)
    requires v.Laid() && a in v.chunks && a != v.top && a != v.top + v.topsize
    ensures Off(v.chunks, v.top + 8, v.top + v.topsize + TOP_FOOT_SIZE, a)
  {
    hide Preceded, Mapped, SegsOK, DirectOK, Tagged, Recorded, AllDirectWords, Apart, SizesOK;
    SideOfTop(v, a);
    if !Ends(v.chunks[a].kind) {
      NextNotFoot(v.chunks, v.top, v.topsize, a);
      var y := Nxt(v.chunks, a);
      if y != v.top {
        SideOfTop(v, y);
      }
    }
  }

  lemma AddedTagged(v: View, n: Mem, tbase: int, tsize: int)
    requires NewSeg(v, tbase, tsize) && Coalesced(v.chunks) && AddedWords(v, n, tbase, tsize)
    ensures Tagged(n, Added(v, tbase, tsize))
  {
    hide FreshAt, View.Laid, DataWord, NotUser, RecWord, Added, ChangesOnly, Off;
    NewSegFacts(v, tbase, tsize);
    AddedAt(v, tbase, tsize);
    StoresAside(v, tbase, tsize);
    var ds, r, f := Added(v, tbase, tsize), RecAt(v.top, v.topsize), tbase + (tsize - TOP_FOOT_SIZE);
    assert v.chunks[v.top].pin by {
      TopKind(v);
    }
    forall a | a in ds
      ensures Head(n, a) == HeadWord(ds[a])
      ensures ds[a].kind.Free? ==> PrevFoot(n, Nxt(ds, a)) == ds[a].size
    {
      if a != v.top && a != r && a != tbase && a != f {
        OldOff(v, a);
        TagsOff(v, n, v.top + 8, v.top + v.topsize + TOP_FOOT_SIZE, AddedStores(v, tbase, tsize), a);
        assert Nxt(ds, a) == Nxt(v.chunks, a);
      }
    }
  }

  lemma AddedRecorded(v: View, n: Mem, tbase: int, tsize: int)
    requires NewSeg(v, tbase, tsize) && AddedWords(v, n, tbase, tsize)
    ensures Recorded(n, AddedSegs(v, tbase, tsize))
  {
    hide FreshAt, View.Laid, DataWord, NotUser, RecWord, Added, ChangesOnly, Off, RecHome;
    NewSegFacts(v, tbase, tsize);
    StoresAside(v, tbase, tsize);
    var ss := AddedSegs(v, tbase, tsize);
    forall i | 0 <= i < |ss|
      ensures RecordAt(n, ss[i], NextRec(ss, i))
    {
      if i >= 2 {
        assert ss[i] == v.segs[i - 1] && NextRec(ss, i) == NextRec(v.segs, i - 1);
        OldRecOff(v, i - 1);
        RecordOff(v, n, v.top + 8, v.top + v.topsize + TOP_FOOT_SIZE, AddedStores(v, tbase, tsize), i - 1);
      } else if i == 1 {
        assert NextRec(ss, 1) == NextRec(v.segs, 0);
      }
    }
  }

  lemma OldRecOff(v: View, j: int)
    requires v.Laid() && 1 <= j < |v.segs|
    ensures RecHome(v.segs, j, v.msp) in v.chunks &&
      Off(v.chunks, v.top + 8, v.top + v.topsize + TOP_FOOT_SIZE, RecHome(v.segs, j, v.msp))
  {
    hide RecsOwned, SizesOK, Apart, Linked, Preceded, Mapped, DirectOK, Tagged, Recorded, AllDirectWords, SegAt;
    hide NoCross, SegsApart;
    assert Retired(v.chunks, v.segs[j]);
    OldOff(v, v.segs[j].rec - 16);
  }

  lemma AddedCoalesced(v: View, tbase: int, tsize: int)
    requires NewSeg(v, tbase, tsize) && Coalesced(v.chunks)
    ensures Coalesced(Added(v, tbase, tsize))
  {
    hide SizesOK, Apart, Linked, Preceded, Mapped, DirectOK, Tagged, Recorded, AllDirectWords, SegsOK, FreshAt, Added;
    AddedAt(v, tbase, tsize);
    var ds, r, f := Added(v, tbase, tsize), RecAt(v.top, v.topsize), tbase + (tsize - TOP_FOOT_SIZE);
    forall a {:trigger Nxt(ds, a)} | a in ds && ds[a].kind.Free?
      ensures Nxt(ds, a) in ds && InUse(ds[Nxt(ds, a)].kind)
    {
      if a != v.top {
        var y := Nxt(v.chunks, a);
        assert Nxt(ds, a) == y && y in v.chunks && InUse(v.chunks[y].kind);
      }
    }
  }

  ghost function AddedLoose(v: View): set<int> {
    if RecAt(v.top, v.topsize) != v.top then {v.top} else {}
  }

  lemma AddedFree(v: View, tbase: int, tsize: int)
    requires NewSeg(v, tbase, tsize)
    ensures FreeStep(v.chunks, Added(v, tbase, tsize), {}, AddedLoose(v))
    ensures forall a :: UsedSize(Added(v, tbase, tsize), a) == UsedSize(v.chunks, a)
  {
    hide SizesOK, Apart, Linked, Preceded, Mapped, DirectOK, Tagged, Recorded, AllDirectWords, SegsOK, FreshAt, Added;
    AddedAt(v, tbase, tsize);
    NewNotOld(v, tbase, tsize);
  }

  lemma NewNotOld(v: View, tbase: int, tsize: int)
    requires NewSeg(v, tbase, tsize)
    ensures tbase !in v.chunks && tbase + (tsize - TOP_FOOT_SIZE) !in v.chunks
  {
    hide View.Laid, FreshAt;
    NewSegFacts(v, tbase, tsize);
    AddedFresh(v, tbase, tsize);
  }

  /** The state with the new segment. */
  ghost function AddedView(v: View, n: Mem, tbase: int, tsize: int): View
    requires v.top in v.chunks && v.segs != []
  {
    v.(mem := n, chunks := Added(v, tbase, tsize), top := tbase, topsize := tsize - TOP_FOOT_SIZE,
      segs := AddedSegs(v, tbase, tsize))
  }

  lemma AddedBodies(v: View, n: Mem, tbase: int, tsize: int)
    requires NewSeg(v, tbase, tsize) && AddedWords(v, n, tbase, tsize)
    ensures BodiesKept(v.mem, n, v.chunks, v.msp, {})
  {
    hide View.Laid, FreshAt, BodiesKept, Off, ChangesOnly, DataWord, NotUser;
    StoresAside(v, tbase, tsize);
    TopKind(v);
    StateEnd(v);
    OldFoot(v);
    forall a | FreeAt(v.chunks, a) || a == v.msp
      ensures Off(v.chunks, v.top + 8, v.top + v.topsize + TOP_FOOT_SIZE, a)
    {
      OldOff(v, a);
    }
    BodiesOff(v, n, v.top + 8, v.top + v.topsize + TOP_FOOT_SIZE, AddedStores(v, tbase, tsize), {});
  }

  lemma OldFoot(v: View)
    requires v.Laid()
    ensures v.top + v.topsize in v.chunks && v.chunks[v.top + v.topsize].kind.Foot?
  {
    hide Tagged, Recorded, AllDirectWords, Mapped, SegsOK, DirectOK, Tiled, StateAt;
  }

  lemma AddedDirectsOff(v: View, n: Mem, tbase: int, tsize: int)
    requires NewSeg(v, tbase, tsize) && AddedWords(v, n, tbase, tsize)
    ensures forall p, w | p in v.direct && p <= w < DirectEnd(p, v.direct[p]) :: Rd(n, w) == Rd(v.mem, w)
    ensures AllDirectWords(n, v.direct)
  {
    hide FreshAt, Tagged, Recorded, Mapped, TopIs, Linked, Preceded, SizesOK, Apart, Off, ChangesOnly, DataWord;
    hide NotUser, SegsOK;
    NewSegFacts(v, tbase, tsize);
    StoresAside(v, tbase, tsize);
    forall p | p in v.direct
      ensures DirectEnd(p, v.direct[p]) <= v.top + 8 || v.top + v.topsize + TOP_FOOT_SIZE <= p
    {
      assert DirectAlone(v.chunks, v.segs, p, v.direct[p]);
      assert SegEnd(v.segs[0]) <= p || DirectEnd(p, v.direct[p]) <= v.segs[0].base;
    }
    DirectsOff(v, n, v.top + 8, v.top + v.topsize + TOP_FOOT_SIZE, AddedStores(v, tbase, tsize));
  }

  lemma AddedKeeps(v: View, n: Mem, tbase: int, tsize: int)
    requires NewSeg(v, tbase, tsize) && AddedWords(v, n, tbase, tsize) &&
      (forall a | a in Added(v, tbase, tsize) :: Added(v, tbase, tsize)[a].size > 0)
    ensures Keeps(v, AddedView(v, n, tbase, tsize), {})
  {
    hide View.Laid, FreshAt, Off, ChangesOnly, DataWord, NotUser, Added;
    NewSegLaid(v, tbase, tsize);
    var w := AddedView(v, n, tbase, tsize);
    AddedFree(v, tbase, tsize);
    AddedDirectsOff(v, n, tbase, tsize);
    StoresAside(v, tbase, tsize);
    OldSolid(v);
    TopKind(v);
    OldFoot(v);
    SizeEven8(v);
    forall p
      ensures BlockKept(v, w, p)
    {
      if p - 16 in v.chunks && v.chunks[p - 16].kind.Used? {
        OldOff(v, p - 16);
        BlocksOff(v, n, v.top + 8, v.top + v.topsize + TOP_FOOT_SIZE, AddedStores(v, tbase, tsize), p - 16);
      }
      UsableSame(v, w, p);
    }
  }

  lemma OldSolid(v: View)
    requires v.Laid()
    ensures forall a | a in v.chunks :: v.chunks[a].size > 0
  {
    TiledSolid(v.chunks);
  }

  lemma SizeEven8(v: View)
    requires v.Laid()
    ensures (v.top + 8) % 8 == 0
  {
    hide Tagged, Recorded, Mapped, Linked, Preceded, Apart, SegsOK, DirectOK, AllDirectWords;
    assert ChunkOK(v.top, v.chunks[v.top]);
  }

  /** The new segment is in place; the old top chunk is loose unless it became a record. */
  lemma AddedDone(v: View, n: Mem, tbase: int, tsize: int)
    requires NewSeg(v, tbase, tsize) && v.Binned({}) && Coalesced(v.chunks) && AddedWords(v, n, tbase, tsize)
    ensures var w := AddedView(v, n, tbase, tsize);
      w.Laid() && w.Binned(AddedLoose(v)) && Coalesced(w.chunks) && Keeps(v, w, {})
    ensures RecAt(v.top, v.topsize) != v.top ==>
      v.top in Added(v, tbase, tsize) && Added(v, tbase, tsize)[v.top].size == v.topsize
  {
    hide Tagged, Recorded, AllDirectWords, Coalesced, ShapeInv, View.Binned, Keeps, BodiesKept, FreeStep, Added;
    hide ChangesOnly, FreshAt;
    NewSegLaid(v, tbase, tsize);
    var w := AddedView(v, n, tbase, tsize);
    AddedShape(v, tbase, tsize);
    AddedTagged(v, n, tbase, tsize);
    AddedRecorded(v, n, tbase, tsize);
    AddedDirectsOff(v, n, tbase, tsize);
    AddedBodies(v, n, tbase, tsize);
    AddedFree(v, tbase, tsize);
    BinsRebuilt(v, w, {}, {}, AddedLoose(v));
    AddedCoalesced(v, tbase, tsize);
    AddedTiled(v, tbase, tsize);
    TiledSolid(Added(v, tbase, tsize));
    AddedKeeps(v, n, tbase, tsize);
    AddedAt(v, tbase, tsize);
  }

  // ----- the stores of `add_segment` -----

  /** `align_as_chunk` of the raw place for the record. */
  lemma RecPlace(oldEnd: int)
    requires oldEnd % 8 == 0
    ensures var raw := oldEnd - 71; raw + AlignOffset(raw + 16) == oldEnd - 64
  {
  }

  /** The stores up to the fenceposts: the new top chunk, the head of the record chunk, and both records. */
  function RecStores(m1: Mem, msp: int, tbase: int, tsize: int, r: int, base: int, size: int, next: int): Mem {
    m1[tbase + HEAD := tsize - TOP_FOOT_SIZE + 1][tbase + (tsize - TOP_FOOT_SIZE) + HEAD := TOP_FOOT_SIZE]
      [r + HEAD := 35][r + 16 := base][r + 24 := size][r + 32 := next]
      [SegField(msp) := tbase][SegField(msp) + 8 := tsize][SegField(msp) + 16 := r + 16]
  }

  /** All words that `add_segment` stores to are mapped. */
  ghost predicate RecMapped(v: View, m1: Mem, tbase: int, tsize: int)
  {
    var r := RecAt(v.top, v.topsize);
    && tbase + HEAD in m1 && tbase + (tsize - TOP_FOOT_SIZE) + HEAD in m1 && SegField(v.msp) in m1 &&
      SegField(v.msp) + 8 in m1 && SegField(v.msp) + 16 in m1
    && (forall w | v.top <= w < v.top + v.topsize + TOP_FOOT_SIZE :: w in m1)
  }

  lemma RecReady(v: View, tbase: int, tsize: int)
    requires NewSeg(v, tbase, tsize)
    ensures RecMapped(v, MapIn(v.mem, tbase, tsize), tbase, tsize) && AlignOffset(tbase + 16) == 0
    ensures RecAt(v.top, v.topsize) >= v.top &&
      RecAt(v.top, v.topsize) + TOP_FOOT_SIZE <= v.top + v.topsize + TOP_FOOT_SIZE
  {
    hide View.Laid, MapIn, FreshAt;
    NewSegFacts(v, tbase, tsize);
    MapInReads(v.mem, tbase, tsize);
    OldTopMapped(v);
    SegLook(v, 0);
  }

  /** The state words, the new top chunk and the old top chunk are apart. */
  lemma RecPlaces(v: View, tbase: int, tsize: int)
    requires NewSeg(v, tbase, tsize)
    ensures var e := v.top + v.topsize + TOP_FOOT_SIZE;
      && (SegField(v.msp) + 16 < v.top + 8 || e <= SegField(v.msp))
      && (tbase + tsize <= v.top || e <= tbase)
      && (SegField(v.msp) + 16 < tbase + 8 || tbase + tsize <= SegField(v.msp))
  {
    hide View.Laid, FreshAt;
    NewSegFacts(v, tbase, tsize);
    ClearSeg(v, tbase, tsize, 0);
    StateEnd(v);
    ClearChunk(v, tbase, tsize, v.msp);
    TopKind(v);
    OldFoot(v);
    SideOfTop(v, v.msp);
  }

  /** The stores on plain addresses: heads at a and b, state words from f on, the record chunk at r in the old top chunk
      [top, e). */
  lemma RecStoresAt(m2: Mem, n3: Mem, n4: Mem, top: int, topsize: int, r: int, e: int, f: int, a: int, b: int)
    requires top <= r && r + 64 <= e && (r == top || r >= top + 32) && a < b && (b < top || e <= a) &&
      (f + 16 < top + 8 || e <= f) && (f + 16 < a || b < f)
    requires (forall w | !(r + 40 <= w < e) :: Rd(n3, w) == Rd(m2, w)) && r + HEAD in n3 && top + HEAD in n3 && r in n3
    requires n4 == if r == top then n3 else n3[r + HEAD := 34][top + HEAD := topsize + 1][r := topsize]
    ensures n4.Keys == n3.Keys
    ensures forall w | w in {a, b, f, f + 8, f + 16, r + 16, r + 24, r + 32} :: Rd(n4, w) == Rd(m2, w)
    ensures Rd(n4, r + HEAD) == if r == top then Rd(m2, r + HEAD) else 34
    ensures r != top ==> Rd(n4, top + HEAD) == topsize + 1 && Rd(n4, r) == topsize
    ensures forall w | !(top + 8 <= w < e) :: Rd(n4, w) == Rd(m2, w)
  {
  }

  lemma FirstStoresAt(m1: Mem, m2: Mem, x: int, y: int, r: int, base: int, size: int, next: int, f: int, a: int,
      b: int, u: int, z: int)
    requires a < b && (b < r || r + 40 <= a) && (f + 16 < r + 8 || r + 40 <= f) && (f + 16 < a || b < f)
    requires m2 == m1[a := x][b := y][r + HEAD := 35][r + 16 := base][r + 24 := size][r + 32 := next][f := u][f + 8 :=
      z][f + 16 := r + 16]
    ensures Rd(m2, a) == x && Rd(m2, b) == y && Rd(m2, f) == u && Rd(m2, f + 8) == z && Rd(m2, f + 16) == r + 16
    ensures Rd(m2, r + HEAD) == 35 && Rd(m2, r + 16) == base && Rd(m2, r + 24) == size && Rd(m2, r + 32) == next
    ensures forall w | !(r + 8 <= w < r + 40) && w !in {a, b, f, f + 8, f + 16} :: Rd(m2, w) == Rd(m1, w)
  {
  }

  lemma WordsAre(v: View, n: Mem, tbase: int, tsize: int, r: int, a: int, b: int, f: int)
    requires v.segs != [] && r == RecAt(v.top, v.topsize) && a == tbase + HEAD &&
      b == tbase + (tsize - TOP_FOOT_SIZE) + HEAD && f == SegField(v.msp)
    requires n.Keys == MapIn(v.mem, tbase, tsize).Keys
    requires Rd(n, a) == tsize - TOP_FOOT_SIZE + 1 && Rd(n, b) == TOP_FOOT_SIZE && Rd(n, f) == tbase &&
      Rd(n, f + 8) == tsize && Rd(n, f + 16) == r + 16
    requires Rd(n, r + 16) == v.segs[0].base && Rd(n, r + 24) == v.segs[0].size && Rd(n, r + 32) == NextRec(v.segs, 0)
    requires Rd(n, r + HEAD) == if r == v.top then 35 else 34
    requires r != v.top ==> Rd(n, v.top + HEAD) == v.topsize + 1 && Rd(n, r) == v.topsize
    requires forall w | !(v.top + 8 <= w < v.top + v.topsize + TOP_FOOT_SIZE) && w !in {a, b, f, f + 8, f + 16} ::
      Rd(n, w) == Rd(v.mem, w)
    ensures AddedWords(v, n, tbase, tsize)
  {
    hide MapIn, NextRec;
    assert AddedStores(v, tbase, tsize) == {a, b, f, f + 8, f + 16};
  }

  /** With the fenceposts n3 and the tags of the rest of the old top chunk n4. */
  lemma RecStoresOK(v: View, tbase: int, tsize: int, n3: Mem, n4: Mem)
    requires NewSeg(v, tbase, tsize) && v.segs != []
    requires var r := RecAt(v.top, v.topsize); var e := v.top + v.topsize + TOP_FOOT_SIZE;
      var m2 := RecStores(MapIn(v.mem, tbase, tsize), v.msp, tbase, tsize, r, v.segs[0].base, v.segs[0].size,
        NextRec(v.segs, 0));
      && (forall w | !(r + 40 <= w < e) :: Rd(n3, w) == Rd(m2, w)) && n3.Keys == MapIn(v.mem, tbase, tsize).Keys
      && n4 == (if r == v.top then n3 else n3[r + HEAD := 34][v.top + HEAD := v.topsize + 1][r := v.topsize])
      && r + HEAD in n3 && v.top + HEAD in n3 && r in n3
    ensures AddedWords(v, n4, tbase, tsize)
  {
    hide View.Laid, FreshAt, MapIn, NextRec, AddedWords, NewSeg, Rd;
    NewSegLaid(v, tbase, tsize);
    NewSegFacts(v, tbase, tsize);
    RecPlaces(v, tbase, tsize);
    MapInReads(v.mem, tbase, tsize);
    var r, e, f, a, b := RecAt(v.top, v.topsize), v.top + v.topsize + TOP_FOOT_SIZE, SegField(v.msp), tbase + HEAD,
      tbase + (tsize - TOP_FOOT_SIZE) + HEAD;
    var m1 := MapIn(v.mem, tbase, tsize);
    var m2 := RecStores(m1, v.msp, tbase, tsize, r, v.segs[0].base, v.segs[0].size, NextRec(v.segs, 0));
    FirstStoresAt(m1, m2, tsize - TOP_FOOT_SIZE + 1, TOP_FOOT_SIZE, r, v.segs[0].base, v.segs[0].size,
      NextRec(v.segs, 0), f, a, b, tbase, tsize);
    RecStoresAt(m2, n3, n4, v.top, v.topsize, r, e, f, a, b);
    forall w | !(v.top + 8 <= w < e) && w !in {a, b, f, f + 8, f + 16}
      ensures Rd(n4, w) == Rd(v.mem, w)
    {
      assert Rd(n4, w) == Rd(m2, w) && Rd(m2, w) == Rd(m1, w) && Rd(m1, w) == Rd(v.mem, w);
    }
    WordsAre(v, n4, tbase, tsize, r, a, b, f);
  }

  /** The operands of the first stores. */
  lemma PushReady(v: View, tbase: int, tsize: int)
    requires NewSeg(v, tbase, tsize) && v.segs != []
    ensures var m1 := MapIn(v.mem, tbase, tsize); var r := RecAt(v.top, v.topsize); var f := SegField(v.msp);
      && tbase + HEAD in m1 && tbase + (tsize - TOP_FOOT_SIZE) + HEAD in m1 && f in m1 && f + 8 in m1 && f + 16 in m1
      && r + HEAD in m1 && r + 16 in m1 && r + 24 in m1 && r + 32 in m1 && AlignOffset(tbase + 16) == 0 &&
        (r + 32 < f || f + 16 < r + 16)
    ensures var r, f := RecAt(v.top, v.topsize), SegField(v.msp);
      var m := MapIn(v.mem, tbase,
        tsize)[tbase + HEAD := tsize - TOP_FOOT_SIZE + 1][tbase + (tsize - TOP_FOOT_SIZE) + HEAD :=
          TOP_FOOT_SIZE][r + HEAD := 35];
      Rd(m, f) == v.segs[0].base && Rd(m, f + 8) == v.segs[0].size && Rd(m, f + 16) == NextRec(v.segs, 0)
  {
    hide View.Laid, MapIn, NextRec, FreshAt;
    NewSegLaid(v, tbase, tsize);
    NewSegFacts(v, tbase, tsize);
    RecReady(v, tbase, tsize);
    RecPlaces(v, tbase, tsize);
    MapInReads(v.mem, tbase, tsize);
    SegLook(v, 0);
    ApartReads(MapIn(v.mem, tbase, tsize), tbase + HEAD, tbase + (tsize - TOP_FOOT_SIZE) + HEAD,
      RecAt(v.top, v.topsize) + HEAD, tsize - TOP_FOOT_SIZE + 1, SegField(v.msp));
  }

  lemma ApartReads(m: Mem, a: int, b: int, h: int, x: int, f: int)
    requires a < b && (f + 16 < a || b < f) && (f + 16 < h || h < f)
    ensures var n := m[a := x][b := TOP_FOOT_SIZE][h := 35];
      Rd(n, f) == Rd(m, f) && Rd(n, f + 8) == Rd(m, f + 8) && Rd(n, f + 16) == Rd(m, f + 16)
  {
  }

  lemma TopHeldFirst(v: View, i: int)
    requires v.Laid() && 0 <= i <= |v.segs| && (forall j | 0 <= j < i :: !Holds(v.segs[j], v.top)) &&
      (i < |v.segs| ==> Holds(v.segs[i], v.top))
    ensures i == 0 && |v.segs| > 0
  {
    hide View.Laid;
    FirstRec(v);
    TopHeld(v, 0);
  }

  lemma RecHead35(m2: Mem, v: View, tbase: int, tsize: int)
    requires NewSeg(v, tbase, tsize) && v.segs != []
    requires m2 == RecStores(MapIn(v.mem, tbase, tsize), v.msp, tbase, tsize, RecAt(v.top, v.topsize), v.segs[0].base,
      v.segs[0].size, NextRec(v.segs, 0))
    ensures Head(m2, RecAt(v.top, v.topsize)) == 35
  {
    hide View.Laid, MapIn, FreshAt, NextRec;
    NewSegFacts(v, tbase, tsize);
    RecPlaces(v, tbase, tsize);
    var r, f, a, b := RecAt(v.top, v.topsize), SegField(v.msp), tbase + HEAD, tbase + (tsize - TOP_FOOT_SIZE) + HEAD;
    FirstStoresAt(MapIn(v.mem, tbase, tsize), m2, tsize - TOP_FOOT_SIZE + 1, TOP_FOOT_SIZE, r, v.segs[0].base,
      v.segs[0].size, NextRec(v.segs, 0), f, a, b, tbase, tsize);
  }

  lemma FreshLaid(v: View, a: int, n: int)
    requires v.Laid() && FreshAt(v.mem, a, n)
    ensures v.(mem := MapIn(v.mem, a, n)).Laid()
  {
    hide View.Laid;
    MapInLaid(v, a, n);
  }

  lemma AddedSize(v: View)
    ensures RecAt(v.top, v.topsize) != v.top ==> RecAt(v.top, v.topsize) == v.top + v.topsize
  {
  }
}
