/** A segment extended downwards by memory mapped right in front of it. */
module PrependSteps {
  import opened Memory
  import opened Layout
  import opened Bins
  import opened Segments
  import opened BinSteps
  import opened TagSteps
  import opened BestFit
  import opened Blocks
  import opened FreeSteps
  import opened SegSteps
  import opened DropSteps
  import opened TrimSteps
  import opened AddSteps

  /** Two chunks in use that fill tsize bytes at tbase. */
  function TwoUsed(cs: Chunks, tbase: int, nb: int, tsize: int): Chunks {
    cs[tbase := Chunk(nb, Used, true)][tbase + nb := Chunk(tsize - nb, Used, true)]
  }

  /** Segment i begins where the tsize bytes at tbase end, which are mapped but hold nothing yet. */
  ghost predicate Prepends(v: View, i: int, tbase: int, tsize: int, nb: int) {
    && v.Laid() && 0 <= i < |v.segs| && v.segs[i].base == tbase + tsize
    && 0 < tbase && tbase % PAGE_SIZE == 0 && tsize % GRANULARITY == 0 && nb % 8 == 0 &&
      MIN_CHUNK_SIZE <= nb <= tsize - MIN_CHUNK_SIZE
    && ClearOfHeap(v.chunks, v.segs, v.direct, tbase, tsize) && (forall w | tbase <= w < tbase + tsize :: w in v.mem)
  }

  lemma PrependFacts(v: View, i: int, tbase: int, tsize: int, nb: int)
    requires Prepends(v, i, tbase, tsize, nb)
    ensures v.Laid() && 0 <= i < |v.segs| && 0 < tbase && tbase % 8 == 0 && tsize % 8 == 0 &&
      tbase + tsize <= ADDRESS_LIMIT && MIN_CHUNK_SIZE <= nb <= tsize - MIN_CHUNK_SIZE
    ensures ClearOfHeap(v.chunks, v.segs, v.direct, tbase, tsize) && v.segs[i].base == tbase + tsize && nb % 8 == 0
    ensures tbase + tsize in v.chunks && v.chunks[tbase + tsize].pin && tbase !in v.chunks && tbase + nb !in v.chunks
  {
    hide View.Laid;
    PageAligned(tbase);
    MultipleOfEight(tsize);
    PrependBase(v, i);
    if tbase in v.chunks {
      ChunkPositive(v, tbase);
    }
    if tbase + nb in v.chunks {
      ChunkPositive(v, tbase + nb);
    }
  }

  lemma PrependBase(v: View, i: int)
    requires v.Laid() && 0 <= i < |v.segs|
    ensures v.segs[i].base in v.chunks && v.chunks[v.segs[i].base].pin && v.segs[i].base <= ADDRESS_LIMIT &&
      v.segs[i].size > 0
  {
    hide RecsOwned, Tiled, Tagged, DirectOK, Recorded, AllDirectWords, SegsApart, NoCross, Retired, Mapped;
    assert SegAt(v.mem.Keys, v.chunks, v.segs[i]);
  }

  lemma TwoUsedTiled(cs: Chunks, tbase: int, nb: int, tsize: int)
    requires Tiled(cs) && AwayFrom(cs, tbase, tsize) && 0 < tbase && tbase % 8 == 0 && nb % 8 == 0 && tsize % 8 == 0
    requires MIN_CHUNK_SIZE <= nb <= tsize - MIN_CHUNK_SIZE && tbase + tsize <= ADDRESS_LIMIT
    requires tbase + tsize in cs && cs[tbase + tsize].pin && tbase !in cs && tbase + nb !in cs
    ensures Tiled(TwoUsed(cs, tbase, nb, tsize))
  {
    hide SizesOK, Apart, Linked, Preceded, TwoUsed;
    TwoUsedSizes(cs, tbase, nb, tsize);
    TwoUsedLinked(cs, tbase, nb, tsize);
    TwoUsedPreceded(cs, tbase, nb, tsize);
  }

  lemma TwoUsedSizes(cs: Chunks, tbase: int, nb: int, tsize: int)
    requires Tiled(cs) && AwayFrom(cs, tbase, tsize) && 0 < tbase && tbase % 8 == 0 && nb % 8 == 0 && tsize % 8 == 0
    requires MIN_CHUNK_SIZE <= nb <= tsize - MIN_CHUNK_SIZE && tbase + tsize <= ADDRESS_LIMIT
    ensures SizesOK(TwoUsed(cs, tbase, nb, tsize)) && Apart(TwoUsed(cs, tbase, nb, tsize))
  {
    hide Linked, Preceded;
    var ds, q := TwoUsed(cs, tbase, nb, tsize), tbase + nb;
    assert ChunkOK(tbase, ds[tbase]) && ChunkOK(q, ds[q]);
    forall a | a in ds
      ensures ChunkOK(a, ds[a])
    {
      if a != tbase && a != q {
        assert ChunkOK(a, cs[a]);
      }
    }
    forall a, b | a in ds && b in ds && a < b
      ensures a + ds[a].size <= b
    {
      assert a == tbase || a == q || (a in cs && ds[a] == cs[a] && ChunkOK(a, cs[a]));
      assert b == tbase || b == q || (b in cs && ChunkOK(b, cs[b]));
    }
  }

  lemma TwoUsedLinked(cs: Chunks, tbase: int, nb: int, tsize: int)
    requires Linked(cs) && nb > 0 && tbase + tsize in cs && cs[tbase + tsize].pin && tbase !in cs && tbase + nb !in cs
    ensures Linked(TwoUsed(cs, tbase, nb, tsize))
  {
    var ds := TwoUsed(cs, tbase, nb, tsize);
    assert Nxt(ds, tbase) == tbase + nb && Nxt(ds, tbase + nb) == tbase + tsize;
    forall a {:trigger Nxt(ds, a)} | a in ds && !Ends(ds[a].kind)
      ensures Nxt(ds, a) in ds && ds[Nxt(ds, a)].pin == InUse(ds[a].kind)
    {
      if a != tbase && a != tbase + nb {
        assert Nxt(ds, a) == Nxt(cs, a);
      }
    }
  }

  lemma TwoUsedPreceded(cs: Chunks, tbase: int, nb: int, tsize: int)
    requires Preceded(cs) && tbase !in cs && tbase + nb !in cs
    ensures Preceded(TwoUsed(cs, tbase, nb, tsize))
  {
    var ds := TwoUsed(cs, tbase, nb, tsize);
    forall a | a in ds && !ds[a].pin
      ensures exists b :: b in ds && !Ends(ds[b].kind) && Nxt(ds, b) == a
    {
      var b :| b in cs && !Ends(cs[b].kind) && Nxt(cs, b) == a;
      assert Nxt(ds, b) == a;
    }
  }

  // ----- the shape -----

  function Lowered(segs: seq<Seg>, i: int, tbase: int, tsize: int): seq<Seg>
    requires 0 <= i < |segs|
  {
    segs[i := segs[i].(base := tbase, size := segs[i].size + tsize)]
  }

  lemma LoweredShape(v: View, i: int, tbase: int, tsize: int, nb: int)
    requires Prepends(v, i, tbase, tsize, nb)
    ensures ShapeInv(v.mem.Keys, TwoUsed(v.chunks, tbase, nb, tsize), v.top, v.topsize,
      Lowered(v.segs, i, tbase, tsize), v.direct, v.msp)
  {
    hide Tagged, Recorded, AllDirectWords, Mapped, SegsOK, DirectOK, SizesOK, Apart, Linked, Preceded, TwoUsed;
    hide Prepends;
    PrependFacts(v, i, tbase, tsize, nb);
    PrependAlign(v, i, tbase, tsize, nb);
    TwoUsedTiled(v.chunks, tbase, nb, tsize);
    LoweredMapped(v, i, tbase, tsize, nb);
    LoweredTop(v, i, tbase, tsize, nb);
    LoweredSegs(v, i, tbase, tsize, nb);
    LoweredDirect(v, i, tbase, tsize, nb);
  }

  lemma PrependAlign(v: View, i: int, tbase: int, tsize: int, nb: int)
    requires Prepends(v, i, tbase, tsize, nb)
    ensures nb % 8 == 0 && AwayFrom(v.chunks, tbase, tsize)
  {
  }

  lemma LoweredMapped(v: View, i: int, tbase: int, tsize: int, nb: int)
    requires Prepends(v, i, tbase, tsize, nb)
    ensures Mapped(v.mem.Keys, TwoUsed(v.chunks, tbase, nb, tsize))
  {
    hide Tagged, Recorded, AllDirectWords, SegsOK, DirectOK, Tiled, TopIs, StateAt, ClearOfHeap;
  }

  lemma LoweredTop(v: View, i: int, tbase: int, tsize: int, nb: int)
    requires Prepends(v, i, tbase, tsize, nb)
    ensures var ds := TwoUsed(v.chunks, tbase, nb, tsize); TopIs(ds, v.top, v.topsize) && StateAt(ds, v.msp)
  {
    hide Tagged, Recorded, AllDirectWords, Mapped, SegsOK, DirectOK, SizesOK, Apart, Linked, Preceded, ClearOfHeap;
    PrependFacts(v, i, tbase, tsize, nb);
  }

  lemma LoweredSegs(v: View, i: int, tbase: int, tsize: int, nb: int)
    requires Prepends(v, i, tbase, tsize, nb)
    ensures SegsOK(v.mem.Keys, TwoUsed(v.chunks, tbase, nb, tsize), Lowered(v.segs, i, tbase, tsize), v.msp, v.top,
      v.topsize)
  {
    hide RecsOwned, Tagged, Recorded, AllDirectWords, Mapped, DirectOK, Tiled, TopIs, StateAt, ClearOfHeap, SegAt;
    hide Retired, NoCross, SegsApart, TwoUsed, Prepends;
    PrependFacts(v, i, tbase, tsize, nb);
    var ss := Lowered(v.segs, i, tbase, tsize);
    forall j | 0 <= j < |ss|
      ensures SegAt(v.mem.Keys, TwoUsed(v.chunks, tbase, nb, tsize), ss[j])
      ensures j > 0 ==> Retired(TwoUsed(v.chunks, tbase, nb, tsize), ss[j])
    {
      LoweredSeg(v, i, tbase, tsize, nb, j);
    }
    LoweredApart(v, i, tbase, tsize, nb);
    LoweredNoCross(v, i, tbase, tsize, nb);
    LoweredRecs(v, i, tbase, tsize, nb);
    TopHeld(v, 0);
    FirstRec(v);
    assert CurrentSeg(ss[0], v.msp, v.top, v.topsize);
  }

  lemma LoweredRecs(v: View, i: int, tbase: int, tsize: int, nb: int)
    requires Prepends(v, i, tbase, tsize, nb)
    ensures RecsOwned(TwoUsed(v.chunks, tbase, nb, tsize), Lowered(v.segs, i, tbase, tsize))
  {
    hide Tagged, Recorded, AllDirectWords, DirectOK, Mapped, Tiled, TopIs, StateAt, SegAt, Retired, NoCross;
    hide SegsApart, ClearOfHeap;
    var ds, ss := TwoUsed(v.chunks, tbase, nb, tsize), Lowered(v.segs, i, tbase, tsize);
    forall a | a in ds && ds[a].kind.Rec?
      ensures Owned(ss, a)
    {
      assert Owned(v.segs, a);
      var j :| 1 <= j < |v.segs| && v.segs[j].rec == a + 16;
      assert ss[j].rec == a + 16;
    }
  }

  lemma LoweredSeg(v: View, i: int, tbase: int, tsize: int, nb: int, j: int)
    requires Prepends(v, i, tbase, tsize, nb) && 0 <= j < |v.segs|
    ensures var ds, s := TwoUsed(v.chunks, tbase, nb, tsize), Lowered(v.segs, i, tbase, tsize)[j];
      SegAt(v.mem.Keys, ds, s) && (j > 0 ==> Retired(ds, s))
  {
    hide RecsOwned, Tagged, Recorded, AllDirectWords, Mapped, DirectOK, Tiled, TopIs, StateAt, NoCross, SegsApart;
    hide ClearOfHeap;
    PrependFacts(v, i, tbase, tsize, nb);
    assert SegAt(v.mem.Keys, v.chunks, v.segs[j]);
    DivideMinus(v.segs[j].size, tsize);
    if j > 0 {
      assert Retired(v.chunks, v.segs[j]);
    }
  }

  lemma LoweredApart(v: View, i: int, tbase: int, tsize: int, nb: int)
    requires Prepends(v, i, tbase, tsize, nb)
    ensures SegsApart(Lowered(v.segs, i, tbase, tsize))
  {
    hide RecsOwned, Tagged, Recorded, AllDirectWords, Mapped, DirectOK, Tiled, TopIs, StateAt, NoCross, SegAt, Retired;
    var ss := Lowered(v.segs, i, tbase, tsize);
    forall j, k | 0 <= j < k < |ss|
      ensures SegEnd(ss[j]) <= ss[k].base || SegEnd(ss[k]) <= ss[j].base
    {
      assert SegEnd(v.segs[j]) <= v.segs[k].base || SegEnd(v.segs[k]) <= v.segs[j].base;
      ClearSeg(v, tbase, tsize, j);
      ClearSeg(v, tbase, tsize, k);
      PrependBase(v, j);
      PrependBase(v, k);
    }
  }

  lemma LoweredNoCross(v: View, i: int, tbase: int, tsize: int, nb: int)
    requires Prepends(v, i, tbase, tsize, nb)
    ensures NoCross(TwoUsed(v.chunks, tbase, nb, tsize), Lowered(v.segs, i, tbase, tsize))
  {
    hide RecsOwned, Tagged, Recorded, AllDirectWords, Mapped, DirectOK, SizesOK, Apart, Preceded, TopIs, StateAt;
    hide SegAt, Retired, SegsApart, ClearOfHeap;
    PrependFacts(v, i, tbase, tsize, nb);
    var ds, ss := TwoUsed(v.chunks, tbase, nb, tsize), Lowered(v.segs, i, tbase, tsize);
    forall j, a {:trigger ss[j], Nxt(ds, a)} | 0 <= j < |ss| && a in ds && !Ends(ds[a].kind)
      ensures Nxt(ds, a) != ss[j].base
    {
      OtherBases(v, i, tbase, tsize, j);
      if a != tbase && a != tbase + nb {
        assert Nxt(ds, a) == Nxt(v.chunks, a);
        assert j != i ==> Nxt(v.chunks, a) != v.segs[j].base;
      }
    }
  }

  lemma OtherBases(v: View, i: int, tbase: int, tsize: int, j: int)
    requires v.Laid() && 0 <= i < |v.segs| && 0 <= j < |v.segs| &&
      ClearOfHeap(v.chunks, v.segs, v.direct, tbase, tsize) && v.segs[i].base == tbase + tsize
    ensures j != i ==> v.segs[j].base != tbase + tsize && !(tbase < v.segs[j].base < tbase + tsize)
  {
    hide RecsOwned, Tagged, Recorded, AllDirectWords, Mapped, DirectOK, Tiled, TopIs, StateAt, SegAt, Retired;
    hide ClearOfHeap, NoCross;
    ClearSeg(v, tbase, tsize, j);
    PrependBase(v, j);
    PrependBase(v, i);
    if j < i {
      assert SegEnd(v.segs[j]) <= v.segs[i].base || SegEnd(v.segs[i]) <= v.segs[j].base;
    } else if i < j {
      assert SegEnd(v.segs[i]) <= v.segs[j].base || SegEnd(v.segs[j]) <= v.segs[i].base;
    }
  }

  lemma LoweredDirect(v: View, i: int, tbase: int, tsize: int, nb: int)
    requires Prepends(v, i, tbase, tsize, nb)
    ensures DirectOK(v.mem.Keys, TwoUsed(v.chunks, tbase, nb, tsize), Lowered(v.segs, i, tbase, tsize), v.direct)
  {
    hide RecsOwned, Tagged, Recorded, AllDirectWords, Mapped, Tiled, TopIs, StateAt, SegAt, Retired, ClearOfHeap;
    hide NoCross, SegsApart, DirectAlone, Prepends;
    PrependFacts(v, i, tbase, tsize, nb);
    forall p | p in v.direct
      ensures DirectAlone(TwoUsed(v.chunks, tbase, nb, tsize), Lowered(v.segs, i, tbase, tsize), p, v.direct[p])
    {
      LoweredAlone(v, i, tbase, tsize, nb, p);
    }
  }

  lemma LoweredAlone(v: View, i: int, tbase: int, tsize: int, nb: int, p: int)
    requires Prepends(v, i, tbase, tsize, nb) && p in v.direct
    ensures DirectAlone(TwoUsed(v.chunks, tbase, nb, tsize), Lowered(v.segs, i, tbase, tsize), p, v.direct[p])
  {
    hide RecsOwned, Tagged, Recorded, AllDirectWords, Mapped, Tiled, TopIs, StateAt, SegAt, Retired, ClearOfHeap;
    hide NoCross, SegsApart;
    ClearDirect(v, tbase, tsize, p);
    assert DirectAlone(v.chunks, v.segs, p, v.direct[p]) && DirectAt(v.mem.Keys, p, v.direct[p]);
    assert SegEnd(v.segs[i]) <= p || DirectEnd(p, v.direct[p]) <= v.segs[i].base;
    PrependBase(v, i);
  }

  // ----- memory -----

  /** The stores to the record of segment i and to the heads of the two new chunks. */
  function LoweredMem(m: Mem, segs: seq<Seg>, i: int, tbase: int, nb: int, tsize: int): Mem
    requires 0 <= i < |segs|
  {
    m[segs[i].rec := tbase][segs[i].rec + 8 := segs[i].size + tsize][tbase + HEAD := nb + 3][tbase + nb + HEAD :=
      tsize - nb + 3]
  }

  ghost function LoweredStores(v: View, i: int, tbase: int, nb: int): set<int>
    requires 0 <= i < |v.segs|
  {
    {v.segs[i].rec, v.segs[i].rec + 8, tbase + HEAD, tbase + nb + HEAD}
  }

  /** The state with both chunks in use. */
  ghost function LoweredView(v: View, i: int, tbase: int, nb: int, tsize: int): View
    requires 0 <= i < |v.segs|
  {
    v.(mem := LoweredMem(v.mem, v.segs, i, tbase, nb, tsize), chunks := TwoUsed(v.chunks, tbase, nb, tsize),
      segs := Lowered(v.segs, i, tbase, tsize))
  }

  lemma LoweredChanges(v: View, i: int, tbase: int, tsize: int, nb: int)
    requires Prepends(v, i, tbase, tsize, nb)
    ensures var n := LoweredMem(v.mem, v.segs, i, tbase, nb, tsize);
      && ChangesOnly(v.mem, n, 0, 0, LoweredStores(v, i, tbase, nb)) && n.Keys == v.mem.Keys
      && Rd(n, v.segs[i].rec) == tbase && Rd(n, v.segs[i].rec + 8) == v.segs[i].size + tsize &&
        Rd(n, v.segs[i].rec + 16) == NextRec(v.segs, i)
      && Head(n, tbase) == nb + 3 && Head(n, tbase + nb) == tsize - nb + 3
    ensures v.segs[i].rec in v.mem && v.segs[i].rec + 8 in v.mem && tbase + HEAD in v.mem && tbase + nb + HEAD in v.mem
  {
    hide View.Laid, NextRec;
    PrependFacts(v, i, tbase, tsize, nb);
    SegLook(v, i);
    RecOffRange(v, i, tbase, tsize);
  }

  lemma RecOffRange(v: View, i: int, tbase: int, tsize: int)
    requires v.Laid() && 0 <= i < |v.segs| && ClearOfHeap(v.chunks, v.segs, v.direct, tbase, tsize)
    ensures v.segs[i].rec + 16 < tbase + 8 || tbase + tsize <= v.segs[i].rec
  {
    hide View.Laid;
    var c := RecHome(v.segs, i, v.msp);
    RecWordIn(v, i, v.segs[i].rec);
    RecWordIn(v, i, v.segs[i].rec + 16);
    ClearChunk(v, tbase, tsize, c);
    RecChunkSize(v, c);
  }

  lemma RecChunkSize(v: View, c: int)
    requires v.Laid() && c in v.chunks
    ensures v.chunks[c].kind.Rec? ==> v.chunks[c].size >= TOP_FOOT_SIZE
  {
    hide Tagged, Recorded, AllDirectWords, Mapped, TopIs, StateAt, SegsOK, DirectOK, Apart, Linked, Preceded;
    assert ChunkOK(c, v.chunks[c]);
  }

  /** All chunks lie off the empty range. */
  lemma OffNone(v: View)
    requires v.Laid()
    ensures forall a | a in v.chunks :: Off(v.chunks, 0, 0, a)
    ensures forall p | p in v.direct :: DirectEnd(p, v.direct[p]) <= 0 || 0 <= p
  {
    hide Tagged, Recorded, AllDirectWords, Mapped, TopIs, SegsOK, Apart, Linked, Preceded, DirectAlone;
    forall a | a in v.chunks
      ensures Off(v.chunks, 0, 0, a)
    {
      assert ChunkOK(a, v.chunks[a]);
    }
    forall p | p in v.direct
      ensures 0 <= p
    {
      assert DirectAt(v.mem.Keys, p, v.direct[p]);
    }
  }

  lemma LoweredAside(v: View, i: int, tbase: int, tsize: int, nb: int)
    requires Prepends(v, i, tbase, tsize, nb)
    ensures forall w | w in LoweredStores(v, i, tbase, nb) :: DataWord(v, w) && NotUser(v, w)
    ensures forall w, j | w in LoweredStores(v, i, tbase, nb) && 0 <= j < |v.segs| && j != i :: !RecWord(v.segs, j, w)
  {
    hide View.Laid, DataWord, NotUser;
    PrependFacts(v, i, tbase, tsize, nb);
    var s := {v.segs[i].rec, v.segs[i].rec + 8};
    assert forall w | w in s :: RecWord(v.segs, i, w);
    RecWordsData(v, s);
    RecWordsNotUser(v, s);
    ClearedAside(v, tbase, tsize, tbase + HEAD);
    ClearedAside(v, tbase, tsize, tbase + nb + HEAD);
    forall w, j | w in LoweredStores(v, i, tbase, nb) && 0 <= j < |v.segs| && j != i
      ensures !RecWord(v.segs, j, w)
    {
      if w in s {
        RecsApart(v, i, j, w);
      }
    }
  }

  /** Words in the new memory belong to nothing yet. */
  lemma ClearedAside(v: View, tbase: int, tsize: int, w: int)
    requires v.Laid() && ClearOfHeap(v.chunks, v.segs, v.direct, tbase, tsize) && tbase + 8 <= w < tbase + tsize
    ensures DataWord(v, w) && NotUser(v, w)
    ensures forall j | 0 <= j < |v.segs| :: !RecWord(v.segs, j, w)
  {
    hide Linked, Preceded, Mapped, SegsOK, DirectOK, Tagged, Recorded, AllDirectWords, Apart;
    assert forall a | a in v.chunks :: ChunkOK(a, v.chunks[a]);
    forall j | 0 <= j < |v.segs|
      ensures !RecWord(v.segs, j, w)
    {
      RecOffRange(v, j, tbase, tsize);
    }
  }

  lemma LoweredTagged(v: View, i: int, tbase: int, tsize: int, nb: int)
    requires Prepends(v, i, tbase, tsize, nb)
    ensures Tagged(LoweredMem(v.mem, v.segs, i, tbase, nb, tsize), TwoUsed(v.chunks, tbase, nb, tsize))
  {
    hide View.Laid, DataWord, NotUser, LoweredMem, ChangesOnly, Off, RecWord, LoweredStores, Prepends;
    PrependFacts(v, i, tbase, tsize, nb);
    LoweredChanges(v, i, tbase, tsize, nb);
    LoweredAside(v, i, tbase, tsize, nb);
    OffNone(v);
    var n, ds := LoweredMem(v.mem, v.segs, i, tbase, nb, tsize), TwoUsed(v.chunks, tbase, nb, tsize);
    forall a | a in ds
      ensures Head(n, a) == HeadWord(ds[a])
      ensures ds[a].kind.Free? ==> PrevFoot(n, Nxt(ds, a)) == ds[a].size
    {
      if a != tbase && a != tbase + nb {
        TagsOff(v, n, 0, 0, LoweredStores(v, i, tbase, nb), a);
        assert Nxt(ds, a) == Nxt(v.chunks, a);
      }
    }
  }

  lemma LoweredRecorded(v: View, i: int, tbase: int, tsize: int, nb: int)
    requires Prepends(v, i, tbase, tsize, nb)
    ensures Recorded(LoweredMem(v.mem, v.segs, i, tbase, nb, tsize), Lowered(v.segs, i, tbase, tsize))
  {
    hide View.Laid, DataWord, NotUser, LoweredMem, ChangesOnly, Off, RecWord, LoweredStores, RecHome, Prepends;
    PrependFacts(v, i, tbase, tsize, nb);
    LoweredChanges(v, i, tbase, tsize, nb);
    LoweredAside(v, i, tbase, tsize, nb);
    OffNone(v);
    var n, ss := LoweredMem(v.mem, v.segs, i, tbase, nb, tsize), Lowered(v.segs, i, tbase, tsize);
    forall j | 0 <= j < |ss|
      ensures RecordAt(n, ss[j], NextRec(ss, j))
    {
      assert NextRec(ss, j) == NextRec(v.segs, j);
      if j != i {
        RecHomeIn(v, j);
        RecordOff(v, n, 0, 0, LoweredStores(v, i, tbase, nb), j);
      }
    }
  }

  lemma RecHomeIn(v: View, j: int)
    requires v.Laid() && 0 <= j < |v.segs|
    ensures RecHome(v.segs, j, v.msp) in v.chunks
  {
    hide View.Laid, RecHome;
    RecWordIn(v, j, v.segs[j].rec);
  }

  lemma LoweredCoalesced(v: View, i: int, tbase: int, tsize: int, nb: int)
    requires Prepends(v, i, tbase, tsize, nb) && Coalesced(v.chunks)
    ensures Coalesced(TwoUsed(v.chunks, tbase, nb, tsize))
  {
    hide View.Laid, Prepends;
    PrependFacts(v, i, tbase, tsize, nb);
    var ds := TwoUsed(v.chunks, tbase, nb, tsize);
    forall a {:trigger Nxt(ds, a)} | a in ds && ds[a].kind.Free?
      ensures Nxt(ds, a) in ds && InUse(ds[Nxt(ds, a)].kind)
    {
      assert Nxt(ds, a) == Nxt(v.chunks, a);
    }
  }

  lemma LoweredFree(v: View, i: int, tbase: int, tsize: int, nb: int, loose: set<int>)
    requires Prepends(v, i, tbase, tsize, nb) && v.Binned(loose)
    ensures FreeStep(v.chunks, TwoUsed(v.chunks, tbase, nb, tsize), loose, loose)
  {
    hide View.Laid, View.Binned, Prepends;
    PrependFacts(v, i, tbase, tsize, nb);
    LooseFree(v, loose);
  }

  /** Nothing but two new blocks. */
  ghost predicate TwoNew(v: View, u: View, p: int, q: int, nb: int) {
    && Keeps(v, u, {p, q}) && Usable(v, p) == 0 && Usable(v, q) == 0 && Usable(u, p) == nb - 8
  }

  lemma LoweredKeeps(v: View, i: int, tbase: int, tsize: int, nb: int)
    requires Prepends(v, i, tbase, tsize, nb)
    ensures TwoNew(v, LoweredView(v, i, tbase, nb, tsize), tbase + 16, tbase + nb + 16, nb)
  {
    hide View.Laid, DataWord, NotUser, LoweredMem, ChangesOnly, Off, RecWord, LoweredStores, Prepends, ClearOfHeap;
    PrependFacts(v, i, tbase, tsize, nb);
    LoweredChanges(v, i, tbase, tsize, nb);
    LoweredAside(v, i, tbase, tsize, nb);
    OffNone(v);
    var u := LoweredView(v, i, tbase, nb, tsize);
    DirectsOff(v, u.mem, 0, 0, LoweredStores(v, i, tbase, nb));
    NotDirect(v, tbase, tsize, tbase);
    NotDirect(v, tbase, tsize, tbase + nb);
    forall p | p !in {tbase + 16, tbase + nb + 16}
      ensures BlockKept(v, u, p)
    {
      if p - 16 in v.chunks && v.chunks[p - 16].kind.Used? {
        BlocksOff(v, u.mem, 0, 0, LoweredStores(v, i, tbase, nb), p - 16);
      }
    }
  }

  lemma NotDirect(v: View, tbase: int, tsize: int, a: int)
    requires v.Laid() && ClearOfHeap(v.chunks, v.segs, v.direct, tbase, tsize) && tbase <= a < tbase + tsize
    ensures a !in v.direct
  {
    hide Tagged, Recorded, AllDirectWords, Mapped, TopIs, SegsOK, Tiled, DirectAlone;
    assert forall p | p in v.direct :: DirectAt(v.mem.Keys, p, v.direct[p]);
  }

  lemma LoweredBodies(v: View, i: int, tbase: int, tsize: int, nb: int)
    requires Prepends(v, i, tbase, tsize, nb)
    ensures BodiesKept(v.mem, LoweredMem(v.mem, v.segs, i, tbase, nb, tsize), v.chunks, v.msp, {})
    ensures AllDirectWords(LoweredMem(v.mem, v.segs, i, tbase, nb, tsize), v.direct)
  {
    hide View.Laid, DataWord, NotUser, LoweredMem, ChangesOnly, Off, RecWord, LoweredStores, Prepends, BodiesKept;
    PrependFacts(v, i, tbase, tsize, nb);
    LoweredChanges(v, i, tbase, tsize, nb);
    LoweredAside(v, i, tbase, tsize, nb);
    OffNone(v);
    StateEnd(v);
    DirectsOff(v, LoweredMem(v.mem, v.segs, i, tbase, nb, tsize), 0, 0, LoweredStores(v, i, tbase, nb));
    BodiesOff(v, LoweredMem(v.mem, v.segs, i, tbase, nb, tsize), 0, 0, LoweredStores(v, i, tbase, nb), {});
  }

  /** Both chunks in use: the invariant holds with the longer segment. */
  lemma LoweredDone(v: View, i: int, tbase: int, tsize: int, nb: int, loose: set<int>)
    requires Prepends(v, i, tbase, tsize, nb) && v.Binned(loose) && Coalesced(v.chunks)
    ensures var u := LoweredView(v, i, tbase, nb, tsize);
      u.Laid() && u.Binned(loose) && Coalesced(u.chunks) && TwoNew(v, u, tbase + 16, tbase + nb + 16, nb)
  {
    hide Tagged, Recorded, AllDirectWords, Coalesced, ShapeInv, View.Binned, TwoNew, BodiesKept, FreeStep, TwoUsed;
    hide LoweredMem, Lowered, Prepends;
    PrependFacts(v, i, tbase, tsize, nb);
    var u := LoweredView(v, i, tbase, nb, tsize);
    LoweredShape(v, i, tbase, tsize, nb);
    LoweredChanges(v, i, tbase, tsize, nb);
    LoweredTagged(v, i, tbase, tsize, nb);
    LoweredRecorded(v, i, tbase, tsize, nb);
    LoweredBodies(v, i, tbase, tsize, nb);
    LoweredFree(v, i, tbase, tsize, nb, loose);
    BinsRebuilt(v, u, {}, loose, loose);
    LoweredCoalesced(v, i, tbase, tsize, nb);
    LoweredKeeps(v, i, tbase, tsize, nb);
  }

  // ----- releasing the second chunk -----

  /** The first block is all that is new once the second one is gone. */
  lemma TwoThenGone(v: View, u: View, w: View, a: int, q: int, nb: int)
    requires TwoNew(v, u, a + 16, q + 16, nb) && Gone(u, w, q) && a != q && a > 0 && a % 8 == 0
    ensures Granted(v, w, a + 16, nb - 8) && Usable(w, a + 16) == nb - 8
  {
    hide Usable;
    assert BlockKept(u, w, a + 16);
    forall p | p !in {a + 16}
      ensures BlockKept(v, w, p)
    {
      if p != q + 16 {
        assert BlockKept(v, u, p) && BlockKept(u, w, p);
      }
    }
  }

  /** The stores to the record and to the head of the first chunk. */
  function FirstLowered(m: Mem, segs: seq<Seg>, i: int, tbase: int, nb: int, tsize: int): Mem
    requires 0 <= i < |segs|
  {
    m[segs[i].rec := tbase][segs[i].rec + 8 := segs[i].size + tsize][tbase + HEAD := nb + 3]
  }

  /** The second chunk q ends at the old first chunk b, and is released alone. */
  ghost predicate Releases(v: View, u: View, q: int, b: int, size: int) {
    && q in u.chunks && b in u.chunks && b in v.chunks && Frees(u.chunks, q, q) && Nxt(u.chunks, q) == b &&
      u.chunks[b] == v.chunks[b] && b > q
    && Merged(u.chunks, q, q) == (if FreeAt(v.chunks, b) then {b} else {})
    && (JoinsNext(u.chunks, q) <==> v.chunks[b].kind.Free? || v.chunks[b].kind.Top?)
    && FreedSize(u.chunks, q, q) == size + (if v.chunks[b].kind.Free? ||
      v.chunks[b].kind.Top? then v.chunks[b].size else 0)
  }

  lemma TwoReleases(v: View, u: View, tbase: int, tsize: int, nb: int)
    requires 0 < nb < tsize && tbase + tsize in v.chunks && u.chunks == TwoUsed(v.chunks, tbase, nb, tsize)
    ensures Releases(v, u, tbase + nb, tbase + tsize, tsize - nb)
  {
    assert Nxt(u.chunks, tbase + nb) == tbase + tsize;
  }

  /** The stores of a release, s being the size of the free chunk at q. */
  function ReleasedMem(m: Mem, kind: Kind, q: int, b: int, s: int): Mem {
    if kind.Top? then m[q + HEAD := s + 1]
    else if kind.Free? then m[q + HEAD := s + 1][q + s := s]
    else m[b + HEAD := ClearPin(Head(m, b))][q + HEAD := s + 1][q + s := s]
  }

  /** The second chunk's head is stored once only. */
  lemma ReleasedOnce(v: View, u: View, m: Mem, q: int, b: int, size: int)
    requires Releases(v, u, q, b, size) && u.mem == m[q + HEAD := size + 3]
    ensures FreedMem(u.mem, u.chunks, q, q) == ReleasedMem(m, v.chunks[b].kind, q, b, FreedSize(u.chunks, q, q))
  {
    hide FreedSize, JoinsNext, Merged;
    var s := FreedSize(u.chunks, q, q);
    Overwrites(m, q + HEAD, size + 3, s + 1, b + HEAD, ClearPin(Head(m, b)));
  }

  lemma Overwrites(m: Mem, k: int, x: int, y: int, h: int, z: int)
    requires h != k
    ensures m[k := x][k := y] == m[k := y]
    ensures Rd(m[k := x], h) == Rd(m, h)
    ensures m[k := x][h := z][k := y] == m[h := z][k := y]
  {
  }

  /** What the release of the second chunk reads and stores to is mapped. */
  ghost predicate PrependWords(v: View, i: int, tbase: int, tsize: int, nb: int) {
    var b := tbase + tsize;
    && 0 <= i < |v.segs| && b in v.chunks && tbase > 0 && tbase % 8 == 0
    && v.segs[i].rec in v.mem && v.segs[i].rec + 8 in v.mem && tbase + HEAD in v.mem && tbase + nb + HEAD in v.mem &&
      b + HEAD in v.mem && b in v.mem
    && (FreeAt(v.chunks, b) ==> b + v.chunks[b].size in v.mem)
    && AlignOffset(tbase + 16) == 0 && AlignOffset(b + 16) == 0
    && Rd(v.mem, v.segs[i].rec + 8) == v.segs[i].size
    && BaseWords(v, b)
  }

  ghost predicate BaseWords(v: View, b: int)
    requires b in v.chunks
  {
    var h := Head(v.mem, b);
    && (CInUse(h) <==> InUse(v.chunks[b].kind)) && !v.chunks[b].kind.Foot? && (v.chunks[b].kind.Top? <==> b == v.top)
    && (FreeAt(v.chunks, b) ==> ChunkSize(h) == v.chunks[b].size) && (b == v.top ==> v.chunks[b].size == v.topsize) &&
      b != 0
  }

  lemma PrependReady(v: View, i: int, tbase: int, tsize: int, nb: int)
    requires Prepends(v, i, tbase, tsize, nb)
    ensures PrependWords(v, i, tbase, tsize, nb)
  {
    hide View.Laid, Prepends, NextRec, BaseWords;
    PrependFacts(v, i, tbase, tsize, nb);
    LoweredChanges(v, i, tbase, tsize, nb);
    SegLook(v, i);
    BaseLook(v, tbase + tsize);
    ChunkMapped(v, tbase + tsize);
  }

  lemma BaseLook(v: View, b: int)
    requires v.Laid() && b in v.chunks && v.chunks[b].pin
    ensures BaseWords(v, b)
    ensures FreeAt(v.chunks, b) ==> b + v.chunks[b].size in v.mem
  {
    hide Recorded, AllDirectWords, Mapped, StateAt, SegsOK, DirectOK, Apart, Preceded, HeadWord;
    assert ChunkOK(b, v.chunks[b]);
    HeadBits(v.chunks[b]);
    if FreeAt(v.chunks, b) {
      assert Nxt(v.chunks, b) in v.chunks;
      ChunkMapped(v, Nxt(v.chunks, b));
    }
  }

  /** All but the stores of the release is done: m is memory so far, u the state with the second chunk q in use. */
  ghost predicate Finishing(v: View, u: View, m: Mem, loose: set<int>, q: int, b: int, size: int) {
    && Releases(v, u, q, b, size) && Freeing(u, loose, q, q)
    && FreedMem(u.mem, u.chunks, q, q) == ReleasedMem(m, v.chunks[b].kind, q, b, FreedSize(u.chunks, q, q))
    && BaseWords(v, b) && u.top == v.top && u.topsize == v.topsize && u.dv == v.dv && u.dvsize == v.dvsize && b % 8 == 0
    && q + HEAD in m && b + HEAD in m && b in m && q + 8 < b
    && (FreeAt(v.chunks, b) ==>
      b + v.chunks[b].size in m && b + v.chunks[b].size + HEAD in m && Head(m, b + v.chunks[b].size) % 2 == 0)
  }

  lemma FinishReady(v: View, i: int, tbase: int, tsize: int, nb: int, loose: set<int>)
    requires Prepends(v, i, tbase, tsize, nb) && v.Binned(loose) && Coalesced(v.chunks)
    requires loose == if FreeAt(v.chunks, tbase + tsize) && tbase + tsize != v.dv then {tbase + tsize} else {}
    ensures var u := LoweredView(v, i, tbase, nb, tsize);
      && Finishing(v, u, FirstLowered(v.mem, v.segs, i, tbase, nb, tsize), loose, tbase + nb, tbase + tsize, tsize - nb)
      && TwoNew(v, u, tbase + 16, tbase + nb + 16, nb)
    ensures tbase > 0 && tbase % 8 == 0 && nb > 0
  {
    hide View.Laid, View.Binned, Prepends, Coalesced, TwoNew, BaseWords, FreedMem, ReleasedMem, FreedSize, JoinsNext;
    hide TwoUsed;
    PrependFacts(v, i, tbase, tsize, nb);
    var u, q, b := LoweredView(v, i, tbase, nb, tsize), tbase + nb, tbase + tsize;
    PrependReady(v, i, tbase, tsize, nb);
    LoweredDone(v, i, tbase, tsize, nb, loose);
    TwoReleases(v, u, tbase, tsize, nb);
    ReleasedOnce(v, u, FirstLowered(v.mem, v.segs, i, tbase, nb, tsize), q, b, tsize - nb);
    assert loose == Neighbours(u, q, q);
    FreeingNow(u, q, q);
    FirstKeys(v, i, tbase, tsize, nb);
    if FreeAt(v.chunks, b) {
      NextNextHead(v, i, tbase, tsize, nb);
    }
  }

  lemma FirstKeys(v: View, i: int, tbase: int, tsize: int, nb: int)
    requires Prepends(v, i, tbase, tsize, nb)
    ensures FirstLowered(v.mem, v.segs, i, tbase, nb, tsize).Keys == v.mem.Keys
  {
    hide View.Laid, ClearOfHeap;
    LoweredChanges(v, i, tbase, tsize, nb);
  }

  /** The chunk behind a free first chunk has its pin bit clear. */
  lemma NextNextHead(v: View, i: int, tbase: int, tsize: int, nb: int)
    requires Prepends(v, i, tbase, tsize, nb) && FreeAt(v.chunks, tbase + tsize)
    ensures var n := tbase + tsize + v.chunks[tbase + tsize].size;
      n + HEAD in v.mem && n in v.mem && Head(FirstLowered(v.mem, v.segs, i, tbase, nb, tsize), n) % 2 == 0
  {
    hide View.Laid, Prepends, DataWord;
    var b := tbase + tsize;
    var n := b + v.chunks[b].size;
    PrependFacts(v, i, tbase, tsize, nb);
    NextHead(v, b);
    LoweredAside(v, i, tbase, tsize, nb);
    HeadNoData(v, n, v.segs[i].rec);
    HeadNoData(v, n, v.segs[i].rec + 8);
    HeadNoData(v, n, tbase + HEAD);
  }

  lemma HeadNoData(v: View, a: int, w: int)
    requires a in v.chunks && DataWord(v, w)
    ensures w != a + HEAD
  {
  }

  lemma NextHead(v: View, b: int)
    requires v.Laid() && FreeAt(v.chunks, b)
    ensures var n := b + v.chunks[b].size; n in v.chunks && n in v.mem && n + HEAD in v.mem && Head(v.mem, n) % 2 == 0
  {
    hide Recorded, AllDirectWords, Mapped, StateAt, SegsOK, DirectOK, Apart, Preceded, TopIs, HeadWord;
    var n := Nxt(v.chunks, b);
    assert n in v.chunks && !v.chunks[n].pin && ChunkOK(n, v.chunks[n]);
    ChunkMapped(v, n);
    HeadBits(v.chunks[n]);
  }

  lemma VictimNotUsed(u: View, loose: set<int>, q: int)
    requires Freeing(u, loose, q, q)
    ensures u.dv != q
  {
    hide View.Laid, View.Binned, Coalesced;
    FreeingFacts(u, loose, q, q);
  }

  /** The designated victim grows downwards over the new memory. */
  lemma VictimLowers(v: View, u: View, m: Mem, q: int, b: int, size: int)
    requires Finishing(v, u, m, {}, q, b, size) && b == v.dv && b != v.top && u.bins == v.bins &&
      u.direct == v.direct && u.msp == v.msp
    ensures var s := v.dvsize + size; var n := m[q + HEAD := s + 1][q + s := s];
      && q + HEAD in m && q + s in m && q in u.chunks && Nxt(u.chunks, q) in u.chunks
      && var w := v.(mem := n, dv := q, dvsize := s, chunks := Freed(u.chunks, q, q), segs := u.segs);
      && Sound(w) && Gone(u, w, q)
  {
    hide View.Laid, View.Binned, Coalesced, Freed, FreedMem, FreedSize, Freeing, Gone, Sound, Merged, JoinsNext;
    FreeingFacts(u, {}, q, q);
    var s := v.dvsize + size;
    var n := m[q + HEAD := s + 1][q + s := s];
    FreedVictim(u, {}, q, q, v.(mem := n, dv := q, dvsize := s, chunks := Freed(u.chunks, q, q), segs := u.segs));
  }

  /** Sizes and tags when the first chunk is neither the top chunk nor the designated victim. */
  lemma FinishSize(v: View, u: View, m: Mem, loose: set<int>, q: int, b: int, size: int, nsize: int)
    requires Finishing(v, u, m, loose, q, b, size) && b != v.top &&
      nsize == if FreeAt(v.chunks, b) then v.chunks[b].size else 0
    ensures FreedSize(u.chunks, q, q) == size + nsize && q + size + nsize == b + nsize && b + nsize in m &&
      b + nsize + HEAD in m && q + HEAD in m
    ensures var s := size + nsize; var h := b + nsize + HEAD;
      FreedMem(u.mem, u.chunks, q,
        q) == (if nsize != 0 then m else m[h := ClearPin(Rd(m, h))])[q + HEAD := s + 1][q + s := s]
    ensures nsize != 0 ==> ClearPin(Rd(m, b + nsize + HEAD)) == Rd(m, b + nsize + HEAD)
  {
    hide View.Laid, View.Binned, Coalesced, FreedMem, Merged;
    FreeingFacts(u, loose, q, q);
    FreePositive(u, loose, q, b);
  }

  lemma FreePositive(u: View, loose: set<int>, q: int, b: int)
    requires Freeing(u, loose, q, q) && b in u.chunks
    ensures u.chunks[b].size > 0
  {
    hide View.Laid, View.Binned, Coalesced, Frees, Merged;
    ChunkPositive(u, b);
  }

  /** Storing what is there already changes nothing. */
  lemma SameStore(m: Mem, k: int)
    requires k in m
    ensures ClearPin(Rd(m, k)) == Rd(m, k) ==> m[k := ClearPin(Rd(m, k))] == m
  {
  }

  lemma FirstIs(v: View, i: int, tbase: int, nb: int, tsize: int, m: Mem)
    requires 0 <= i < |v.segs| &&
      m == v.mem[v.segs[i].rec := tbase][v.segs[i].rec + 8 := v.segs[i].size + tsize][tbase + HEAD := nb + 3]
    ensures m == FirstLowered(v.mem, v.segs, i, tbase, nb, tsize)
  {
  }

  /** Linking changes nothing about the new memory. */
  lemma PrependsStill(v: View, u: View, i: int, tbase: int, tsize: int, nb: int)
    requires Prepends(v, i, tbase, tsize, nb) && u.Laid() && u.chunks == v.chunks && u.segs == v.segs &&
      u.direct == v.direct && u.mem.Keys == v.mem.Keys
    ensures Prepends(u, i, tbase, tsize, nb)
  {
    hide View.Laid, ClearOfHeap;
    forall w | tbase <= w < tbase + tsize
      ensures w in u.mem
    {
      assert w in v.mem;
      assert w in u.mem.Keys;
    }
  }

  lemma LoweredSame(v: View, i: int, tbase: int, nb: int, tsize: int)
    requires 0 <= i < |v.segs|
    ensures var u := LoweredView(v, i, tbase, nb, tsize);
      u.bins == v.bins && u.direct == v.direct && u.msp == v.msp && u.segs == Lowered(v.segs, i, tbase, tsize)
  {
  }

  /** The top chunk and the designated victim are not loose. */
  lemma LooseWhere(v: View, loose: set<int>, b: int)
    requires b in v.chunks && loose == (if FreeAt(v.chunks, b) && b != v.dv then {b} else {}) && BaseWords(v, b)
    ensures b == v.top || b == v.dv ==> loose == {}
  {
  }

  // ----- fresh memory -----

  /** The size of the mapping that `alloc_sys` asks for: `granularity_align(nb + TOP_FOOT_SIZE + 1)`. */
  function SysSize(nb: nat): int {
    Wrap(Wrap(nb + TOP_FOOT_SIZE + 1) + (GRANULARITY - 1)) / GRANULARITY * GRANULARITY
  }

  lemma SysSizeOK(nb: nat)
    requires MIN_CHUNK_SIZE <= nb < WORD
    ensures SysSize(nb) % GRANULARITY == 0
    ensures SysSize(nb) > nb ==> SysSize(nb) >= nb + TOP_FOOT_SIZE + 1 && nb < WORD - TOP_FOOT_SIZE - 1
    ensures nb < WORD - 0x2_0040 ==> SysSize(nb) > nb
    ensures SysSize(nb) > nb ==> nb < WORD - 0x2_0000
  {
    var s := Wrap(nb + TOP_FOOT_SIZE + 1);
    var t := Wrap(s + (GRANULARITY - 1));
    GranularityDown(t);
    if nb + TOP_FOOT_SIZE + 1 < WORD {
      assert s == nb + TOP_FOOT_SIZE + 1;
    } else {
      assert s == nb + TOP_FOOT_SIZE + 1 - WORD;
    }
    if s + (GRANULARITY - 1) < WORD {
      assert t == s + (GRANULARITY - 1);
    } else {
      assert t == s + (GRANULARITY - 1) - WORD;
      assert t < GRANULARITY;
      SmallDown(t);
    }
  }

  lemma SmallDown(t: nat)
    requires t < GRANULARITY
    ensures t / GRANULARITY * GRANULARITY == 0
  {
  }

  lemma GranularityDown(t: nat)
    ensures t / GRANULARITY * GRANULARITY <= t < t / GRANULARITY * GRANULARITY + GRANULARITY
    ensures (t / GRANULARITY * GRANULARITY) % GRANULARITY == 0
  {
    var q := t / GRANULARITY;
    assert (q * GRANULARITY) % GRANULARITY == 0;
  }

  lemma FreshNew(v: View, a: int, n: int)
    requires v.Laid() && FreshAt(v.mem, a, n) && n % GRANULARITY == 0
    ensures NewSeg(v, a, n) && a + 8 !in v.mem
  {
    hide View.Laid, FreshAt;
    FreshFacts(v.mem, a, n);
    UnitAtLeast(n);
    FreshHead(v.mem, a, n);
    FirstRec(v);
    TopKind(v);
  }

  lemma FreshSound(v: View, a: int, n: int)
    requires Sound(v) && FreshAt(v.mem, a, n)
    ensures Sound(v.(mem := MapIn(v.mem, a, n))) && Keeps(v, v.(mem := MapIn(v.mem, a, n)), {})
  {
    hide View.Laid, View.Binned, Coalesced, Keeps, MapIn, Unmapped;
    MapInLaid(v, a, n);
    MapInBinned(v, a, n, {});
    MapInKeeps(v, a, n);
  }

  lemma FreshPrepends(v: View, u: View, i: int, tbase: int, tsize: int, nb: int)
    requires NewSeg(v, tbase, tsize) && u == v.(mem := MapIn(v.mem, tbase, tsize)) && u.Laid()
    requires 0 <= i < |v.segs| && v.segs[i].base == tbase + tsize && nb % 8 == 0 &&
      MIN_CHUNK_SIZE <= nb <= tsize - TOP_FOOT_SIZE - 1
    ensures Prepends(u, i, tbase, tsize, nb)
  {
    hide View.Laid, MapIn, Unmapped;
    NewSegLaid(v, tbase, tsize);
    NewSegFacts(v, tbase, tsize);
    MapInReads(v.mem, tbase, tsize);
  }
}
