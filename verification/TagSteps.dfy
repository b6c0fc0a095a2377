/** What writing boundary tags does to the invariant: taking, splitting and freeing chunks. */
module TagSteps {
  import opened Memory
  import opened Trie
  import opened Layout
  import opened Bins
  import opened Segments
  import opened Steps
  import opened BinSteps

  // ----- the bins under a change of chunks -----

  /** Free chunks outside loose stay as they are, and every free chunk that is new is in loose'. */
  ghost predicate FreeStep(cs: Chunks, ds: Chunks, loose: set<int>, loose': set<int>) {
    && (forall a | FreeAt(cs, a) && a !in loose :: FreeAt(ds, a) && ds[a].size == cs[a].size)
    && (forall a | FreeAt(ds, a) && a !in loose' :: FreeAt(cs, a) && a !in loose)
    && (forall a | a in loose' :: FreeAt(ds, a) && (a in loose || !FreeAt(cs, a)))
  }

  lemma MatchStep(cs: Chunks, ds: Chunks, b: BinTable, dv: int, dvsize: int, loose: set<int>, loose': set<int>)
    requires Match(cs, b, dv, dvsize, loose) && FreeStep(cs, ds, loose, loose')
    ensures Match(ds, b, dv, dvsize, loose')
  {
    SmallHoldStep(cs, ds, b, dv, loose, loose');
    TreesHoldStep(cs, ds, b, dv, loose, loose');
    forall a | FreeAt(ds, a) && a != dv && a !in loose'
      ensures IsBinned(ds, b, a)
    {
      assert IsBinned(cs, b, a);
    }
  }

  lemma SmallHoldStep(cs: Chunks, ds: Chunks, b: BinTable, dv: int, loose: set<int>, loose': set<int>)
    requires SmallHold(cs, b, dv, loose) && FreeStep(cs, ds, loose, loose')
    ensures SmallHold(ds, b, dv, loose')
  {
    forall i, a | 0 <= i < 32 && a in b.small[i]
      ensures FreeAt(ds, a) && a != dv && a !in loose' && ds[a].size == 8 * i
    {
      assert FreeAt(cs, a) && a != dv && a !in loose && cs[a].size == 8 * i;
    }
  }

  lemma TreesHoldStep(cs: Chunks, ds: Chunks, b: BinTable, dv: int, loose: set<int>, loose': set<int>)
    requires TreesHold(cs, b, dv, loose) && FreeStep(cs, ds, loose, loose')
    ensures TreesHold(ds, b, dv, loose')
  {
    hide Has, SizeOf;
    forall i, a | 0 <= i < 32 && Has(b.trees[i], a)
      ensures TreeItem(ds, b.trees[i], dv, loose', i, a)
    {
      assert TreeItem(cs, b.trees[i], dv, loose, i, a);
    }
  }

  lemma BinsStep(m: Mem, n: Mem, cs: Chunks, ds: Chunks, b: BinTable, msp: int, dv: int, dvsize: int, x: set<int>,
      loose: set<int>, loose': set<int>)
    requires SizesOK(cs) && BinInv(m, cs, b, msp, dv, dvsize, loose) && BodiesKept(m, n, cs, msp, x)
    requires forall a | a in x && FreeAt(cs, a) :: a in loose
    requires FreeStep(cs, ds, loose, loose')
    ensures BinInv(n, ds, b, msp, dv, dvsize, loose')
  {
    hide SizesOK, SmallOK, TreesOK, Match, FreeStep;
    BodiesMono(m, n, cs, msp, x, loose);
    BinsFrame(m, n, cs, b, msp, dv, dvsize, loose);
    MatchStep(cs, ds, b, dv, dvsize, loose, loose');
  }

  lemma BodiesMono(m: Mem, n: Mem, cs: Chunks, msp: int, x: set<int>, loose: set<int>)
    requires BodiesKept(m, n, cs, msp, x) && forall a | a in x && FreeAt(cs, a) :: a in loose
    ensures BodiesKept(m, n, cs, msp, loose)
  {
  }

  lemma NoChunkAtZero(v: View)
    requires v.Laid()
    ensures 0 !in v.chunks
  {
    assert forall a | a in v.chunks :: ChunkOK(a, v.chunks[a]);
  }

  /** Bins hold neither the old nor the new designated victim. */
  lemma HoldLoose(cs: Chunks, b: BinTable, dv: int, dv': int, loose: set<int>, loose': set<int>)
    requires SmallHold(cs, b, dv, loose) && TreesHold(cs, b, dv, loose)
    requires dv' !in cs || dv' in loose
    requires forall a | a in loose' :: a in loose || a == dv
    ensures SmallHold(cs, b, dv', loose') && TreesHold(cs, b, dv', loose')
  {
    SmallHoldLoose(cs, b, dv, dv', loose, loose');
    TreesHoldLoose(cs, b, dv, dv', loose, loose');
  }

  lemma SmallHoldLoose(cs: Chunks, b: BinTable, dv: int, dv': int, loose: set<int>, loose': set<int>)
    requires SmallHold(cs, b, dv, loose)
    requires dv' !in cs || dv' in loose
    requires forall a | a in loose' :: a in loose || a == dv
    ensures SmallHold(cs, b, dv', loose')
  {
    forall i, a | 0 <= i < 32 && a in b.small[i]
      ensures FreeAt(cs, a) && a != dv' && a !in loose' && cs[a].size == 8 * i
    {
      assert FreeAt(cs, a) && a != dv && a !in loose && cs[a].size == 8 * i;
    }
  }

  lemma TreesHoldLoose(cs: Chunks, b: BinTable, dv: int, dv': int, loose: set<int>, loose': set<int>)
    requires TreesHold(cs, b, dv, loose)
    requires dv' !in cs || dv' in loose
    requires forall a | a in loose' :: a in loose || a == dv
    ensures TreesHold(cs, b, dv', loose')
  {
    hide Has, SizeOf;
    forall i, a | 0 <= i < 32 && Has(b.trees[i], a)
      ensures TreeItem(cs, b.trees[i], dv', loose', i, a)
    {
      assert TreeItem(cs, b.trees[i], dv, loose, i, a);
    }
  }

  /** The designated victim becomes an ordinary loose chunk. */
  lemma VictimLoose(v: View, loose: set<int>)
    requires v.Laid() && v.Binned(loose) && v.dv != 0
    ensures v.(dv := 0, dvsize := 0).Laid() && v.(dv := 0, dvsize := 0).Binned(loose + {v.dv})
    ensures FreeAt(v.chunks, v.dv) && v.chunks[v.dv].size == v.dvsize && v.dv !in loose
  {
    hide SmallOK, TreesOK, View.Laid;
    NoChunkAtZero(v);
    LaidAside(v, 0, 0);
    HoldLoose(v.chunks, v.bins, v.dv, 0, loose, loose + {v.dv});
    forall a | FreeAt(v.chunks, a) && a != 0 && a !in loose + {v.dv}
      ensures IsBinned(v.chunks, v.bins, a)
    {
    }
  }

  /** Chunks and segments do not depend on the bins. */
  lemma LaidAside(v: View, d: int, s: int)
    requires v.Laid()
    ensures v.(dv := d, dvsize := s).Laid()
  {
  }

  /** A loose chunk becomes the designated victim. */
  lemma VictimSet(v: View, loose: set<int>, x: int, s: int, w: View)
    requires v.Laid() && v.Binned(loose) && v.dv == 0 && x in loose && v.chunks[x].size == s
    requires w == v.(dv := x, dvsize := s)
    ensures w.Laid() && w.Binned(loose - {x})
  {
    hide SmallOK, TreesOK, ShapeInv, Tagged, Recorded, AllDirectWords;
    NoChunkAtZero(v);
    SizePositive(v, x);
    HoldLoose(v.chunks, v.bins, 0, x, loose, loose - {x});
    forall a | FreeAt(v.chunks, a) && a != x && a !in loose - {x}
      ensures IsBinned(v.chunks, v.bins, a)
    {
    }
  }

  lemma SizePositive(v: View, x: int)
    requires v.Laid() && x in v.chunks
    ensures v.chunks[x].size > 0 && x > 0
  {
    assert ChunkOK(x, v.chunks[x]);
  }

  /** The designated victim as a set of chunks. */
  ghost function Victims(v: View): set<int> {
    if v.dv != 0 then {v.dv} else {}
  }

  lemma VictimGone(v: View, loose: set<int>)
    requires v.Laid() && v.Binned(loose)
    ensures v.(dv := 0, dvsize := 0).Laid() && v.(dv := 0, dvsize := 0).Binned(loose + Victims(v))
    ensures v.dv == 0 <==> v.dvsize == 0
    ensures v.dv != 0 ==> FreeAt(v.chunks, v.dv) && v.chunks[v.dv].size == v.dvsize && v.dv !in loose
  {
    hide View.Laid, SmallOK, TreesOK, SmallHold, TreesHold;
    if v.dv != 0 {
      VictimLoose(v, loose);
    } else {
      assert v.(dv := 0, dvsize := 0) == v && loose + {} == loose;
    }
  }

  lemma LooseNotVictim(v: View, loose: set<int>, a: int)
    requires v.Laid() && v.Binned(loose) && a in loose
    ensures a != v.dv && FreeAt(v.chunks, a) && a > 0
  {
    hide View.Laid, SmallOK, TreesOK, SmallHold, TreesHold;
    SizePositive(v, a);
  }

  lemma WholeStores(m: Mem, x: int, next: int, s: int)
    requires x + HEAD in m && next + HEAD in m && next != x
    ensures m[x + HEAD := s + 3][next + HEAD := SetPin(Rd(m[x + HEAD := s + 3], next + HEAD))] == WholeMem(m, x, next,
      s)
  {
  }

  // ----- heads and feet -----

  lemma SizeEight(cs: Chunks, b: int, n: int)
    requires Tiled(cs) && b in cs && n in cs && n == b + 8
    ensures Nxt(cs, b) == n
  {
    assert ChunkOK(b, cs[b]);
  }

  /** A foot slot is no head word. */
  lemma FootNoHead(cs: Chunks, top: int, topsize: int, a: int, b: int)
    requires Tiled(cs) && TopIs(cs, top, topsize) && FreeAt(cs, a) && b in cs
    ensures Nxt(cs, a) != b + 8
  {
    TiledSolid(cs);
    var n := Nxt(cs, a);
    assert n in cs && ChunkOK(b, cs[b]) && ChunkOK(a, cs[a]);
    if n == b + 8 {
      SizeEight(cs, b, n);
      OnePrevious(cs, a, b);
    }
  }

  // ----- taking a chunk whole -----

  function WholeMem(m: Mem, x: int, next: int, s: int): Mem {
    m[x + HEAD := s + 3][next + HEAD := SetPin(Head(m, next))]
  }

  lemma WholeReady(v: View, x: int)
    requires v.Laid() && FreeAt(v.chunks, x)
    ensures x + HEAD in v.mem && Nxt(v.chunks, x) == x + v.chunks[x].size && Nxt(v.chunks, x) in v.chunks
    ensures Nxt(v.chunks, x) + HEAD in v.mem && Nxt(v.chunks, x) != x
    ensures v.chunks[x].size % 8 == 0 && v.chunks[x].size >= MIN_CHUNK_SIZE &&
      ChunkSize(Head(v.mem, x)) == v.chunks[x].size
  {
    hide Apart, Preceded, SegsOK, DirectOK, Recorded, AllDirectWords;
    var n := Nxt(v.chunks, x);
    assert n in v.chunks && ChunkOK(x, v.chunks[x]) && ChunkOK(n, v.chunks[n]);
    HeadBits(v.chunks[x]);
    ChunkMapped(v, x);
    ChunkMapped(v, n);
  }

  lemma ChunkMapped(v: View, x: int)
    requires v.Laid() && x in v.chunks
    ensures x in v.mem && x + HEAD in v.mem && v.chunks[x].size > 0
    ensures x + 16 in v.mem || v.chunks[x].size < 24
  {
    hide Apart, Linked, Preceded, SegsOK, DirectOK, Recorded, AllDirectWords, Tagged, TopIs, StateAt;
    assert ChunkOK(x, v.chunks[x]);
    if v.chunks[x].size == 8 {
      NextMapped(v, x);
    }
  }

  lemma NextMapped(v: View, x: int)
    requires v.Laid() && x in v.chunks && v.chunks[x].size == 8
    ensures x + 8 in v.mem
  {
    hide Apart, Preceded, SegsOK, DirectOK, Recorded, AllDirectWords, Tagged, StateAt;
    assert ChunkOK(x, v.chunks[x]);
    assert Nxt(v.chunks, x) in v.chunks;
    assert ChunkOK(Nxt(v.chunks, x), v.chunks[Nxt(v.chunks, x)]);
  }

  /** New chunks with the right tags, by stores into tags and into chunks of x only. */
  ghost predicate Retagged(v: View, w: View, x: set<int>, loose: set<int>, loose': set<int>) {
    && w == v.(mem := w.mem, chunks := w.chunks, top := w.top, topsize := w.topsize)
    && ShapeInv(v.mem.Keys, w.chunks, w.top, w.topsize, v.segs, v.direct, v.msp)
    && Tagged(w.mem, w.chunks) && TagsOnly(v.mem, w.mem, v.chunks, x) && Inner(v.chunks, v.msp, x)
    && (forall a | a in x && FreeAt(v.chunks, a) :: a in loose)
    && FreeStep(v.chunks, w.chunks, loose, loose')
  }

  lemma RetaggedOK(v: View, w: View, x: set<int>, loose: set<int>, loose': set<int>)
    requires v.Laid() && v.Binned(loose) && Retagged(v, w, x, loose, loose')
    ensures w.Laid() && w.Binned(loose') && DataKept(v.mem, w.mem, v.chunks, v.direct, x, v.msp)
  {
    hide Tagged, TagsOnly, Inner, FreeStep, BinInv, DataKept, Recorded, AllDirectWords, Mapped, TopIs, StateAt;
    hide SegsOK, DirectOK;
    hide SizesOK, Apart, Linked, Preceded;
    assert w.mem.Keys == v.mem.Keys by {
      SameKeys(v.mem, w.mem, v.chunks, x);
    }
    TagsKeepData(v.mem, w.mem, v.chunks, v.segs, v.direct, v.msp, x);
    TagsKeepBodies(v.mem, w.mem, v.chunks, v.msp, x);
    RecordsKept(v.mem, w.mem, v.chunks, v.segs, v.direct, x, v.msp, v.top, v.topsize);
    BinsStep(v.mem, w.mem, v.chunks, w.chunks, v.bins, v.msp, v.dv, v.dvsize, x, loose, loose');
  }

  lemma SameKeys(m: Mem, n: Mem, cs: Chunks, x: set<int>)
    requires TagsOnly(m, n, cs, x)
    ensures n.Keys == m.Keys
  {
  }

  lemma WholeTagged(m: Mem, cs: Chunks, top: int, topsize: int, x: int)
    requires Tiled(cs) && TopIs(cs, top, topsize) && Tagged(m, cs) && FreeAt(cs, x) && Nxt(cs, x) in cs && cs[x].pin
    ensures Tagged(WholeMem(m, x, Nxt(cs, x), cs[x].size), UseWhole(cs, x))
  {
    hide SizesOK, Apart, Linked, Preceded;
    var next := Nxt(cs, x);
    var n := WholeMem(m, x, next, cs[x].size);
    var ds := UseWhole(cs, x);
    NextDiffers(cs, x);
    forall a | a in ds
      ensures Head(n, a) == HeadWord(ds[a])
      ensures ds[a].kind.Free? ==> PrevFoot(n, Nxt(ds, a)) == ds[a].size
    {
      if cs[a].kind.Free? {
        FootNoHead(cs, top, topsize, a, x);
        FootNoHead(cs, top, topsize, a, next);
      }
      SizeEven(cs, a);
      HeadBits(cs[a]);
      assert Nxt(ds, a) == Nxt(cs, a);
    }
  }

  lemma SizeEven(cs: Chunks, a: int)
    requires Tiled(cs) && a in cs
    ensures cs[a].size % 8 == 0 && a % 8 == 0 && cs[a].size >= 8
  {
    assert ChunkOK(a, cs[a]);
  }

  lemma NextDiffers(cs: Chunks, x: int)
    requires Tiled(cs) && x in cs
    ensures Nxt(cs, x) >= x + 8
  {
    assert ChunkOK(x, cs[x]);
  }

  /** Taking loose chunk x whole. */
  lemma WholeDone(v: View, loose: set<int>, x: int, n: Mem, w: View)
    requires v.Laid() && v.Binned(loose) && Coalesced(v.chunks) && x in loose && FreeAt(v.chunks, x) &&
      Nxt(v.chunks, x) in v.chunks
    requires n == WholeMem(v.mem, x, Nxt(v.chunks, x), v.chunks[x].size)
    requires x + HEAD in v.mem && Nxt(v.chunks, x) + HEAD in v.mem
    requires w == v.(mem := n, chunks := UseWhole(v.chunks, x))
    ensures w.Laid() && w.Binned(loose - {x}) && Coalesced(w.chunks) &&
      DataKept(v.mem, n, v.chunks, v.direct, {x}, v.msp)
  {
    hide View.Binned, Tagged, TagsOnly, Recorded, AllDirectWords, Mapped, SegsOK, DirectOK, SizesOK, Apart, Linked;
    hide Preceded, DataKept;
    UseWholeShape(v.mem.Keys, v.chunks, v.top, v.topsize, v.segs, v.direct, v.msp, x);
    LooseFree(v, loose);
    WholeTagged(v.mem, v.chunks, v.top, v.topsize, x);
    WholeOnly(v.mem, v.chunks, x);
    WholeFree(v.chunks, loose, x);
    WholeCoalesced(v.chunks, x);
    assert Inner(v.chunks, v.msp, {x});
    RetaggedOK(v, w, {x}, loose, loose - {x});
  }

  lemma LooseFree(v: View, loose: set<int>)
    requires v.Binned(loose)
    ensures forall a | a in loose :: FreeAt(v.chunks, a)
  {
  }

  lemma WholeOnly(m: Mem, cs: Chunks, x: int)
    requires x in cs && Nxt(cs, x) in cs && x + HEAD in m && Nxt(cs, x) + HEAD in m
    ensures TagsOnly(m, WholeMem(m, x, Nxt(cs, x), cs[x].size), cs, {x})
  {
    var n := WholeMem(m, x, Nxt(cs, x), cs[x].size);
    forall w | !TagWord(cs, {x}, w)
      ensures Rd(n, w) == Rd(m, w)
    {
      assert w != x + 8 && w != Nxt(cs, x) + 8;
    }
  }

  lemma WholeFree(cs: Chunks, loose: set<int>, x: int)
    requires FreeAt(cs, x) && Nxt(cs, x) in cs && x in loose && Nxt(cs, x) != x && forall a | a in loose ::
      FreeAt(cs, a)
    ensures FreeStep(cs, UseWhole(cs, x), loose, loose - {x})
  {
  }

  lemma WholeCoalesced(cs: Chunks, x: int)
    requires Coalesced(cs) && FreeAt(cs, x) && Nxt(cs, x) in cs && Nxt(cs, x) != x
    ensures Coalesced(UseWhole(cs, x))
  {
    var ds := UseWhole(cs, x);
    forall a {:trigger Nxt(ds, a)} | a in ds && ds[a].kind.Free?
      ensures Nxt(ds, a) in ds && InUse(ds[Nxt(ds, a)].kind)
    {
      assert Nxt(ds, a) == Nxt(cs, a);
    }
  }

  // ----- splitting a free chunk -----

  function SplitMem(m: Mem, x: int, nb: int, rsize: int): Mem {
    m[x + HEAD := nb + 3][x + nb + HEAD := rsize + 1][x + nb + rsize := rsize]
  }

  lemma SplitReady(v: View, x: int, nb: int)
    requires v.Laid() && FreeAt(v.chunks, x) && nb % 8 == 0 && MIN_CHUNK_SIZE <= nb &&
      v.chunks[x].size - nb >= MIN_CHUNK_SIZE
    ensures x + HEAD in v.mem && x + nb + HEAD in v.mem && x + v.chunks[x].size in v.mem
    ensures Splits(v.chunks, x, nb, Free)
  {
    hide Apart, Preceded, SegsOK, DirectOK, Recorded, AllDirectWords, Tagged;
    var n := Nxt(v.chunks, x);
    assert n in v.chunks && ChunkOK(x, v.chunks[x]);
    ChunkMapped(v, x);
    ChunkMapped(v, n);
    assert x <= x + nb + HEAD < x + v.chunks[x].size;
  }

  /** No chunk but x touches the words inside x. */
  lemma InsideOnly(cs: Chunks, top: int, topsize: int, x: int, a: int, w: int)
    requires Tiled(cs) && TopIs(cs, top, topsize) && x in cs && a in cs && a != x && x + 8 <= w < x + cs[x].size
    ensures a + 8 != w
    ensures FreeAt(cs, a) ==> Nxt(cs, a) != w && Nxt(cs, a) != Nxt(cs, x)
  {
    assert ChunkOK(a, cs[a]) && ChunkOK(x, cs[x]);
    TiledSolid(cs);
    if FreeAt(cs, a) {
      assert Nxt(cs, a) in cs;
      if Nxt(cs, a) == Nxt(cs, x) {
        OnePrevious(cs, a, x);
      }
    }
  }

  lemma SplitTagged(m: Mem, cs: Chunks, top: int, topsize: int, x: int, nb: int)
    requires Tiled(cs) && TopIs(cs, top, topsize) && Tagged(m, cs) && FreeAt(cs, x) && cs[x].pin &&
      Splits(cs, x, nb, Free)
    requires x + nb !in cs
    ensures Tagged(SplitMem(m, x, nb, cs[x].size - nb), Split(cs, x, nb, Free))
  {
    hide SizesOK, Apart, Linked, Preceded;
    var n := SplitMem(m, x, nb, cs[x].size - nb);
    var ds := Split(cs, x, nb, Free);
    var r := x + nb;
    assert Nxt(ds, r) == Nxt(cs, x);
    forall a | a in ds
      ensures Head(n, a) == HeadWord(ds[a])
      ensures ds[a].kind.Free? ==> PrevFoot(n, Nxt(ds, a)) == ds[a].size
    {
      if a != x && a != r {
        InsideOnly(cs, top, topsize, x, a, x + 8);
        InsideOnly(cs, top, topsize, x, a, r + 8);
        FootNoHead(cs, top, topsize, x, a);
        assert Nxt(ds, a) == Nxt(cs, a);
      }
    }
  }

  lemma SplitOnly(m: Mem, cs: Chunks, x: int, nb: int)
    requires x in cs && 0 < nb < cs[x].size - 8
    requires x + HEAD in m && x + nb + HEAD in m && x + cs[x].size in m
    ensures TagsOnly(m, SplitMem(m, x, nb, cs[x].size - nb), cs, {x})
  {
    var n := SplitMem(m, x, nb, cs[x].size - nb);
    forall w | !TagWord(cs, {x}, w)
      ensures Rd(n, w) == Rd(m, w)
    {
      assert !(x + 8 <= w <= x + cs[x].size);
    }
  }

  lemma SplitFree(cs: Chunks, loose: set<int>, x: int, nb: int)
    requires FreeAt(cs, x) && x + nb !in cs && nb > 0 && forall a | a in loose :: FreeAt(cs, a)
    ensures FreeStep(cs, Split(cs, x, nb, Free), loose + {x}, loose - {x} + {x + nb})
  {
  }

  lemma SplitCoalesced(cs: Chunks, x: int, nb: int)
    requires Coalesced(cs) && FreeAt(cs, x) && Splits(cs, x, nb, Free) && x + nb !in cs && Solid(cs)
    ensures Coalesced(Split(cs, x, nb, Free))
  {
    var ds := Split(cs, x, nb, Free);
    assert Nxt(ds, x + nb) == Nxt(cs, x);
    forall a {:trigger Nxt(ds, a)} | a in ds && ds[a].kind.Free?
      ensures Nxt(ds, a) in ds && InUse(ds[Nxt(ds, a)].kind)
    {
      if a != x + nb {
        assert Nxt(ds, a) == Nxt(cs, a);
      }
    }
  }

  /** Taking the first nb bytes of loose chunk x. */
  lemma SplitDone(v: View, loose: set<int>, x: int, nb: int, n: Mem, w: View)
    requires v.Laid() && v.Binned(loose) && Coalesced(v.chunks) && x in loose && FreeAt(v.chunks, x)
    requires Splits(v.chunks, x, nb, Free)
    requires n == SplitMem(v.mem, x, nb, v.chunks[x].size - nb)
    requires x + HEAD in v.mem && x + nb + HEAD in v.mem && x + v.chunks[x].size in v.mem
    requires w == v.(mem := n, chunks := Split(v.chunks, x, nb, Free))
    ensures w.Laid() && w.Binned(loose - {x} + {x + nb}) && Coalesced(w.chunks) &&
      DataKept(v.mem, n, v.chunks, v.direct, {x}, v.msp)
    ensures x + nb !in v.chunks && FreeAt(w.chunks, x + nb) && w.chunks[x + nb].size == v.chunks[x].size - nb
  {
    hide View.Binned, Tagged, TagsOnly, Recorded, AllDirectWords, Mapped, SegsOK, DirectOK, SizesOK, Apart, Linked;
    hide Preceded, DataKept;
    TiledSolid(v.chunks);
    SplitShape(v.mem.Keys, v.chunks, v.top, v.topsize, v.segs, v.direct, v.msp, x, nb, Free);
    LooseFree(v, loose);
    SplitTagged(v.mem, v.chunks, v.top, v.topsize, x, nb);
    SplitOnly(v.mem, v.chunks, x, nb);
    SplitFree(v.chunks, loose, x, nb);
    SplitCoalesced(v.chunks, x, nb);
    assert loose + {x} == loose;
    assert Inner(v.chunks, v.msp, {x});
    RetaggedOK(v, w, {x}, loose, loose - {x} + {x + nb});
  }

  // ----- splitting the top chunk -----

  function TopMem(m: Mem, top: int, nb: int, rsize: int): Mem {
    m[top + nb + HEAD := rsize + 1][top + HEAD := nb + 3]
  }

  lemma TopReady(v: View, nb: int)
    requires v.Laid() && nb % 8 == 0 && MIN_CHUNK_SIZE <= nb < v.topsize
    ensures v.top + HEAD in v.mem && v.top + nb + HEAD in v.mem && v.top in v.chunks
  {
    hide Apart, Preceded, SegsOK, DirectOK, Recorded, AllDirectWords, Tagged;
    var f := v.top + v.topsize;
    assert f in v.chunks && ChunkOK(v.top, v.chunks[v.top]) && ChunkOK(f, v.chunks[f]);
    ChunkMapped(v, v.top);
    ChunkMapped(v, f);
    assert v.top + nb + HEAD < f || v.top + nb + HEAD == f;
  }

  lemma TopTagged(m: Mem, cs: Chunks, top: int, topsize: int, nb: int)
    requires Tiled(cs) && TopIs(cs, top, topsize) && Tagged(m, cs) && cs[top].pin && Splits(cs, top, nb, Top) &&
      top + nb !in cs
    ensures Tagged(TopMem(m, top, nb, topsize - nb), Split(cs, top, nb, Top))
  {
    hide SizesOK, Apart, Linked, Preceded;
    var n := TopMem(m, top, nb, topsize - nb);
    var ds := Split(cs, top, nb, Top);
    forall a | a in ds
      ensures Head(n, a) == HeadWord(ds[a])
      ensures ds[a].kind.Free? ==> PrevFoot(n, Nxt(ds, a)) == ds[a].size
    {
      if a != top && a != top + nb {
        TopApart(cs, top, topsize, nb, a);
        assert Nxt(ds, a) == Nxt(cs, a);
      }
    }
  }

  lemma TopApart(cs: Chunks, top: int, topsize: int, nb: int, a: int)
    requires Tiled(cs) && TopIs(cs, top, topsize) && a in cs && a != top && 0 < nb < topsize && nb % 8 == 0
    ensures a + 8 != top + 8 && a + 8 != top + nb + 8
    ensures FreeAt(cs, a) ==> Nxt(cs, a) != top + 8 && Nxt(cs, a) != top + nb + 8
  {
    assert ChunkOK(a, cs[a]) && ChunkOK(top, cs[top]);
    TiledSolid(cs);
    if FreeAt(cs, a) {
      assert Nxt(cs, a) in cs;
      if Nxt(cs, a) == Nxt(cs, top) {
        OnePrevious(cs, a, top);
      }
    }
  }

  lemma TopOnly(m: Mem, cs: Chunks, top: int, nb: int)
    requires top in cs && 0 < nb && nb + 8 <= cs[top].size && top + HEAD in m && top + nb + HEAD in m
    ensures TagsOnly(m, TopMem(m, top, nb, cs[top].size - nb), cs, {top})
  {
    var n := TopMem(m, top, nb, cs[top].size - nb);
    forall w | !TagWord(cs, {top}, w)
      ensures Rd(n, w) == Rd(m, w)
    {
      assert !(top + 8 <= w <= top + cs[top].size);
    }
  }

  lemma TopFree(cs: Chunks, loose: set<int>, top: int, nb: int)
    requires top in cs && cs[top].kind.Top? && top + nb !in cs && nb > 0 && forall a | a in loose :: FreeAt(cs, a)
    ensures FreeStep(cs, Split(cs, top, nb, Top), loose, loose)
  {
  }

  lemma TopCoalesced(cs: Chunks, top: int, nb: int)
    requires Coalesced(cs) && top in cs && cs[top].kind.Top? && top + nb !in cs && nb > 0
    ensures Coalesced(Split(cs, top, nb, Top))
  {
    var ds := Split(cs, top, nb, Top);
    forall a {:trigger Nxt(ds, a)} | a in ds && ds[a].kind.Free?
      ensures Nxt(ds, a) in ds && InUse(ds[Nxt(ds, a)].kind)
    {
      assert Nxt(ds, a) == Nxt(cs, a);
    }
  }

  /** Taking the first nb bytes of the top chunk. */
  lemma TopDone(v: View, loose: set<int>, nb: int, n: Mem, w: View)
    requires v.Laid() && v.Binned(loose) && Coalesced(v.chunks) && nb % 8 == 0 && MIN_CHUNK_SIZE <= nb < v.topsize
    requires n == TopMem(v.mem, v.top, nb, v.topsize - nb)
    requires v.top + HEAD in v.mem && v.top + nb + HEAD in v.mem && v.top in v.chunks
    requires w == v.(mem := n, chunks := Split(v.chunks, v.top, nb, Top), top := v.top + nb, topsize := v.topsize - nb)
    ensures w.Laid() && w.Binned(loose) && Coalesced(w.chunks) && DataKept(v.mem, n, v.chunks, v.direct, {v.top}, v.msp)
    ensures v.top + nb !in v.chunks
  {
    hide View.Binned, Tagged, TagsOnly, Recorded, AllDirectWords, Mapped, SegsOK, DirectOK, SizesOK, Apart, Linked;
    hide Preceded, DataKept;
    SplitTopShape(v.mem.Keys, v.chunks, v.top, v.topsize, v.segs, v.direct, v.msp, nb);
    LooseFree(v, loose);
    SizeEven(v.chunks, v.top);
    TopTagged(v.mem, v.chunks, v.top, v.topsize, nb);
    TopOnly(v.mem, v.chunks, v.top, nb);
    TopFree(v.chunks, loose, v.top, nb);
    TopCoalesced(v.chunks, v.top, nb);
    assert Inner(v.chunks, v.msp, {v.top});
    RetaggedOK(v, w, {v.top}, loose, loose);
  }
}
