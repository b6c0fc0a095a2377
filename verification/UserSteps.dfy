/** What `realloc` does to a block: stores into its data, and a new size in place. */
module UserSteps {
  import opened Memory
  import opened Layout
  import opened Bins
  import opened Segments
  import opened Steps
  import opened BinSteps
  import opened TagSteps
  import opened BestFit
  import opened Blocks
  import opened FreeSteps
  import opened SegSteps
  import opened DropSteps
  import opened TrimSteps
  import opened PrependSteps
  import opened DirectSteps
  import opened Bytes

  // ----- stores into the data of a block -----

  /** Memory n differs from m only in words of the block at p. */
  ghost predicate BlockStores(v: View, n: Mem, p: int) {
    n.Keys == v.mem.Keys && forall w | !(p <= w < p + Usable(v, p)) :: Rd(n, w) == Rd(v.mem, w)
  }

  lemma ChunkStores(v: View, n: Mem, p: int)
    requires Sound(v) && BlockStores(v, n, p) && p - 16 in v.chunks && v.chunks[p - 16].kind.Used?
    ensures Sound(v.(mem := n)) && Keeps(v, v.(mem := n), {p})
  {
    hide Tagged, Recorded, AllDirectWords, ShapeInv, View.Binned, BodiesKept, FreeStep, Coalesced, Keeps, BlockStores;
    var w, c := v.(mem := n), p - 16;
    var k := v.chunks[c].size - 8;
    var s := set x | p <= x < p + k && InRange(x, p, k);
    UserWords(v, n, p, s);
    OffNone(v);
    UserTagged(v, n, s);
    UserRecorded(v, n, c, s);
    DirectsOff(v, n, 0, 0, s);
    StateEnd(v);
    BodiesOff(v, n, 0, 0, s, {});
    SameFree(v);
    BinsRebuilt(v, w, {}, {}, {});
    UserKeeps(v, n, p, s);
    UserShape(v, n, p);
  }

  lemma UserShape(v: View, n: Mem, p: int)
    requires v.Laid() && BlockStores(v, n, p)
    ensures ShapeInv(n.Keys, v.chunks, v.top, v.topsize, v.segs, v.direct, v.msp)
  {
    hide ShapeInv, Tagged, Recorded, AllDirectWords;
  }

  /** The words of a block in a chunk are data words. */
  lemma UserWords(v: View, n: Mem, p: int, s: set<int>)
    requires v.Laid() && BlockStores(v, n, p) && p - 16 in v.chunks && v.chunks[p - 16].kind.Used?
    requires forall x :: x in s <==> p <= x < p + v.chunks[p - 16].size - 8
    ensures ChangesOnly(v.mem, n, 0, 0, s)
    ensures forall x | x in s :: DataWord(v, x)
  {
    hide View.Laid, DataWord;
    forall x | x in s
      ensures DataWord(v, x)
    {
      NotState(v, p - 16);
      HomeData(v, p - 16, x);
    }
  }

  lemma NotState(v: View, c: int)
    requires v.Laid() && c in v.chunks && v.chunks[c].kind.Used?
    ensures c != v.msp
  {
  }

  lemma UserTagged(v: View, n: Mem, s: set<int>)
    requires v.Laid() && ChangesOnly(v.mem, n, 0, 0, s) && (forall x | x in s :: DataWord(v, x)) &&
      (forall a | a in v.chunks :: Off(v.chunks, 0, 0, a))
    ensures Tagged(n, v.chunks)
  {
    hide View.Laid, DataWord, ChangesOnly, Off;
    forall a | a in v.chunks
      ensures Head(n, a) == HeadWord(v.chunks[a])
      ensures v.chunks[a].kind.Free? ==> PrevFoot(n, Nxt(v.chunks, a)) == v.chunks[a].size
    {
      TagsOff(v, n, 0, 0, s, a);
    }
  }

  lemma UserRecorded(v: View, n: Mem, c: int, s: set<int>)
    requires v.Laid() && ChangesOnly(v.mem, n, 0, 0, s) && (forall a | a in v.chunks :: Off(v.chunks, 0, 0, a))
    requires c in v.chunks && v.chunks[c].kind.Used? && forall x | x in s :: c + 16 <= x < c + v.chunks[c].size + 8
    ensures Recorded(n, v.segs)
  {
    hide View.Laid, ChangesOnly, Off, RecordAt, NextRec;
    forall j | 0 <= j < |v.segs|
      ensures RecordAt(n, v.segs[j], NextRec(v.segs, j))
    {
      forall x | x in s
        ensures !RecWord(v.segs, j, x)
      {
        UserNotRec(v, c, j, x);
      }
      RecHomeIn(v, j);
      RecordOff(v, n, 0, 0, s, j);
    }
  }

  lemma UserNotRec(v: View, c: int, j: int, x: int)
    requires v.Laid() && c in v.chunks && v.chunks[c].kind.Used? && c + 16 <= x < c + v.chunks[c].size + 8 &&
      0 <= j < |v.segs|
    ensures !RecWord(v.segs, j, x)
  {
    hide View.Laid, RecWord, RecHome;
    if RecWord(v.segs, j, x) {
      RecWordIn(v, j, x);
      HomesApart(v, c, RecHome(v.segs, j, v.msp), x);
    }
  }

  lemma UserKeeps(v: View, n: Mem, p: int, s: set<int>)
    requires v.Laid() && ChangesOnly(v.mem, n, 0, 0, s) && p - 16 in v.chunks && v.chunks[p - 16].kind.Used?
    requires forall x | x in s :: p <= x < p + v.chunks[p - 16].size - 8
    requires forall q, x | q in v.direct && q <= x < DirectEnd(q, v.direct[q]) :: Rd(n, x) == Rd(v.mem, x)
    ensures Keeps(v, v.(mem := n), {p})
  {
    hide View.Laid;
    forall q | q != p
      ensures BlockKept(v, v.(mem := n), q)
    {
      if q - 16 in v.chunks && v.chunks[q - 16].kind.Used? {
        forall x | q <= x < q + Usable(v, q)
          ensures Rd(n, x) == Rd(v.mem, x)
        {
          HomesApart(v, q - 16, p - 16, x);
        }
      }
    }
  }

  lemma DirectStores(v: View, n: Mem, p: int)
    requires Sound(v) && BlockStores(v, n, p) && p - 16 in v.direct
    ensures Sound(v.(mem := n)) && Keeps(v, v.(mem := n), {p})
  {
    hide View.Laid, View.Binned, Coalesced, Keeps, ClearOfHeap;
    var q, s := p - 16, v.direct[p - 16];
    DirectLook(v, q);
    NoUsedDirect(v, q);
    DirectKept(v, n, p);
    DirectPut(v, n, q, s, DirectEnd(q, s));
    assert v.direct[q := s] == v.direct;
  }

  lemma NoUsedDirect(v: View, q: int)
    requires v.Laid() && q in v.direct
    ensures Usable(v, q + 16) == v.direct[q] - 16
  {
    hide View.Laid;
    DirectLook(v, q);
  }

  lemma DirectKept(v: View, n: Mem, p: int)
    requires v.Laid() && BlockStores(v, n, p) && p - 16 in v.direct && Usable(v, p) == v.direct[p - 16] - 16
    ensures var q, s := p - 16, v.direct[p - 16];
      OnlyDirect(v, n, q, q, DirectEnd(q, s)) && DirectAt(n.Keys, q, s) && DirectWords(n, q, s)
  {
    hide Tagged, Recorded, Mapped, TopIs, StateAt, SegsOK, Tiled, DirectAlone, ClearOfHeap;
    var q, s := p - 16, v.direct[p - 16];
    DirectLook(v, q);
    assert DirectAt(v.mem.Keys, q, s) && DirectWords(v.mem, q, s);
  }

  /** Stores into the data of one block leave everything else as it was. */
  lemma UserStores(v: View, n: Mem, p: int)
    requires Sound(v) && BlockStores(v, n, p) && Usable(v, p) > 0
    ensures Sound(v.(mem := n)) && Keeps(v, v.(mem := n), {p})
  {
    hide View.Laid, View.Binned, Coalesced, Keeps, BlockStores;
    if p - 16 in v.chunks && v.chunks[p - 16].kind.Used? {
      ChunkStores(v, n, p);
    } else {
      DirectStores(v, n, p);
    }
  }

  // ----- shrinking in place -----

  /** The head of a chunk in use, keeping its pin bit. */
  function InUseHead(h: int, s: int): int {
    h % 2 + s + 2
  }

  /** The stores of both `set_inuse`, before the remainder is freed. */
  function ShrinkMem(m: Mem, p: int, nb: int, rsize: int): Mem {
    m[p + HEAD := InUseHead(Head(m, p), nb)][p + nb + HEAD := rsize + 3]
  }

  lemma ShrinkReady(v: View, p: int, nb: int)
    requires v.Laid() && p in v.chunks && v.chunks[p].kind.Used? && nb % 8 == 0 && MIN_CHUNK_SIZE <= nb &&
      v.chunks[p].size - nb >= MIN_CHUNK_SIZE
    ensures p + HEAD in v.mem && p + nb + HEAD in v.mem && p + v.chunks[p].size + HEAD in v.mem
    ensures Splits(v.chunks, p, nb, Used) && p + nb !in v.chunks && v.chunks[p].size % 8 == 0
    ensures SetPin(Head(v.mem, p + v.chunks[p].size)) == Head(v.mem, p + v.chunks[p].size)
  {
    hide Apart, Preceded, SegsOK, DirectOK, Recorded, AllDirectWords, HeadWord, TopIs;
    var n := Nxt(v.chunks, p);
    assert n in v.chunks && v.chunks[n].pin && ChunkOK(p, v.chunks[p]) && ChunkOK(n, v.chunks[n]);
    HeadBits(v.chunks[n]);
    ChunkMapped(v, p);
    ChunkMapped(v, n);
    InsideMapped(v, p, p + nb + HEAD);
    TiledSolid(v.chunks);
    SplitFresh(v.chunks, p, nb, Used);
  }

  lemma InsideMapped(v: View, p: int, w: int)
    requires v.Laid() && p in v.chunks && p <= w < p + v.chunks[p].size
    ensures w in v.mem
  {
    hide Tiled, SegsOK, DirectOK, Recorded, AllDirectWords, Tagged, TopIs, StateAt;
    assert w in v.mem.Keys;
  }

  lemma ShrinkStores(m: Mem, p: int, nb: int, rsize: int)
    requires nb > 0 && rsize > 0 && p + nb + rsize + HEAD in m
    requires SetPin(Rd(m, p + nb + rsize + HEAD)) == Rd(m, p + nb + rsize + HEAD)
    ensures var m1 := m[p + HEAD := InUseHead(Head(m, p), nb)]; var r := p + nb;
      var m2 := m1[r + HEAD := SetPin(Rd(m1, r + HEAD))]; var m3 := m2[r + HEAD := InUseHead(Rd(m2, r + HEAD), rsize)];
      m3[r + rsize + HEAD := SetPin(Rd(m3, r + rsize + HEAD))] == ShrinkMem(m, p, nb, rsize)
  {
  }

  lemma ShrinkTagged(m: Mem, cs: Chunks, top: int, topsize: int, p: int, nb: int)
    requires Tiled(cs) && TopIs(cs, top, topsize) && Tagged(m, cs) && p in cs && cs[p].kind.Used? &&
      Splits(cs, p, nb, Used) && p + nb !in cs
    ensures Tagged(ShrinkMem(m, p, nb, cs[p].size - nb), Split(cs, p, nb, Used))
  {
    hide SizesOK, Apart, Linked, Preceded;
    var n := ShrinkMem(m, p, nb, cs[p].size - nb);
    var ds := Split(cs, p, nb, Used);
    var r := p + nb;
    SizeEven(cs, p);
    PinOf(cs[p]);
    forall a | a in ds
      ensures Head(n, a) == HeadWord(ds[a])
      ensures ds[a].kind.Free? ==> PrevFoot(n, Nxt(ds, a)) == ds[a].size
    {
      if a != p && a != r {
        InsideOnly(cs, top, topsize, p, a, p + 8);
        InsideOnly(cs, top, topsize, p, a, r + 8);
        assert Nxt(ds, a) == Nxt(cs, a);
      }
    }
  }

  lemma PinOf(c: Chunk)
    requires c.kind.Used? && c.size % 8 == 0
    ensures HeadWord(c) % 2 == if c.pin then 1 else 0
  {
    hide HeadWord;
    HeadBits(c);
  }

  lemma ShrinkOnly(m: Mem, cs: Chunks, p: int, nb: int)
    requires p in cs && 0 < nb < cs[p].size - 8 && p + HEAD in m && p + nb + HEAD in m
    ensures TagsOnly(m, ShrinkMem(m, p, nb, cs[p].size - nb), cs, {p})
  {
    var n := ShrinkMem(m, p, nb, cs[p].size - nb);
    forall w | !TagWord(cs, {p}, w)
      ensures Rd(n, w) == Rd(m, w)
    {
      assert !(p + 8 <= w <= p + cs[p].size);
    }
  }

  lemma ShrinkCoalesced(cs: Chunks, p: int, nb: int)
    requires Coalesced(cs) && p in cs && cs[p].kind.Used? && p + nb !in cs && nb > 0
    ensures Coalesced(Split(cs, p, nb, Used)) && FreeStep(cs, Split(cs, p, nb, Used), {}, {})
  {
    var ds := Split(cs, p, nb, Used);
    forall a {:trigger Nxt(ds, a)} | a in ds && ds[a].kind.Free?
      ensures Nxt(ds, a) in ds && InUse(ds[Nxt(ds, a)].kind)
    {
      assert Nxt(ds, a) == Nxt(cs, a);
    }
  }

  /** Block p + 16 was cut to k bytes, and there is a new block at q + 16. */
  ghost predicate CutBlock(v: View, u: View, p: int, q: int, k: int) {
    && Keeps(v, u, {p + 16, q + 16}) && Usable(v, p + 16) > k && Usable(v, q + 16) == 0 && Usable(u, p + 16) == k
    && forall a | p + 16 <= a < p + 16 + k :: Rd(u.mem, a) == Rd(v.mem, a)
  }

  lemma ShrinkDone(v: View, p: int, nb: int, u: View)
    requires Sound(v) && p in v.chunks && v.chunks[p].kind.Used? && nb % 8 == 0 && MIN_CHUNK_SIZE <= nb &&
      v.chunks[p].size - nb >= MIN_CHUNK_SIZE
    requires u == v.(mem := ShrinkMem(v.mem, p, nb, v.chunks[p].size - nb), chunks := Split(v.chunks, p, nb, Used))
    ensures Sound(u) && CutBlock(v, u, p, p + nb, nb - 8)
    ensures p + nb in u.chunks && u.chunks[p + nb].kind.Used?
  {
    hide View.Binned, Tagged, TagsOnly, Recorded, AllDirectWords, Mapped, SegsOK, DirectOK, SizesOK, Apart, Linked;
    hide Preceded, DataKept, Coalesced, CutBlock, FreeStep, ShrinkMem, Split;
    ShrinkReady(v, p, nb);
    SplitShape(v.mem.Keys, v.chunks, v.top, v.topsize, v.segs, v.direct, v.msp, p, nb, Used);
    ShrinkTagged(v.mem, v.chunks, v.top, v.topsize, p, nb);
    ShrinkOnly(v.mem, v.chunks, p, nb);
    ShrinkCoalesced(v.chunks, p, nb);
    NotState(v, p);
    RetaggedOK(v, u, {p}, {}, {});
    ShrinkKeeps(v, p, nb, u);
  }

  lemma ShrinkKeeps(v: View, p: int, nb: int, u: View)
    requires v.Laid() && u.Laid() && DataKept(v.mem, u.mem, v.chunks, v.direct, {p}, v.msp)
    requires p in v.chunks && v.chunks[p].kind.Used? && p + nb !in v.chunks &&
      MIN_CHUNK_SIZE <= nb < v.chunks[p].size - 8
    requires u == v.(mem := ShrinkMem(v.mem, p, nb, v.chunks[p].size - nb), chunks := Split(v.chunks, p, nb, Used))
    ensures CutBlock(v, u, p, p + nb, nb - 8)
    ensures p + nb in u.chunks && u.chunks[p + nb].kind.Used?
  {
    hide View.Laid, DataKept, Keeps;
    NoDirectChunk(v, p);
    NoDirectChunk(u, p + nb);
    CutUsed(v.chunks, p, nb);
    CutKeeps(v, u, p, p + nb);
  }

  lemma CutUsed(cs: Chunks, p: int, nb: int)
    requires p in cs && cs[p].kind.Used? && p + nb !in cs
    ensures forall a | a != p && a != p + nb :: UsedSize(Split(cs, p, nb, Used), a) == UsedSize(cs, a)
  {
  }

  lemma CutKeeps(v: View, u: View, p: int, q: int)
    requires v.Laid() && u.Laid() && u.direct == v.direct && DataKept(v.mem, u.mem, v.chunks, v.direct, {p}, v.msp) &&
      q !in v.chunks
    requires forall a | a != p && a != q :: UsedSize(u.chunks, a) == UsedSize(v.chunks, a)
    ensures Keeps(v, u, {p + 16, q + 16})
  {
    hide View.Laid;
    MoreExcept(v.mem, u.mem, v.chunks, v.direct, p, q, v.msp);
    KeepsStep(v, u, {p, q}, {p + 16, q + 16});
  }

  lemma MoreExcept(m: Mem, n: Mem, cs: Chunks, direct: map<int, int>, p: int, q: int, msp: int)
    requires DataKept(m, n, cs, direct, {p}, msp)
    ensures DataKept(m, n, cs, direct, {p, q}, msp)
  {
  }

  /** With the remainder gone, the block at p is the only one that changed. */
  lemma CutThenGone(v: View, u: View, w: View, p: int, q: int, k: int, n: int)
    requires CutBlock(v, u, p, q, k) && Gone(u, w, q) && p != q && n <= k && k > 0
    ensures Regrown(v, w, p + 16, n) && Usable(w, p + 16) == k
  {
    hide Usable;
    assert BlockKept(u, w, p + 16);
    forall x | x !in {p + 16}
      ensures BlockKept(v, w, x)
    {
      if x != q + 16 {
        assert BlockKept(v, u, x) && BlockKept(u, w, x);
      }
    }
  }

  // ----- growing into the top chunk -----

  function GrowMem(m: Mem, p: int, nb: int, newtopsize: int): Mem {
    m[p + HEAD := InUseHead(Head(m, p), nb)][p + nb + HEAD := newtopsize + 1]
  }

  function Grown(cs: Chunks, p: int, top: int, nb: int, newtopsize: int): Chunks
    requires p in cs
  {
    (cs - {top})[p := Chunk(nb, Used, cs[p].pin)][p + nb := Chunk(newtopsize, Top, true)]
  }

  /** Chunk p in use lies before the top chunk, and nb bytes fit into both. */
  ghost predicate Grows(v: View, p: int, nb: int) {
    && p in v.chunks && v.chunks[p].kind.Used? && Nxt(v.chunks, p) == v.top && v.top in v.chunks
    && nb % 8 == 0 && MIN_CHUNK_SIZE <= nb && v.chunks[p].size < nb < v.chunks[p].size + v.topsize
  }

  lemma GrowStores(m: Mem, p: int, nb: int, newtopsize: int)
    ensures var m1 := m[p + HEAD := InUseHead(Head(m, p), nb)]; var t := p + nb + HEAD;
      m1[t := SetPin(Rd(m1, t))][t := newtopsize + 1] == GrowMem(m, p, nb, newtopsize)
  {
  }

  lemma GrownIsSteps(v: View, p: int, nb: int)
    requires v.Laid() && Grows(v, p, nb)
    ensures Nxt(v.chunks, p) in v.chunks && Joins(Release(v.chunks, p), p)
    ensures var d := Join(Release(v.chunks, p), p); var s := v.chunks[p].size + v.topsize;
      p in d && d[p] == Chunk(s, Top, v.chunks[p].pin) && Grown(v.chunks, p, v.top, nb, s - nb) == Split(d, p, nb, Top)
  {
    hide SizesOK, Apart, Linked, Preceded, Mapped, SegsOK, DirectOK, Tagged, Recorded, AllDirectWords;
    TopKind(v);
    NextDiffers(v.chunks, p);
  }

  lemma GrownShape(v: View, p: int, nb: int)
    requires v.Laid() && Grows(v, p, nb)
    ensures var s := v.chunks[p].size + v.topsize - nb;
      ShapeInv(v.mem.Keys, Grown(v.chunks, p, v.top, nb, s), p + nb, s, v.segs, v.direct, v.msp)
    ensures p + nb !in v.chunks
  {
    hide Tiled, Mapped, SegsOK, DirectOK, StateAt, TopIs, Tagged, Recorded, AllDirectWords, Grown;
    GrownIsSteps(v, p, nb);
    ReleaseShape(v.mem.Keys, v.chunks, v.top, v.topsize, v.segs, v.direct, v.msp, p);
    var d0 := Release(v.chunks, p);
    var d := Join(d0, p);
    JoinShape(v.mem.Keys, d0, v.top, v.topsize, v.segs, v.direct, v.msp, p);
    var s := v.chunks[p].size + v.topsize;
    SplitTopShape(v.mem.Keys, d, p, s, v.segs, v.direct, v.msp, nb);
    GrownFresh(v, p, nb);
  }

  lemma GrownFresh(v: View, p: int, nb: int)
    requires v.Laid() && Grows(v, p, nb)
    ensures p + nb !in v.chunks
  {
    hide Linked, Preceded, Mapped, SegsOK, DirectOK, StateAt, Tagged, Recorded, AllDirectWords;
    TopKind(v);
    if p + nb in v.chunks {
      SizePositive(v, p + nb);
    }
  }

  lemma GrownTagged(v: View, p: int, nb: int)
    requires v.Laid() && Grows(v, p, nb)
    ensures var s := v.chunks[p].size + v.topsize - nb;
      Tagged(GrowMem(v.mem, p, nb, s), Grown(v.chunks, p, v.top, nb, s))
  {
    hide SizesOK, Apart, Linked, Preceded, Mapped, SegsOK, DirectOK, StateAt, Recorded, AllDirectWords;
    var s := v.chunks[p].size + v.topsize - nb;
    var n, ds := GrowMem(v.mem, p, nb, s), Grown(v.chunks, p, v.top, nb, s);
    SizeEven(v.chunks, p);
    PinOf(v.chunks[p]);
    TopKind(v);
    forall a | a in ds
      ensures Head(n, a) == HeadWord(ds[a])
      ensures ds[a].kind.Free? ==> PrevFoot(n, Nxt(ds, a)) == ds[a].size
    {
      if a != p && a != p + nb {
        GrownAside(v, p, nb, a);
        assert Nxt(ds, a) == Nxt(v.chunks, a);
      }
    }
  }

  /** Other chunks keep off the two words. */
  lemma GrownAside(v: View, p: int, nb: int, a: int)
    requires v.Laid() && Grows(v, p, nb) && a in v.chunks && a != p && a != v.top
    ensures a + 8 != p + 8 && a + 8 != p + nb + 8
    ensures FreeAt(v.chunks, a) ==> Nxt(v.chunks, a) != p + 8 && Nxt(v.chunks, a) != p + nb + 8
  {
    hide Preceded, Mapped, SegsOK, DirectOK, StateAt, Tagged, Recorded, AllDirectWords;
    TopKind(v);
    GrownFresh(v, p, nb);
    InsideOnly(v.chunks, v.top, v.topsize, p, a, p + 8);
    if FreeAt(v.chunks, a) {
      var y := Nxt(v.chunks, a);
      assert y in v.chunks && ChunkOK(y, v.chunks[y]) && ChunkOK(p, v.chunks[p]);
      NextNotFoot(v.chunks, v.top, v.topsize, a);
      if y == p + nb + 8 {
        InTop(v, y);
      }
    }
  }

  /** No chunk but the top chunk begins in it. */
  lemma InTop(v: View, y: int)
    requires v.Laid() && y in v.chunks
    ensures !(v.top < y < v.top + v.topsize)
  {
    hide Preceded, Mapped, SegsOK, DirectOK, StateAt, Tagged, Recorded, AllDirectWords, Linked;
    SizePositive(v, y);
  }

  lemma GrownOnly(v: View, p: int, nb: int)
    requires v.Laid() && Grows(v, p, nb) && p + HEAD in v.mem && p + nb + HEAD in v.mem
    ensures var s := v.chunks[p].size + v.topsize - nb; TagsOnly(v.mem, GrowMem(v.mem, p, nb, s), v.chunks, {p, v.top})
    ensures Inner(v.chunks, v.msp, {p, v.top})
  {
    hide Tiled, Mapped, SegsOK, DirectOK, Tagged, Recorded, AllDirectWords;
    TopKind(v);
    SizeEvenView(v, p);
    var n := GrowMem(v.mem, p, nb, v.chunks[p].size + v.topsize - nb);
    forall w | !TagWord(v.chunks, {p, v.top}, w)
      ensures Rd(n, w) == Rd(v.mem, w)
    {
      assert !(v.top + 8 <= w <= v.top + v.chunks[v.top].size);
      assert w != p + 8;
    }
  }

  lemma SizeEvenView(v: View, p: int)
    requires v.Laid() && p in v.chunks
    ensures v.chunks[p].size % 8 == 0 && p % 8 == 0 && v.chunks[p].size >= 8 && v.topsize % 8 == 0
  {
    hide Mapped, SegsOK, DirectOK, Tagged, Recorded, AllDirectWords, Linked, Preceded, Apart;
    SizeEven(v.chunks, p);
    SizeEven(v.chunks, v.top);
  }

  lemma GrownFree(v: View, p: int, nb: int)
    requires v.Laid() && Coalesced(v.chunks) && Grows(v, p, nb)
    ensures var ds := Grown(v.chunks, p, v.top, nb, v.chunks[p].size + v.topsize - nb);
      && Coalesced(ds) && FreeStep(v.chunks, ds, {}, {})
      && (forall a | a != p :: UsedSize(ds, a) == UsedSize(v.chunks, a)) && UsedSize(ds, p) == nb
  {
    hide Tiled, Mapped, SegsOK, DirectOK, Tagged, Recorded, AllDirectWords, StateAt;
    GrownFresh(v, p, nb);
    TopKind(v);
    var ds := Grown(v.chunks, p, v.top, nb, v.chunks[p].size + v.topsize - nb);
    forall a {:trigger Nxt(ds, a)} | a in ds && ds[a].kind.Free?
      ensures Nxt(ds, a) in ds && InUse(ds[Nxt(ds, a)].kind)
    {
      assert Nxt(ds, a) == Nxt(v.chunks, a);
    }
  }

  /** Mapped words, and what is read. */
  lemma GrowReady(v: View, p: int, nb: int)
    requires v.Laid() && Grows(v, p, nb)
    ensures p in v.chunks
    ensures p + HEAD in v.mem && p + nb + HEAD in v.mem
  {
    hide Tiled, Mapped, SegsOK, DirectOK, Tagged, Recorded, AllDirectWords, StateAt;
    TopKind(v);
    ChunkMapped(v, p);
    SizeEvenView(v, p);
    OldTop(v, p + nb + HEAD);
  }

  lemma OldTop(v: View, w: int)
    requires v.Laid() && v.top <= w < v.top + v.topsize + TOP_FOOT_SIZE
    ensures w in v.mem
  {
    hide Tiled, SegsOK, DirectOK, Tagged, Recorded, AllDirectWords, StateAt;
    var f := v.top + v.topsize;
    if w < f {
      assert v.top <= w < v.top + v.chunks[v.top].size;
      assert w in v.mem.Keys;
    } else {
      assert f <= w < f + v.chunks[f].size;
      assert w in v.mem.Keys;
    }
  }

  lemma GrowDone(v: View, p: int, nb: int, u: View)
    requires Sound(v) && Grows(v, p, nb)
    requires var s := v.chunks[p].size + v.topsize - nb;
      u == v.(mem := GrowMem(v.mem, p, nb, s), chunks := Grown(v.chunks, p, v.top, nb, s), top := p + nb, topsize := s)
    ensures Sound(u) && Regrown(v, u, p + 16, nb - 8) && Usable(u, p + 16) == nb - 8
  {
    hide View.Binned, Tagged, TagsOnly, Recorded, AllDirectWords, Mapped, SegsOK, DirectOK, Tiled, DataKept;
    hide Coalesced, FreeStep, GrowMem, Grown, Regrown, StateAt, TopIs;
    GrowReady(v, p, nb);
    GrownShape(v, p, nb);
    GrownTagged(v, p, nb);
    GrownOnly(v, p, nb);
    GrownFree(v, p, nb);
    TopNotFree(v);
    RetaggedOK(v, u, {p, v.top}, {}, {});
    GrowKeeps(v, p, nb, u);
    GrownUsed(v.chunks, p, v.top, nb, v.chunks[p].size + v.topsize - nb);
  }

  lemma GrownUsed(cs: Chunks, p: int, top: int, nb: int, newtopsize: int)
    requires p in cs && nb > 0
    ensures UsedAt(Grown(cs, p, top, nb, newtopsize), p, nb)
  {
  }

  lemma TopNotFree(v: View)
    requires v.Laid()
    ensures !FreeAt(v.chunks, v.top)
  {
  }

  lemma GrowKeeps(v: View, p: int, nb: int, u: View)
    requires v.Laid() && u.Laid() && Grows(v, p, nb) && DataKept(v.mem, u.mem, v.chunks, v.direct, {p, v.top}, v.msp)
    requires (forall a | a != p :: UsedSize(u.chunks, a) == UsedSize(v.chunks, a)) && UsedSize(u.chunks, p) == nb
    requires u.direct == v.direct && u.mem == GrowMem(v.mem, p, nb, v.chunks[p].size + v.topsize - nb)
    ensures Regrown(v, u, p + 16, nb - 8)
  {
    hide View.Laid, DataKept, Keeps;
    TopKind(v);
    SizeEvenView(v, p);
    ChunkPositive(v, p);
    SizePositiveIn(v, p);
    UnusedKept(v.mem, u.mem, v.chunks, v.direct, p, v.top, v.msp);
    KeepsStep(v, u, {p}, {p + 16});
  }

  lemma SizePositiveIn(v: View, p: int)
    requires v.Laid() && p in v.chunks && v.chunks[p].kind.Used?
    ensures v.chunks[p].size >= MIN_CHUNK_SIZE
  {
    hide Mapped, SegsOK, DirectOK, Tagged, Recorded, AllDirectWords, Linked, Preceded, Apart;
    UsedLarge(v.chunks, p);
  }

  lemma UnusedKept(m: Mem, n: Mem, cs: Chunks, direct: map<int, int>, p: int, top: int, msp: int)
    requires DataKept(m, n, cs, direct, {p, top}, msp) && top in cs && !cs[top].kind.Used?
    ensures DataKept(m, n, cs, direct, {p}, msp)
  {
  }

  // ----- bytes of blocks -----

  /** A block starts at a multiple of 8 and holds a multiple of 8 bytes, all of them mapped. */
  lemma BlockWords(v: View, p: int)
    requires Sound(v) && Usable(v, p) > 0
    ensures p % 8 == 0 && Usable(v, p) % 8 == 0 && forall w | p <= w < p + Usable(v, p) && w % 8 == 0 :: w in v.mem
  {
    hide View.Laid, View.Binned, Coalesced;
    if p - 16 in v.chunks && v.chunks[p - 16].kind.Used? {
      SizeEvenView(v, p - 16);
      UsedWords(v, p - 16);
    } else {
      DirectLook(v, p - 16);
      DirectWordsMapped(v, p - 16);
    }
  }

  lemma UsedWords(v: View, c: int)
    requires v.Laid() && c in v.chunks && v.chunks[c].kind.Used?
    ensures forall w | c + 16 <= w < c + v.chunks[c].size + 8 && w % 8 == 0 :: w in v.mem
  {
    hide SegsOK, DirectOK, Recorded, AllDirectWords, Tagged, TopIs, StateAt, Preceded, Apart;
    var y := Nxt(v.chunks, c);
    assert y in v.chunks && ChunkOK(c, v.chunks[c]);
    ChunkMapped(v, y);
    forall w | c + 16 <= w < c + v.chunks[c].size + 8 && w % 8 == 0
      ensures w in v.mem
    {
      if w < y {
        assert w in v.mem.Keys;
      }
    }
  }

  lemma SetByteStores(v: View, m: Mem, dst: int, i: nat, b: int)
    requires BlockStores(v, m, dst) && dst % 8 == 0 && i < Usable(v, dst) && 0 <= b < 256
    requires Usable(v, dst) % 8 == 0 && forall w | dst <= w < dst + Usable(v, dst) && w % 8 == 0 :: w in v.mem
    ensures BlockStores(v, SetByte(m, dst + i, b), dst)
  {
    hide Usable, PutByte;
    var w := WordOf(dst + i);
    assert dst <= w < dst + Usable(v, dst) && w % 8 == 0;
    assert w in m.Keys;
  }

  /** What `free` reads to find out whether a block is a direct chunk. */
  lemma BlockLook(v: View, p: int)
    requires Sound(v) && Usable(v, p + 16) > 0
    ensures p in v.mem && p + HEAD in v.mem
    ensures !PInUse(Head(v.mem, p)) && Rd(v.mem, p) % 2 == 1 <==> p in v.direct
    ensures p !in v.direct ==> p in v.chunks && v.chunks[p].kind.Used?
    ensures ChunkSize(Head(v.mem, p)) == if p in v.direct then v.direct[p] else v.chunks[p].size
  {
    hide View.Laid, View.Binned, Coalesced;
    if p in v.direct {
      DirectLook(v, p);
    } else {
      var a := FreesFrom(v, p);
      FreedReady(v, p, a);
      ChunkMapped(v, p);
      FreesPin(v, p, a);
    }
  }

  lemma FreesPin(v: View, p: int, a: int)
    requires Frees(v.chunks, p, a) && a <= p && (a != p ==> a < p)
    ensures v.chunks[p].pin <==> a == p
  {
  }

  lemma TopUsed(v: View)
    requires Sound(v)
    ensures v.top != 0 && v.topsize < ADDRESS_LIMIT
  {
    hide View.Laid;
    TopBelow(v);
    TopKind(v);
    SizePositive(v, v.top);
  }

  lemma TopBelow(v: View)
    requires v.Laid()
    ensures 0 < v.topsize < ADDRESS_LIMIT
  {
    hide View.Laid;
    TopHeld(v, 0) by {
      FirstRec(v);
    }
    TopKind(v);
    FootBelow(v);
  }

  /** No chunk is as large as a request near 2^64. */
  lemma MaxFitsNot(v: View, nb: nat)
    requires v.Laid()
    ensures nb >= ADDRESS_LIMIT ==> !FreeFits(v, nb)
  {
    hide View.Laid;
    if nb >= ADDRESS_LIMIT {
      forall a | FreeAt(v.chunks, a)
        ensures v.chunks[a].size < nb
      {
        SmallAddress(v, a);
      }
    }
  }

  lemma NoneFits(v: View, nb: nat, x: int)
    requires Sound(v) && nb >= MIN_LARGE_SIZE && BestFor(v, nb, x) && (x == 0 || nb <= v.dvsize)
    ensures nb <= v.dvsize || !FreeFits(v, nb)
  {
    hide View.Laid, View.Binned, Coalesced, FreeFits, BestFor;
    if v.dvsize < nb {
      LargeNoFit(v, nb);
    }
  }

  // ----- reallocation -----

  function Min(a: int, b: int): int { if a < b then a else b }

  /** The block at p has become the one at q with at least n bytes, and its first bytes came along; all other blocks are
      kept. */
  ghost predicate Reallocated(v: View, w: View, p: int, q: int, n: int) {
    && q > 0 && q % 8 == 0 && Usable(w, q) >= n && Keeps(v, w, {p, q})
    && (q != p ==> Usable(v, q) == 0 && Usable(w, p) == 0)
    && SameBytes(v.mem, p, w.mem, q, Min(Usable(v, p), n))
  }

  lemma RegrownReallocated(v: View, w: View, p: int, n: int, k: int)
    requires Sound(v) && Regrown(v, w, p, n) && k <= n
    ensures Reallocated(v, w, p, p, k)
  {
    hide View.Laid, View.Binned, Coalesced, Usable, SameBytes;
    BlockWords(v, p);
    BlockAbove(v, p);
    WordsToBytes(v.mem, w.mem, p, Min(Usable(v, p), k));
    assert {p, p} == {p};
  }

  lemma BlockAbove(v: View, p: int)
    requires Sound(v) && Usable(v, p) > 0
    ensures p > 0
  {
    hide View.Laid, View.Binned, Coalesced;
    if p - 16 in v.chunks {
      ChunkPositive(v, p - 16);
    } else {
      DirectLook(v, p - 16);
    }
  }

  /** Live blocks do not overlap. */
  lemma BlocksApart(v: View, p: int, q: int)
    requires Sound(v) && Usable(v, p) > 0 && Usable(v, q) > 0 && p < q
    ensures p + Usable(v, p) <= q
  {
    hide View.Binned, Tagged, Recorded, AllDirectWords, Mapped, SegsOK, Preceded, Linked, TopIs, StateAt;
    var a, b := p - 16, q - 16;
    if a in v.chunks && v.chunks[a].kind.Used? {
      if b in v.chunks && v.chunks[b].kind.Used? {
        assert a + v.chunks[a].size <= b;
      } else {
        assert DirectAlone(v.chunks, v.segs, b, v.direct[b]);
        DirectPositive(v, b);
      }
    } else {
      DirectPositive(v, a);
      if b in v.chunks && v.chunks[b].kind.Used? {
        assert DirectAlone(v.chunks, v.segs, a, v.direct[a]);
        ChunkPositive(v, b);
      } else {
        assert DirectEnd(a, v.direct[a]) <= b;
      }
    }
  }

  /** The block at p is untouched by the grant of another one. */
  lemma GrantKept(v: View, u: View, p: int, q: int, n: int)
    requires Sound(v) && Granted(v, u, q, n) && Usable(v, p) > 0
    ensures p != q && Usable(u, p) == Usable(v, p) && SameBytes(v.mem, p, u.mem, p, Usable(v, p))
  {
    hide View.Laid, View.Binned, Coalesced, Usable, SameBytes;
    BlockWords(v, p);
    assert BlockKept(v, u, p);
    WordsToBytes(v.mem, u.mem, p, Usable(v, p));
  }

  /** Malloc, copy, free. */
  lemma CopyReallocated(v: View, u: View, w: View, z: View, p: int, q: int, n: int, k: int)
    requires Sound(v) && Sound(w) && Granted(v, u, q, n) && n > 0 && Usable(v, p) > 0 && k == Min(Usable(v, p), n)
    requires Keeps(u, w, {q}) && w == u.(mem := w.mem) && SameBytes(u.mem, p, w.mem, q, k)
    requires Keeps(w, z, {p}) && Usable(z, p) == 0
    ensures Reallocated(v, z, p, q, n)
  {
    hide View.Laid, View.Binned, Coalesced, SameBytes;
    GrantKept(v, u, p, q, n);
    assert Usable(w, q) == Usable(u, q);
    BytesChain(v.mem, u.mem, w.mem, p, q, k);
    BlockWords(w, q);
    assert BlockKept(w, z, q);
    WordsToBytes(w.mem, z.mem, q, k);
    BytesMoved(v.mem, w.mem, z.mem, p, q, k);
    CopyKeeps(v, u, w, z, p, q);
  }

  lemma CopyKeeps(v: View, u: View, w: View, z: View, p: int, q: int)
    requires Keeps(v, u, {q}) && Keeps(u, w, {q}) && Keeps(w, z, {p})
    ensures Keeps(v, z, {p, q})
  {
    hide Keeps;
    KeepsThen(v, u, w, {q}, {q});
    assert {q} + {q} == {q};
    KeepsThen(v, w, z, {q}, {p});
    assert {q} + {p} == {p, q};
  }

  lemma BytesChain(m: Mem, n: Mem, o: Mem, p: int, q: int, k: int)
    requires SameBytes(n, p, o, q, k) && exists l :: l >= k && SameBytes(m, p, n, p, l)
    ensures SameBytes(m, p, o, q, k)
  {
  }

  lemma BytesMoved(m: Mem, n: Mem, o: Mem, p: int, q: int, k: int)
    requires SameBytes(m, p, n, q, k) && SameBytes(n, q, o, q, k)
    ensures SameBytes(m, p, o, q, k)
  {
  }

  /** The chunk of a block, by its head. */
  lemma BlockBefore(v: View, p: int)
    requires Sound(v) && Usable(v, p) > 0
    ensures p - 16 > 0
    ensures var a := p - 16;
      Usable(v, p) == if a in v.direct then v.direct[a] - 16 else (if a in v.chunks then v.chunks[a].size else 0) - 8
  {
    hide View.Laid, View.Binned, Coalesced;
    if p - 16 in v.direct {
      DirectLook(v, p - 16);
    } else {
      ChunkPositive(v, p - 16);
    }
  }

  lemma RegrownStays(v: View, p: int, n: int)
    requires Usable(v, p) > 0 && Usable(v, p) >= n
    ensures Regrown(v, v, p, n)
  {
  }

  lemma GrowsNow(v: View, p: int, nb: int)
    requires Sound(v) && p in v.chunks && v.chunks[p].kind.Used? && p + v.chunks[p].size == v.top && nb % 8 == 0 &&
      MIN_CHUNK_SIZE <= nb
    requires v.chunks[p].size < nb < v.chunks[p].size + v.topsize
    ensures Grows(v, p, nb)
  {
    hide View.Laid, View.Binned, Coalesced;
    TopKind(v);
  }

  /** A block keeps its kind. */
  lemma DirectStays(v: View, u: View, p: int)
    requires Sound(v) && Sound(u) && Usable(v, p) > 0 && Usable(u, p) == Usable(v, p) &&
      (p - 16 in v.direct <==> p - 16 in u.direct)
    ensures Usable(v, p) == ChunkSize(Head(v.mem, p - 16)) - if p - 16 in u.direct then 16 else 8
  {
    hide View.Laid, View.Binned, Coalesced;
    BlockLook(v, p - 16);
    BlockBefore(v, p);
  }

  lemma GrantedRoom(v: View, u: View, q: int, n: int)
    requires Granted(v, u, q, n) && n > 0
    ensures Usable(u, q) >= n && q > 0
  {
  }

  lemma ApartEither(u: View, p: int, q: int)
    requires Sound(u) && Usable(u, p) > 0 && Usable(u, q) > 0 && p != q
    ensures p + Usable(u, p) <= q || q + Usable(u, q) <= p
  {
    hide View.Laid, View.Binned, Coalesced, Usable;
    BlocksApart(u, if p < q then p else q, if p < q then q else p);
  }

  lemma StillThere(u: View, w: View, p: int, q: int)
    requires Keeps(u, w, {q}) && p != q && Usable(u, p) > 0
    ensures Usable(w, p) > 0
  {
    assert BlockKept(u, w, p);
  }
}
