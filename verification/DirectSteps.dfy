/** Chunks with a mapping of their own. */
module DirectSteps {
  import opened Memory
  import opened Layout
  import opened Bins
  import opened Segments
  import opened BinSteps
  import opened TagSteps
  import opened BestFit
  import opened Blocks
  import opened FreeSteps
  import opened SegSteps
  import opened DropSteps
  import opened AddSteps
  import opened PrependSteps

  /** Memory n differs from v.mem only in the range, which nothing but direct chunk p may use. */
  ghost predicate OnlyDirect(v: View, n: Mem, p: int, lo: int, hi: int) {
    && lo % 8 == 0 && lo < hi && ChangesOnly(v.mem, n, lo, hi, {})
    && (forall w | !(lo <= w < hi) && w in v.mem.Keys :: w in n.Keys)
    && ClearOfHeap(v.chunks, v.segs, v.direct - {p}, lo, hi - lo)
  }

  ghost function Undirected(v: View, n: Mem, p: int): View {
    v.(mem := n, direct := v.direct - {p})
  }

  lemma DirectPositive(u: View, r: int)
    requires u.Laid() && r in u.direct
    ensures u.direct[r] > 16 && r > 0 && r !in u.chunks && r % 8 == 0
  {
    hide Tagged, Recorded, Mapped, TopIs, StateAt, SegsOK, Linked, Preceded, Apart;
    assert DirectAt(u.mem.Keys, r, u.direct[r]) && DirectAlone(u.chunks, u.segs, r, u.direct[r]);
    PageAligned(r);
    if r in u.chunks {
      NoDirectChunk(u, r);
    }
  }

  /** Chunks lie off the range. */
  lemma DirectOff(v: View, n: Mem, p: int, lo: int, hi: int, a: int)
    requires v.Laid() && OnlyDirect(v, n, p, lo, hi) && a in v.chunks
    ensures Off(v.chunks, lo, hi, a)
  {
    hide Tagged, Recorded, AllDirectWords, Mapped, TopIs, StateAt, SegsOK, DirectOK, Apart, Preceded;
    if !Ends(v.chunks[a].kind) {
      var y := Nxt(v.chunks, a);
      assert y in v.chunks && ChunkOK(y, v.chunks[y]);
    }
  }

  lemma UndirectShape(v: View, n: Mem, p: int, lo: int, hi: int)
    requires v.Laid() && OnlyDirect(v, n, p, lo, hi)
    ensures ShapeInv(n.Keys, v.chunks, v.top, v.topsize, v.segs, v.direct - {p}, v.msp)
  {
    hide RecsOwned, Tagged, Recorded, AllDirectWords, TopIs, StateAt, Tiled, SegsApart, NoCross, Retired, DirectAlone;
    forall a, w | a in v.chunks && a <= w < a + v.chunks[a].size
      ensures w in n.Keys
    {
      assert w in v.mem.Keys;
    }
    forall i | 0 <= i < |v.segs|
      ensures SegAt(n.Keys, v.chunks, v.segs[i])
    {
      assert SegAt(v.mem.Keys, v.chunks, v.segs[i]);
    }
    forall q | q in v.direct - {p}
      ensures DirectAt(n.Keys, q, v.direct[q]) && DirectAlone(v.chunks, v.segs, q, v.direct[q])
    {
      assert DirectAt(v.mem.Keys, q, v.direct[q]);
    }
  }

  lemma UndirectTagged(v: View, n: Mem, p: int, lo: int, hi: int)
    requires v.Laid() && OnlyDirect(v, n, p, lo, hi)
    ensures Tagged(n, v.chunks)
  {
    hide View.Laid, OnlyDirect, Off, ChangesOnly;
    OnlyChanges(v, n, p, lo, hi);
    forall a | a in v.chunks
      ensures Head(n, a) == HeadWord(v.chunks[a])
      ensures v.chunks[a].kind.Free? ==> PrevFoot(n, Nxt(v.chunks, a)) == v.chunks[a].size
    {
      DirectOff(v, n, p, lo, hi, a);
      TagsOff(v, n, lo, hi, {}, a);
    }
  }

  lemma OnlyChanges(v: View, n: Mem, p: int, lo: int, hi: int)
    requires OnlyDirect(v, n, p, lo, hi)
    ensures ChangesOnly(v.mem, n, lo, hi, {}) && lo % 8 == 0
  {
  }

  lemma UndirectRecorded(v: View, n: Mem, p: int, lo: int, hi: int)
    requires v.Laid() && OnlyDirect(v, n, p, lo, hi)
    ensures Recorded(n, v.segs)
  {
    hide View.Laid, OnlyDirect, Off, ChangesOnly, RecordAt, RecHome, NextRec;
    OnlyChanges(v, n, p, lo, hi);
    forall i | 0 <= i < |v.segs|
      ensures RecordAt(n, v.segs[i], NextRec(v.segs, i))
    {
      RecHomeIn(v, i);
      DirectOff(v, n, p, lo, hi, RecHome(v.segs, i, v.msp));
      RecordOff(v, n, lo, hi, {}, i);
    }
  }

  lemma UndirectWord(v: View, n: Mem, p: int, lo: int, hi: int, q: int)
    requires v.Laid() && OnlyDirect(v, n, p, lo, hi) && q in v.direct && q != p
    ensures forall w | q <= w < DirectEnd(q, v.direct[q]) :: Rd(n, w) == Rd(v.mem, w)
    ensures DirectWords(n, q, v.direct[q])
  {
    hide Recorded, TopIs, StateAt, Tiled, SegsOK, DirectAlone, Mapped, Tagged, DirectOK;
    var rest := v.direct - {p};
    assert q in rest && rest[q] == v.direct[q];
    assert DirectEnd(q, rest[q]) <= lo || hi <= q;
    assert DirectWords(v.mem, q, v.direct[q]);
    DirectPositive(v, q);
  }

  lemma UndirectWords(v: View, n: Mem, p: int, lo: int, hi: int)
    requires v.Laid() && OnlyDirect(v, n, p, lo, hi)
    ensures AllDirectWords(n, v.direct - {p})
    ensures forall q, w | q in v.direct && q != p && q <= w < DirectEnd(q, v.direct[q]) :: Rd(n, w) == Rd(v.mem, w)
  {
    hide View.Laid, OnlyDirect, DirectWords;
    forall q | q in v.direct && q != p
      ensures forall w | q <= w < DirectEnd(q, v.direct[q]) :: Rd(n, w) == Rd(v.mem, w)
      ensures DirectWords(n, q, v.direct[q])
    {
      UndirectWord(v, n, p, lo, hi, q);
    }
  }

  lemma UndirectBodies(v: View, n: Mem, p: int, lo: int, hi: int)
    requires v.Laid() && OnlyDirect(v, n, p, lo, hi)
    ensures BodiesKept(v.mem, n, v.chunks, v.msp, {})
  {
    hide View.Laid, OnlyDirect, Off, ChangesOnly, BodiesKept;
    OnlyChanges(v, n, p, lo, hi);
    StateEnd(v);
    forall a | a in v.chunks
      ensures Off(v.chunks, lo, hi, a)
    {
      DirectOff(v, n, p, lo, hi, a);
    }
    BodiesOff(v, n, lo, hi, {}, {});
  }

  lemma UndirectKeeps(v: View, n: Mem, p: int, lo: int, hi: int)
    requires v.Laid() && OnlyDirect(v, n, p, lo, hi)
    ensures Keeps(v, Undirected(v, n, p), {p + 16})
    ensures p !in v.chunks ==> Usable(Undirected(v, n, p), p + 16) == 0
  {
    hide View.Laid, OnlyDirect, Off, ChangesOnly;
    var u := Undirected(v, n, p);
    OnlyChanges(v, n, p, lo, hi);
    UndirectWords(v, n, p, lo, hi);
    forall x | x != p + 16
      ensures BlockKept(v, u, x)
    {
      if x - 16 in v.chunks && v.chunks[x - 16].kind.Used? {
        DirectOff(v, n, p, lo, hi, x - 16);
        BlocksOff(v, n, lo, hi, {}, x - 16);
      }
    }
  }

  /** Without direct chunk p, and with memory that may have changed in the range. */
  lemma UndirectDone(v: View, n: Mem, p: int, lo: int, hi: int)
    requires v.Laid() && v.Binned({}) && Coalesced(v.chunks) && OnlyDirect(v, n, p, lo, hi) && p !in v.chunks
    ensures Sound(Undirected(v, n, p)) && Gone(v, Undirected(v, n, p), p)
  {
    hide Tagged, Recorded, AllDirectWords, ShapeInv, View.Binned, BodiesKept, FreeStep, OnlyDirect, Keeps, Coalesced;
    var u := Undirected(v, n, p);
    UndirectShape(v, n, p, lo, hi);
    UndirectTagged(v, n, p, lo, hi);
    UndirectRecorded(v, n, p, lo, hi);
    UndirectWords(v, n, p, lo, hi);
    UndirectBodies(v, n, p, lo, hi);
    SameFree(v);
    BinsRebuilt(v, u, {}, {}, {});
    UndirectKeeps(v, n, p, lo, hi);
  }

  lemma SameFree(v: View)
    ensures FreeStep(v.chunks, v.chunks, {}, {})
  {
  }

  // ----- putting a direct chunk in -----

  /** The words of direct chunk p are in place, and the range it needs is free. */
  ghost predicate DirectFits(u: View, p: int, psize: int) {
    && DirectAt(u.mem.Keys, p, psize) && DirectWords(u.mem, p, psize)
    && ClearOfHeap(u.chunks, u.segs, u.direct, p, psize + DIRECT_FOOT_PAD) && psize > 16
  }

  lemma DirectDone(u: View, p: int, psize: int)
    requires Sound(u) && DirectFits(u, p, psize) && p !in u.direct
    ensures var w := u.(direct := u.direct[p := psize]); Sound(w) && Granted(u, w, p + 16, psize - 16)
    ensures u.(direct := u.direct[p := psize]).direct - {p} == u.direct
  {
    hide Tagged, Recorded, Mapped, TopIs, StateAt, Tiled, SegsOK, View.Binned, Coalesced, SegAt, DirectWords;
    var w := u.(direct := u.direct[p := psize]);
    forall q | q in w.direct
      ensures DirectAt(w.mem.Keys, q, w.direct[q]) && DirectAlone(w.chunks, w.segs, q, w.direct[q]) &&
        DirectWords(w.mem, q, w.direct[q])
    {
      if q != p {
        assert DirectAt(u.mem.Keys, q, u.direct[q]) && DirectAlone(u.chunks, u.segs, q, u.direct[q]);
      }
    }
    forall q, r | q in w.direct && r in w.direct && q < r
      ensures DirectEnd(q, w.direct[q]) <= r
    {
      if q == p {
        ClearDirect(u, p, psize + DIRECT_FOOT_PAD, r);
        DirectPositive(u, r);
      } else if r == p {
        ClearDirect(u, p, psize + DIRECT_FOOT_PAD, q);
      }
    }
    SameBins(u, w);
    PageAligned(p);
    DirectNew(u, p, psize);
  }

  lemma SameBins(u: View, w: View)
    requires u.Binned({}) && w == u.(direct := w.direct)
    ensures w.Binned({})
  {
  }

  lemma DirectNew(u: View, p: int, psize: int)
    requires u.Laid() && DirectFits(u, p, psize) && p !in u.direct && p % 8 == 0
    ensures Granted(u, u.(direct := u.direct[p := psize]), p + 16, psize - 16)
  {
    hide View.Laid, DirectWords;
    if p in u.chunks {
      ChunkPositive(u, p);
    }
  }

  /** Direct chunk p with a new size, in memory that changed in the range of its old and new mapping. */
  lemma DirectPut(v: View, n: Mem, p: int, psize: int, hi: int)
    requires Sound(v) && OnlyDirect(v, n, p, p, hi) && DirectAt(n.Keys, p, psize) && DirectWords(n, p, psize) &&
      DirectEnd(p, psize) <= hi && psize > 16 && p !in v.chunks
    ensures var w := v.(mem := n, direct := v.direct[p := psize]);
      Sound(w) && Keeps(v, w, {p + 16}) && Usable(w, p + 16) == psize - 16
    ensures p !in v.direct ==> Granted(v, v.(mem := n, direct := v.direct[p := psize]), p + 16, psize - 16)
  {
    hide View.Laid, View.Binned, Coalesced, OnlyDirect, Keeps, DirectWords, DirectAt;
    var u := Undirected(v, n, p);
    UndirectDone(v, n, p, p, hi);
    ClearShorter(v, n, p, psize, hi);
    DirectDone(u, p, psize);
    var w := v.(mem := n, direct := v.direct[p := psize]);
    assert u.direct[p := psize] == w.direct;
    GoneThenGranted(v, u, w, p, psize - 16);
    PageEight(n.Keys, p, psize);
  }

  lemma PageEight(keys: set<int>, p: int, psize: int)
    requires DirectAt(keys, p, psize)
    ensures p % 8 == 0 && p > 0
  {
    PageAligned(p);
  }

  lemma ClearShorter(v: View, n: Mem, p: int, psize: int, hi: int)
    requires OnlyDirect(v, n, p, p, hi) && DirectEnd(p, psize) <= hi
    ensures ClearOfHeap(v.chunks, v.segs, v.direct - {p}, p, psize + DIRECT_FOOT_PAD)
  {
  }

  lemma GoneThenGranted(v: View, u: View, w: View, p: int, k: int)
    requires Gone(v, u, p) && Granted(u, w, p + 16, k) && Usable(w, p + 16) == k
    ensures Keeps(v, w, {p + 16})
    ensures Usable(v, p + 16) == 0 ==> Granted(v, w, p + 16, k)
  {
    hide Usable;
    forall x | x !in {p + 16}
      ensures BlockKept(v, w, x)
    {
      assert BlockKept(v, u, x) && BlockKept(u, w, x);
    }
  }

  // ----- sizes -----

  /** `mmap_align` on size_t */
  function MmapAlign(s: int): int {
    Wrap(s + (PAGE_SIZE - 1)) / PAGE_SIZE * PAGE_SIZE
  }

  /** The size of the mapping for a direct chunk: large enough unless the sum wraps around. */
  function DirectSize(nb: nat): int {
    MmapAlign(Wrap(nb + 55))
  }

  lemma DirectSizeOK(nb: nat)
    requires nb < WORD
    ensures DirectSize(nb) % PAGE_SIZE == 0 && DirectSize(nb) % 8 == 0 && DirectSize(nb) >= 0
    ensures nb < WORD - 4150 ==> nb + 55 <= DirectSize(nb) < nb + 55 + PAGE_SIZE
    ensures nb >= WORD - 4150 ==> DirectSize(nb) <= nb
  {
    var s := Wrap(nb + 55);
    var t := Wrap(s + (PAGE_SIZE - 1));
    AlignDown(t);
    if nb + 55 < WORD {
      assert s == nb + 55;
    } else {
      assert s == nb + 55 - WORD;
    }
    if s + (PAGE_SIZE - 1) < WORD {
      assert t == s + (PAGE_SIZE - 1);
    } else {
      assert t == s + (PAGE_SIZE - 1) - WORD;
    }
  }

  lemma PageMultiple(q: nat)
    ensures (q * PAGE_SIZE) % PAGE_SIZE == 0 && (q * PAGE_SIZE) % 8 == 0
  {
    assert q * PAGE_SIZE == 8 * (512 * q);
  }

  lemma AlignDown(t: nat)
    ensures t / PAGE_SIZE * PAGE_SIZE <= t < t / PAGE_SIZE * PAGE_SIZE + PAGE_SIZE
    ensures (t / PAGE_SIZE * PAGE_SIZE) % PAGE_SIZE == 0 && (t / PAGE_SIZE * PAGE_SIZE) % 8 == 0
  {
    var q := t / PAGE_SIZE;
    PageMultiple(q);
  }

  /** The tags of a direct chunk. */
  function DirectMem(m: Mem, p: int, psize: int): Mem {
    m[p + HEAD := psize + 2][p + psize + HEAD := FENCEPOST_HEAD][p + psize + 8 + HEAD := 0]
  }

  lemma DirectMapped(v: View, mm: int, size: int)
    requires v.Laid() && FreshAt(v.mem, mm, size) && size % 8 == 0 && size > 48
    ensures var m1 := MapIn(v.mem, mm, size); var n := DirectMem(m1[mm := 1], mm, size - DIRECT_FOOT_PAD);
      && mm in m1 && mm + HEAD in m1 && mm + (size - DIRECT_FOOT_PAD) + HEAD in m1 &&
        mm + (size - DIRECT_FOOT_PAD) + 8 + HEAD in m1
      && OnlyDirect(v, n, mm, mm, mm + size) && DirectAt(n.Keys, mm, size - DIRECT_FOOT_PAD) &&
        DirectWords(n, mm, size - DIRECT_FOOT_PAD)
    ensures mm !in v.chunks && mm !in v.direct && AlignOffset(mm + 16) == 0 && mm > 0 && mm % 8 == 0
    ensures mm + 8 !in v.mem
  {
    hide View.Laid, MapIn, Unmapped;
    FreshHead(v.mem, mm, size);
    PageAligned(mm);
    FreshClear(v, mm, size);
    ClearFewer(v, mm, mm, size);
    MapInReads(v.mem, mm, size);
    if mm in v.chunks {
      ChunkPositive(v, mm);
    }
    if mm in v.direct {
      DirectPositive(v, mm);
    }
  }

  lemma ClearFewer(v: View, p: int, a: int, n: int)
    requires ClearOfHeap(v.chunks, v.segs, v.direct, a, n)
    ensures ClearOfHeap(v.chunks, v.segs, v.direct - {p}, a, n)
  {
  }

  lemma DirectHead(s: int)
    requires s % 8 == 0
    ensures ChunkSize(s + 2) == s && !PInUse(s + 2)
  {
  }

  /** What a direct chunk says about itself, and the range that is its own. */
  lemma DirectLook(v: View, p: int)
    requires v.Laid() && p in v.direct
    ensures var s := v.direct[p];
      && p in v.mem && p + HEAD in v.mem && p + s + HEAD in v.mem && p + s + 8 + HEAD in v.mem && p !in v.chunks &&
        p > 0 && s > 16 && s % 8 == 0 && p % 8 == 0 && p % PAGE_SIZE == 0
      && DirectEnd(p, s) <= ADDRESS_LIMIT
      && Rd(v.mem, p) == 1 && Head(v.mem, p) == s + 2 &&
        ClearOfHeap(v.chunks, v.segs, v.direct - {p}, p, s + DIRECT_FOOT_PAD)
    ensures ChunkSize(Head(v.mem, p)) == v.direct[p] && !PInUse(Head(v.mem, p))
  {
    hide View.Laid, ClearOfHeap, ChunkSize, PInUse;
    DirectParts(v, p);
    DirectPositive(v, p);
    DirectClear(v, p);
    DirectHead(v.direct[p]);
    var s := v.direct[p];
    assert p in v.mem.Keys && p + HEAD in v.mem.Keys && p + s + HEAD in v.mem.Keys && p + s + 8 + HEAD in v.mem.Keys;
  }

  lemma DirectParts(v: View, p: int)
    requires v.Laid() && p in v.direct
    ensures DirectAt(v.mem.Keys, p, v.direct[p]) && DirectWords(v.mem, p, v.direct[p])
  {
    hide Tagged, Recorded, Mapped, TopIs, StateAt, SegsOK, Tiled, DirectAlone, DirectAt, DirectWords;
  }

  lemma DirectClear(v: View, p: int)
    requires v.Laid() && p in v.direct
    ensures ClearOfHeap(v.chunks, v.segs, v.direct - {p}, p, v.direct[p] + DIRECT_FOOT_PAD)
  {
    hide Tagged, Recorded, Mapped, TopIs, StateAt, SegsOK, Tiled, DirectAt;
    assert DirectAlone(v.chunks, v.segs, p, v.direct[p]);
  }

  lemma UnmapOnly(v: View, n: Mem, p: int, hi: int)
    requires v.Laid() && p in v.direct && hi == DirectEnd(p, v.direct[p]) &&
      (n == v.mem || n == Unmap(v.mem, p, hi - p))
    ensures OnlyDirect(v, n, p, p, hi)
  {
    hide View.Laid, ClearOfHeap;
    DirectLook(v, p);
    UnmapReads(v.mem, p, hi - p);
  }

  // ----- resizing in place -----

  /** What `mremap` without moving does on success. */
  ghost predicate Remapped(m: Mem, n: Mem, a: int, oldSize: int, newSize: int) {
    && 0 < newSize
    && if newSize <= oldSize then n == Unmap(m, a + newSize, oldSize - newSize)
       else
         && Unmapped(m, a + oldSize, newSize - oldSize) && a + newSize <= ADDRESS_LIMIT
         && n == MapIn(m, a + oldSize, newSize - oldSize)
  }

  function Max(a: int, b: int): int { if a < b then b else a }

  lemma RemapClear(v: View, m1: Mem, p: int, newSize: int)
    requires v.Laid() && p in v.direct && Remapped(v.mem, m1, p, v.direct[p] + DIRECT_FOOT_PAD, newSize)
    ensures ClearOfHeap(v.chunks, v.segs, v.direct - {p}, p, Max(v.direct[p] + DIRECT_FOOT_PAD, newSize))
  {
    hide View.Laid;
    var oldSize := v.direct[p] + DIRECT_FOOT_PAD;
    DirectClear(v, p);
    if newSize > oldSize {
      FreshClear(v, p + oldSize, newSize - oldSize);
      forall a | a in v.chunks
        ensures a + v.chunks[a].size <= p || p + newSize <= a
      {
        ChunkPositive(v, a);
      }
      forall i | 0 <= i < |v.segs|
        ensures SegEnd(v.segs[i]) <= p || p + newSize <= v.segs[i].base
      {
        PrependBase(v, i);
      }
      forall q | q in v.direct - {p}
        ensures DirectEnd(q, v.direct[q]) <= p || p + newSize <= q
      {
        DirectPositive(v, q);
      }
    }
  }

  lemma RemapReads(v: View, m1: Mem, p: int, newSize: int)
    requires v.Laid() && p in v.direct && Remapped(v.mem, m1, p, v.direct[p] + DIRECT_FOOT_PAD, newSize)
    ensures var hi := p + Max(v.direct[p] + DIRECT_FOOT_PAD, newSize);
      && (forall w | !(p <= w < hi) :: Rd(m1, w) == Rd(v.mem, w)) &&
        (forall w | !(p <= w < hi) && w in v.mem :: w in m1)
      && (forall w | p <= w < p + newSize && w < DirectEnd(p, v.direct[p]) :: Rd(m1, w) == Rd(v.mem, w))
      && (forall w | p <= w < p + newSize :: w in m1)
  {
    hide View.Laid, MapIn, Unmap;
    var oldSize := v.direct[p] + DIRECT_FOOT_PAD;
    DirectWordsMapped(v, p);
    if newSize <= oldSize {
      UnmapReads(v.mem, p + newSize, oldSize - newSize);
    } else {
      MapInReads(v.mem, p + oldSize, newSize - oldSize);
    }
  }

  lemma DirectWordsMapped(v: View, p: int)
    requires v.Laid() && p in v.direct
    ensures forall w | p <= w < DirectEnd(p, v.direct[p]) :: w in v.mem
  {
    hide Tagged, Recorded, Mapped, TopIs, StateAt, SegsOK, Tiled, DirectAlone;
    assert DirectAt(v.mem.Keys, p, v.direct[p]);
    forall w | p <= w < DirectEnd(p, v.direct[p])
      ensures w in v.mem
    {
      assert w in v.mem.Keys;
    }
  }

  /** The resized direct chunk keeps what fits into both sizes. */
  lemma RemapDone(v: View, m1: Mem, p: int, psize: int)
    requires Sound(v) && p in v.direct &&
      Remapped(v.mem, m1, p, v.direct[p] + DIRECT_FOOT_PAD, psize + DIRECT_FOOT_PAD) && psize > 16 && psize % 8 == 0
    ensures p + HEAD in m1 && p + psize + HEAD in m1 && p + psize + 8 + HEAD in m1
    ensures var n := DirectMem(m1, p, psize); var w := v.(mem := n, direct := v.direct[p := psize]);
      && Sound(w) && Keeps(v, w, {p + 16}) && Usable(w, p + 16) == psize - 16
      && forall a | p + 16 <= a < p + psize && a < p + v.direct[p] :: Rd(n, a) == Rd(v.mem, a)
  {
    hide View.Laid, View.Binned, Coalesced, Keeps, MapIn, Unmap, ClearOfHeap, Remapped;
    DirectLook(v, p);
    RemapReads(v, m1, p, psize + DIRECT_FOOT_PAD);
    RemapClear(v, m1, p, psize + DIRECT_FOOT_PAD);
    RemapLimit(v, m1, p, psize + DIRECT_FOOT_PAD);
    var n := DirectMem(m1, p, psize);
    var hi := p + Max(v.direct[p] + DIRECT_FOOT_PAD, psize + DIRECT_FOOT_PAD);
    assert DirectAt(n.Keys, p, psize);
    DirectPut(v, n, p, psize, hi);
  }

  lemma RemapLimit(v: View, m1: Mem, p: int, newSize: int)
    requires v.Laid() && p in v.direct && Remapped(v.mem, m1, p, v.direct[p] + DIRECT_FOOT_PAD, newSize)
    ensures p + newSize <= ADDRESS_LIMIT
  {
    hide View.Laid;
    DirectLook(v, p);
  }

  lemma RegrownSame(v: View, p: int, n: int)
    requires v.Laid() && p in v.direct && v.direct[p] - 16 >= n
    ensures Regrown(v, v, p + 16, n)
  {
    hide View.Laid;
    DirectLook(v, p);
  }

  lemma RegrownDirect(v: View, w: View, p: int, psize: int, n: int)
    requires v.Laid() && p in v.direct && Keeps(v, w, {p + 16}) && Usable(w, p + 16) == psize - 16 &&
      psize - 16 >= n && psize > 16
    requires forall a | p + 16 <= a < p + psize && a < p + v.direct[p] :: Rd(w.mem, a) == Rd(v.mem, a)
    ensures Regrown(v, w, p + 16, n)
  {
    hide View.Laid, Keeps;
    DirectLook(v, p);
  }

  /** A resize that the system carried out was for a size that did not wrap around. */
  lemma RemapSize(v: View, m1: Mem, p: int, nb: nat)
    requires v.Laid() && p in v.direct && 256 <= nb <= WORD - 120 &&
      Remapped(v.mem, m1, p, v.direct[p] + DIRECT_FOOT_PAD, DirectSize(nb))
    ensures DirectSize(nb) >= nb + 55 && DirectSize(nb) % 8 == 0
  {
    hide View.Laid, Unmap, MapIn;
    DirectSizeOK(nb);
    if nb >= WORD - 4150 {
      WrappedSize(nb);
    }
  }

  /** Close to 2^64 the sum wraps around to less than a page, which rounds to nothing. */
  lemma WrappedSize(nb: nat)
    requires WORD - 4150 <= nb < WORD
    ensures DirectSize(nb) <= PAGE_SIZE
    ensures nb < WORD - 55 ==> DirectSize(nb) == 0
  {
  }
}
