/** Freeing a chunk: it merges with the free chunks, or the top chunk, on either side. */
module FreeSteps {
  import opened Memory
  import opened Layout
  import opened Bins
  import opened Segments
  import opened Steps
  import opened BinSteps
  import opened TagSteps
  import opened Blocks

  /** Chunk p is in use, and the chunk that is free after its release starts at a: at the free chunk before p, if there
      is one. */
  ghost predicate Frees(cs: Chunks, p: int, a: int) {
    && p in cs && cs[p].kind.Used? && Nxt(cs, p) in cs
    && if cs[p].pin then a == p else FreeAt(cs, a) && Nxt(cs, a) == p
  }

  predicate JoinsNext(cs: Chunks, p: int) {
    Nxt(cs, p) in cs && (cs[Nxt(cs, p)].kind.Free? || cs[Nxt(cs, p)].kind.Top?)
  }

  /** The size of the chunk that starts at a after the release of p. */
  function FreedSize(cs: Chunks, p: int, a: int): int {
    if JoinsNext(cs, p) then Nxt(cs, Nxt(cs, p)) - a else Nxt(cs, p) - a
  }

  /** The chunks after the release of p. */
  function Freed(cs: Chunks, p: int, a: int): Chunks
    requires p in cs && Nxt(cs, p) in cs
  {
    var n := Nxt(cs, p);
    if JoinsNext(cs, p) then
      (cs - {p, n})[a := Chunk(FreedSize(cs, p, a), cs[n].kind, true)]
    else
      (cs - {p})[n := cs[n].(pin := false)][a := Chunk(FreedSize(cs, p, a), Free, true)]
  }

  function FreedMem(m: Mem, cs: Chunks, p: int, a: int): Mem
    requires p in cs && Nxt(cs, p) in cs
  {
    var n, s := Nxt(cs, p), FreedSize(cs, p, a);
    if cs[n].kind.Top? then m[a + HEAD := s + 1]
    else if cs[n].kind.Free? then m[a + HEAD := s + 1][a + s := s]
    else m[n + HEAD := ClearPin(Head(m, n))][a + HEAD := s + 1][a + s := s]
  }

  /** The free chunks that are merged. */
  ghost function Merged(cs: Chunks, p: int, a: int): set<int> {
    (if a != p then {a} else {}) + (if FreeAt(cs, Nxt(cs, p)) then {Nxt(cs, p)} else {})
  }

  // ----- the release as single steps -----

  /** The chunks after the release of p and the merge with what follows. */
  function FreedAlone(cs: Chunks, p: int): Chunks
    requires p in cs && Nxt(cs, p) in cs && Nxt(cs, p) != p
  {
    if JoinsNext(cs, p) then Join(Release(cs, p), p) else Release(cs, p)
  }

  lemma FreedAloneIs(cs: Chunks, p: int)
    requires Solid(cs) && Frees(cs, p, p) && Nxt(cs, p) != p
    ensures JoinsNext(cs, p) ==> Joins(Release(cs, p), p)
    ensures Freed(cs, p, p) == FreedAlone(cs, p)
  {
  }

  lemma FreedAloneAt(cs: Chunks, p: int)
    requires Solid(cs) && p in cs && cs[p].kind.Used? && Nxt(cs, p) in cs
    ensures JoinsNext(cs, p) ==> Joins(Release(cs, p), p)
    ensures var d := FreedAlone(cs, p); var n := Nxt(cs, p);
      && d.Keys == cs.Keys - (if JoinsNext(cs, p) then {n} else {})
      && d[p] == Chunk(FreedSize(cs, p, p), if JoinsNext(cs, p) then cs[n].kind else Free, cs[p].pin)
      && (!JoinsNext(cs, p) ==> d[n] == cs[n].(pin := false))
      && forall b | b in d && b != p && b != n :: d[b] == cs[b]
  {
  }

  lemma FreedBackIs(cs: Chunks, p: int, a: int)
    requires Solid(cs) && Frees(cs, p, a) && a != p && cs[a].pin
    ensures Joins(FreedAlone(cs, p), a) && Nxt(FreedAlone(cs, p), a) == p
    ensures Freed(cs, p, a) == Join(FreedAlone(cs, p), a)
  {
    hide FreedAlone;
    FreedAloneAt(cs, p);
    var d, n := FreedAlone(cs, p), Nxt(cs, p);
    assert a < p < n && d[a] == cs[a] && Nxt(d, a) == p;
    var f := Join(d, a);
    assert f[a] == Chunk(FreedSize(cs, p, a), d[p].kind, true);
    var g := Freed(cs, p, a);
    assert f.Keys == g.Keys;
    forall b | b in f
      ensures f[b] == g[b]
    {
      assert b == a || b == n || f[b] == cs[b];
    }
  }

  lemma FreedShape(v: View, p: int, a: int)
    requires v.Laid() && Coalesced(v.chunks) && Frees(v.chunks, p, a)
    ensures var n := Nxt(v.chunks, p); var ds := Freed(v.chunks, p, a);
      if n == v.top then ShapeInv(v.mem.Keys, ds, a, FreedSize(v.chunks, p, a), v.segs, v.direct, v.msp)
      else ShapeInv(v.mem.Keys, ds, v.top, v.topsize, v.segs, v.direct, v.msp)
  {
    hide Mapped, SegsOK, DirectOK, StateAt, Tagged, Recorded, AllDirectWords, SizesOK, Apart, Linked, Preceded, Freed;
    TiledSolid(v.chunks);
    FreedAloneAt(v.chunks, p);
    var d0 := Release(v.chunks, p);
    ReleaseShape(v.mem.Keys, v.chunks, v.top, v.topsize, v.segs, v.direct, v.msp, p);
    var d1 := FreedAlone(v.chunks, p);
    var n := Nxt(v.chunks, p);
    if a == p {
      FreedAloneIs(v.chunks, p);
    } else {
      FreedBackIs(v.chunks, p, a);
    }
    if JoinsNext(v.chunks, p) {
      JoinShape(v.mem.Keys, d0, v.top, v.topsize, v.segs, v.direct, v.msp, p);
    }
    if a != p {
      if n == v.top {
        JoinShape(v.mem.Keys, d1, p, v.chunks[p].size + v.topsize, v.segs, v.direct, v.msp, a);
      } else {
        PreviousNotTop(v.chunks, v.top, v.topsize, p);
        JoinShape(v.mem.Keys, d1, v.top, v.topsize, v.segs, v.direct, v.msp, a);
      }
    }
  }

  lemma PreviousNotTop(cs: Chunks, top: int, topsize: int, p: int)
    requires TopIs(cs, top, topsize) && p in cs && cs[p].kind.Used?
    ensures p != top
  {
  }

  // ----- the tags -----

  /** No head word is where the merged chunk ends. */
  lemma EndNoHead(cs: Chunks, a: int, b: int)
    requires Tiled(cs) && a in cs && cs[a].size >= MIN_CHUNK_SIZE && !Ends(cs[a].kind) && b in cs
    ensures Nxt(cs, a) != b + 8
  {
    TiledSolid(cs);
    var n := Nxt(cs, a);
    assert n in cs && ChunkOK(b, cs[b]) && ChunkOK(a, cs[a]);
    if n == b + 8 {
      SizeEight(cs, b, n);
      OnePrevious(cs, a, b);
    }
  }

  /** A chunk that is not concerned keeps its tags. */
  lemma OtherTags(m: Mem, n: Mem, cs: Chunks, p: int, a: int, x: int)
    requires Tiled(cs) && Tagged(m, cs) && Frees(cs, p, a) && n == FreedMem(m, cs, p, a)
    requires x in cs && x != a && x != p && (x != Nxt(cs, p)) && Nxt(cs, p) > p &&
      (cs[Nxt(cs, p)].kind.Free? || InUse(cs[Nxt(cs, p)].kind) || cs[Nxt(cs, p)].kind.Top?)
    ensures Head(n, x) == Head(m, x)
    ensures cs[x].kind.Free? ==> PrevFoot(n, Nxt(cs, x)) == PrevFoot(m, Nxt(cs, x))
  {
    hide Linked, Preceded, Tagged, Apart;
    var y := Nxt(cs, p);
    var last := if cs[y].kind.Free? then y else p;
    UsedLarge(cs, p);
    if cs[y].kind.Free? {
      UsedLarge(cs, y);
    }
    assert cs[y].kind.Top? || a + FreedSize(cs, p, a) == Nxt(cs, last);
    EndNoHead(cs, last, x);
    if cs[x].kind.Free? {
      UsedLarge(cs, x);
      EndNoHead(cs, x, a);
      EndNoHead(cs, x, y);
      TiledSolid(cs);
      if Nxt(cs, x) == Nxt(cs, last) {
        OnePrevious(cs, x, last);
      }
    }
  }

  lemma UsedLarge(cs: Chunks, x: int)
    requires Tiled(cs) && x in cs && (cs[x].kind.Used? || cs[x].kind.Free?)
    ensures cs[x].size >= MIN_CHUNK_SIZE && x % 8 == 0 && cs[x].size % 8 == 0
  {
    assert ChunkOK(x, cs[x]);
  }

  /** What follows a chunk in use. */
  lemma NextKind(cs: Chunks, top: int, topsize: int, p: int)
    requires Tiled(cs) && TopIs(cs, top, topsize) && p in cs && cs[p].kind.Used?
    ensures Nxt(cs, p) in cs && Nxt(cs, p) > p && !cs[Nxt(cs, p)].kind.Foot? && cs[Nxt(cs, p)].pin
    ensures cs[Nxt(cs, p)].kind.Top? <==> Nxt(cs, p) == top
  {
    NextNotFoot(cs, top, topsize, p);
    NextDiffers(cs, p);
  }

  lemma MergedTags(m: Mem, cs: Chunks, p: int, a: int)
    requires Tiled(cs) && Tagged(m, cs) && Frees(cs, p, a) && Nxt(cs, p) > p && a <= p
    requires JoinsNext(cs, p) || InUse(cs[Nxt(cs, p)].kind)
    ensures var n := FreedMem(m, cs, p, a); var ds := Freed(cs, p, a); var y := Nxt(cs, p);
      && Head(n, a) == HeadWord(ds[a])
      && (ds[a].kind.Free? ==> PrevFoot(n, a + ds[a].size) == ds[a].size)
      && (!JoinsNext(cs, p) ==> Head(n, y) == HeadWord(ds[y]))
  {
    hide Linked, Preceded, Apart;
    UsedLarge(cs, p);
    if a != p {
      UsedLarge(cs, a);
    }
    var y := Nxt(cs, p);
    if cs[y].kind.Free? {
      UsedLarge(cs, y);
    }
    assert ChunkOK(y, cs[y]);
    HeadBits(cs[y]);
  }

  lemma FreedTagged(m: Mem, cs: Chunks, p: int, a: int)
    requires Tiled(cs) && Tagged(m, cs) && Frees(cs, p, a) && Nxt(cs, p) > p && a <= p
    requires JoinsNext(cs, p) || InUse(cs[Nxt(cs, p)].kind)
    ensures Tagged(FreedMem(m, cs, p, a), Freed(cs, p, a))
  {
    hide Tiled, FreedMem, HeadWord;
    var n, ds, y := FreedMem(m, cs, p, a), Freed(cs, p, a), Nxt(cs, p);
    MergedTags(m, cs, p, a);
    forall x | x in ds
      ensures Head(n, x) == HeadWord(ds[x])
      ensures ds[x].kind.Free? ==> PrevFoot(n, Nxt(ds, x)) == ds[x].size
    {
      if x != a && x != y {
        OtherTags(m, n, cs, p, a, x);
        assert Nxt(ds, x) == Nxt(cs, x);
      }
    }
  }

  /** The stores hit tags of the chunks concerned only. */
  ghost predicate FreedMapped(m: Mem, cs: Chunks, p: int, a: int)
    requires p in cs && Nxt(cs, p) in cs
  {
    var n := Nxt(cs, p);
    a + HEAD in m && (!cs[n].kind.Top? ==> a + FreedSize(cs, p, a) in m) && n + HEAD in m
  }

  lemma FreedReady(v: View, p: int, a: int)
    requires v.Laid() && Frees(v.chunks, p, a)
    ensures FreedMapped(v.mem, v.chunks, p, a) && p + HEAD in v.mem && Nxt(v.chunks, p) > p && a <= p && a in v.chunks
    ensures ChunkSize(Head(v.mem, p)) == v.chunks[p].size && PInUse(Head(v.mem, p)) == v.chunks[p].pin
    ensures a < p ==> p in v.mem && PrevFoot(v.mem, p) == p - a && (p - a) % 8 == 0
    ensures var y := Nxt(v.chunks, p);
      && (CInUse(Head(v.mem, y)) <==> !JoinsNext(v.chunks, p)) && v.chunks[y].pin &&
        (v.chunks[y].kind.Top? <==> y == v.top)
      && (PInUse(Head(v.mem, y)) <==> v.chunks[y].pin) && (!JoinsNext(v.chunks, p) ==> InUse(v.chunks[y].kind))
      && ChunkSize(Head(v.mem, y)) == (if v.chunks[y].kind.Rec? then 32 else v.chunks[y].size)
  {
    hide View.Laid;
    ChunkLook(v, p);
    ChunkLook(v, a);
    NextLook(v, p);
    var y := Nxt(v.chunks, p);
    ChunkLook(v, y);
    if a != p {
      FootLook(v, a);
    }
    if v.chunks[y].kind.Free? {
      FootLook(v, y);
    }
  }

  /** What a chunk's head says. */
  lemma ChunkLook(v: View, x: int)
    requires v.Laid() && x in v.chunks
    ensures x in v.mem && x + HEAD in v.mem && x % 8 == 0 && v.chunks[x].size % 8 == 0 && v.chunks[x].size >= 8
    ensures v.chunks[x].kind.Used? || v.chunks[x].kind.Free? ==> v.chunks[x].size >= MIN_CHUNK_SIZE
    ensures var h := Head(v.mem, x);
      && (CInUse(h) <==> InUse(v.chunks[x].kind)) && (PInUse(h) <==> v.chunks[x].pin)
      && ChunkSize(h) == if v.chunks[x].kind.Rec? then 32 else v.chunks[x].size
  {
    hide SegsOK, DirectOK, Recorded, AllDirectWords, StateAt, Mapped, Apart, Linked, Preceded, TopIs, HeadWord;
    ChunkMapped(v, x);
    assert ChunkOK(x, v.chunks[x]);
    HeadBits(v.chunks[x]);
    RecHead(v.chunks[x]);
  }

  lemma NextLook(v: View, p: int)
    requires v.Laid() && p in v.chunks && v.chunks[p].kind.Used?
    ensures var y := Nxt(v.chunks, p);
      y in v.chunks && y > p && !v.chunks[y].kind.Foot? && v.chunks[y].pin && (v.chunks[y].kind.Top? <==> y == v.top)
  {
    hide SegsOK, DirectOK, Recorded, AllDirectWords, StateAt, Mapped, Tagged, Tiled, TopIs;
    NextKind(v.chunks, v.top, v.topsize, p);
  }

  lemma FootLook(v: View, a: int)
    requires v.Laid() && FreeAt(v.chunks, a)
    ensures Nxt(v.chunks, a) in v.chunks && Nxt(v.chunks, a) in v.mem &&
      PrevFoot(v.mem, Nxt(v.chunks, a)) == v.chunks[a].size
  {
    hide SegsOK, DirectOK, Recorded, AllDirectWords, StateAt, Mapped, Apart, SizesOK, Preceded, TopIs, HeadWord;
    assert Nxt(v.chunks, a) in v.chunks;
    ChunkMapped(v, Nxt(v.chunks, a));
  }

  lemma RecHead(c: Chunk)
    ensures c.kind.Rec? ==> ChunkSize(HeadWord(c)) == 32
  {
  }

  // ----- the release on the whole invariant -----

  lemma FreedOnly(m: Mem, cs: Chunks, p: int, a: int)
    requires Frees(cs, p, a) && FreedMapped(m, cs, p, a) && Nxt(cs, p) > p && a <= p && cs[p].size >= 8
    requires cs[Nxt(cs, p)].kind.Free? ==> cs[Nxt(cs, p)].size >= 8
    ensures TagsOnly(m, FreedMem(m, cs, p, a), cs, Merged(cs, p, a) + {p})
  {
    var n, y, x := FreedMem(m, cs, p, a), Nxt(cs, p), Merged(cs, p, a) + {p};
    var last := if cs[y].kind.Free? then y else p;
    assert last in x && last in cs;
    forall w | !TagWord(cs, x, w)
      ensures Rd(n, w) == Rd(m, w)
    {
      assert w != a + 8 && w != y + 8 && w != last + cs[last].size;
    }
  }

  ghost function FreedLoose(cs: Chunks, p: int, a: int): set<int>
    requires Nxt(cs, p) in cs
  {
    if cs[Nxt(cs, p)].kind.Top? then {} else {a}
  }

  lemma FreedFree(cs: Chunks, p: int, a: int)
    requires Frees(cs, p, a) && Nxt(cs, p) > p && a <= p
    ensures FreeStep(cs, Freed(cs, p, a), Merged(cs, p, a), FreedLoose(cs, p, a))
  {
  }

  lemma FreedCoalesced(cs: Chunks, p: int, a: int)
    requires Solid(cs) && Coalesced(cs) && Linked(cs) && Frees(cs, p, a) && Nxt(cs, p) > p && a <= p &&
      (JoinsNext(cs, p) || InUse(cs[Nxt(cs, p)].kind))
    ensures Coalesced(Freed(cs, p, a))
  {
    var ds, y := Freed(cs, p, a), Nxt(cs, p);
    forall x {:trigger Nxt(ds, x)} | x in ds && ds[x].kind.Free?
      ensures Nxt(ds, x) in ds && InUse(ds[Nxt(ds, x)].kind)
    {
      if x == a {
        assert Nxt(ds, x) == if JoinsNext(cs, p) then Nxt(cs, y) else y;
      } else {
        assert Nxt(ds, x) == Nxt(cs, x);
        if Nxt(cs, x) == p {
          OnePrevious(cs, x, a);
        }
      }
    }
  }

  lemma FreedUsed(cs: Chunks, p: int, a: int)
    requires Frees(cs, p, a) && Nxt(cs, p) > p && a <= p
    ensures forall x | x != p :: UsedSize(Freed(cs, p, a), x) == UsedSize(cs, x)
    ensures UsedSize(Freed(cs, p, a), p) == 0
  {
  }

  lemma FreedInner(cs: Chunks, msp: int, p: int, a: int)
    requires Frees(cs, p, a) && StateAt(cs, msp)
    ensures Inner(cs, msp, Merged(cs, p, a) + {p})
  {
  }

  /** The state after the release of p. */
  ghost function FreedView(v: View, p: int, a: int): View
    requires p in v.chunks && Nxt(v.chunks, p) in v.chunks
  {
    var n := Nxt(v.chunks, p);
    v.(mem := FreedMem(v.mem, v.chunks, p, a), chunks := Freed(v.chunks, p, a),
       top := if n == v.top then a else v.top, topsize := if n == v.top then FreedSize(v.chunks, p, a) else v.topsize)
  }

  /** The stores of `set_free_with_pinuse`. */
  lemma SetFreeStores(v: View, p: int, a: int, s: int, next: int)
    requires v.Laid() && Frees(v.chunks, p, a) && next == Nxt(v.chunks, p) && s == next - a && !JoinsNext(v.chunks, p)
    ensures p in v.chunks && Nxt(v.chunks, p) in v.chunks && next + HEAD in v.mem && a + HEAD in v.mem && a + s in v.mem
    ensures var m := v.mem[next + HEAD := ClearPin(Rd(v.mem, next + HEAD))][a + HEAD := s + 1][a + s := s];
      FreedView(v, p, a) == v.(mem := m, chunks := Freed(v.chunks, p, a))
  {
    hide View.Laid, Freed;
    FreedReady(v, p, a);
  }

  lemma FreedRetagged(v: View, p: int, a: int)
    requires v.Laid() && Coalesced(v.chunks) && Frees(v.chunks, p, a)
    ensures Retagged(v, FreedView(v, p, a), Merged(v.chunks, p, a) + {p}, Merged(v.chunks, p, a),
      FreedLoose(v.chunks, p, a))
    ensures Coalesced(Freed(v.chunks, p, a))
  {
    hide Tagged, TagsOnly, Inner, FreeStep, Recorded, AllDirectWords, Mapped, SegsOK, DirectOK, Freed, FreedMem;
    hide FreedMapped;
    hide Coalesced, SizesOK, Apart, Linked, Preceded;
    FreedReady(v, p, a);
    FreedShape(v, p, a);
    FreedTagged(v.mem, v.chunks, p, a);
    UsedLarge(v.chunks, p);
    if v.chunks[Nxt(v.chunks, p)].kind.Free? {
      UsedLarge(v.chunks, Nxt(v.chunks, p));
    }
    FreedOnly(v.mem, v.chunks, p, a);
    FreedFree(v.chunks, p, a);
    FreedInner(v.chunks, v.msp, p, a);
    TiledSolid(v.chunks);
    FreedCoalesced(v.chunks, p, a);
  }

  lemma FreeUp(v: View, p: int, a: int, w: View)
    requires v.Laid() && Coalesced(v.chunks) && Frees(v.chunks, p, a) && v.Binned(Merged(v.chunks, p, a)) &&
      w == FreedView(v, p, a)
    ensures w.Laid() && w.Binned(FreedLoose(v.chunks, p, a)) && Coalesced(w.chunks)
    ensures Keeps(v, w, {p + 16}) && Usable(w, p + 16) == 0
    ensures Nxt(v.chunks, p) != v.top ==> FreeAt(w.chunks, a) && w.chunks[a].size == FreedSize(v.chunks, p, a)
  {
    hide View.Laid, View.Binned, Retagged, DataKept, Coalesced, Keeps, Freed, FreedMem, Inner;
    FreedRetagged(v, p, a);
    RetaggedOK(v, w, Merged(v.chunks, p, a) + {p}, Merged(v.chunks, p, a), FreedLoose(v.chunks, p, a));
    FreedReady(v, p, a);
    FreedUsed(v.chunks, p, a);
    FreedKeeps(v, w, p, a);
    NoDirectChunk(v, p);
    FreedGone(w, p);
    if Nxt(v.chunks, p) != v.top {
      LooseFree(w, {a});
      FreedAt(v.chunks, p, a);
    }
  }

  lemma FreedGone(w: View, p: int)
    requires w.Laid() && UsedSize(w.chunks, p) == 0 && p !in w.direct
    ensures Usable(w, p + 16) == 0
  {
    hide View.Laid;
    if p in w.chunks {
      ChunkPositive(w, p);
    }
  }

  lemma FreedAt(cs: Chunks, p: int, a: int)
    requires Frees(cs, p, a) && Nxt(cs, p) > p && a <= p
    ensures a in Freed(cs, p, a) && Freed(cs, p, a)[a].size == FreedSize(cs, p, a)
  {
  }

  lemma FreedKeeps(v: View, w: View, p: int, a: int)
    requires v.Laid() && w.Laid() && w.direct == v.direct && Frees(v.chunks, p, a)
    requires DataKept(v.mem, w.mem, v.chunks, v.direct, Merged(v.chunks, p, a) + {p}, v.msp)
    requires forall x | x != p :: UsedSize(w.chunks, x) == UsedSize(v.chunks, x)
    ensures Keeps(v, w, {p + 16})
  {
    hide View.Laid, Keeps;
    UsedDataKept(v.mem, w.mem, v.chunks, v.direct, Merged(v.chunks, p, a) + {p}, p, v.msp);
    KeepsStep(v, w, {p}, {p + 16});
  }

  /** Free chunks hold no data. */
  lemma UsedDataKept(m: Mem, n: Mem, cs: Chunks, direct: map<int, int>, x: set<int>, p: int, msp: int)
    requires DataKept(m, n, cs, direct, x, msp) && forall a | a in x && a != p :: FreeAt(cs, a)
    ensures DataKept(m, n, cs, direct, {p}, msp)
  {
  }

  // ----- the cases of a release -----

  /** Everything but the designated victim that is to be merged has been taken out of its bin. */
  ghost predicate Freeing(v: View, loose: set<int>, p: int, a: int) {
    && v.Laid() && v.Binned(loose) && Coalesced(v.chunks) && Frees(v.chunks, p, a)
    && Merged(v.chunks, p, a) == loose + (if v.dv == a || v.dv == Nxt(v.chunks, p) then Victims(v) else {})
  }

  ghost predicate Gone(v: View, w: View, p: int) {
    Keeps(v, w, {p + 16}) && Usable(w, p + 16) == 0
  }

  lemma KeepsAside(v: View, w: View, x: set<int>, d: int, s: int, e: int, t: int)
    requires Keeps(v.(dv := d, dvsize := s), w, x)
    ensures Keeps(v, w.(dv := e, dvsize := t), x)
  {
    forall p | p !in x
      ensures BlockKept(v, w.(dv := e, dvsize := t), p)
    {
      assert BlockKept(v.(dv := d, dvsize := s), w, p);
    }
  }

  /** With the victim among what is merged, the merged chunk is the new victim. */
  lemma FreedVictim(v: View, loose: set<int>, p: int, a: int, w: View)
    requires Freeing(v, loose, p, a) && v.dv != 0 && (v.dv == a || v.dv == Nxt(v.chunks, p)) &&
      Nxt(v.chunks, p) != v.top
    requires w == FreedView(v, p, a).(dv := a, dvsize := FreedSize(v.chunks, p, a))
    ensures Sound(w) && Gone(v, w, p)
  {
    hide View.Laid, View.Binned, Coalesced, Keeps, Freed, FreedMem, Merged, BlockKept;
    VictimLoose(v, loose);
    var u := v.(dv := 0, dvsize := 0);
    var z := FreedView(u, p, a);
    FreeUp(u, p, a, z);
    FreedReady(v, p, a);
    assert FreedLoose(v.chunks, p, a) == {a};
    VictimSet(z, {a}, a, FreedSize(v.chunks, p, a), w);
    assert {a} - {a} == {};
    KeepsAside(v, z, {p + 16}, 0, 0, w.dv, w.dvsize);
  }

  lemma FreedTop(v: View, loose: set<int>, p: int, a: int, w: View)
    requires Freeing(v, loose, p, a) && Nxt(v.chunks, p) == v.top
    requires w == FreedView(v, p, a).(dv := if v.dv == a then 0 else v.dv, dvsize := if v.dv == a then 0 else v.dvsize)
    ensures Sound(w) && Gone(v, w, p)
  {
    hide View.Laid, View.Binned, Coalesced, Keeps, Freed, FreedMem, Merged, BlockKept;
    FreedReady(v, p, a);
    TopNotVictim(v, loose, a);
    assert FreedLoose(v.chunks, p, a) == {};
    if v.dv == a {
      VictimLoose(v, loose);
      var u := v.(dv := 0, dvsize := 0);
      FreeUp(u, p, a, w);
      KeepsAside(v, w, {p + 16}, 0, 0, 0, 0);
      assert w.(dv := 0, dvsize := 0) == w;
    } else {
      assert loose + {} == loose;
      FreeUp(v, p, a, w);
    }
  }

  lemma FreedTopIs(v: View, loose: set<int>, p: int, a: int)
    requires Freeing(v, loose, p, a) && Nxt(v.chunks, p) == v.top
    ensures p in v.chunks && v.top in v.chunks && a + HEAD in v.mem
    ensures FreedView(v, p, a) ==
      v.(mem := v.mem[a + HEAD := v.topsize + (v.top - a) + 1], chunks := Freed(v.chunks, p, a), top := a,
        topsize := v.topsize + (v.top - a))
  {
    hide View.Laid, View.Binned, Coalesced, Merged, Freed;
    FreedReady(v, p, a);
    TopKind(v);
  }

  lemma TopNotVictim(v: View, loose: set<int>, a: int)
    requires v.Laid() && v.Binned(loose)
    ensures v.dv != v.top && (a in v.chunks ==> a != 0)
  {
    hide Tagged, SegsOK, DirectOK, Recorded, AllDirectWords, Mapped, SmallOK, TreesOK, SmallHold, TreesHold;
    NoChunkAtZero(v);
  }

  lemma FreedPlain(v: View, loose: set<int>, p: int, a: int, w: View)
    requires Freeing(v, loose, p, a) && Nxt(v.chunks, p) != v.top && v.dv != a && v.dv != Nxt(v.chunks, p)
    requires w == FreedView(v, p, a)
    ensures w.Laid() && w.Binned({a}) && Coalesced(w.chunks) && Gone(v, w, p) && a != w.dv
    ensures FreeAt(w.chunks, a) && w.chunks[a].size == FreedSize(v.chunks, p, a)
  {
    hide View.Laid, View.Binned, Coalesced, Keeps, Freed, FreedMem, Merged, BlockKept;
    FreedReady(v, p, a);
    assert FreedLoose(v.chunks, p, a) == {a};
    assert loose + {} == loose;
    FreeUp(v, p, a, w);
  }

  lemma GoneThen(u: View, v: View, w: View, p: int)
    requires Gone(u, v, p) && Keeps(v, w, {})
    ensures Gone(u, w, p)
  {
    hide Usable;
    KeepsThen(u, v, w, {p + 16}, {});
    assert {p + 16} + {} == {p + 16};
    assert BlockKept(v, w, p + 16);
  }

  lemma ThenGone(u: View, v: View, w: View, p: int)
    requires Keeps(u, v, {}) && Gone(v, w, p)
    ensures Gone(u, w, p)
  {
    hide Usable;
    KeepsThen(u, v, w, {}, {p + 16});
    assert {} + {p + 16} == {p + 16};
  }

  /** The free neighbours that are binned. */
  ghost function Neighbours(v: View, p: int, a: int): set<int> {
    (if a != p && a != v.dv then {a} else {}) + (if FreeAt(v.chunks, Nxt(v.chunks, p)) &&
      Nxt(v.chunks, p) != v.dv then {Nxt(v.chunks, p)} else {})
  }

  lemma FreeingNow(v: View, p: int, a: int)
    requires v.Laid() && v.Binned(Neighbours(v, p, a)) && Coalesced(v.chunks) && Frees(v.chunks, p, a)
    ensures Freeing(v, Neighbours(v, p, a), p, a) && Nxt(v.chunks, p) > p && a <= p && a > 0
    ensures v.dv == a || v.dv == Nxt(v.chunks, p) ==> v.dv != 0 && (v.dv == a ==> a != p)
  {
    hide View.Laid, View.Binned, Coalesced;
    FreedReady(v, p, a);
    SizePositive(v, a);
    VictimGone(v, Neighbours(v, p, a));
  }

  /** Where the merged chunk starts. */
  lemma FreesFrom(v: View, p: int) returns (a: int)
    requires v.Laid() && v.Binned({}) && Coalesced(v.chunks) && p in v.chunks && v.chunks[p].kind.Used?
    ensures Frees(v.chunks, p, a) && a <= p && a > 0
    ensures a != p ==> FreeAt(v.chunks, a) && a + v.chunks[a].size == p
  {
    hide Tagged, SegsOK, DirectOK, Recorded, AllDirectWords, Mapped, Apart, SizesOK;
    NextKind(v.chunks, v.top, v.topsize, p);
    SizePositive(v, p);
    if v.chunks[p].pin {
      a := p;
    } else {
      a :| a in v.chunks && !Ends(v.chunks[a].kind) && Nxt(v.chunks, a) == p;
      assert v.chunks[p].pin == InUse(v.chunks[a].kind);
      SizePositive(v, a);
    }
  }

  lemma FreeingFacts(v: View, loose: set<int>, p: int, a: int)
    requires Freeing(v, loose, p, a)
    ensures v.Laid() && v.Binned(loose) && Coalesced(v.chunks) && Frees(v.chunks, p, a) && Nxt(v.chunks, p) > p &&
      a <= p
    ensures v.dv == a || v.dv == Nxt(v.chunks, p) ==>
      v.dv != 0 && FreeAt(v.chunks, v.dv) && v.dvsize == v.chunks[v.dv].size
    ensures v.chunks[Nxt(v.chunks, p)].kind.Top? <==> Nxt(v.chunks, p) == v.top
    ensures !JoinsNext(v.chunks, p) ==> FreedSize(v.chunks, p, a) == Nxt(v.chunks, p) - a
    ensures FreeAt(v.chunks, Nxt(v.chunks, p)) ==>
      JoinsNext(v.chunks, p) && FreedSize(v.chunks, p, a) == Nxt(v.chunks, p) - a + v.chunks[Nxt(v.chunks, p)].size
  {
    hide View.Laid, View.Binned, Coalesced;
    FreedReady(v, p, a);
    SizePositive(v, a);
    VictimGone(v, loose);
  }

  lemma ForwardReady(v: View, loose: set<int>, p: int, a: int)
    requires v.Laid() && v.Binned(loose) && Frees(v.chunks, p, a) && FreeAt(v.chunks, Nxt(v.chunks, p))
    requires loose == if a != p && a != v.dv then {a} else {}
    ensures Nxt(v.chunks, p) !in loose && Nxt(v.chunks, p) > a && Nxt(v.chunks, p) != v.top
  {
    hide View.Laid, View.Binned;
    FreedReady(v, p, a);
  }
}
