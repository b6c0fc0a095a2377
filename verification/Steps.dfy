/** The single steps on the tiling keep the shape of the heap. */
module Steps {
  import opened Layout
  import opened Bins
  import opened Segments

  /** A step that moves no border but those inside chunk v and what follows it. */
  ghost predicate SameSegChunks(cs: Chunks, ds: Chunks, segs: seq<Seg>) {
    && (forall i | 0 <= i < |segs| ::
      segs[i].base in cs && cs[segs[i].base].pin ==> segs[i].base in ds && ds[segs[i].base].pin)
    && (forall a | a in cs && Ends(cs[a].kind) :: a in ds && ds[a].kind == cs[a].kind && ds[a].size == cs[a].size)
    && (forall a | a in ds && ds[a].kind.Rec? :: a in cs && cs[a].kind.Rec?)
  }

  lemma SegsStep(keys: set<int>, cs: Chunks, ds: Chunks, segs: seq<Seg>, msp: int, top: int, topsize: int, top': int,
      topsize': int)
    requires SegsOK(keys, cs, segs, msp, top, topsize) && SameSegChunks(cs, ds, segs) && NoCross(ds, segs)
    requires segs[0].base <= top' && top' + topsize' == top + topsize
    ensures SegsOK(keys, ds, segs, msp, top', topsize')
  {
    hide NoCross, SegsApart, RecsOwned;
    RecsStep(cs, ds, segs);
    forall i | 0 <= i < |segs|
      ensures SegAt(keys, ds, segs[i])
      ensures i > 0 ==> Retired(ds, segs[i])
    {
      assert SegAt(keys, cs, segs[i]);
    }
  }

  lemma RecsStep(cs: Chunks, ds: Chunks, segs: seq<Seg>)
    requires RecsOwned(cs, segs) && SameSegChunks(cs, ds, segs)
    ensures RecsOwned(ds, segs)
  {
    hide Owned;
  }

  /** Every chunk of ds lies within chunks of cs. */
  ghost predicate Within1(cs: Chunks, ds: Chunks, v: int) {
    v in cs && forall a | a in ds ::
      (a in cs && ds[a].size == cs[a].size) || (v <= a && a + ds[a].size <= v + cs[v].size)
  }

  lemma MappedStep(keys: set<int>, cs: Chunks, ds: Chunks, v: int)
    requires Mapped(keys, cs) && Within1(cs, ds, v)
    ensures Mapped(keys, ds)
  {
  }

  lemma DirectStep(keys: set<int>, cs: Chunks, ds: Chunks, segs: seq<Seg>, direct: map<int, int>, v: int)
    requires DirectOK(keys, cs, segs, direct) && Within1(cs, ds, v)
    ensures DirectOK(keys, ds, segs, direct)
  {
    forall p | p in direct
      ensures DirectAlone(ds, segs, p, direct[p])
    {
      assert DirectAlone(cs, segs, p, direct[p]);
    }
  }

  lemma UseWholeShape(keys: set<int>, cs: Chunks, top: int, topsize: int, segs: seq<Seg>, direct: map<int, int>,
      msp: int, v: int)
    requires ShapeInv(keys, cs, top, topsize, segs, direct, msp) && FreeAt(cs, v)
    ensures Nxt(cs, v) in cs && ShapeInv(keys, UseWhole(cs, v), top, topsize, segs, direct, msp)
  {
    hide RecsOwned, SizesOK, Apart, Preceded, Mapped, DirectOK, SegAt, Retired, SegsApart, CurrentSeg;
    assert Nxt(cs, v) in cs;
    var ds := UseWhole(cs, v);
    UseWholeTiled(cs, v);
    NextNotFoot(cs, top, topsize, v);
    assert Within1(cs, ds, v);
    MappedStep(keys, cs, ds, v);
    DirectStep(keys, cs, ds, segs, direct, v);
    SameNext(cs, ds, segs);
    TopAboveBase(segs, msp, top, topsize);
    SegsStep(keys, cs, ds, segs, msp, top, topsize, top, topsize);
  }

  lemma NextNotFoot(cs: Chunks, top: int, topsize: int, v: int)
    requires Tiled(cs) && TopIs(cs, top, topsize) && v in cs && v != top
    ensures Nxt(cs, v) != top + topsize
  {
    TiledSolid(cs);
    if Nxt(cs, v) == top + topsize {
      OnePrevious(cs, v, top);
    }
  }

  lemma TopAboveBase(segs: seq<Seg>, msp: int, top: int, topsize: int)
    requires segs != [] && CurrentSeg(segs[0], msp, top, topsize)
    ensures segs[0].base <= top
  {
  }

  lemma SameNext(cs: Chunks, ds: Chunks, segs: seq<Seg>)
    requires NoCross(cs, segs) && ds.Keys == cs.Keys
    requires forall a | a in cs :: ds[a].size == cs[a].size && Ends(ds[a].kind) == Ends(cs[a].kind)
    ensures NoCross(ds, segs)
  {
    forall i, a {:trigger segs[i], Nxt(ds, a)} | 0 <= i < |segs| && a in ds && !Ends(ds[a].kind)
      ensures Nxt(ds, a) != segs[i].base
    {
      assert Nxt(ds, a) == Nxt(cs, a);
    }
  }

  lemma ReleaseShape(keys: set<int>, cs: Chunks, top: int, topsize: int, segs: seq<Seg>, direct: map<int, int>,
      msp: int, p: int)
    requires ShapeInv(keys, cs, top, topsize, segs, direct, msp) && p in cs && cs[p].kind.Used?
    ensures Nxt(cs, p) in cs && ShapeInv(keys, Release(cs, p), top, topsize, segs, direct, msp)
  {
    hide RecsOwned, SizesOK, Apart, Preceded, Mapped, DirectOK, SegAt, Retired, SegsApart, CurrentSeg;
    assert Nxt(cs, p) in cs;
    var ds := Release(cs, p);
    ReleaseTiled(cs, p);
    assert Within1(cs, ds, p);
    MappedStep(keys, cs, ds, p);
    DirectStep(keys, cs, ds, segs, direct, p);
    SameNext(cs, ds, segs);
    TopAboveBase(segs, msp, top, topsize);
    SegsStep(keys, cs, ds, segs, msp, top, topsize, top, topsize);
  }

  lemma SplitNoCross(cs: Chunks, segs: seq<Seg>, v: int, nb: int, rest: Kind)
    requires NoCross(cs, segs) && Splits(cs, v, nb, rest) && v + nb !in cs
    requires forall i | 0 <= i < |segs| :: segs[i].base in cs
    ensures NoCross(Split(cs, v, nb, rest), segs)
  {
    var ds := Split(cs, v, nb, rest);
    forall i, a {:trigger segs[i], Nxt(ds, a)} | 0 <= i < |segs| && a in ds && !Ends(ds[a].kind)
      ensures Nxt(ds, a) != segs[i].base
    {
      if a == v + nb {
        assert Nxt(ds, a) == Nxt(cs, v);
      } else if a != v {
        assert Nxt(ds, a) == Nxt(cs, a);
      }
    }
  }

  lemma SegBases(keys: set<int>, cs: Chunks, segs: seq<Seg>)
    requires forall i | 0 <= i < |segs| :: SegAt(keys, cs, segs[i])
    ensures forall i | 0 <= i < |segs| :: segs[i].base in cs && cs[segs[i].base].pin
  {
  }

  /** Split with a remainder of the kind the chunk had, the top chunk staying where it is. */
  lemma SplitShape(keys: set<int>, cs: Chunks, top: int, topsize: int, segs: seq<Seg>, direct: map<int, int>,
      msp: int, v: int, nb: int, rest: Kind)
    requires ShapeInv(keys, cs, top, topsize, segs, direct, msp) && Splits(cs, v, nb, rest)
    requires rest.Free? || rest.Used?
    requires cs[v].kind.Free? || cs[v].kind.Used?
    ensures v + nb !in cs && ShapeInv(keys, Split(cs, v, nb, rest), top, topsize, segs, direct, msp)
  {
    hide RecsOwned, SizesOK, Apart, Preceded, Linked, Mapped, DirectOK, SegAt, Retired, SegsApart, CurrentSeg, NoCross;
    var ds := Split(cs, v, nb, rest);
    SplitTiled(cs, v, nb, rest);
    assert Within1(cs, ds, v);
    MappedStep(keys, cs, ds, v);
    DirectStep(keys, cs, ds, segs, direct, v);
    SegBases(keys, cs, segs);
    SplitNoCross(cs, segs, v, nb, rest);
    TopAboveBase(segs, msp, top, topsize);
    SegsStep(keys, cs, ds, segs, msp, top, topsize, top, topsize);
  }

  lemma SplitTopShape(keys: set<int>, cs: Chunks, top: int, topsize: int, segs: seq<Seg>, direct: map<int, int>,
      msp: int, nb: int)
    requires ShapeInv(keys, cs, top, topsize, segs, direct, msp) && nb % 8 == 0 && MIN_CHUNK_SIZE <= nb < topsize
    ensures Splits(cs, top, nb, Top) && top + nb !in cs
    ensures ShapeInv(keys, Split(cs, top, nb, Top), top + nb, topsize - nb, segs, direct, msp)
  {
    hide RecsOwned, SizesOK, Apart, Preceded, Linked, Mapped, DirectOK, SegAt, Retired, SegsApart, CurrentSeg, NoCross;
    var ds := Split(cs, top, nb, Top);
    SplitTiled(cs, top, nb, Top);
    assert Within1(cs, ds, top);
    MappedStep(keys, cs, ds, top);
    DirectStep(keys, cs, ds, segs, direct, top);
    SegBases(keys, cs, segs);
    SplitNoCross(cs, segs, top, nb, Top);
    TopAboveBase(segs, msp, top, topsize);
    SegsStep(keys, cs, ds, segs, msp, top, topsize, top + nb, topsize - nb);
  }

  lemma JoinNoCross(cs: Chunks, segs: seq<Seg>, a: int)
    requires NoCross(cs, segs) && Joins(cs, a) && Solid(cs)
    ensures NoCross(Join(cs, a), segs)
  {
    var ds := Join(cs, a);
    var b := Nxt(cs, a);
    forall i, x {:trigger segs[i], Nxt(ds, x)} | 0 <= i < |segs| && x in ds && !Ends(ds[x].kind)
      ensures Nxt(ds, x) != segs[i].base
    {
      if x == a {
        assert Nxt(ds, x) == Nxt(cs, b);
      } else {
        assert Nxt(ds, x) == Nxt(cs, x);
      }
    }
  }

  lemma JoinMapped(keys: set<int>, cs: Chunks, a: int)
    requires Mapped(keys, cs) && Joins(cs, a)
    ensures Mapped(keys, Join(cs, a))
  {
    var ds := Join(cs, a);
    var b := Nxt(cs, a);
    forall x, w | x in ds && x <= w < x + ds[x].size
      ensures w in keys
    {
      if x == a && w >= b {
        assert b <= w < b + cs[b].size;
      }
    }
  }

  lemma JoinDirect(keys: set<int>, cs: Chunks, segs: seq<Seg>, direct: map<int, int>, a: int)
    requires DirectOK(keys, cs, segs, direct) && Joins(cs, a)
    ensures DirectOK(keys, Join(cs, a), segs, direct)
  {
    var ds := Join(cs, a);
    var b := Nxt(cs, a);
    forall p | p in direct
      ensures DirectAlone(ds, segs, p, direct[p])
    {
      assert DirectAlone(cs, segs, p, direct[p]) && DirectAt(keys, p, direct[p]);
      forall x | x in ds
        ensures x + ds[x].size <= p || DirectEnd(p, direct[p]) <= x
      {
        if x == a {
          assert b + cs[b].size <= p || DirectEnd(p, direct[p]) <= b;
        }
      }
    }
  }

  lemma JoinTop(cs: Chunks, top: int, topsize: int, a: int)
    requires TopIs(cs, top, topsize) && Joins(cs, a)
    ensures var b := Nxt(cs, a);
      if b == top then TopIs(Join(cs, a), a, cs[a].size + topsize) else TopIs(Join(cs, a), top, topsize)
  {
  }

  lemma JoinSegs(keys: set<int>, cs: Chunks, segs: seq<Seg>, a: int)
    requires Joins(cs, a) && forall i | 0 <= i < |segs| ::
      segs[i].base in cs && cs[segs[i].base].pin && segs[i].base != Nxt(cs, a)
    ensures SameSegChunks(cs, Join(cs, a), segs)
  {
  }

  /** Join with a free successor, or with the top chunk, which then starts at a. */
  lemma JoinShape(keys: set<int>, cs: Chunks, top: int, topsize: int, segs: seq<Seg>, direct: map<int, int>, msp: int,
      a: int)
    requires ShapeInv(keys, cs, top, topsize, segs, direct, msp) && Joins(cs, a)
    ensures var b := Nxt(cs, a);
      if b == top then ShapeInv(keys, Join(cs, a), a, cs[a].size + topsize, segs, direct, msp)
      else ShapeInv(keys, Join(cs, a), top, topsize, segs, direct, msp)
  {
    hide RecsOwned, SizesOK, Apart, Preceded, Linked, Mapped, DirectOK, SegAt, Retired, SegsApart, CurrentSeg;
    hide NoCross, TopIs, SameSegChunks;
    TiledSolid(cs);
    JoinTiled(cs, a);
    JoinMapped(keys, cs, a);
    JoinDirect(keys, cs, segs, direct, a);
    SegBases(keys, cs, segs);
    JoinNoCross(cs, segs, a);
    NotBase(cs, segs, a);
    TopAboveBase(segs, msp, top, topsize);
    JoinTop(cs, top, topsize, a);
    JoinSegs(keys, cs, segs, a);
    var b := Nxt(cs, a);
    if b == top {
      SegsStep(keys, cs, Join(cs, a), segs, msp, top, topsize, a, cs[a].size + topsize);
    } else {
      SegsStep(keys, cs, Join(cs, a), segs, msp, top, topsize, top, topsize);
    }
  }

  lemma NotBase(cs: Chunks, segs: seq<Seg>, a: int)
    requires NoCross(cs, segs) && a in cs && !Ends(cs[a].kind) && Apart(cs) && Nxt(cs, a) in cs
    requires forall i | 0 <= i < |segs| :: segs[i].base in cs
    ensures forall i | 0 <= i < |segs| :: segs[i].base != Nxt(cs, a)
    ensures segs != [] && segs[0].base <= Nxt(cs, a) ==> segs[0].base <= a
  {
    forall i | 0 <= i < |segs|
      ensures segs[i].base != Nxt(cs, a)
    {
    }
  }
}
