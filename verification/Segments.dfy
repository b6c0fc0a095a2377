/** Segments, direct-mapped chunks, and what stores into boundary tags leave alone. */
module Segments {
  import opened Memory
  import opened Layout
  import opened Bins

  /** A segment with the address of its record. */
  datatype Seg = Seg(base: int, size: int, rec: int)

  const PAGE_SIZE := 4096
  const GRANULARITY := 0x2_0000

  /** Where `malloc_state` keeps the record of the current segment. */
  function SegField(msp: int): int { msp + 856 }

  function SegEnd(s: Seg): int { s.base + s.size }

  // ----- the shape of the heap: which words belong to what -----

  ghost predicate SegAt(keys: set<int>, cs: Chunks, s: Seg) {
    && 0 < s.base && s.base % PAGE_SIZE == 0 && s.size % GRANULARITY == 0 && 0 < s.size && SegEnd(s) <= ADDRESS_LIMIT
    && s.base in cs && cs[s.base].pin
    && (forall w | s.base <= w < SegEnd(s) :: w in keys)
  }

  /** A segment that was given up for a newer one ends in a chunk that holds its own record. */
  ghost predicate Retired(cs: Chunks, s: Seg) {
    var r := s.rec - 16;
    r in cs && cs[r].kind.Rec? && s.base <= r && r + cs[r].size == SegEnd(s) &&
      TOP_FOOT_SIZE <= cs[r].size < TOP_FOOT_SIZE + MIN_CHUNK_SIZE
  }

  /** Every record chunk holds the record of a segment. */
  ghost predicate RecsOwned(cs: Chunks, segs: seq<Seg>) {
    forall a | a in cs && cs[a].kind.Rec? :: Owned(segs, a)
  }

  ghost predicate Owned(segs: seq<Seg>, a: int) {
    exists i :: 1 <= i < |segs| && segs[i].rec == a + 16
  }

  /** No chunk but the last of a segment has a segment's base right behind it. */
  ghost predicate NoCross(cs: Chunks, segs: seq<Seg>) {
    forall i, a {:trigger segs[i], Nxt(cs, a)} | 0 <= i < |segs| && a in cs && !Ends(cs[a].kind) ::
      Nxt(cs, a) != segs[i].base
  }

  ghost predicate CurrentSeg(s: Seg, msp: int, top: int, topsize: int) {
    s.rec == SegField(msp) && s.base <= top && SegEnd(s) == top + topsize + TOP_FOOT_SIZE
  }

  ghost predicate SegsApart(segs: seq<Seg>) {
    forall i, j | 0 <= i < j < |segs| :: SegEnd(segs[i]) <= segs[j].base || SegEnd(segs[j]) <= segs[i].base
  }

  ghost predicate SegsOK(keys: set<int>, cs: Chunks, segs: seq<Seg>, msp: int, top: int, topsize: int) {
    && segs != [] && CurrentSeg(segs[0], msp, top, topsize)
    && (forall i | 0 <= i < |segs| :: SegAt(keys, cs, segs[i]))
    && (forall i | 1 <= i < |segs| :: Retired(cs, segs[i]))
    && SegsApart(segs) && NoCross(cs, segs) && RecsOwned(cs, segs)
  }

  const DIRECT_FOOT_PAD := 32
  const FENCEPOST_HEAD := 11

  function DirectEnd(p: int, psize: int): int { p + psize + DIRECT_FOOT_PAD }

  /** A direct chunk p of psize bytes has a mapping of its own. */
  ghost predicate DirectAt(keys: set<int>, p: int, psize: int) {
    && 0 < p && p % PAGE_SIZE == 0 && psize % 8 == 0 && 16 < psize && DirectEnd(p, psize) <= ADDRESS_LIMIT
    && (forall w | p <= w < DirectEnd(p, psize) :: w in keys)
  }

  /** It overlaps no chunk and no segment. */
  ghost predicate DirectAlone(cs: Chunks, segs: seq<Seg>, p: int, psize: int) {
    && (forall a | a in cs :: a + cs[a].size <= p || DirectEnd(p, psize) <= a)
    && (forall i | 0 <= i < |segs| :: SegEnd(segs[i]) <= p || DirectEnd(p, psize) <= segs[i].base)
  }

  ghost predicate DirectOK(keys: set<int>, cs: Chunks, segs: seq<Seg>, direct: map<int, int>) {
    && (forall p | p in direct :: DirectAt(keys, p, direct[p]) && DirectAlone(cs, segs, p, direct[p]))
    && (forall p, q | p in direct && q in direct && p < q :: DirectEnd(p, direct[p]) <= q)
  }

  /** All of every chunk is mapped. */
  ghost predicate Mapped(keys: set<int>, cs: Chunks) {
    forall a, w | a in cs && a <= w < a + cs[a].size :: w in keys
  }

  ghost predicate ShapeInv(keys: set<int>, cs: Chunks, top: int, topsize: int, segs: seq<Seg>, direct: map<int, int>,
      msp: int) {
    && Tiled(cs) && Mapped(keys, cs) && TopIs(cs, top, topsize) && StateAt(cs, msp)
    && SegsOK(keys, cs, segs, msp, top, topsize) && DirectOK(keys, cs, segs, direct)
  }

  // ----- what memory says about it -----

  ghost predicate RecordAt(m: Mem, s: Seg, next: int) {
    Rd(m, s.rec) == s.base && Rd(m, s.rec + 8) == s.size && Rd(m, s.rec + 16) == next
  }

  function NextRec(segs: seq<Seg>, i: int): int
    requires 0 <= i < |segs|
  {
    if i + 1 < |segs| then segs[i + 1].rec else 0
  }

  /** The record of segment i links to that of segment i + 1. */
  ghost predicate Recorded(m: Mem, segs: seq<Seg>) {
    forall i | 0 <= i < |segs| :: RecordAt(m, segs[i], NextRec(segs, i))
  }

  /** The words of a direct chunk: the marked foot slot, the head, and a fake next chunk. */
  ghost predicate DirectWords(m: Mem, p: int, psize: int) {
    Rd(m, p) == 1 && Head(m, p) == psize + 2 && Head(m, p + psize) == FENCEPOST_HEAD && Head(m, p + psize + 8) == 0
  }

  ghost predicate AllDirectWords(m: Mem, direct: map<int, int>) {
    forall p | p in direct :: DirectWords(m, p, direct[p])
  }

  /** Everything about chunks, segments and direct chunks; the bins come on top. */
  ghost predicate LayoutInv(m: Mem, cs: Chunks, top: int, topsize: int, segs: seq<Seg>, direct: map<int, int>,
      msp: int) {
    && ShapeInv(m.Keys, cs, top, topsize, segs, direct, msp)
    && Tagged(m, cs) && Recorded(m, segs) && AllDirectWords(m, direct)
  }

  // ----- frames -----

  /** User data, segment records and direct chunks are the same, except those of chunks in x. */
  ghost predicate DataKept(m: Mem, n: Mem, cs: Chunks, direct: map<int, int>, x: set<int>, msp: int) {
    && n.Keys == m.Keys
    && (forall a, w | a in cs && cs[a].kind.Used? && a !in x && a + 16 <= w < a + cs[a].size + 8 ::
      Rd(n, w) == Rd(m, w))
    && (forall a, w | a in cs && cs[a].kind.Rec? && a + 16 <= w < a + 40 :: Rd(n, w) == Rd(m, w))
    && (forall p, w | p in direct && p <= w < DirectEnd(p, direct[p]) :: Rd(n, w) == Rd(m, w))
    && (forall w | SegField(msp) <= w < SegField(msp) + 24 :: Rd(n, w) == Rd(m, w))
  }

  lemma RecordsKept(m: Mem, n: Mem, cs: Chunks, segs: seq<Seg>, direct: map<int, int>, x: set<int>, msp: int,
      top: int, topsize: int)
    requires SegsOK(m.Keys, cs, segs, msp, top, topsize) && DataKept(m, n, cs, direct, x, msp)
    requires Recorded(m, segs) && AllDirectWords(m, direct) && DirectOK(m.Keys, cs, segs, direct)
    ensures Recorded(n, segs) && AllDirectWords(n, direct)
  {
    forall i | 0 <= i < |segs|
      ensures RecordAt(n, segs[i], NextRec(segs, i))
    {
      assert RecordAt(m, segs[i], NextRec(segs, i));
      if i > 0 {
        assert Retired(cs, segs[i]);
        var r := segs[i].rec - 16;
        assert Rd(n, r + 16) == Rd(m, r + 16) && Rd(n, r + 24) == Rd(m, r + 24) && Rd(n, r + 32) == Rd(m, r + 32);
      }
    }
    forall p | p in direct
      ensures DirectWords(n, p, direct[p])
    {
      assert DirectWords(m, p, direct[p]) && DirectAt(m.Keys, p, direct[p]);
    }
  }

  /** Linking chunks into and out of bins touches no tag and no data. */
  lemma LinksKeep(m: Mem, n: Mem, cs: Chunks, top: int, topsize: int, segs: seq<Seg>, direct: map<int, int>, msp: int)
    requires LayoutInv(m, cs, top, topsize, segs, direct, msp) && LinksOnly(m, n, cs, msp)
    ensures LayoutInv(n, cs, top, topsize, segs, direct, msp) && DataKept(m, n, cs, direct, {}, msp)
  {
    hide Mapped, TopIs, StateAt, SegsOK, Tagged, Recorded, AllDirectWords, DataKept, DirectOK, Tiled;
    assert n.Keys == m.Keys;
    LinksKeepTags(m, n, cs, msp);
    LinksKeepData(m, n, cs, segs, direct, msp);
    RecordsKept(m, n, cs, segs, direct, {}, msp, top, topsize);
  }

  lemma LinksKeepTags(m: Mem, n: Mem, cs: Chunks, msp: int)
    requires Tiled(cs) && Tagged(m, cs) && StateAt(cs, msp) && LinksOnly(m, n, cs, msp)
    ensures Tagged(n, cs)
  {
    forall a | a in cs
      ensures Head(n, a) == Head(m, a)
      ensures cs[a].kind.Free? ==> Rd(n, Nxt(cs, a)) == Rd(m, Nxt(cs, a))
    {
      assert ChunkOK(a, cs[a]);
      assert !LinkWord(cs, msp, a + 8);
      if cs[a].kind.Free? {
        assert !LinkWord(cs, msp, Nxt(cs, a));
      }
    }
  }

  /** The data of a chunk in use, its last word being the foot slot of the next chunk, holds no link. */
  lemma DataNoLink(cs: Chunks, msp: int, a: int, w: int)
    requires SizesOK(cs) && Apart(cs) && StateAt(cs, msp) && a in cs && InUse(cs[a].kind)
    requires a + 16 <= w < a + if cs[a].kind.Rec? then 40 else cs[a].size + 8
    requires a == msp ==> msp + 600 <= w
    ensures !LinkWord(cs, msp, w)
  {
    assert ChunkOK(a, cs[a]) && ChunkOK(msp, cs[msp]);
  }

  lemma DirectNoLink(cs: Chunks, segs: seq<Seg>, msp: int, p: int, psize: int, w: int)
    requires SizesOK(cs) && StateAt(cs, msp) && DirectAlone(cs, segs, p, psize) && p <= w < DirectEnd(p, psize)
    ensures !LinkWord(cs, msp, w)
  {
  }

  lemma LinksKeepData(m: Mem, n: Mem, cs: Chunks, segs: seq<Seg>, direct: map<int, int>, msp: int)
    requires Tiled(cs) && StateAt(cs, msp) && LinksOnly(m, n, cs, msp) && DirectOK(m.Keys, cs, segs, direct)
    ensures DataKept(m, n, cs, direct, {}, msp)
  {
    hide LinkWord, Linked, Preceded, SizesOK, Apart, DirectAt, DirectAlone;
    forall a, w | a in cs && cs[a].kind.Used? && a + 16 <= w < a + cs[a].size + 8
      ensures Rd(n, w) == Rd(m, w)
    {
      DataNoLink(cs, msp, a, w);
    }
    forall a, w | a in cs && cs[a].kind.Rec? && a + 16 <= w < a + 40
      ensures Rd(n, w) == Rd(m, w)
    {
      DataNoLink(cs, msp, a, w);
    }
    forall p, w | p in direct && p <= w < DirectEnd(p, direct[p])
      ensures Rd(n, w) == Rd(m, w)
    {
      DirectNoLink(cs, segs, msp, p, direct[p], w);
    }
    forall w | SegField(msp) <= w < SegField(msp) + 24
      ensures Rd(n, w) == Rd(m, w)
    {
      DataNoLink(cs, msp, msp, w);
    }
  }

  /** Words that stores into tags may hit: head words, and all of the chunks in x with the foot behind them. */
  ghost predicate TagWord(cs: Chunks, x: set<int>, w: int) {
    || (exists a :: a in cs && w == a + 8)
    || (exists a :: a in x && a in cs && a + 8 <= w <= a + cs[a].size)
  }

  ghost predicate TagsOnly(m: Mem, n: Mem, cs: Chunks, x: set<int>) {
    && n.Keys == m.Keys
    && forall w | !TagWord(cs, x, w) :: Rd(n, w) == Rd(m, w)
  }

  ghost predicate Inner(cs: Chunks, msp: int, x: set<int>) {
    msp !in x && forall a | a in x :: a in cs && !Ends(cs[a].kind)
  }

  lemma DataNoTag(cs: Chunks, x: set<int>, a: int, w: int)
    requires SizesOK(cs) && Apart(cs) && a in cs && a !in x && InUse(cs[a].kind)
    requires a + 16 <= w < a + if cs[a].kind.Rec? then 40 else cs[a].size + 8
    requires forall c | c in x :: c in cs
    ensures !TagWord(cs, x, w)
  {
    assert ChunkOK(a, cs[a]);
  }

  lemma DirectNoTag(cs: Chunks, segs: seq<Seg>, x: set<int>, p: int, psize: int, w: int)
    requires Tiled(cs) && DirectAlone(cs, segs, p, psize) && p <= w < DirectEnd(p, psize) && psize > 0
    requires forall c | c in x :: c in cs && !Ends(cs[c].kind)
    ensures !TagWord(cs, x, w)
  {
    forall c | c in x
      ensures !(c + 8 <= w <= c + cs[c].size)
    {
      assert Nxt(cs, c) in cs;
      assert ChunkOK(Nxt(cs, c), cs[Nxt(cs, c)]);
    }
    forall c | c in cs
      ensures w != c + 8
    {
      assert ChunkOK(c, cs[c]);
      if !Ends(cs[c].kind) {
        assert Nxt(cs, c) in cs;
        assert ChunkOK(Nxt(cs, c), cs[Nxt(cs, c)]);
      }
    }
  }

  lemma TagsKeepData(m: Mem, n: Mem, cs: Chunks, segs: seq<Seg>, direct: map<int, int>, msp: int, x: set<int>)
    requires Tiled(cs) && StateAt(cs, msp) && TagsOnly(m, n, cs, x) && DirectOK(m.Keys, cs, segs, direct) &&
      Inner(cs, msp, x)
    ensures DataKept(m, n, cs, direct, x, msp)
  {
    hide TagWord, Linked, Preceded, SizesOK, Apart, DirectAlone;
    forall a, w | a in cs && cs[a].kind.Used? && a !in x && a + 16 <= w < a + cs[a].size + 8
      ensures Rd(n, w) == Rd(m, w)
    {
      DataNoTag(cs, x, a, w);
    }
    forall a, w | a in cs && cs[a].kind.Rec? && a + 16 <= w < a + 40
      ensures Rd(n, w) == Rd(m, w)
    {
      DataNoTag(cs, x, a, w);
    }
    forall p, w | p in direct && p <= w < DirectEnd(p, direct[p])
      ensures Rd(n, w) == Rd(m, w)
    {
      DirectNoTag(cs, segs, x, p, direct[p], w);
    }
    forall w | SegField(msp) <= w < SegField(msp) + 24
      ensures Rd(n, w) == Rd(m, w)
    {
      DataNoTag(cs, x, msp, w);
    }
  }

  lemma TagsKeepBodies(m: Mem, n: Mem, cs: Chunks, msp: int, x: set<int>)
    requires Tiled(cs) && StateAt(cs, msp) && TagsOnly(m, n, cs, x) && Inner(cs, msp, x)
    ensures BodiesKept(m, n, cs, msp, x)
  {
    hide TagWord, Linked, Preceded, SizesOK, Apart;
    forall w | msp + 88 <= w < msp + 600
      ensures Rd(n, w) == Rd(m, w)
    {
      DataNoTag(cs, x, msp, w);
    }
    forall a, w | FreeAt(cs, a) && a !in x && a + 16 <= w < a + cs[a].size
      ensures Rd(n, w) == Rd(m, w)
    {
      BodyNoTag(cs, x, a, w);
    }
  }

  lemma BodyNoTag(cs: Chunks, x: set<int>, a: int, w: int)
    requires SizesOK(cs) && Apart(cs) && a in cs && a !in x && a + 16 <= w < a + cs[a].size
    requires forall c | c in x :: c in cs
    ensures !TagWord(cs, x, w)
  {
    assert ChunkOK(a, cs[a]);
  }
}
