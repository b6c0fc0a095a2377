/** A new heap: one segment with the allocator's state, the top chunk and its foot. */
module CreateSteps {
  import opened BinMap
  import opened Memory
  import opened Trie
  import opened Layout
  import opened Bins
  import opened Segments
  import opened BinSteps
  import opened Blocks
  import opened SegSteps
  import opened DropSteps

  const FIRST_TOP := GRANULARITY - STATE_SIZE - TOP_FOOT_SIZE

  function FirstChunks(b: int): Chunks {
    map[b := Chunk(STATE_SIZE, State, true), b + STATE_SIZE := Chunk(FIRST_TOP, Top, true),
      b + STATE_SIZE + FIRST_TOP := Chunk(TOP_FOOT_SIZE, Foot, false)]
  }

  function EmptyTable(): BinTable {
    BinTable(seq(32, i => []), 0, seq(32, i => Nil), seq(32, i => 0), 0)
  }

  /** The new heap in memory m. */
  ghost function FirstView(m: Mem, b: int): View {
    View(m, FirstChunks(b), b + STATE_SIZE, FIRST_TOP, [Seg(b, GRANULARITY, SegField(b))], map[], b, EmptyTable(), 0, 0)
  }

  ghost predicate FirstWords(m: Mem, b: int) {
    && m.Keys == MapIn(map[], b, GRANULARITY).Keys
    && Head(m, b) == STATE_SIZE + 3 && Head(m, b + STATE_SIZE) == FIRST_TOP + 1 &&
      Head(m, b + STATE_SIZE + FIRST_TOP) == TOP_FOOT_SIZE
    && Rd(m, SegField(b)) == b && Rd(m, SegField(b) + 8) == GRANULARITY && Rd(m, SegField(b) + 16) == 0
  }

  lemma FirstTiled(b: int)
    requires 0 < b && b % 8 == 0 && b + GRANULARITY <= ADDRESS_LIMIT
    ensures Tiled(FirstChunks(b)) && TopIs(FirstChunks(b), b + STATE_SIZE, FIRST_TOP) && StateAt(FirstChunks(b), b) &&
      Coalesced(FirstChunks(b))
  {
    hide SizesOK, Apart, Linked, Preceded, Coalesced, FirstChunks, TopIs;
    FirstSizes(b);
    FirstLinked(b);
    FirstPreceded(b);
    FirstTops(b);
  }

  /** The three chunks. */
  lemma FirstAt(b: int)
    ensures var cs, t, f := FirstChunks(b), b + STATE_SIZE, b + STATE_SIZE + FIRST_TOP;
      && cs.Keys == {b, t, f} && cs[b] == Chunk(STATE_SIZE, State, true) && cs[t] == Chunk(FIRST_TOP, Top, true) &&
        cs[f] == Chunk(TOP_FOOT_SIZE, Foot, false)
      && Nxt(cs, b) == t && Nxt(cs, t) == f && b < t < f
  {
  }

  lemma FirstSizes(b: int)
    requires 0 < b && b % 8 == 0 && b + GRANULARITY <= ADDRESS_LIMIT
    ensures SizesOK(FirstChunks(b)) && Apart(FirstChunks(b)) && StateAt(FirstChunks(b), b)
  {
    hide FirstChunks;
    FirstAt(b);
    var cs, t, f := FirstChunks(b), b + STATE_SIZE, b + STATE_SIZE + FIRST_TOP;
    assert ChunkOK(b, cs[b]) && ChunkOK(t, cs[t]) && ChunkOK(f, cs[f]);
    assert forall a :: a in cs <==> a in {b, t, f};
  }

  lemma FirstLinked(b: int)
    ensures Linked(FirstChunks(b)) && Coalesced(FirstChunks(b))
  {
    hide FirstChunks;
    FirstAt(b);
    var cs, t, f := FirstChunks(b), b + STATE_SIZE, b + STATE_SIZE + FIRST_TOP;
    assert forall a :: a in cs <==> a in {b, t, f};
  }

  lemma FirstPreceded(b: int)
    ensures Preceded(FirstChunks(b))
  {
    hide FirstChunks;
    FirstAt(b);
    var cs, t, f := FirstChunks(b), b + STATE_SIZE, b + STATE_SIZE + FIRST_TOP;
    forall a | a in cs && !cs[a].pin
      ensures exists c :: c in cs && !Ends(cs[c].kind) && Nxt(cs, c) == a
    {
      assert a in {b, t, f};
      assert Nxt(cs, t) == a;
    }
  }

  lemma FirstTops(b: int)
    ensures TopIs(FirstChunks(b), b + STATE_SIZE, FIRST_TOP)
  {
    hide FirstChunks;
    FirstAt(b);
    var cs, t, f := FirstChunks(b), b + STATE_SIZE, b + STATE_SIZE + FIRST_TOP;
    assert forall a :: a in cs <==> a in {b, t, f};
  }

  lemma FirstShape(m: Mem, b: int)
    requires FreshAt(map[], b, GRANULARITY) && FirstWords(m, b)
    ensures var v := FirstView(m, b); ShapeInv(m.Keys, v.chunks, v.top, v.topsize, v.segs, v.direct, v.msp)
  {
    hide Tiled, TopIs, StateAt, MapIn, FirstWords, FirstChunks, Mapped, SegsOK;
    PageAligned(b);
    FirstTiled(b);
    FirstKeys(m, b);
    FirstMapped(m, b);
    FirstSegs(m, b);
  }

  lemma FirstKeys(m: Mem, b: int)
    requires FirstWords(m, b)
    ensures forall w | b <= w < b + GRANULARITY :: w in m.Keys
  {
    hide MapIn;
    ZeroMap(b);
  }

  lemma FirstMapped(m: Mem, b: int)
    requires forall w | b <= w < b + GRANULARITY :: w in m.Keys
    ensures Mapped(m.Keys, FirstChunks(b))
  {
    hide FirstChunks;
    FirstAt(b);
  }

  lemma FirstSegs(m: Mem, b: int)
    requires FreshAt(map[], b, GRANULARITY) && forall w | b <= w < b + GRANULARITY :: w in m.Keys
    ensures SegsOK(m.Keys, FirstChunks(b), FirstView(m, b).segs, b, b + STATE_SIZE, FIRST_TOP)
  {
    hide FirstChunks;
    FirstAt(b);
  }

  lemma FirstTagged(m: Mem, b: int)
    requires FirstWords(m, b)
    ensures Tagged(m, FirstChunks(b))
  {
    hide MapIn;
    var cs := FirstChunks(b);
    forall a | a in cs
      ensures Head(m, a) == HeadWord(cs[a]) && !cs[a].kind.Free?
    {
      assert a == b || a == b + STATE_SIZE || a == b + STATE_SIZE + FIRST_TOP;
    }
  }

  lemma NoneMarked(i: nat)
    ensures !Marked(0, i)
  {
    ZeroHasNone(i);
  }

  lemma FirstBinned(m: Mem, b: int)
    ensures FirstView(m, b).Binned({})
  {
    var v := FirstView(m, b);
    var t := v.bins;
    forall i: nat
      ensures !Marked(0, i)
    {
      NoneMarked(i);
    }
    assert forall i | 0 <= i < 32 :: t.small[i] == [] && t.trees[i] == Nil && t.roots[i] == 0;
    forall a | FreeAt(v.chunks, a)
      ensures false
    {
    }
  }

  lemma FirstSound(m: Mem, b: int)
    requires FreshAt(map[], b, GRANULARITY) && FirstWords(m, b)
    ensures Sound(FirstView(m, b))
    ensures forall p :: Usable(FirstView(m, b), p) == 0
  {
    hide View.Binned, ShapeInv, Tagged, MapIn, FirstChunks, Coalesced;
    FirstShape(m, b);
    FirstTagged(m, b);
    FirstBinned(m, b);
    PageAligned(b);
    FirstTiled(b);
    FirstUnused(m, b);
    assert NextRec(FirstView(m, b).segs, 0) == 0;
  }

  lemma FirstUnused(m: Mem, b: int)
    ensures forall p :: Usable(FirstView(m, b), p) == 0
  {
  }

  /** The stores of `lj_alloc_create` after the bins were linked in m. */
  lemma FirstStores(m0: Mem, m: Mem, n: Mem, b: int)
    requires FreshAt(map[], b, GRANULARITY) && m0 == MapIn(map[], b, GRANULARITY)
    requires m.Keys == m0.Keys && forall w | !(b + 88 <= w < b + 600) ::
      Rd(m, w) == Rd(m0[b + HEAD := STATE_SIZE + 3][SegField(b) := b][SegField(b) + 8 := GRANULARITY], w)
    requires n == m[b + STATE_SIZE + HEAD := FIRST_TOP + 1][b + STATE_SIZE + FIRST_TOP + HEAD := TOP_FOOT_SIZE]
    requires b + STATE_SIZE + HEAD in m && b + STATE_SIZE + FIRST_TOP + HEAD in m
    ensures FirstWords(n, b)
  {
    hide MapIn;
    ZeroMap(b);
    var t, f := b + STATE_SIZE, b + STATE_SIZE + FIRST_TOP;
    assert n.Keys == m.Keys;
    assert Rd(m, b + HEAD) == STATE_SIZE + 3 && Rd(m0, SegField(b) + 16) == 0;
    assert Rd(m, SegField(b)) == b && Rd(m, SegField(b) + 8) == GRANULARITY && Rd(m, SegField(b) + 16) == 0;
    assert Head(n, t) == FIRST_TOP + 1 && Head(n, f) == TOP_FOOT_SIZE;
  }

  lemma ZeroMap(b: int)
    ensures forall w :: Rd(MapIn(map[], b, GRANULARITY), w) == 0
    ensures forall w | b <= w < b + GRANULARITY :: w in MapIn(map[], b, GRANULARITY)
  {
    assert forall w | b <= w < b + GRANULARITY :: InRange(w, b, GRANULARITY);
  }

  lemma FreshEight(b: int)
    requires FreshAt(map[], b, GRANULARITY)
    ensures b % 8 == 0 && AlignOffset(b + 16) == 0 && AlignOffset(b + STATE_SIZE + 16) == 0
  {
    PageAligned(b);
  }
}
