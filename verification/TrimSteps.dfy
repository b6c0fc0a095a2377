/** Moving the end of the current segment: shrinking it, and extending it with memory mapped right behind it. */
module TrimSteps {
  import opened Memory
  import opened Layout
  import opened Bins
  import opened Segments
  import opened BinSteps
  import opened TagSteps
  import opened Blocks
  import opened SegSteps
  import opened DropSteps

  predicate Holds(s: Seg, a: int) {
    s.base <= a < SegEnd(s)
  }

  /** The top chunk lies in the current segment. */
  lemma TopHeld(v: View, i: int)
    requires v.Laid() && 0 <= i < |v.segs|
    ensures Holds(v.segs[i], v.top) <==> i == 0
    ensures SegEnd(v.segs[0]) == v.top + v.topsize + TOP_FOOT_SIZE && v.topsize > 0 && v.topsize % 8 == 0 &&
      v.top > 0 && v.segs[0].base <= v.top
  {
    hide RecsOwned, AllDirectWords, DirectOK, Preceded, NoCross, Mapped, Recorded, Retired, Linked, Tagged, Apart;
    hide SizesOK;
    TopKind(v);
    SizePositive(v, v.top);
    SizeEven(v.chunks, v.top);
    assert i > 0 ==> SegEnd(v.segs[0]) <= v.segs[i].base || SegEnd(v.segs[i]) <= v.segs[0].base;
  }

  lemma UnmapNone(m: Mem, a: int)
    ensures Unmap(m, a, 0) == m
  {
  }

  /** Shrinking the current segment by extra bytes. */
  lemma TrimMoves(v: View, extra: int)
    requires v.Laid() && 0 <= extra < v.topsize && extra % GRANULARITY == 0 && v.segs != []
    ensures TopMoves(v, Unmap(v.mem, SegEnd(v.segs[0]) - extra, extra), v.topsize - extra)
  {
    hide View.Laid, Unmap, FootFits, EndsAt;
    var size := v.topsize - extra;
    var e := v.top + size + TOP_FOOT_SIZE;
    TopHeld(v, 0);
    TopKind(v);
    UnmapReads(v.mem, e, extra);
    TrimFits(v, extra);
    TrimEnds(v, extra);
    FirstRec(v);
    SegLook(v, 0);
    TrimField(v);
    TrimWords(v, extra);
  }

  lemma TrimFits(v: View, extra: int)
    requires v.Laid() && 0 <= extra < v.topsize && extra % GRANULARITY == 0 && v.segs != []
    ensures FootFits(v.chunks, v.top, v.topsize, v.topsize - extra)
  {
    hide View.Laid;
    TopHeld(v, 0);
    FootBelow(v);
    MultipleOfEight(extra);
    forall a | a in v.chunks && a != v.top && a != v.top + v.topsize
      ensures a + v.chunks[a].size <= v.top || v.top + (v.topsize - extra) + TOP_FOOT_SIZE <= a
    {
      SideOfTop(v, a);
    }
  }

  lemma FootBelow(v: View)
    requires v.Laid()
    ensures v.top + v.topsize + TOP_FOOT_SIZE <= ADDRESS_LIMIT
  {
    hide AllDirectWords, Preceded, Recorded, Linked, Tagged, Mapped, DirectOK, SegsOK, Apart;
    var f := v.top + v.topsize;
    assert ChunkOK(f, v.chunks[f]);
  }

  lemma SideOfTop(v: View, a: int)
    requires v.Laid() && a in v.chunks && a != v.top && a != v.top + v.topsize
    ensures a + v.chunks[a].size <= v.top || v.top + v.topsize + TOP_FOOT_SIZE <= a
    ensures v.chunks[a].size > 0
  {
    hide AllDirectWords, Preceded, Recorded, Linked, Tagged, Mapped, DirectOK, SegsOK;
    assert ChunkOK(a, v.chunks[a]);
    OldSide(v.chunks, v.top, v.topsize, a);
  }

  lemma MultipleOfEight(n: int)
    requires n % GRANULARITY == 0
    ensures n % 8 == 0
  {
  }

  lemma TrimField(v: View)
    requires v.Laid()
    ensures SegField(v.msp) + 8 < v.top || v.top + v.topsize + TOP_FOOT_SIZE <= SegField(v.msp)
  {
    hide RecsOwned, AllDirectWords, Preceded, NoCross, Recorded, Retired, Linked, Tagged, Mapped, SegsApart, DirectOK;
    hide SegAt;
    SizePositive(v, v.msp);
    OldSide(v.chunks, v.top, v.topsize, v.msp);
  }

  lemma TrimWords(v: View, extra: int)
    requires v.Laid() && 0 <= extra < v.topsize && v.segs != []
    ensures v.top + HEAD in v.mem && v.top + (v.topsize - extra) + HEAD in v.mem
  {
    hide RecsOwned, AllDirectWords, Preceded, NoCross, Recorded, Retired, Linked, Tagged, Mapped, SegsApart, DirectOK;
    hide Tiled;
    TopHeld(v, 0);
    assert SegAt(v.mem.Keys, v.chunks, v.segs[0]);
    assert v.top + HEAD in v.mem.Keys && v.top + (v.topsize - extra) + HEAD in v.mem.Keys;
  }

  lemma TrimEnds(v: View, extra: int)
    requires v.Laid() && 0 <= extra < v.topsize && extra % GRANULARITY == 0 && v.segs != []
    ensures EndsAt(v.mem.Keys, Unmap(v.mem, SegEnd(v.segs[0]) - extra, extra).Keys, v.segs, v.direct,
      SegEnd(v.segs[0]) - extra)
  {
    hide RecsOwned, AllDirectWords, Preceded, NoCross, Recorded, Retired, Linked, Tagged, Mapped, Tiled;
    TopHeld(v, 0);
    var e := SegEnd(v.segs[0]) - extra;
    UnmapReads(v.mem, e, extra);
    assert SegAt(v.mem.Keys, v.chunks, v.segs[0]);
    forall i | 1 <= i < |v.segs|
      ensures SegEnd(v.segs[i]) <= v.segs[0].base || e <= v.segs[i].base
    {
      assert SegEnd(v.segs[0]) <= v.segs[i].base || SegEnd(v.segs[i]) <= v.segs[0].base;
    }
    forall p | p in v.direct
      ensures DirectEnd(p, v.direct[p]) <= v.segs[0].base || e <= p
    {
      assert DirectAlone(v.chunks, v.segs, p, v.direct[p]);
    }
    DivideMinus(v.segs[0].size, extra);
  }

  lemma DivideMinus(a: int, b: int)
    requires a % GRANULARITY == 0 && b % GRANULARITY == 0
    ensures (a - b) % GRANULARITY == 0 && (a + b) % GRANULARITY == 0
  {
    var p, q := a / GRANULARITY, b / GRANULARITY;
    assert a == p * GRANULARITY && b == q * GRANULARITY;
    assert a - b == (p - q) * GRANULARITY && a + b == (p + q) * GRANULARITY;
  }

  // ----- extending -----

  /** Fresh memory behind the current segment extends the top chunk. */
  lemma AppendMoves(v: View, tsize: int)
    requires v.Laid() && v.segs != [] && FreshAt(v.mem, SegEnd(v.segs[0]), tsize) && tsize % GRANULARITY == 0
    ensures TopMoves(v, MapIn(v.mem, SegEnd(v.segs[0]), tsize), v.topsize + tsize)
  {
    hide RecsOwned, AllDirectWords, Preceded, NoCross, Recorded, Retired, Linked, Tagged, Mapped, SegsApart, MapIn;
    hide DirectOK, SegAt, Apart;
    var tbase := SegEnd(v.segs[0]);
    TopHeld(v, 0);
    FreshClear(v, tbase, tsize);
    MapInReads(v.mem, tbase, tsize);
    AppendFits(v, tsize);
    AppendEnds(v, tsize);
    SegLook(v, 0);
    TrimWords(v, 0);
    assert SegField(v.msp) + 8 in v.mem;
  }

  lemma AppendFits(v: View, tsize: int)
    requires v.Laid() && v.segs != [] && FreshAt(v.mem, SegEnd(v.segs[0]), tsize) && tsize % GRANULARITY == 0
    requires ClearOfHeap(v.chunks, v.segs, v.direct, SegEnd(v.segs[0]), tsize)
    ensures FootFits(v.chunks, v.top, v.topsize, v.topsize + tsize)
  {
    hide View.Laid, FreshAt, ClearOfHeap;
    TopHeld(v, 0);
    FreshFacts(v.mem, SegEnd(v.segs[0]), tsize);
    EightPlus(v.topsize, tsize);
    forall a | a in v.chunks && a != v.top && a != v.top + v.topsize
      ensures a + v.chunks[a].size <= v.top || v.top + (v.topsize + tsize) + TOP_FOOT_SIZE <= a
    {
      SideOfTop(v, a);
      ClearChunk(v, SegEnd(v.segs[0]), tsize, a);
    }
  }

  lemma FreshFacts(m: Mem, a: int, n: int)
    requires FreshAt(m, a, n)
    ensures n > 0 && a > 0 && a + n <= ADDRESS_LIMIT
  {
  }

  lemma EightPlus(a: int, n: int)
    requires a % 8 == 0 && n % GRANULARITY == 0
    ensures (a + n) % 8 == 0
  {
    MultipleOfEight(n);
  }

  lemma ClearChunk(v: View, b: int, n: int, a: int)
    requires ClearOfHeap(v.chunks, v.segs, v.direct, b, n) && a in v.chunks
    ensures a + v.chunks[a].size <= b || b + n <= a
  {
  }

  lemma AppendEnds(v: View, tsize: int)
    requires v.Laid() && v.segs != [] && FreshAt(v.mem, SegEnd(v.segs[0]), tsize) && tsize % GRANULARITY == 0
    requires ClearOfHeap(v.chunks, v.segs, v.direct, SegEnd(v.segs[0]), tsize)
    ensures EndsAt(v.mem.Keys, MapIn(v.mem, SegEnd(v.segs[0]), tsize).Keys, v.segs, v.direct, SegEnd(v.segs[0]) + tsize)
  {
    hide RecsOwned, AllDirectWords, Preceded, NoCross, Recorded, Retired, Linked, Tagged, Mapped, Tiled, MapIn;
    TopHeld(v, 0);
    var e := SegEnd(v.segs[0]) + tsize;
    MapInReads(v.mem, SegEnd(v.segs[0]), tsize);
    assert SegAt(v.mem.Keys, v.chunks, v.segs[0]);
    forall i | 1 <= i < |v.segs|
      ensures SegEnd(v.segs[i]) <= v.segs[0].base || e <= v.segs[i].base
    {
      assert SegEnd(v.segs[0]) <= v.segs[i].base || SegEnd(v.segs[i]) <= v.segs[0].base;
      assert SegAt(v.mem.Keys, v.chunks, v.segs[i]);
    }
    forall p | p in v.direct
      ensures DirectEnd(p, v.direct[p]) <= v.segs[0].base || e <= p
    {
      assert DirectAlone(v.chunks, v.segs, p, v.direct[p]) && DirectAt(v.mem.Keys, p, v.direct[p]);
    }
    DivideMinus(v.segs[0].size, tsize);
  }

  /** How much `alloc_trim` gives back: all full units but the room asked for. */
  function TrimExtra(topsize: int, room: int): int {
    ((topsize - room + (GRANULARITY - 1)) / GRANULARITY - 1) * GRANULARITY
  }

  /** It keeps the room, and less than a unit beyond that. */
  lemma TrimExtraIs(topsize: int, room: int)
    requires topsize > room >= 0
    ensures var x := TrimExtra(topsize, room);
      0 <= x < topsize - room && topsize - x <= room + GRANULARITY && x % GRANULARITY == 0
  {
    var q := (topsize - room + (GRANULARITY - 1)) / GRANULARITY - 1;
    assert TrimExtra(topsize, room) == q * GRANULARITY;
    assert (q * GRANULARITY) % GRANULARITY == 0;
  }

  /** The stores of a trim or an extension. */
  lemma TopMovesIs(v: View, m1: Mem, size: int)
    requires v.Laid() && v.segs != [] && TopMoves(v, m1, size)
    ensures SegField(v.msp) + 8 in m1 && v.top + HEAD in m1 && v.top + size + HEAD in m1 &&
      v.segs[0].rec == SegField(v.msp)
    ensures AlignOffset(v.top + 16) == 0 && v.top in v.chunks
    ensures TopView(v, m1,
      size) == v.(mem := m1[SegField(v.msp) + 8 := v.top + size + TOP_FOOT_SIZE - v.segs[0].base][v.top + HEAD :=
        size + 1][v.top + size + HEAD := TOP_FOOT_SIZE],
      chunks := MoveFoot(v.chunks, v.top, v.topsize, size), topsize := size,
        segs := Resized(v.segs, v.top + size + TOP_FOOT_SIZE - v.segs[0].base))
  {
    hide View.Laid, EndsAt, FootFits, SameOutside, MoveFoot;
    FirstRec(v);
    TopKind(v);
    SizePositive(v, v.top);
    TopEight(v);
  }

  lemma TopEight(v: View)
    requires v.Laid()
    ensures v.top % 8 == 0
  {
    hide SegsOK, DirectOK, Recorded, AllDirectWords, Mapped, Apart, Linked, Preceded, Tagged;
    assert ChunkOK(v.top, v.chunks[v.top]);
  }

  lemma ResizedSame(segs: seq<Seg>)
    requires segs != []
    ensures Resized(segs, segs[0].size) == segs
  {
  }

  lemma TotalResized(segs: seq<Seg>, size: int)
    requires segs != []
    ensures Total(Resized(segs, size)) == Total(segs) - segs[0].size + size
  {
    assert Resized(segs, size)[1..] == segs[1..];
  }

  // ----- giving all segments back -----

  /** Address w lies in one of the segments. */
  ghost predicate InSegs(segs: seq<Seg>, w: int) {
    exists j :: 0 <= j < |segs| && Holds(segs[j], w)
  }

  lemma NoSegs(segs: seq<Seg>)
    ensures forall w :: !InSegs(segs[..0], w)
  {
  }

  lemma OneMore(segs: seq<Seg>, i: nat)
    requires i < |segs|
    ensures forall w :: InSegs(segs[..i + 1], w) <==> InSegs(segs[..i], w) || Holds(segs[i], w)
  {
    forall w
      ensures InSegs(segs[..i + 1], w) <==> InSegs(segs[..i], w) || Holds(segs[i], w)
    {
      if InSegs(segs[..i], w) {
        var j :| 0 <= j < i && Holds(segs[..i][j], w);
        assert Holds(segs[..i + 1][j], w);
      }
      if Holds(segs[i], w) {
        assert Holds(segs[..i + 1][i], w);
      }
      if InSegs(segs[..i + 1], w) && !Holds(segs[i], w) {
        var j :| 0 <= j <= i && Holds(segs[..i + 1][j], w);
        assert Holds(segs[..i][j], w);
      }
    }
  }

  /** The record of segment i lies in no segment before it. */
  lemma RecordStays(v: View, i: int)
    requires v.Laid() && 0 <= i < |v.segs|
    ensures forall w | w in {v.segs[i].rec, v.segs[i].rec + 8, v.segs[i].rec + 16} :: !InSegs(v.segs[..i], w)
  {
    hide RecsOwned, Tagged, DirectOK, Recorded, AllDirectWords, Tiled, NoCross, SegAt, Mapped, TopIs, StateAt;
    if i > 0 {
      assert Retired(v.chunks, v.segs[i]);
      forall w | w in {v.segs[i].rec, v.segs[i].rec + 8, v.segs[i].rec + 16}
        ensures !InSegs(v.segs[..i], w)
      {
        forall j | 0 <= j < i
          ensures !Holds(v.segs[..i][j], w)
        {
          assert SegEnd(v.segs[j]) <= v.segs[i].base || SegEnd(v.segs[i]) <= v.segs[j].base;
        }
      }
    }
  }

  /** Memory n is m, except perhaps inside the segments. */
  ghost predicate SegsCut(m: Mem, n: Mem, segs: seq<Seg>) {
    forall w | !InSegs(segs, w) :: Rd(n, w) == Rd(m, w) && (w in n <==> w in m)
  }

  /** A call of `munmap` for size bytes at base; done says that it succeeded. */
  datatype Unmapping = Unmapping(base: int, size: int, done: bool)

  /** All calls of b since a succeeded. */
  ghost predicate Done(a: seq<Unmapping>, b: seq<Unmapping>) {
    forall k | |a| <= k < |b| :: b[k].done
  }

  lemma DoneApart(a: seq<Unmapping>, b: seq<Unmapping>, c: seq<Unmapping>)
    requires a <= b <= c
    ensures Done(a, c) ==> Done(a, b) && Done(b, c)
  {
    if Done(a, c) {
      assert forall k | |a| <= k < |b| :: b[k] == c[k];
    }
  }

  /** The current segment holds the record of a segment, and so cannot shrink. */
  ghost predicate Pinned(segs: seq<Seg>) {
    segs != [] && exists j :: 0 <= j < |segs| && Holds(segs[0], segs[j].rec)
  }

  /** One call was made, for size bytes at a, and they are gone if and only if it succeeded. */
  ghost predicate OneUnmap(m: Mem, n: Mem, a: int, size: int, before: seq<Unmapping>, after: seq<Unmapping>) {
    && |after| == |before| + 1 && before <= after
    && var u := after[|before|];
    && u.base == a && u.size == size && n == if u.done then Unmap(m, a, size) else m
  }

  /** One call was made for each segment in order, and a segment's words are gone if and only if its call succeeded. */
  ghost predicate Given(m: Mem, n: Mem, segs: seq<Seg>, calls: seq<Unmapping>) {
    && |calls| == |segs|
    && forall i | 0 <= i < |segs| :: GivenOne(m, n, segs[i], calls[i])
  }

  ghost predicate GivenOne(m: Mem, n: Mem, s: Seg, call: Unmapping) {
    && call.base == s.base && call.size == s.size
    && forall w | Holds(s, w) :: if call.done then w !in n else Rd(n, w) == Rd(m, w) && (w in n <==> w in m)
  }

  lemma NoSegsCut(m: Mem, segs: seq<Seg>)
    ensures SegsCut(m, m, segs[..0]) && Given(m, m, segs[..0], [])
  {
    NoSegs(segs);
  }

  lemma RecordLeft(v: View, n: Mem, i: int)
    requires v.Laid() && 0 <= i < |v.segs| && SegsCut(v.mem, n, v.segs[..i])
    ensures forall w | w in {v.segs[i].rec, v.segs[i].rec + 8, v.segs[i].rec + 16} ::
      Rd(n, w) == Rd(v.mem, w) && (w in n <==> w in v.mem)
  {
    hide View.Laid, InSegs;
    RecordStays(v, i);
  }

  lemma CutOneMore(v: View, n: Mem, i: nat, calls: seq<Unmapping>, done: bool)
    requires v.Laid() && i < |v.segs| && SegsCut(v.mem, n, v.segs[..i]) && Given(v.mem, n, v.segs[..i], calls)
    ensures var s := v.segs[i]; var n' := if done then Unmap(n, s.base, s.size) else n;
      && SegsCut(v.mem, n', v.segs[..i + 1])
      && Given(v.mem, n', v.segs[..i + 1], calls + [Unmapping(s.base, s.size, done)])
  {
    hide View.Laid, InSegs, Unmap, GivenOne;
    var s, segs := v.segs[i], v.segs[..i + 1];
    var n' := if done then Unmap(n, s.base, s.size) else n;
    OneMore(v.segs, i);
    UnmapReads(n, s.base, s.size);
    forall w | !InSegs(segs, w)
      ensures Rd(n', w) == Rd(v.mem, w) && (w in n' <==> w in v.mem)
    {
      assert !InSegs(v.segs[..i], w) && !Holds(s, w);
    }
    var all := calls + [Unmapping(s.base, s.size, done)];
    forall j | 0 <= j < |segs|
      ensures GivenOne(v.mem, n', segs[j], all[j])
    {
      if j < i {
        assert GivenOne(v.mem, n, v.segs[..i][j], calls[j]);
        GivenStays(v, n, n', j, i, calls[j]);
      } else {
        GivenLast(v, n, i, done);
      }
    }
  }

  lemma GivenStays(v: View, n: Mem, n': Mem, j: nat, i: nat, call: Unmapping)
    requires v.Laid() && j < i < |v.segs| && GivenOne(v.mem, n, v.segs[j], call)
    requires n' == n || n' == Unmap(n, v.segs[i].base, v.segs[i].size)
    ensures GivenOne(v.mem, n', v.segs[j], call)
  {
    hide View.Laid, Unmap;
    SegsOff(v, j, i);
    UnmapReads(n, v.segs[i].base, v.segs[i].size);
  }

  lemma GivenLast(v: View, n: Mem, i: nat, done: bool)
    requires v.Laid() && i < |v.segs| && SegsCut(v.mem, n, v.segs[..i])
    ensures var s := v.segs[i];
      GivenOne(v.mem, if done then Unmap(n, s.base, s.size) else n, s, Unmapping(s.base, s.size, done))
  {
    hide View.Laid, Unmap;
    var s := v.segs[i];
    UnmapReads(n, s.base, s.size);
    forall w | Holds(s, w)
      ensures !InSegs(v.segs[..i], w)
    {
      forall j | 0 <= j < i
        ensures !Holds(v.segs[..i][j], w)
      {
        SegsOff(v, j, i);
      }
    }
  }

  lemma SegsOff(v: View, j: nat, i: nat)
    requires v.Laid() && j < i < |v.segs|
    ensures SegEnd(v.segs[j]) <= v.segs[i].base || SegEnd(v.segs[i]) <= v.segs[j].base
  {
    hide RecsOwned, Tagged, DirectOK, Recorded, AllDirectWords, Tiled, NoCross, SegAt, Mapped, TopIs, StateAt;
  }

  lemma CutAll(m: Mem, n: Mem, segs: seq<Seg>)
    requires SegsCut(m, n, segs)
    ensures forall w | !InSegs(segs, w) :: Rd(n, w) == Rd(m, w) && (w in n <==> w in m)
  {
  }
}
