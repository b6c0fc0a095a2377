/** Giving a whole segment back to the system. */
module DropSteps {
  import opened Memory
  import opened Layout
  import opened Bins
  import opened Segments
  import opened BinSteps
  import opened TagSteps
  import opened Blocks
  import opened SegSteps

  // ----- records -----

  /** A word of the record of segment j. */
  predicate RecWord(segs: seq<Seg>, j: int, w: int)
    requires 0 <= j < |segs|
  {
    w == segs[j].rec || w == segs[j].rec + 8 || w == segs[j].rec + 16
  }

  /** The chunk that holds the record of segment j. */
  function RecHome(segs: seq<Seg>, j: int, msp: int): int
    requires 0 <= j < |segs|
  {
    if j == 0 then msp else segs[j].rec - 16
  }

  lemma RecWordIn(v: View, j: int, w: int)
    requires v.Laid() && 0 <= j < |v.segs| && RecWord(v.segs, j, w)
    ensures var c := RecHome(v.segs, j, v.msp);
      && c in v.chunks && InUse(v.chunks[c].kind) && !v.chunks[c].kind.Used?
      && c + 16 <= w < c + (if v.chunks[c].kind.Rec? then 40 else v.chunks[c].size + 8)
      && (c == v.msp ==> v.msp + 856 <= w) && w in v.mem
  {
    hide RecsOwned, Tagged, DirectOK, Recorded, AllDirectWords, SizesOK, Apart, Preceded, NoCross, SegsApart;
    if j > 0 {
      assert Retired(v.chunks, v.segs[j]);
    } else {
      StateEnd(v);
    }
  }

  lemma StateEnd(v: View)
    requires v.Laid()
    ensures v.msp in v.chunks && v.chunks[v.msp].size == STATE_SIZE && v.chunks[v.msp].kind.State?
    ensures forall w | v.msp <= w <= v.msp + STATE_SIZE :: w in v.mem
  {
    hide Tagged, DirectOK, Recorded, AllDirectWords, Apart, Preceded, SegsOK, TopIs;
    var y := Nxt(v.chunks, v.msp);
    assert y in v.chunks;
    ChunkMapped(v, y);
    forall w | v.msp <= w < v.msp + STATE_SIZE
      ensures w in v.mem.Keys
    {
      assert v.msp in v.chunks;
    }
  }

  /** Data words are no head, no foot of a free chunk, and no part of a free chunk or a bin header. */
  ghost predicate DataWord(v: View, w: int) {
    && (forall a | a in v.chunks :: w != a + 8 && (FreeAt(v.chunks, a) ==> !(a + 16 <= w <= a + v.chunks[a].size)))
    && !(v.msp + 88 <= w < v.msp + 600)
    && (forall p | p in v.direct :: !(p <= w < DirectEnd(p, v.direct[p])))
  }

  lemma HomeData(v: View, c: int, w: int)
    requires v.Laid() && c in v.chunks && InUse(v.chunks[c].kind)
    requires c + 16 <= w < c + if v.chunks[c].kind.Rec? then 40 else v.chunks[c].size + 8
    requires c == v.msp ==> v.msp + 600 <= w
    ensures DataWord(v, w)
  {
    hide Tagged, SegsOK, Recorded, AllDirectWords, Mapped, TopIs, Linked, Preceded, DirectOK;
    forall a | a in v.chunks
      ensures w != a + 8 && (FreeAt(v.chunks, a) ==> !(a + 16 <= w <= a + v.chunks[a].size))
    {
      HomeApart(v, c, w, a);
    }
    assert ChunkOK(c, v.chunks[c]) && ChunkOK(v.msp, v.chunks[v.msp]);
    forall p | p in v.direct
      ensures !(p <= w < DirectEnd(p, v.direct[p]))
    {
      HomeDirect(v, c, w, p);
    }
  }

  lemma HomeApart(v: View, c: int, w: int, a: int)
    requires v.Laid() && c in v.chunks && InUse(v.chunks[c].kind) && a in v.chunks
    requires c + 16 <= w < c + if v.chunks[c].kind.Rec? then 40 else v.chunks[c].size + 8
    ensures w != a + 8 && (FreeAt(v.chunks, a) ==> !(a + 16 <= w <= a + v.chunks[a].size))
  {
    hide Tagged, SegsOK, Recorded, AllDirectWords, Mapped, TopIs, Preceded, DirectOK;
    assert ChunkOK(c, v.chunks[c]) && ChunkOK(a, v.chunks[a]);
    TiledSolid(v.chunks);
    if Nxt(v.chunks, a) == Nxt(v.chunks, c) {
      OnePrevious(v.chunks, a, c);
    }
    if FreeAt(v.chunks, a) {
      assert Nxt(v.chunks, a) in v.chunks;
    }
  }

  lemma HomeDirect(v: View, c: int, w: int, p: int)
    requires v.Laid() && c in v.chunks && InUse(v.chunks[c].kind) && p in v.direct
    requires c + 16 <= w < c + if v.chunks[c].kind.Rec? then 40 else v.chunks[c].size + 8
    ensures !(p <= w < DirectEnd(p, v.direct[p]))
  {
    hide Tagged, SegsOK, Recorded, AllDirectWords, Mapped, TopIs, Preceded, Apart;
    assert ChunkOK(c, v.chunks[c]);
    assert DirectAlone(v.chunks, v.segs, p, v.direct[p]) && DirectAt(v.mem.Keys, p, v.direct[p]);
    if !Ends(v.chunks[c].kind) {
      assert Nxt(v.chunks, c) in v.chunks;
      assert ChunkOK(Nxt(v.chunks, c), v.chunks[Nxt(v.chunks, c)]);
    }
  }

  // ----- changes to data words and to one range -----

  ghost predicate ChangesOnly(m: Mem, n: Mem, lo: int, hi: int, s: set<int>) {
    forall w | !(lo <= w < hi) && w !in s :: Rd(n, w) == Rd(m, w)
  }

  /** Chunk a lies off the range, and so does the word behind it. */
  ghost predicate Off(cs: Chunks, lo: int, hi: int, a: int) {
    a in cs && (a + cs[a].size <= lo || hi <= a) && (!Ends(cs[a].kind) ==> Nxt(cs, a) < lo || hi <= Nxt(cs, a))
  }

  ghost predicate RecWords(v: View, s: set<int>) {
    forall w | w in s :: exists j :: 0 <= j < |v.segs| && RecWord(v.segs, j, w)
  }

  lemma RecWordsData(v: View, s: set<int>)
    requires v.Laid() && RecWords(v, s)
    ensures forall w | w in s :: DataWord(v, w)
  {
    hide View.Laid, RecWord, RecHome, DataWord;
    forall w | w in s
      ensures DataWord(v, w)
    {
      var j :| 0 <= j < |v.segs| && RecWord(v.segs, j, w);
      RecWordIn(v, j, w);
      HomeData(v, RecHome(v.segs, j, v.msp), w);
    }
  }

  lemma TagsOff(v: View, n: Mem, lo: int, hi: int, s: set<int>, a: int)
    requires v.Laid() && ChangesOnly(v.mem, n, lo, hi, s) && (forall w | w in s :: DataWord(v, w)) &&
      Off(v.chunks, lo, hi, a)
    ensures Head(n, a) == HeadWord(v.chunks[a])
    ensures v.chunks[a].kind.Free? ==> PrevFoot(n, Nxt(v.chunks, a)) == v.chunks[a].size
  {
    hide SegsOK, Recorded, AllDirectWords, Mapped, TopIs, Preceded, DirectOK, Apart, Linked;
    assert ChunkOK(a, v.chunks[a]);
    assert a + 8 !in s;
    if v.chunks[a].kind.Free? {
      assert Nxt(v.chunks, a) !in s;
    }
  }

  lemma BodiesOff(v: View, n: Mem, lo: int, hi: int, s: set<int>, x: set<int>)
    requires v.Laid() && ChangesOnly(v.mem, n, lo, hi, s) && (forall w | w in s :: DataWord(v, w))
    requires (forall a | FreeAt(v.chunks, a) && a !in x :: Off(v.chunks, lo, hi, a)) && Off(v.chunks, lo, hi, v.msp)
    ensures BodiesKept(v.mem, n, v.chunks, v.msp, x)
  {
    hide SegsOK, Recorded, AllDirectWords, Mapped, TopIs, Preceded, DirectOK, Apart, Linked, Tagged, SizesOK;
  }

  lemma DirectsOff(v: View, n: Mem, lo: int, hi: int, s: set<int>)
    requires v.Laid() && ChangesOnly(v.mem, n, lo, hi, s) && (forall w | w in s :: DataWord(v, w))
    requires forall p | p in v.direct :: DirectEnd(p, v.direct[p]) <= lo || hi <= p
    ensures forall p, w | p in v.direct && p <= w < DirectEnd(p, v.direct[p]) :: Rd(n, w) == Rd(v.mem, w)
    ensures AllDirectWords(n, v.direct)
  {
    hide SegsOK, Recorded, Mapped, TopIs, Preceded, Apart, Linked, Tagged, SizesOK, DirectAlone, StateAt;
    forall p | p in v.direct
      ensures DirectWords(n, p, v.direct[p])
    {
      assert DirectWords(v.mem, p, v.direct[p]) && DirectAt(v.mem.Keys, p, v.direct[p]);
    }
  }

  /** A record lies off a range that its chunk lies off. */
  lemma RecWordOff(v: View, lo: int, hi: int, j: int, w: int)
    requires v.Laid() && 0 <= j < |v.segs| && RecWord(v.segs, j, w) && Off(v.chunks, lo, hi, RecHome(v.segs, j, v.msp))
    ensures !(lo <= w < hi)
  {
    RecWordIn(v, j, w);
    RecRoom(v, j);
    hide View.Laid, RecHome, RecWord;
  }

  lemma RecRoom(v: View, j: int)
    requires v.Laid() && 0 <= j < |v.segs|
    ensures var c := RecHome(v.segs, j, v.msp);
      c in v.chunks && (v.chunks[c].kind.Rec? ==> v.chunks[c].size >= 40) && (j == 0 ==> v.chunks[c].kind.State?)
  {
    hide RecsOwned, Tagged, DirectOK, Recorded, AllDirectWords, SizesOK, Apart, Preceded, NoCross, SegsApart, Mapped;
    if j > 0 {
      assert Retired(v.chunks, v.segs[j]);
    }
  }

  lemma RecordNow(v: View, j: int)
    requires v.Laid() && 0 <= j < |v.segs|
    ensures RecordAt(v.mem, v.segs[j], NextRec(v.segs, j))
  {
    hide RecsOwned, Tagged, DirectOK, AllDirectWords, SizesOK, Apart, Preceded, NoCross, SegsApart, Mapped, SegsOK;
    hide TopIs;
  }

  /** The record of segment j stays if neither it nor its words are concerned. */
  lemma RecordOff(v: View, n: Mem, lo: int, hi: int, s: set<int>, j: int)
    requires v.Laid() && 0 <= j < |v.segs| && ChangesOnly(v.mem, n, lo, hi, s) &&
      (forall w | w in s :: !RecWord(v.segs, j, w))
    requires Off(v.chunks, lo, hi, RecHome(v.segs, j, v.msp))
    ensures RecordAt(n, v.segs[j], NextRec(v.segs, j))
  {
    hide View.Laid, Off, RecHome, NextRec;
    RecordNow(v, j);
    RecWordOff(v, lo, hi, j, v.segs[j].rec);
    RecWordOff(v, lo, hi, j, v.segs[j].rec + 8);
    RecWordOff(v, lo, hi, j, v.segs[j].rec + 16);
  }

  /** The word belongs to no user data. */
  ghost predicate NotUser(v: View, w: int) {
    forall a | a in v.chunks && v.chunks[a].kind.Used? :: !(a + 16 <= w < a + v.chunks[a].size + 8)
  }

  /** User data is no record. */
  lemma RecWordsNotUser(v: View, s: set<int>)
    requires v.Laid() && RecWords(v, s)
    ensures forall w | w in s :: NotUser(v, w)
  {
    hide View.Laid, RecWord, RecHome;
    forall w, a | w in s && a in v.chunks && v.chunks[a].kind.Used?
      ensures !(a + 16 <= w < a + v.chunks[a].size + 8)
    {
      var j :| 0 <= j < |v.segs| && RecWord(v.segs, j, w);
      RecWordIn(v, j, w);
      if a + 16 <= w < a + v.chunks[a].size + 8 {
        HomesApart(v, a, RecHome(v.segs, j, v.msp), w);
      }
    }
  }

  lemma BlocksOff(v: View, n: Mem, lo: int, hi: int, s: set<int>, a: int)
    requires v.Laid() && ChangesOnly(v.mem, n, lo, hi, s) && (forall w | w in s :: NotUser(v, w)) && lo % 8 == 0
    requires a in v.chunks && v.chunks[a].kind.Used? && Off(v.chunks, lo, hi, a)
    ensures forall w | a + 16 <= w < a + v.chunks[a].size + 8 :: Rd(n, w) == Rd(v.mem, w)
  {
    hide View.Laid;
    forall w | a + 16 <= w < a + v.chunks[a].size + 8
      ensures Rd(n, w) == Rd(v.mem, w)
    {
      assert w !in s;
      OffWord(v, lo, hi, a, w);
    }
  }

  lemma OffWord(v: View, lo: int, hi: int, a: int, w: int)
    requires v.Laid() && a in v.chunks && v.chunks[a].kind.Used? && Off(v.chunks, lo, hi, a) &&
      a + 16 <= w < a + v.chunks[a].size + 8 && lo % 8 == 0
    ensures !(lo <= w < hi)
  {
    hide Tagged, SegsOK, Recorded, AllDirectWords, Mapped, TopIs, Preceded, Linked, DirectOK, Apart;
    assert ChunkOK(a, v.chunks[a]);
  }

  /** Where the data of a chunk in use ends. */
  function DataEnd(cs: Chunks, c: int): int
    requires c in cs
  {
    c + if cs[c].kind.Rec? then 40 else cs[c].size + 8
  }

  /** Two chunks in use have their data apart. */
  lemma HomesApart(v: View, a: int, c: int, w: int)
    requires v.Laid() && a in v.chunks && c in v.chunks && a != c && InUse(v.chunks[a].kind) && InUse(v.chunks[c].kind)
    requires a + 16 <= w < DataEnd(v.chunks, a)
    ensures !(c + 16 <= w < DataEnd(v.chunks, c))
  {
    hide Tagged, SegsOK, Recorded, AllDirectWords, Mapped, TopIs, Preceded, DirectOK;
    assert ChunkOK(c, v.chunks[c]) && ChunkOK(a, v.chunks[a]);
    TiledSolid(v.chunks);
    if Nxt(v.chunks, a) == Nxt(v.chunks, c) {
      OnePrevious(v.chunks, a, c);
    }
  }

  lemma HomesDiffer(v: View, j: int, k: int)
    requires v.Laid() && 0 <= j < k < |v.segs|
    ensures RecHome(v.segs, j, v.msp) != RecHome(v.segs, k, v.msp)
  {
    hide RecsOwned, Tagged, Recorded, AllDirectWords, Mapped, TopIs, Preceded, DirectOK, Linked, SizesOK, Apart;
    hide SegAt, NoCross;
    assert Retired(v.chunks, v.segs[k]);
    if j > 0 {
      assert Retired(v.chunks, v.segs[j]);
      assert SegEnd(v.segs[j]) <= v.segs[k].base || SegEnd(v.segs[k]) <= v.segs[j].base;
    }
  }

  /** Two records have no word in common. */
  lemma RecsApart(v: View, j: int, k: int, w: int)
    requires v.Laid() && 0 <= j < |v.segs| && 0 <= k < |v.segs| && j != k && RecWord(v.segs, j, w)
    ensures !RecWord(v.segs, k, w)
  {
    hide View.Laid, RecWord, RecHome;
    RecWordIn(v, j, w);
    if RecWord(v.segs, k, w) {
      RecWordIn(v, k, w);
      HomesDiffer(v, if j < k then j else k, if j < k then k else j);
      HomesApart(v, RecHome(v.segs, j, v.msp), RecHome(v.segs, k, v.msp), w);
    }
  }

  // ----- the step -----

  /** Segment i is free but for its own record at the end. */
  ghost predicate Droppable(v: View, i: int) {
    && 1 <= i < |v.segs|
    && var p := v.segs[i].base;
    && FreeAt(v.chunks, p)
    && var r := Nxt(v.chunks, p);
    && r in v.chunks && v.chunks[r].kind.Rec? && r + v.chunks[r].size == SegEnd(v.segs[i]) && v.segs[i].rec == r + 16
  }

  function Dropped(cs: Chunks, p: int): Chunks {
    cs - {p, Nxt(cs, p)}
  }

  /** All other chunks lie off the segment. */
  lemma DropApart(v: View, i: int)
    requires v.Laid() && Droppable(v, i)
    ensures forall a | a in Dropped(v.chunks, v.segs[i].base) :: Off(v.chunks, v.segs[i].base, SegEnd(v.segs[i]), a)
    ensures v.msp in Dropped(v.chunks, v.segs[i].base) && v.segs[i].base % 8 == 0
  {
    hide RecsOwned, Tagged, Recorded, AllDirectWords, Mapped, Preceded, DirectOK, SegsApart, Retired, SizesOK, Apart;
    hide Linked, TopIs, NoCross, Off;
    var p := v.segs[i].base;
    assert SegAt(v.mem.Keys, v.chunks, v.segs[i]);
    forall a | a in Dropped(v.chunks, p)
      ensures Off(v.chunks, p, SegEnd(v.segs[i]), a)
    {
      DropOff(v, i, a);
    }
  }

  lemma DropOff(v: View, i: int, a: int)
    requires v.Laid() && Droppable(v, i) && a in Dropped(v.chunks, v.segs[i].base)
    ensures Off(v.chunks, v.segs[i].base, SegEnd(v.segs[i]), a)
  {
    hide RecsOwned, Tagged, Recorded, AllDirectWords, Mapped, Preceded, DirectOK, SegsApart, Retired, TopIs, SegAt;
    hide CurrentSeg, Linked;
    var p := v.segs[i].base;
    var r := Nxt(v.chunks, p);
    assert ChunkOK(a, v.chunks[a]) && ChunkOK(p, v.chunks[p]) && ChunkOK(r, v.chunks[r]);
    if !Ends(v.chunks[a].kind) {
      DropNext(v.chunks, p, a);
      assert Nxt(v.chunks, a) != v.segs[i].base;
    }
  }

  /** No other chunk ends where the record chunk begins. */
  lemma DropNext(cs: Chunks, p: int, a: int)
    requires Tiled(cs) && p in cs && a in cs && a != p && !Ends(cs[a].kind)
    ensures Nxt(cs, a) in cs && Nxt(cs, a) != Nxt(cs, p)
  {
    hide Preceded;
    TiledSolid(cs);
    if Nxt(cs, a) == Nxt(cs, p) {
      OnePrevious(cs, a, p);
    }
  }

  lemma DroppedTiled(cs: Chunks, p: int)
    requires Tiled(cs) && FreeAt(cs, p) && Nxt(cs, p) in cs && cs[Nxt(cs, p)].kind.Rec?
    requires forall a | a in cs && !Ends(cs[a].kind) :: Nxt(cs, a) != p
    ensures Tiled(Dropped(cs, p))
  {
    hide SizesOK, Apart, Linked, Preceded, Dropped;
    DroppedLinked(cs, p);
    DroppedPreceded(cs, p);
    DroppedSizes(cs, p);
  }

  lemma DroppedSizes(cs: Chunks, p: int)
    requires SizesOK(cs) && Apart(cs)
    ensures SizesOK(Dropped(cs, p)) && Apart(Dropped(cs, p))
  {
    assert forall a | a in cs :: ChunkOK(a, cs[a]);
  }

  lemma DroppedLinked(cs: Chunks, p: int)
    requires Tiled(cs) && FreeAt(cs, p) && Nxt(cs, p) in cs && cs[Nxt(cs, p)].kind.Rec?
    requires forall a | a in cs && !Ends(cs[a].kind) :: Nxt(cs, a) != p
    ensures Linked(Dropped(cs, p))
  {
    hide SizesOK, Apart, Preceded;
    var ds := Dropped(cs, p);
    forall a {:trigger Nxt(ds, a)} | a in ds && !Ends(ds[a].kind)
      ensures Nxt(ds, a) in ds && ds[Nxt(ds, a)].pin == InUse(ds[a].kind)
    {
      DropNext(cs, p, a);
      assert Nxt(ds, a) == Nxt(cs, a);
    }
  }

  lemma DroppedPreceded(cs: Chunks, p: int)
    requires Tiled(cs) && FreeAt(cs, p) && Nxt(cs, p) in cs && cs[Nxt(cs, p)].kind.Rec?
    ensures Preceded(Dropped(cs, p))
  {
    hide SizesOK, Apart, Linked;
    var ds := Dropped(cs, p);
    forall a | a in ds && !ds[a].pin
      ensures exists b :: b in ds && !Ends(ds[b].kind) && Nxt(ds, b) == a
    {
      var b :| b in cs && !Ends(cs[b].kind) && Nxt(cs, b) == a;
      assert Nxt(ds, b) == a;
    }
  }

  function WithoutSeg(segs: seq<Seg>, i: int): seq<Seg>
    requires 0 <= i < |segs|
  {
    segs[..i] + segs[i + 1..]
  }

  function Skip(i: int, j: int): int {
    if j < i then j else j + 1
  }

  lemma WithoutAt(segs: seq<Seg>, i: int)
    requires 1 <= i < |segs|
    ensures |WithoutSeg(segs, i)| == |segs| - 1
    ensures forall j | 0 <= j < |segs| - 1 :: WithoutSeg(segs, i)[j] == segs[Skip(i, j)]
    ensures forall j | 0 <= j < |segs| - 1 ::
      NextRec(WithoutSeg(segs, i), j) == if j == i - 1 then NextRec(segs, i) else NextRec(segs, Skip(i, j))
  {
  }

  lemma DropShape(v: View, i: int)
    requires v.Laid() && Droppable(v, i)
    ensures ShapeInv(Unmap(v.mem, v.segs[i].base, v.segs[i].size).Keys, Dropped(v.chunks, v.segs[i].base), v.top,
      v.topsize, WithoutSeg(v.segs, i), v.direct, v.msp)
  {
    hide Tagged, Recorded, AllDirectWords, Mapped, DirectOK, SizesOK, Apart, Linked, Preceded, SegsOK, Dropped;
    hide Droppable, TopIs;
    DropPre(v, i);
    DroppedTiled(v.chunks, v.segs[i].base);
    DropMapped(v, i);
    DropTop(v, i);
    DropSegs(v, i);
    DropDirect(v, i);
  }

  lemma DropPre(v: View, i: int)
    requires v.Laid() && Droppable(v, i)
    ensures 1 <= i < |v.segs|
    ensures var p := v.segs[i].base;
      && FreeAt(v.chunks, p) && Nxt(v.chunks, p) in v.chunks && v.chunks[Nxt(v.chunks, p)].kind.Rec?
      && forall a | a in v.chunks && !Ends(v.chunks[a].kind) :: Nxt(v.chunks, a) != p
  {
    hide RecsOwned, Tagged, Recorded, AllDirectWords, Mapped, DirectOK, SizesOK, Apart, Linked, Preceded, SegAt;
    hide SegsApart, TopIs;
    assert forall a | a in v.chunks && !Ends(v.chunks[a].kind) :: Nxt(v.chunks, a) != v.segs[i].base;
  }

  lemma DropMapped(v: View, i: int)
    requires v.Laid() && Droppable(v, i)
    ensures Mapped(Unmap(v.mem, v.segs[i].base, v.segs[i].size).Keys, Dropped(v.chunks, v.segs[i].base))
  {
    hide Tagged, Recorded, AllDirectWords, DirectOK, SizesOK, Apart, Linked, Preceded, SegsOK, TopIs;
    DropApart(v, i);
    UnmapReads(v.mem, v.segs[i].base, v.segs[i].size);
    var ds := Dropped(v.chunks, v.segs[i].base);
    forall a, w | a in ds && a <= w < a + ds[a].size
      ensures w in Unmap(v.mem, v.segs[i].base, v.segs[i].size).Keys
    {
      assert Off(v.chunks, v.segs[i].base, SegEnd(v.segs[i]), a);
      assert w in v.mem.Keys;
    }
  }

  lemma DropTop(v: View, i: int)
    requires v.Laid() && Droppable(v, i)
    ensures TopIs(Dropped(v.chunks, v.segs[i].base), v.top, v.topsize) &&
      StateAt(Dropped(v.chunks, v.segs[i].base), v.msp)
  {
    hide Tagged, Recorded, AllDirectWords, DirectOK, Mapped, Apart, Linked, Preceded, SegsOK;
  }

  lemma DropSegs(v: View, i: int)
    requires v.Laid() && Droppable(v, i)
    ensures SegsOK(Unmap(v.mem, v.segs[i].base, v.segs[i].size).Keys, Dropped(v.chunks, v.segs[i].base),
      WithoutSeg(v.segs, i), v.msp, v.top, v.topsize)
  {
    hide RecsOwned, Tagged, Recorded, AllDirectWords, DirectOK, Mapped, SizesOK, Apart, Linked, Preceded, Dropped;
    hide Retired, SegAt, WithoutSeg, TopIs, Droppable;
    DropPre(v, i);
    WithoutAt(v.segs, i);
    var ds, segs', keys' := Dropped(v.chunks, v.segs[i].base), WithoutSeg(v.segs, i),
      Unmap(v.mem, v.segs[i].base, v.segs[i].size).Keys;
    forall j | 0 <= j < |segs'|
      ensures SegAt(keys', ds, segs'[j])
      ensures j > 0 ==> Retired(ds, segs'[j])
    {
      DropSeg(v, i, Skip(i, j));
    }
    DropNoCross(v, i);
    DropRecs(v, i);
  }

  lemma DropRecs(v: View, i: int)
    requires v.Laid() && Droppable(v, i)
    ensures RecsOwned(Dropped(v.chunks, v.segs[i].base), WithoutSeg(v.segs, i))
  {
    hide Tagged, Recorded, AllDirectWords, DirectOK, Mapped, Tiled, TopIs, StateAt, SegAt, Retired, NoCross, SegsApart;
    WithoutAt(v.segs, i);
    var ds, ss := Dropped(v.chunks, v.segs[i].base), WithoutSeg(v.segs, i);
    forall a | a in ds && ds[a].kind.Rec?
      ensures Owned(ss, a)
    {
      assert Owned(v.segs, a);
      var j :| 1 <= j < |v.segs| && v.segs[j].rec == a + 16;
      assert j != i;
      var k := if j < i then j else j - 1;
      assert ss[k] == v.segs[Skip(i, k)];
    }
  }

  lemma DropSeg(v: View, i: int, j: int)
    requires v.Laid() && Droppable(v, i) && 0 <= j < |v.segs| && j != i
    ensures SegAt(Unmap(v.mem, v.segs[i].base, v.segs[i].size).Keys, Dropped(v.chunks, v.segs[i].base), v.segs[j])
    ensures j > 0 ==> Retired(Dropped(v.chunks, v.segs[i].base), v.segs[j])
  {
    hide RecsOwned, Tagged, Recorded, AllDirectWords, DirectOK, Mapped, SizesOK, Linked, Preceded, TopIs, NoCross;
    assert SegAt(v.mem.Keys, v.chunks, v.segs[j]) && SegAt(v.mem.Keys, v.chunks, v.segs[i]);
    assert SegEnd(v.segs[i]) <= v.segs[j].base || SegEnd(v.segs[j]) <= v.segs[i].base;
    UnmapReads(v.mem, v.segs[i].base, v.segs[i].size);
    if j > 0 {
      assert Retired(v.chunks, v.segs[j]);
    }
    SizePositive(v, Nxt(v.chunks, v.segs[i].base));
    SizePositive(v, v.segs[i].base);
  }

  lemma DropNoCross(v: View, i: int)
    requires v.Laid() && Droppable(v, i)
    ensures NoCross(Dropped(v.chunks, v.segs[i].base), WithoutSeg(v.segs, i))
  {
    hide RecsOwned, Tagged, Recorded, AllDirectWords, DirectOK, Mapped, SizesOK, Linked, Preceded, TopIs, Apart;
    hide SegAt, Retired, SegsApart, WithoutSeg;
    WithoutAt(v.segs, i);
    var ds, segs' := Dropped(v.chunks, v.segs[i].base), WithoutSeg(v.segs, i);
    forall j, a {:trigger segs'[j], Nxt(ds, a)} | 0 <= j < |segs'| && a in ds && !Ends(ds[a].kind)
      ensures Nxt(ds, a) != segs'[j].base
    {
      assert Nxt(ds, a) == Nxt(v.chunks, a);
      assert segs'[j] == v.segs[Skip(i, j)];
    }
  }

  lemma DropDirect(v: View, i: int)
    requires v.Laid() && Droppable(v, i)
    ensures DirectOK(Unmap(v.mem, v.segs[i].base, v.segs[i].size).Keys, Dropped(v.chunks, v.segs[i].base),
      WithoutSeg(v.segs, i), v.direct)
  {
    hide RecsOwned, Tagged, Recorded, AllDirectWords, Mapped, SizesOK, Linked, Preceded, TopIs, Apart, SegAt, Retired;
    hide SegsApart, WithoutSeg;
    WithoutAt(v.segs, i);
    UnmapReads(v.mem, v.segs[i].base, v.segs[i].size);
    var ds, segs' := Dropped(v.chunks, v.segs[i].base), WithoutSeg(v.segs, i);
    forall p | p in v.direct
      ensures DirectAt(Unmap(v.mem, v.segs[i].base, v.segs[i].size).Keys, p, v.direct[p]) &&
        DirectAlone(ds, segs', p, v.direct[p])
    {
      assert DirectAt(v.mem.Keys, p, v.direct[p]) && DirectAlone(v.chunks, v.segs, p, v.direct[p]);
    }
  }

  /** The state without segment i. */
  ghost function DropView(v: View, i: int): View
    requires 1 <= i < |v.segs|
  {
    var p, size := v.segs[i].base, v.segs[i].size;
    v.(mem := Unmap(v.mem, p, size)[v.segs[i - 1].rec + 16 := NextRec(v.segs, i)], chunks := Dropped(v.chunks, p),
      segs := WithoutSeg(v.segs, i))
  }

  lemma DropChanges(v: View, i: int)
    requires v.Laid() && Droppable(v, i)
    ensures ChangesOnly(v.mem, DropView(v, i).mem, v.segs[i].base, SegEnd(v.segs[i]), {v.segs[i - 1].rec + 16})
    ensures RecWords(v, {v.segs[i - 1].rec + 16})
    ensures DropView(v, i).mem.Keys == Unmap(v.mem, v.segs[i].base, v.segs[i].size).Keys
    ensures Rd(DropView(v, i).mem, v.segs[i - 1].rec + 16) == NextRec(v.segs, i)
  {
    hide Tagged, Recorded, AllDirectWords, Mapped, TopIs, Preceded, DirectOK, Linked, SizesOK, Apart, SegsOK;
    UnmapReads(v.mem, v.segs[i].base, v.segs[i].size);
    var w := v.segs[i - 1].rec + 16;
    assert RecWord(v.segs, i - 1, w);
    RecWordIn(v, i - 1, w);
    RecordOffSeg(v, i, i - 1, w);
  }

  /** The other records are not in the segment. */
  lemma RecordOffSeg(v: View, i: int, j: int, w: int)
    requires v.Laid() && Droppable(v, i) && 0 <= j < |v.segs| && j != i && RecWord(v.segs, j, w)
    ensures RecHome(v.segs, j, v.msp) in Dropped(v.chunks, v.segs[i].base)
    ensures Off(v.chunks, v.segs[i].base, SegEnd(v.segs[i]), RecHome(v.segs, j, v.msp))
    ensures !(v.segs[i].base <= w < SegEnd(v.segs[i]))
  {
    hide Tagged, Recorded, AllDirectWords, Mapped, TopIs, Preceded, DirectOK, Linked, Apart, SegsOK;
    DropApart(v, i);
    var h := RecHome(v.segs, j, v.msp);
    RecWordIn(v, j, w);
    RecWordIn(v, j, v.segs[j].rec) by {
      assert RecWord(v.segs, j, v.segs[j].rec);
    }
    HomesDiffer(v, if i < j then i else j, if i < j then j else i);
    assert ChunkOK(h, v.chunks[h]);
  }

  lemma DropTagged(v: View, i: int)
    requires v.Laid() && Droppable(v, i)
    ensures Tagged(DropView(v, i).mem, Dropped(v.chunks, v.segs[i].base))
  {
    hide View.Laid, Droppable, DropView, Off, ChangesOnly, DataWord, HeadWord, RecWords;
    DropPre(v, i);
    DropChanges(v, i);
    DropApart(v, i);
    var n, ds, s := DropView(v, i).mem, Dropped(v.chunks, v.segs[i].base), {v.segs[i - 1].rec + 16};
    RecWordsData(v, s);
    forall a | a in ds
      ensures Head(n, a) == HeadWord(ds[a])
      ensures ds[a].kind.Free? ==> PrevFoot(n, Nxt(ds, a)) == ds[a].size
    {
      TagsOff(v, n, v.segs[i].base, SegEnd(v.segs[i]), s, a);
      assert Nxt(ds, a) == Nxt(v.chunks, a);
    }
  }

  lemma DropRecorded(v: View, i: int)
    requires v.Laid() && Droppable(v, i)
    ensures Recorded(DropView(v, i).mem, WithoutSeg(v.segs, i))
  {
    hide View.Laid, Off, ChangesOnly, RecordAt, WithoutSeg, NextRec, RecHome;
    var n, segs' := DropView(v, i).mem, WithoutSeg(v.segs, i);
    WithoutAt(v.segs, i);
    forall j | 0 <= j < |segs'|
      ensures RecordAt(n, segs'[j], NextRec(segs', j))
    {
      DropRecord(v, i, Skip(i, j));
    }
  }

  lemma DropRecord(v: View, i: int, j: int)
    requires v.Laid() && Droppable(v, i) && 0 <= j < |v.segs| && j != i
    ensures RecordAt(DropView(v, i).mem, v.segs[j], if j == i - 1 then NextRec(v.segs, i) else NextRec(v.segs, j))
  {
    hide View.Laid, Off, ChangesOnly, NextRec, RecHome, Droppable, DropView;
    DropPre(v, i);
    var n, w, s := DropView(v, i).mem, v.segs[i - 1].rec + 16, {v.segs[i - 1].rec + 16};
    DropChanges(v, i);
    assert RecWord(v.segs, i - 1, w) && RecWord(v.segs, j, v.segs[j].rec);
    RecordOffSeg(v, i, j, v.segs[j].rec);
    if j != i - 1 {
      RecsApart(v, i - 1, j, w);
      RecordOff(v, n, v.segs[i].base, SegEnd(v.segs[i]), s, j);
    } else {
      RecordTail(v, n, v.segs[i].base, SegEnd(v.segs[i]), j);
    }
  }

  /** A record whose link alone is stored to keeps its other words. */
  lemma RecordTail(v: View, n: Mem, lo: int, hi: int, j: int)
    requires v.Laid() && 0 <= j < |v.segs| && ChangesOnly(v.mem, n, lo, hi, {v.segs[j].rec + 16}) &&
      Off(v.chunks, lo, hi, RecHome(v.segs, j, v.msp))
    ensures RecordAt(n, v.segs[j], Rd(n, v.segs[j].rec + 16))
  {
    hide View.Laid, Off, RecHome, NextRec;
    RecordNow(v, j);
    RecWordOff(v, lo, hi, j, v.segs[j].rec);
    RecWordOff(v, lo, hi, j, v.segs[j].rec + 8);
  }

  lemma DropCoalesced(v: View, i: int)
    requires v.Laid() && Coalesced(v.chunks) && Droppable(v, i)
    ensures Coalesced(Dropped(v.chunks, v.segs[i].base))
    ensures FreeStep(v.chunks, Dropped(v.chunks, v.segs[i].base), {v.segs[i].base}, {})
    ensures forall a :: UsedSize(Dropped(v.chunks, v.segs[i].base), a) == UsedSize(v.chunks, a)
  {
    hide Tagged, Recorded, AllDirectWords, Mapped, TopIs, Preceded, DirectOK, Linked, SizesOK, Apart, SegsOK;
    DropPre(v, i);
    var cs, p := v.chunks, v.segs[i].base;
    var ds := Dropped(cs, p);
    forall a {:trigger Nxt(ds, a)} | a in ds && ds[a].kind.Free?
      ensures Nxt(ds, a) in ds && InUse(ds[Nxt(ds, a)].kind)
    {
      DropNext(cs, p, a);
      assert Nxt(ds, a) == Nxt(cs, a);
    }
  }

  lemma DropKeeps(v: View, i: int)
    requires v.Laid() && Coalesced(v.chunks) && Droppable(v, i)
    ensures Keeps(v, DropView(v, i), {})
  {
    hide View.Laid, Off, ChangesOnly, Droppable, RecWords, Coalesced;
    DropPre(v, i);
    DropChanges(v, i);
    DropApart(v, i);
    DropCoalesced(v, i);
    var w, lo, hi, s := DropView(v, i), v.segs[i].base, SegEnd(v.segs[i]), {v.segs[i - 1].rec + 16};
    RecWordsData(v, s);
    RecWordsNotUser(v, s);
    DropOffDirect(v, i);
    DirectsOff(v, w.mem, lo, hi, s);
    forall p
      ensures BlockKept(v, w, p)
    {
      if p - 16 in v.chunks && v.chunks[p - 16].kind.Used? {
        BlocksOff(v, w.mem, lo, hi, s, p - 16);
      }
      DropUsable(v, w, p);
    }
  }

  lemma DropOffDirect(v: View, i: int)
    requires v.Laid() && Droppable(v, i)
    ensures forall p | p in v.direct :: DirectEnd(p, v.direct[p]) <= v.segs[i].base || SegEnd(v.segs[i]) <= p
  {
    hide Tagged, Recorded, AllDirectWords, Mapped, TopIs, Preceded, Linked, SizesOK, Apart, SegsOK;
    forall p | p in v.direct
      ensures DirectEnd(p, v.direct[p]) <= v.segs[i].base || SegEnd(v.segs[i]) <= p
    {
      assert DirectAlone(v.chunks, v.segs, p, v.direct[p]);
    }
  }

  lemma DropUsable(v: View, w: View, p: int)
    requires w.direct == v.direct && forall a | a in w.chunks :: a in v.chunks && w.chunks[a] == v.chunks[a]
    requires UsedSize(w.chunks, p - 16) == UsedSize(v.chunks, p - 16) && v.Laid()
    ensures Usable(w, p) == Usable(v, p)
  {
    hide View.Laid;
    if p - 16 in v.chunks {
      ChunkPositive(v, p - 16);
    }
  }

  /** Segment i is given back. */
  lemma DropDone(v: View, i: int)
    requires v.Laid() && Droppable(v, i) && v.Binned({v.segs[i].base}) && Coalesced(v.chunks)
    ensures var w := DropView(v, i); w.Laid() && w.Binned({}) && Coalesced(w.chunks) && Keeps(v, w, {})
  {
    hide Tagged, Recorded, AllDirectWords, Coalesced, ShapeInv, View.Binned, Keeps, BodiesKept, FreeStep, Dropped;
    hide Droppable, Off, ChangesOnly, DataWord, RecWords;
    DropPre(v, i);
    var w, lo, hi, s := DropView(v, i), v.segs[i].base, SegEnd(v.segs[i]), {v.segs[i - 1].rec + 16};
    DropShape(v, i);
    DropChanges(v, i);
    DropTagged(v, i);
    DropRecorded(v, i);
    RecWordsData(v, s);
    DropOffDirect(v, i);
    DirectsOff(v, w.mem, lo, hi, s);
    DropBodies(v, i);
    DropCoalesced(v, i);
    BinsRebuilt(v, w, {v.segs[i].base}, {v.segs[i].base}, {});
    DropKeeps(v, i);
  }

  lemma DropBodies(v: View, i: int)
    requires v.Laid() && Droppable(v, i)
    ensures BodiesKept(v.mem, DropView(v, i).mem, v.chunks, v.msp, {v.segs[i].base})
  {
    hide Tagged, Recorded, AllDirectWords, ShapeInv, BodiesKept, Off, ChangesOnly, DataWord, RecWords;
    DropPre(v, i);
    DropChanges(v, i);
    DropApart(v, i);
    var s := {v.segs[i - 1].rec + 16};
    RecWordsData(v, s);
    forall a | FreeAt(v.chunks, a) && a !in {v.segs[i].base}
      ensures Off(v.chunks, v.segs[i].base, SegEnd(v.segs[i]), a)
    {
      assert a in Dropped(v.chunks, v.segs[i].base);
    }
    BodiesOff(v, DropView(v, i).mem, v.segs[i].base, SegEnd(v.segs[i]), s, {v.segs[i].base});
  }

  // ----- the walk over the segments -----

  function AlignOffset(a: int): int {
    if a % 8 == 0 then 0 else 8 - a % 8
  }

  /** Segment i and its record, as the walk reads them. */
  lemma SegLook(v: View, i: int)
    requires v.Laid() && 0 <= i < |v.segs|
    ensures var s := v.segs[i];
      && s.rec > 0 && s.rec in v.mem && s.rec + 8 in v.mem && s.rec + 16 in v.mem
      && Rd(v.mem, s.rec) == s.base && Rd(v.mem, s.rec + 8) == s.size && Rd(v.mem, s.rec + 16) == NextRec(v.segs, i)
    ensures var s := v.segs[i];
      && s.base + HEAD in v.mem && s.base % 8 == 0 && AlignOffset(s.base + 16) == 0 && s.base in v.chunks &&
        s.size > 0 && s.base > 0
      && s.size % GRANULARITY == 0
  {
    hide View.Laid, RecHome;
    RecordIs(v, i);
    var s := v.segs[i];
    RecWordIn(v, i, s.rec);
    RecWordIn(v, i, s.rec + 8);
    RecWordIn(v, i, s.rec + 16);
    SizePositive(v, RecHome(v.segs, i, v.msp));
    ChunkMapped(v, s.base);
  }

  lemma RecordIs(v: View, i: int)
    requires v.Laid() && 0 <= i < |v.segs|
    ensures RecordAt(v.mem, v.segs[i], NextRec(v.segs, i))
    ensures var s := v.segs[i];
      s.base % 8 == 0 && s.base in v.chunks && s.size > 0 && s.base > 0 && s.size % GRANULARITY == 0
  {
    hide RecsOwned, Tagged, AllDirectWords, DirectOK, Tiled, TopIs, NoCross, SegsApart, Mapped, Retired, SegAt;
    hide RecordAt, NextRec;
    SegFacts(v.mem.Keys, v.chunks, v.segs[i]);
  }

  lemma SegFacts(keys: set<int>, cs: Chunks, s: Seg)
    requires SegAt(keys, cs, s)
    ensures s.base % 8 == 0 && s.base in cs && s.size > 0 && s.base > 0 && s.size % GRANULARITY == 0
  {
    PageAligned(s.base);
  }

  lemma PageAligned(a: int)
    requires a % PAGE_SIZE == 0
    ensures a % 8 == 0
  {
  }

  /** Segment i is free but for its record, and the record chunk has the least size. A record chunk gets larger than
      that if the old top chunk had no room for a free chunk before it; such a segment is never given back. */
  ghost predicate Spare(v: View, i: int) {
    Droppable(v, i) && v.segs[i].rec - 16 == SegEnd(v.segs[i]) - TOP_FOOT_SIZE
  }

  ghost predicate NoSpare(v: View, n: int) {
    forall j | 1 <= j < n && j < |v.segs| :: !Spare(v, j)
  }

  /** What the walk leaves of the segments of v behind the current one when `munmap` does not fail: exactly those that
      were not spare. */
  ghost predicate Walked(v: View, w: View) {
    w.segs != [] && forall j | 1 <= j < |v.segs| :: v.segs[j] in w.segs[1..] <==> !Spare(v, j)
  }

  /** Spare, said of a segment and not of its place in the list. */
  ghost predicate SpareSeg(cs: Chunks, s: Seg) {
    && FreeAt(cs, s.base)
    && var r := Nxt(cs, s.base);
    && r in cs && cs[r].kind.Rec? && r + cs[r].size == SegEnd(s) && s.rec == r + 16 && r == SegEnd(s) - TOP_FOOT_SIZE
  }

  lemma SpareIs(v: View, i: int)
    requires 1 <= i < |v.segs|
    ensures Spare(v, i) <==> SpareSeg(v.chunks, v.segs[i])
  {
  }

  /** On the way from v to w the walk has given back spare segments only, and those that are left are as spare as they
      were. */
  ghost predicate PartlyWalked(v: View, w: View) {
    && v.segs != [] && w.segs != [] && (forall s | s in w.segs[1..] :: s in v.segs[1..])
    && (forall s | s in v.segs[1..] && s !in w.segs[1..] :: SpareSeg(v.chunks, s))
    && (forall s | s in w.segs[1..] :: SpareSeg(v.chunks, s) <==> SpareSeg(w.chunks, s))
  }

  lemma WalkBegins(v: View)
    requires v.segs != []
    ensures PartlyWalked(v, v)
  {
  }

  lemma WalkRound(v: View, u: View, w: View, i: int, ok: bool)
    requires PartlyWalked(v, u) && u.Laid() && 1 <= i < |u.segs| && (ok ==> Spare(u, i))
    requires w.segs == (if ok then WithoutSeg(u.segs, i) else u.segs)
    requires w.chunks == (if ok then Dropped(u.chunks, u.segs[i].base) else u.chunks)
    ensures PartlyWalked(v, w)
  {
    hide View.Laid, SpareSeg, Dropped, WithoutSeg;
    if ok {
      SpareIs(u, i);
      WithoutMembers(u.segs, i);
      assert u.segs[i] in u.segs[1..] by {
        assert u.segs[1..][i - 1] == u.segs[i];
      }
      forall s | s in w.segs[1..]
        ensures s in u.segs[1..] && (SpareSeg(u.chunks, s) <==> SpareSeg(w.chunks, s))
      {
        var k :| 0 <= k < |w.segs| - 1 && w.segs[1..][k] == s;
        var j := Skip(i, k + 1);
        assert s == u.segs[j] == u.segs[1..][j - 1];
        SpareApart(u, i, j);
      }
    }
  }

  /** All segments but one stay in the list. */
  lemma WithoutMembers(segs: seq<Seg>, i: int)
    requires 1 <= i < |segs|
    ensures var w := WithoutSeg(segs, i);
      && |w| == |segs| - 1 && (forall j | 0 <= j < |w| :: w[j] == segs[Skip(i, j)])
      && (forall s | s in segs[1..] :: s in w[1..] || s == segs[i])
  {
    WithoutAt(segs, i);
    var w := WithoutSeg(segs, i);
    forall s | s in segs[1..]
      ensures s in w[1..] || s == segs[i]
    {
      var j :| 0 <= j < |segs| - 1 && segs[1..][j] == s;
      if j + 1 < i {
        assert w[1..][j] == s;
      } else if j + 1 > i {
        assert w[1..][j - 1] == s;
      }
    }
  }

  /** Dropping segment i does not touch the chunks of another. */
  lemma SpareApart(u: View, i: int, j: int)
    requires u.Laid() && 1 <= i < |u.segs| && 1 <= j < |u.segs| && i != j && Spare(u, i)
    ensures SpareSeg(u.chunks, u.segs[j]) <==> SpareSeg(Dropped(u.chunks, u.segs[i].base), u.segs[j])
  {
    hide RecsOwned, Tagged, Recorded, AllDirectWords, Mapped, Preceded, DirectOK, Retired, SizesOK, Apart;
    hide Linked, TopIs, NoCross;
    var s, p := u.segs[j], u.segs[i].base;
    assert SegEnd(u.segs[i]) <= s.base || SegEnd(s) <= p by {
      if i < j {
        assert SegEnd(u.segs[i]) <= u.segs[j].base || SegEnd(u.segs[j]) <= u.segs[i].base;
      } else {
        assert SegEnd(u.segs[j]) <= u.segs[i].base || SegEnd(u.segs[i]) <= u.segs[j].base;
      }
    }
    SegLarge(u, i);
    SegLarge(u, j);
    SizePositive(u, p);
  }

  lemma WalkEnds(v: View, w: View)
    requires PartlyWalked(v, w) && NoSpare(w, |w.segs|)
    ensures Walked(v, w)
  {
    hide SpareSeg, Spare;
    forall j | 1 <= j < |v.segs|
      ensures v.segs[j] in w.segs[1..] <==> !Spare(v, j)
    {
      SpareIs(v, j);
      assert v.segs[1..][j - 1] == v.segs[j];
      if v.segs[j] in w.segs[1..] {
        var k :| 0 <= k < |w.segs| - 1 && w.segs[1..][k] == v.segs[j];
        SpareIs(w, k + 1);
        assert !Spare(w, k + 1);
      }
    }
  }

  /** The test of the walk finds out exactly whether the segment is spare. */
  lemma ReleaseTest(v: View, i: int)
    requires v.Laid() && 1 <= i < |v.segs|
    ensures var s := v.segs[i]; var h := Head(v.mem, s.base);
      (!CInUse(h) && s.base + ChunkSize(h) >= SegEnd(s) - TOP_FOOT_SIZE) <==> Spare(v, i)
    ensures var s := v.segs[i];
      Spare(v, i) ==>
        Releasable(v, i, s.base, s.size, NextRec(v.segs, i), v.segs[i - 1].rec, ChunkSize(Head(v.mem, s.base)))
  {
    hide RecsOwned, AllDirectWords, DirectOK, Preceded, NoCross, Mapped, Recorded, SegAt, Retired, SegsApart, Linked;
    hide TopIs, Apart, NextRec;
    var s := v.segs[i];
    SegLook(v, i);
    assert ChunkOK(s.base, v.chunks[s.base]);
    HeadBits(v.chunks[s.base]);
    var h := Head(v.mem, s.base);
    RetiredEnd(v, i);
    if !CInUse(h) && s.base + ChunkSize(h) >= SegEnd(s) - TOP_FOOT_SIZE {
      NotCurrent(v, i);
      assert v.chunks[s.base].kind.Free?;
      WholeSegment(v, i);
      assert SegAt(v.mem.Keys, v.chunks, s);
    }
    if Spare(v, i) {
      SegLarge(v, i);
    }
  }

  lemma RetiredEnd(v: View, i: int)
    requires v.Laid() && 1 <= i < |v.segs|
    ensures v.segs[i].rec - 16 <= SegEnd(v.segs[i]) - TOP_FOOT_SIZE
  {
    hide RecsOwned, AllDirectWords, DirectOK, Preceded, NoCross, Mapped, Recorded, SegAt, SegsApart, Linked;
    hide TopIs, Apart, Tagged, SizesOK;
    assert Retired(v.chunks, v.segs[i]);
  }

  lemma SegLarge(v: View, i: int)
    requires v.Laid() && 1 <= i < |v.segs|
    ensures v.segs[i].size >= GRANULARITY && v.segs[i].base > 0
  {
    hide RecsOwned, AllDirectWords, DirectOK, Preceded, NoCross, Mapped, Recorded, Retired, SegsApart, Linked;
    hide TopIs, Apart, Tagged, SizesOK;
    assert SegAt(v.mem.Keys, v.chunks, v.segs[i]);
  }

  /** After its round, neither segment i nor one before it is spare. */
  lemma SpareRound(v: View, w: View, i: int, ok: bool)
    requires 1 <= i < |v.segs|
    requires w.segs == (if ok then WithoutSeg(v.segs, i) else v.segs)
    requires w.chunks == (if ok then Dropped(v.chunks, v.segs[i].base) else v.chunks)
    ensures NoSpare(v, i) && ok == Spare(v, i) ==> NoSpare(w, if ok then i else i + 1)
  {
    if NoSpare(v, i) && ok == Spare(v, i) {
      forall j | 1 <= j < (if ok then i else i + 1) && j < |w.segs|
        ensures !Spare(w, j)
      {
        assert w.segs[j] == v.segs[j] && !Spare(v, j);
      }
    }
  }

  lemma NotCurrent(v: View, i: int)
    requires v.Laid() && 1 <= i < |v.segs|
    ensures var b := v.segs[i].base; b in v.chunks && !v.chunks[b].kind.Top? && !v.chunks[b].kind.Foot?
  {
    hide RecsOwned, AllDirectWords, DirectOK, Preceded, NoCross, Mapped, Recorded, Retired, Linked, Tagged, Apart;
    hide SizesOK;
    assert SegAt(v.mem.Keys, v.chunks, v.segs[i]) && SegAt(v.mem.Keys, v.chunks, v.segs[0]);
    assert SegEnd(v.segs[0]) <= v.segs[i].base || SegEnd(v.segs[i]) <= v.segs[0].base;
    TopKind(v);
    SizePositive(v, v.top);
  }

  lemma WholeSegment(v: View, i: int)
    requires v.Laid() && 1 <= i < |v.segs| && FreeAt(v.chunks, v.segs[i].base)
    requires v.segs[i].base + v.chunks[v.segs[i].base].size >= SegEnd(v.segs[i]) - TOP_FOOT_SIZE
    ensures Droppable(v, i)
  {
    hide RecsOwned, AllDirectWords, DirectOK, Preceded, NoCross, Mapped, Recorded, TopIs, Tagged, SegAt, SegsApart;
    var p := v.segs[i].base;
    assert Retired(v.chunks, v.segs[i]);
    var r := v.segs[i].rec - 16;
    assert Nxt(v.chunks, p) in v.chunks && ChunkOK(Nxt(v.chunks, p), v.chunks[Nxt(v.chunks, p)]) &&
      ChunkOK(p, v.chunks[p]);
  }

  /** What the walk has found out about segment i when it gives it back. */
  ghost predicate Releasable(v: View, i: int, base: int, size: int, next: int, pred: int, psize: int) {
    && 1 <= i < |v.segs| && v.segs[i].base == base && v.segs[i].size == size
    && pred == v.segs[i - 1].rec && next == NextRec(v.segs, i)
    && Droppable(v, i) && base in v.chunks && v.chunks[base].size == psize && psize >= MIN_LARGE_SIZE && base != 0
  }

  lemma DroppableStays(v: View, w: View, i: int)
    requires Droppable(v, i) && w.chunks == v.chunks && w.segs == v.segs
    ensures Droppable(w, i)
  {
  }

  lemma DropLinks(v: View, i: int)
    requires 1 <= i < |v.segs|
    ensures NextRec(WithoutSeg(v.segs, i), i - 1) == NextRec(v.segs, i) &&
      WithoutSeg(v.segs, i)[i - 1] == v.segs[i - 1] && |WithoutSeg(v.segs, i)| == |v.segs| - 1
    ensures Total(WithoutSeg(v.segs, i)) == Total(v.segs) - v.segs[i].size
  {
    WithoutAt(v.segs, i);
    TotalWithout(v.segs, i);
  }

  /** All bytes of the segments. */
  function Total(segs: seq<Seg>): int {
    if segs == [] then 0 else segs[0].size + Total(segs[1..])
  }

  lemma {:induction false} TotalWithout(segs: seq<Seg>, i: nat)
    requires i < |segs|
    ensures Total(WithoutSeg(segs, i)) == Total(segs) - segs[i].size
  {
    if i == 0 {
      assert WithoutSeg(segs, 0) == segs[1..];
    } else {
      TotalWithout(segs[1..], i - 1);
      assert WithoutSeg(segs, i)[1..] == WithoutSeg(segs[1..], i - 1);
    }
  }

  lemma FirstRec(v: View)
    requires v.Laid()
    ensures |v.segs| > 0 && v.segs[0].rec == SegField(v.msp)
  {
  }

  lemma NextRecIs(v: View, i: int)
    requires v.Laid() && 0 <= i < |v.segs|
    ensures NextRec(v.segs, i) == if i + 1 < |v.segs| then v.segs[i + 1].rec else 0
    ensures i + 1 < |v.segs| ==> v.segs[i + 1].rec > 0
  {
    hide View.Laid;
    if i + 1 < |v.segs| {
      SegLook(v, i + 1);
    }
  }
}
