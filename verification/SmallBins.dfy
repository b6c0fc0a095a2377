/** Linking free chunks into and out of the small bins. */
module SmallBins {
  import opened BinMap
  import opened Memory
  import opened Rings
  import opened Trie
  import opened TreeLinks
  import opened TreeUnlink
  import opened Layout
  import opened Bins

  /** The table with p put first in small bin i. */
  ghost function PutSmall(b: BinTable, i: nat, p: int): BinTable
    requires i < |b.small|
  {
    b.(small := b.small[i := [p] + b.small[i]], smallmap := Mark(b.smallmap, i))
  }

  /** The table with p taken out of small bin i. */
  ghost function TakeSmall(b: BinTable, i: nat, p: int): BinTable
    requires i < |b.small|
  {
    var rest := Without(b.small[i], p);
    b.(small := b.small[i := rest], smallmap := if rest == [] then Clear(b.smallmap, i) else b.smallmap)
  }

  /** The memory after `insert_small_chunk`: h is the bin header, f what follows it. */
  function LinkedSmall(m: Mem, h: int, f: int, p: int): Mem {
    m[h + FD := p][f + BK := p][p + FD := f][p + BK := h]
  }

  /** The memory after the two stores that link the chunk between f and b out. */
  function UnlinkedSmall(m: Mem, f: int, b: int): Mem {
    m[f + BK := b][b + FD := f]
  }

  /** Ring links of different members do not overlap. */
  ghost predicate Spread(s: seq<int>) {
    forall i, j | 0 <= i < j < |s| :: s[i] + 16 <= s[j] || s[j] + 16 <= s[i]
  }

  lemma BinSpread(cs: Chunks, b: BinTable, msp: int, dv: int, dvsize: int, loose: set<int>, i: nat, p: int)
    requires Tiled(cs) && StateAt(cs, msp) && Match(cs, b, dv, dvsize, loose) && i < 32 && Unique(b.small[i])
    requires FreeAt(cs, p) && p in loose
    ensures Spread([SmallBin(msp, i), p] + b.small[i]) && p !in b.small[i]
  {
    var s := [SmallBin(msp, i), p] + b.small[i];
    forall k | 1 <= k < |s|
      ensures FreeAt(cs, s[k]) && (s[k] + 32 <= msp || msp + STATE_SIZE <= s[k])
      ensures k > 1 ==> s[k] != p
    {
      if k > 1 {
        assert s[k] in b.small[i];
      }
      FreeOffState(cs, msp, s[k]);
    }
    forall j, k | 0 <= j < k < |s|
      ensures s[j] + 16 <= s[k] || s[k] + 16 <= s[j]
    {
      if j > 0 {
        if j > 1 {
          assert s[j] == b.small[i][j - 2] && s[k] == b.small[i][k - 2];
        }
        FreeApart(cs, s[j], s[k]);
      }
    }
  }

  /** The members of a ring keep their distance from each other and from p. */
  lemma SpreadParts(h: int, list: seq<int>, p: int)
    requires Spread([h, p] + list)
    ensures Unique([h] + list) && p !in [h] + list && h != p
    ensures forall a, b | a in [h, p] + list && b in [h, p] + list && a != b :: a + 16 <= b || b + 16 <= a
  {
    var s := [h, p] + list;
    var ring := [h] + list;
    assert s[0] == h && s[1] == p;
    forall i | 0 <= i < |ring|
      ensures ring[i] == s[if i == 0 then 0 else i + 1]
    {
    }
  }

  /** The four stores of an insertion close the ring around p. */
  lemma InsertRing(m: Mem, h: int, list: seq<int>, f: int, p: int)
    requires Spread([h, p] + list) && (list != [] ==> RingAt(m, [h] + list))
    requires f == if list == [] then h else Fd(m, h)
    ensures RingAt(LinkedSmall(m, h, f, p), [h] + ([p] + list))
    ensures f == h || f in list
  {
    var n := LinkedSmall(m, h, f, p);
    SpreadParts(h, list, p);
    var s := [h, p] + list;
    var ring := [h] + list;
    assert [h] + ([p] + list) == s && h in s && p in s;
    if list != [] {
      RingNeighbours(m, ring, 0);
      assert f == ring[1] == list[0] && f in s && f in ring;
      forall a | a in ring
        ensures a in s
      {
      }
      InsertFields(m, h, f, p, ring, s);
      RingInsertLinks(m, n, ring, p);
      assert RingInsert(ring, p) == s;
    }
  }

  lemma InsertFields(m: Mem, h: int, f: int, p: int, ring: seq<int>, s: seq<int>)
    requires forall a, b | a in s && b in s && a != b :: a + 16 <= b || b + 16 <= a
    requires h in s && p in s && f in s && p !in ring && h != p && f != p && h != f
    requires forall a | a in ring :: a in s
    ensures var n := LinkedSmall(m, h, f, p);
      && Fd(n, h) == p && Bk(n, f) == p && Fd(n, p) == f && Bk(n, p) == h
      && (forall a | a in ring && a != h :: Fd(n, a) == Fd(m, a))
      && (forall a | a in ring && a != f :: Bk(n, a) == Bk(m, a))
  {
  }

  lemma TailUnique(h: int, list: seq<int>)
    requires Unique([h] + list)
    ensures Unique(list)
  {
    var ring := [h] + list;
    forall i, j | 0 <= i < j < |list|
      ensures list[i] != list[j]
    {
      assert ring[i + 1] != ring[j + 1];
    }
  }

  /** The neighbours of a listed chunk coincide exactly when it is alone. */
  lemma ListNeighbours(m: Mem, h: int, list: seq<int>, k: nat)
    requires k < |list| && RingAt(m, [h] + list) && Unique([h] + list)
    ensures var f, b := Fd(m, list[k]), Bk(m, list[k]);
      f in [h] + list && b in [h] + list && (f == b <==> |list| == 1)
      && (k == 0 ==> b == h) && (f == h <==> k == |list| - 1)
  {
    var ring := [h] + list;
    assert ring[k + 1] == list[k] && ring[0] == h;
    RingNeighbours(m, ring, k + 1);
    assert Bk(m, list[k]) == ring[k];
    assert Fd(m, list[k]) == if k + 2 < |ring| then ring[k + 2] else ring[0];
    if k + 2 < |ring| {
      assert ring[0] != ring[k + 2];
    }
  }

  /** The two stores of a removal close the ring without its member k. */
  lemma RemoveRing(m: Mem, h: int, list: seq<int>, k: nat)
    requires k < |list| && RingAt(m, [h] + list) && Unique([h] + list) && |list| > 1
    requires forall a, b | a in [h] + list && b in [h] + list && a != b :: a + 16 <= b || b + 16 <= a
    ensures RingAt(UnlinkedSmall(m, Fd(m, list[k]), Bk(m, list[k])), [h] + Without(list, list[k]))
  {
    hide RingAt, Unique, Without;
    var ring := [h] + list;
    var p := list[k];
    assert ring[k + 1] == p;
    var f, b := Fd(m, p), Bk(m, p);
    ListNeighbours(m, h, list, k);
    CutList(h, list, k);
    RemoveFields(m, f, b, p, ring);
    RingDeleteLinks(m, UnlinkedSmall(m, f, b), ring, k + 1);
  }

  lemma CutList(h: int, list: seq<int>, k: nat)
    requires k < |list| && Unique([h] + list)
    ensures ([h] + list)[..k + 1] + ([h] + list)[k + 2..] == [h] + Without(list, list[k])
  {
    hide Without, Unique;
    TailUnique(h, list);
    WithoutAt(list, k);
    assert ([h] + list)[..k + 1] == [h] + list[..k];
    assert ([h] + list)[k + 2..] == list[k + 1..];
  }

  lemma RemoveFields(m: Mem, f: int, b: int, p: int, ring: seq<int>)
    requires forall x, y | x in ring && y in ring && x != y :: x + 16 <= y || y + 16 <= x
    requires f in ring && b in ring && f != b
    ensures var n := UnlinkedSmall(m, f, b);
      && Bk(n, f) == b && Fd(n, b) == f
      && (forall a | a in ring && a != b && a != p :: Fd(n, a) == Fd(m, a))
      && (forall a | a in ring && a != f && a != p :: Bk(n, a) == Bk(m, a))
  {
  }

  // ----- the rest of the bins -----

  /** Only ring links of members of q changed. */
  ghost predicate OnlyRings(m: Mem, n: Mem, q: set<int>) {
    && n.Keys == m.Keys
    && forall w :: Rd(n, w) == Rd(m, w) || w - FD in q || w - BK in q
  }

  /** The trees, whose chunks are none of these, are as they were. */
  lemma TreesAside(m: Mem, n: Mem, cs: Chunks, b: BinTable, msp: int, dv: int, dvsize: int, loose: set<int>,
      q: set<int>, h: int)
    requires SizesOK(cs) && Apart(cs) && StateAt(cs, msp) && TreesOK(m, b, msp) && Match(cs, b, dv, dvsize, loose)
    requires OnlyRings(m, n, q) && msp + 72 <= h < msp + 600 - 16
    requires forall a | a in q && a != h :: FreeAt(cs, a) && cs[a].size < MIN_LARGE_SIZE
    ensures TreesOK(n, b, msp)
  {
    forall i | 0 <= i < 32
      ensures TreeOK(n, b.trees[i], b.roots[i], i, msp)
    {
      forall a | Has(b.trees[i], a)
        ensures SameLinks(m, n, a)
      {
        FreeOffState(cs, msp, a);
        forall x | x in q
          ensures x + 32 <= a || a + 64 <= x
        {
          if x != h {
            FreeApart(cs, x, a);
            FreeApart(cs, a, x);
          }
        }
      }
      RepFrame(m, n, b.trees[i], TreeBin(msp, i), i);
    }
  }

  /** The small bins other than i are as they were. */
  lemma SmallAside(m: Mem, n: Mem, cs: Chunks, b: BinTable, msp: int, dv: int, dvsize: int, loose: set<int>,
      q: set<int>, i: nat, j: nat)
    requires SizesOK(cs) && Apart(cs) && StateAt(cs, msp) && SmallOK(m, b, msp) && Match(cs, b, dv, dvsize, loose)
    requires i < 32 && j < 32 && i != j && OnlyRings(m, n, q) && b.small[j] != []
    requires forall a | a in q && a != SmallBin(msp, i) :: FreeAt(cs, a) && a !in b.small[j]
    ensures RingAt(n, [SmallBin(msp, j)] + b.small[j])
  {
    var ring := [SmallBin(msp, j)] + b.small[j];
    forall a | a in ring
      ensures SameRing(m, n, a)
    {
      if a in b.small[j] {
        FreeOffState(cs, msp, a);
      }
      forall x | x in q
        ensures x + 16 <= a || a + 16 <= x
      {
        if x != SmallBin(msp, i) {
          FreeOffState(cs, msp, x);
          if a in b.small[j] {
            FreeApart(cs, x, a);
          }
        }
      }
    }
    RingFrame(m, n, ring);
  }

  /** A loose chunk p and the header h and first chunk f of the small bin for its size. */
  ghost predicate InsertPlace(m: Mem, cs: Chunks, b: BinTable, msp: int, loose: set<int>, p: int, i: int, h: int,
      f: int) {
    && p in loose && FreeAt(cs, p) && cs[p].size < MIN_LARGE_SIZE && i == cs[p].size / 8 && 0 <= i < 32
    && h == SmallBin(msp, i)
    && f == if Marked(b.smallmap, i) then Fd(m, h) else h
  }

  lemma InsertedRings(m: Mem, cs: Chunks, b: BinTable, msp: int, dv: int, dvsize: int, loose: set<int>, p: int,
      i: int, h: int, f: int)
    requires Tiled(cs) && StateAt(cs, msp) && SmallOK(m, b, msp) && Match(cs, b, dv, dvsize, loose)
    requires InsertPlace(m, cs, b, msp, loose, p, i, h, f)
    ensures RingAt(LinkedSmall(m, h, f, p), [h] + ([p] + b.small[i])) && p !in b.small[i]
    ensures f == h || f in b.small[i]
  {
    BinSpread(cs, b, msp, dv, dvsize, loose, i, p);
    InsertRing(m, h, b.small[i], f, p);
  }

  lemma OnlyInserted(m: Mem, h: int, f: int, p: int)
    requires h + FD in m && f + BK in m && p + FD in m && p + BK in m
    ensures OnlyRings(m, LinkedSmall(m, h, f, p), {h, f, p})
  {
  }

  /** Chunks q, together with the header of bin i, belong to no other bin. */
  ghost predicate OfBin(cs: Chunks, b: BinTable, q: set<int>, h: int, i: nat) {
    && |b.small| == 32
    && forall a | a in q && a != h ::
      FreeAt(cs, a) && cs[a].size < MIN_LARGE_SIZE && forall j | 0 <= j < 32 && j != i :: a !in b.small[j]
  }

  lemma AsideAll(m: Mem, n: Mem, cs: Chunks, b: BinTable, msp: int, dv: int, dvsize: int, loose: set<int>,
      q: set<int>, h: int, i: nat)
    requires Tiled(cs) && StateAt(cs, msp) && BinInv(m, cs, b, msp, dv, dvsize, loose)
    requires i < 32 && h == SmallBin(msp, i) && OnlyRings(m, n, q) && OfBin(cs, b, q, h, i)
    ensures TreesOK(n, b, msp)
    ensures forall j | 0 <= j < 32 && j != i && b.small[j] != [] :: RingAt(n, [SmallBin(msp, j)] + b.small[j])
  {
    TreesAside(m, n, cs, b, msp, dv, dvsize, loose, q, h);
    forall j | 0 <= j < 32 && j != i && b.small[j] != []
      ensures RingAt(n, [SmallBin(msp, j)] + b.small[j])
    {
      SmallAside(m, n, cs, b, msp, dv, dvsize, loose, q, i, j);
    }
  }

  lemma BinMembers(cs: Chunks, b: BinTable, dv: int, dvsize: int, loose: set<int>, q: set<int>, h: int, i: nat)
    requires Match(cs, b, dv, dvsize, loose) && i < 32
    requires forall a | a in q && a != h :: a in b.small[i] || (a in loose && cs[a].size < MIN_LARGE_SIZE)
    ensures OfBin(cs, b, q, h, i)
  {
  }

  /** Putting loose chunk p into its small bin. */
  lemma SmallInserted(m: Mem, n: Mem, cs: Chunks, b: BinTable, msp: int, dv: int, dvsize: int, loose: set<int>,
      p: int, i: int, h: int, f: int)
    requires Tiled(cs) && StateAt(cs, msp) && BinInv(m, cs, b, msp, dv, dvsize, loose) && p != dv
    requires InsertPlace(m, cs, b, msp, loose, p, i, h, f)
    requires n == LinkedSmall(m, h, f, p) && OnlyRings(m, n, {h, f, p})
    ensures BinInv(n, cs, PutSmall(b, i, p), msp, dv, dvsize, loose - {p})
  {
    InsertedRings(m, cs, b, msp, dv, dvsize, loose, p, i, h, f);
    SmallInsertedRest(m, n, cs, b, msp, dv, dvsize, loose, p, i, h, f);
    PutSmallMatch(cs, b, dv, dvsize, loose, i, p);
  }

  lemma SmallInsertedRest(m: Mem, n: Mem, cs: Chunks, b: BinTable, msp: int, dv: int, dvsize: int, loose: set<int>,
      p: int, i: nat, h: int, f: int)
    requires Tiled(cs) && StateAt(cs, msp) && BinInv(m, cs, b, msp, dv, dvsize, loose) && i < 32 &&
      h == SmallBin(msp, i)
    requires p in loose && cs[p].size < MIN_LARGE_SIZE && (f == h || f in b.small[i]) && p !in b.small[i]
    requires OnlyRings(m, n, {h, f, p}) && RingAt(n, [h] + ([p] + b.small[i]))
    ensures SmallOK(n, PutSmall(b, i, p), msp) && TreesOK(n, b, msp)
  {
    BinMembers(cs, b, dv, dvsize, loose, {h, f, p}, h, i);
    AsideAll(m, n, cs, b, msp, dv, dvsize, loose, {h, f, p}, h, i);
    hide RingAt, TreeOK, Match, Tiled, OnlyRings;
    PutSmallOK(m, n, b, msp, i, p);
  }

  lemma PutSmallOK(m: Mem, n: Mem, b: BinTable, msp: int, i: nat, p: int)
    requires SmallOK(m, b, msp) && i < 32 && p !in b.small[i]
    requires RingAt(n, [SmallBin(msp, i)] + ([p] + b.small[i]))
    requires forall j | 0 <= j < 32 && j != i && b.small[j] != [] :: RingAt(n, [SmallBin(msp, j)] + b.small[j])
    ensures SmallOK(n, PutSmall(b, i, p), msp)
  {
    var c := PutSmall(b, i, p);
    forall j: nat
      ensures Marked(c.smallmap, j) == (Marked(b.smallmap, j) || i == j)
    {
      MarkSets(b.smallmap, i, j);
    }
    assert Unique([p] + b.small[i]) by {
      forall k | 0 <= k < |b.small[i]|
        ensures b.small[i][k] != p
      {
        assert b.small[i][k] in b.small[i];
      }
    }
  }

  lemma PutSmallMatch(cs: Chunks, b: BinTable, dv: int, dvsize: int, loose: set<int>, i: nat, p: int)
    requires Tiled(cs) && Match(cs, b, dv, dvsize, loose) && p in loose && p != dv
    requires cs[p].size < MIN_LARGE_SIZE && i == cs[p].size / 8
    ensures Match(cs, PutSmall(b, i, p), dv, dvsize, loose - {p})
  {
    var c := PutSmall(b, i, p);
    assert cs[p].size == 8 * i;
    forall a | FreeAt(cs, a) && a != dv && a !in loose - {p}
      ensures IsBinned(cs, c, a)
    {
      if a != p {
        assert IsBinned(cs, b, a);
      }
    }
  }

  /** The stores of `unlink_small_chunk`: none when p is alone, two otherwise. */
  ghost predicate UnlinkStores(m: Mem, n: Mem, p: int) {
    var f, k := Fd(m, p), Bk(m, p);
    if f == k then n == m else n == UnlinkedSmall(m, f, k) && OnlyRings(m, n, {f, k})
  }

  /** Taking p out of its small bin. */
  lemma SmallRemoved(m: Mem, n: Mem, cs: Chunks, b: BinTable, msp: int, dv: int, dvsize: int, loose: set<int>, p: int,
      i: int)
    requires Tiled(cs) && StateAt(cs, msp) && BinInv(m, cs, b, msp, dv, dvsize, loose)
    requires 0 <= i < 32 && p in b.small[i] && UnlinkStores(m, n, p)
    ensures BinInv(n, cs, TakeSmall(b, i, p), msp, dv, dvsize, loose + {p})
  {
    RemovedRing(m, cs, b, msp, dv, dvsize, loose, p, i);
    SmallRemovedRest(m, n, cs, b, msp, dv, dvsize, loose, p, i, Fd(m, p), Bk(m, p));
    TakeSmallMatch(cs, b, dv, dvsize, loose, i, p);
  }

  lemma SmallRemovedRest(m: Mem, n: Mem, cs: Chunks, b: BinTable, msp: int, dv: int, dvsize: int, loose: set<int>,
      p: int, i: nat, f: int, k: int)
    requires Tiled(cs) && StateAt(cs, msp) && BinInv(m, cs, b, msp, dv, dvsize, loose) && i < 32
    requires p in b.small[i] && f == Fd(m, p) && k == Bk(m, p) && UnlinkStores(m, n, p)
    requires (f == SmallBin(msp, i) || f in b.small[i]) && (k == SmallBin(msp, i) || k in b.small[i])
    requires Without(b.small[i], p) != [] ==> RingAt(n, [SmallBin(msp, i)] + Without(b.small[i], p))
    ensures SmallOK(n, TakeSmall(b, i, p), msp) && TreesOK(n, b, msp)
  {
    BinMembers(cs, b, dv, dvsize, loose, {f, k}, SmallBin(msp, i), i);
    assert OnlyRings(m, n, {f, k});
    AsideAll(m, n, cs, b, msp, dv, dvsize, loose, {f, k}, SmallBin(msp, i), i);
    hide RingAt, TreeOK, Match, Tiled, OnlyRings, UnlinkStores;
    TakeSmallOK(m, n, b, msp, i, p);
  }

  /** The neighbours of p coincide exactly when p is alone; otherwise the two stores close the ring without it. */
  lemma RemovedRing(m: Mem, cs: Chunks, b: BinTable, msp: int, dv: int, dvsize: int, loose: set<int>, p: int, i: int)
    requires Tiled(cs) && StateAt(cs, msp) && SmallOK(m, b, msp) && Match(cs, b, dv, dvsize, loose)
    requires 0 <= i < 32 && p in b.small[i]
    ensures var f, k := Fd(m, p), Bk(m, p);
      && (f == SmallBin(msp, i) || f in b.small[i]) && (k == SmallBin(msp, i) || k in b.small[i])
      && (f == k <==> Without(b.small[i], p) == [])
      && (f != k ==> RingAt(UnlinkedSmall(m, f, k), [SmallBin(msp, i)] + Without(b.small[i], p)))
  {
    var h := SmallBin(msp, i);
    var list := b.small[i];
    var j :| 0 <= j < |list| && list[j] == p;
    SmallMembers(cs, b, dv, dvsize, loose, i);
    RingSpread(cs, list, msp, i);
    ListNeighbours(m, h, list, j);
    WithoutBag(list, p);
    if |list| > 1 {
      RemoveRing(m, h, list, j);
    }
  }

  lemma SmallMembers(cs: Chunks, b: BinTable, dv: int, dvsize: int, loose: set<int>, i: int)
    requires Match(cs, b, dv, dvsize, loose) && 0 <= i < 32
    ensures forall x | x in b.small[i] :: FreeAt(cs, x)
  {
  }

  lemma RingSpread(cs: Chunks, list: seq<int>, msp: int, i: int)
    requires SizesOK(cs) && Apart(cs) && StateAt(cs, msp) && 0 <= i < 32 && Unique(list)
    requires forall x | x in list :: FreeAt(cs, x)
    ensures Unique([SmallBin(msp, i)] + list)
    ensures var s := [SmallBin(msp, i)] + list;
      forall x, y | x in s && y in s && x != y :: x + 16 <= y || y + 16 <= x
  {
    forall x | x in list
      ensures x + 32 <= msp || msp + STATE_SIZE <= x
    {
      FreeOffState(cs, msp, x);
    }
    forall x, y | x in list && y in list && x != y
      ensures x + 16 <= y || y + 16 <= x
    {
      FreeApart(cs, x, y);
    }
    HeadedSpread(SmallBin(msp, i), list);
  }

  lemma HeadedSpread(h: int, list: seq<int>)
    requires Unique(list) && forall x | x in list :: x + 16 <= h || h + 16 <= x
    requires forall x, y | x in list && y in list && x != y :: x + 16 <= y || y + 16 <= x
    ensures Unique([h] + list)
    ensures forall x, y | x in [h] + list && y in [h] + list && x != y :: x + 16 <= y || y + 16 <= x
  {
    forall j | 0 <= j < |list|
      ensures list[j] != h
    {
      assert list[j] in list;
    }
  }

  lemma TakeSmallOK(m: Mem, n: Mem, b: BinTable, msp: int, i: nat, p: int)
    requires SmallOK(m, b, msp) && i < 32 && p in b.small[i]
    requires Without(b.small[i], p) != [] ==> RingAt(n, [SmallBin(msp, i)] + Without(b.small[i], p))
    requires forall j | 0 <= j < 32 && j != i && b.small[j] != [] :: RingAt(n, [SmallBin(msp, j)] + b.small[j])
    ensures SmallOK(n, TakeSmall(b, i, p), msp)
  {
    hide Marked, Clear, Without, RingAt, Unique;
    forall j: nat
      ensures Marked(TakeSmall(b, i, p).smallmap, j) <==> j < 32 && TakeSmall(b, i, p).small[j] != []
    {
      TakeSmallBit(b, i, p, j);
    }
    WithoutStays(b.small[i], p);
  }

  /** The bit of bin j once p is out of bin i. */
  lemma TakeSmallBit(b: BinTable, i: nat, p: int, j: nat)
    requires |b.small| == 32 && i < 32 && p in b.small[i]
    requires if j < 32 then Marked(b.smallmap, j) <==> b.small[j] != [] else !Marked(b.smallmap, j)
    ensures Marked(TakeSmall(b, i, p).smallmap, j) <==> j < 32 && TakeSmall(b, i, p).small[j] != []
  {
    ClearResets(b.smallmap, i, j);
    hide Marked, Clear, Without;
  }

  lemma WithoutStays(s: seq<int>, p: int)
    requires Unique(s) && p in s
    ensures Unique(Without(s, p))
  {
    var k :| 0 <= k < |s| && s[k] == p;
    WithoutAt(s, k);
  }

  lemma TakeSmallMatch(cs: Chunks, b: BinTable, dv: int, dvsize: int, loose: set<int>, i: nat, p: int)
    requires Tiled(cs) && Match(cs, b, dv, dvsize, loose) && i < 32 && p in b.small[i] && Unique(b.small[i])
    ensures Match(cs, TakeSmall(b, i, p), dv, dvsize, loose + {p})
  {
    hide Tiled, Has, TreeItem, Clear, Without;
    var c := TakeSmall(b, i, p);
    WithoutUnique(b.small[i], p);
    TakeSmallHold(cs, b, dv, loose, i, p);
    forall a | FreeAt(cs, a) && a != dv && a !in loose + {p}
      ensures IsBinned(cs, c, a)
    {
      assert IsBinned(cs, b, a);
    }
    assert SmallHold(cs, b, dv, loose) && FreeAt(cs, p) && p != dv && cs[p].size == 8 * i;
    TakeSmallTrees(cs, b, dv, loose, i, p);
  }

  lemma TakeSmallHold(cs: Chunks, b: BinTable, dv: int, loose: set<int>, i: nat, p: int)
    requires SmallHold(cs, b, dv, loose) && i < 32 && p in b.small[i]
    requires forall a :: a in Without(b.small[i], p) <==> a in b.small[i] && a != p
    ensures SmallHold(cs, TakeSmall(b, i, p), dv, loose + {p})
  {
    hide Clear, Without;
    var c := TakeSmall(b, i, p);
    assert FreeAt(cs, p) && cs[p].size == 8 * i;
    forall j, a | 0 <= j < 32 && a in c.small[j]
      ensures FreeAt(cs, a) && a != dv && a !in loose + {p} && cs[a].size == 8 * j
    {
      assert a in b.small[j] && (j == i ==> a != p) by {
        assert j == i ==> a in Without(b.small[i], p);
      }
      assert FreeAt(cs, a) && a != dv && a !in loose && cs[a].size == 8 * j;
    }
  }

  lemma TakeSmallTrees(cs: Chunks, b: BinTable, dv: int, loose: set<int>, i: nat, p: int)
    requires TreesHold(cs, b, dv, loose) && p in cs && cs[p].size == 8 * i && i < 32 == |b.small|
    ensures TreesHold(cs, TakeSmall(b, i, p), dv, loose + {p})
  {
    hide Has, Clear, Without, SizeOf;
    var c := TakeSmall(b, i, p);
    forall j, a | 0 <= j < 32 && Has(c.trees[j], a)
      ensures TreeItem(cs, c.trees[j], dv, loose + {p}, j, a)
    {
      assert TreeItem(cs, b.trees[j], dv, loose, j, a);
    }
  }

  lemma WithoutUnique(s: seq<int>, p: int)
    requires Unique(s) && p in s
    ensures forall a :: a in Without(s, p) <==> a in s && a != p
  {
    forall a
      ensures a in Without(s, p) <==> a in s && a != p
    {
      WithoutIn(s, p, a);
    }
  }

  lemma {:induction false} WithoutIn(s: seq<int>, p: int, a: int)
    requires Unique(s) && p in s
    ensures a in Without(s, p) <==> a in s && a != p
  {
    assert s == [s[0]] + s[1..];
    if s[0] != p {
      WithoutIn(s[1..], p, a);
    }
  }
}
