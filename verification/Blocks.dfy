/** What a program sees of the heap: its blocks and their contents. */
module Blocks {
  import opened BinMap
  import opened TreeIndex
  import opened Memory
  import opened Trie
  import opened Layout
  import opened Bins
  import opened Segments
  import opened BinSteps
  import opened TagSteps
  import opened BestFit

  /** How many bytes the block at pointer p may hold; 0 if p points to no block. */
  ghost function Usable(v: View, p: int): int {
    var a := p - 16;
    if a in v.chunks && v.chunks[a].kind.Used? then v.chunks[a].size - 8
    else if a in v.direct then v.direct[a] - 16
    else 0
  }

  /** The block at p, if any, is the same and holds the same words. */
  ghost predicate BlockKept(v: View, w: View, p: int) {
    Usable(w, p) == Usable(v, p) && forall a | p <= a < p + Usable(v, p) :: Rd(w.mem, a) == Rd(v.mem, a)
  }

  /** Every block but those at pointers in x is kept, and there is no new one elsewhere. */
  ghost predicate Keeps(v: View, w: View, x: set<int>) {
    forall p | p !in x :: BlockKept(v, w, p)
  }

  /** A new block of at least n bytes at p; all other blocks are kept. */
  ghost predicate Granted(v: View, w: View, p: int, n: int) {
    p > 0 && p % 8 == 0 && Usable(v, p) == 0 && Usable(w, p) >= n && Keeps(v, w, {p})
  }

  /** The block at p now has at least n bytes and keeps the words that fit into both sizes; all other blocks are
      kept. */
  ghost predicate Regrown(v: View, w: View, p: int, n: int) {
    && Keeps(v, w, {p}) && Usable(v, p) > 0 && Usable(w, p) >= n && Usable(w, p) > 0
    && forall a | p <= a < p + Usable(v, p) && a < p + Usable(w, p) :: Rd(w.mem, a) == Rd(v.mem, a)
  }

  /** The block at p can get nb bytes where it is: its chunk is large enough, or lies right before a top chunk with
      enough room. */
  ghost predicate Roomy(v: View, p: int, nb: int) {
    var a := p - 16;
    && a in v.chunks && v.chunks[a].kind.Used? && a !in v.direct
    && (v.chunks[a].size >= nb || (a + v.chunks[a].size == v.top && v.chunks[a].size + v.topsize > nb))
  }

  /** There is a chunk in use of s bytes at a. */
  ghost predicate UsedAt(cs: Chunks, a: int, s: int) {
    a in cs && cs[a].kind.Used? && cs[a].size == s
  }

  /** The chunk in use at a has at least nb bytes, and no room for another chunk beyond them. */
  ghost predicate Snug(cs: Chunks, a: int, nb: int) {
    a in cs && cs[a].kind.Used? && nb <= cs[a].size < nb + MIN_CHUNK_SIZE
  }

  /** Chunk a is a smallest free chunk of at least nb bytes, leaving those in x aside. */
  ghost predicate SmallestFit(cs: Chunks, x: set<int>, nb: int, a: int) {
    && FreeAt(cs, a) && a !in x && cs[a].size >= nb
    && forall b | FreeAt(cs, b) && b !in x && cs[b].size >= nb :: cs[a].size <= cs[b].size
  }

  /** The bin for nb bytes or the next small one holds a chunk. */
  ghost predicate NearBin(v: View, nb: int) {
    exists b ::
      && FreeAt(v.chunks, b) && b != v.dv && v.chunks[b].size < MIN_LARGE_SIZE
      && nb <= v.chunks[b].size <= nb + 8
  }

  /** The free chunk that a request for a chunk of nb bytes takes. A large request takes the best fit of all. A small
      one takes a chunk of its bin, or of the next; if there is none, the designated victim if that suffices; otherwise
      the best fit of the binned chunks. */
  ghost predicate Chosen(v: View, nb: int, a: int) {
    if nb >= MIN_LARGE_SIZE then SmallestFit(v.chunks, {}, nb, a)
    else if NearBin(v, nb) || v.dvsize < nb then SmallestFit(v.chunks, {v.dv}, nb, a)
    else a == v.dv && FreeAt(v.chunks, a) && v.chunks[a].size >= nb
  }

  /** The full invariant between two calls. */
  ghost predicate Sound(v: View) {
    v.Laid() && v.Binned({}) && Coalesced(v.chunks)
  }

  lemma SoundLaid(v: View)
    requires Sound(v)
    ensures v.Laid() && v.Binned({}) && Coalesced(v.chunks)
  {
  }

  // ----- chains of steps -----

  lemma KeepsAll(v: View)
    ensures Keeps(v, v, {})
  {
  }

  lemma KeepsThen(u: View, v: View, w: View, x: set<int>, y: set<int>)
    requires Keeps(u, v, x) && Keeps(v, w, y)
    ensures Keeps(u, w, x + y)
  {
    hide Usable;
    forall p | p !in x + y
      ensures BlockKept(u, w, p)
    {
      assert BlockKept(u, v, p) && BlockKept(v, w, p);
    }
  }

  lemma KeepsChain(u: View, v: View, w: View)
    requires Keeps(u, v, {}) && Keeps(v, w, {})
    ensures Keeps(u, w, {})
  {
    hide Keeps;
    KeepsThen(u, v, w, {}, {});
    var none: set<int> := {};
    assert none + none == none;
  }

  lemma GrantedThen(u: View, v: View, w: View, p: int, n: int)
    requires Granted(u, v, p, n) && Keeps(v, w, {})
    ensures Granted(u, w, p, n)
  {
    hide Usable;
    KeepsThen(u, v, w, {p}, {});
    assert {p} + {} == {p};
    assert BlockKept(v, w, p);
  }

  lemma ThenGranted(u: View, v: View, w: View, p: int, n: int)
    requires Keeps(u, v, {}) && Granted(v, w, p, n)
    ensures Granted(u, w, p, n)
  {
    hide Usable;
    KeepsThen(u, v, w, {}, {p});
    assert {} + {p} == {p};
    assert BlockKept(u, v, p);
  }

  lemma GrantedLess(u: View, v: View, p: int, n: int, k: int)
    requires Granted(u, v, p, n) && k <= n
    ensures Granted(u, v, p, k)
  {
  }

  lemma GrantedPositive(u: View, v: View, p: int, n: int, k: int)
    requires Granted(u, v, p, n) && k <= n
    ensures Granted(u, v, p, k) && p > 0
  {
  }

  // ----- single steps -----

  /** Only bins or the victim changed. */
  lemma KeepsSame(v: View, w: View)
    requires w.chunks == v.chunks && w.direct == v.direct && v.Laid() && w.Laid() &&
      DataKept(v.mem, w.mem, v.chunks, v.direct, {}, v.msp)
    ensures Keeps(v, w, {})
  {
    hide View.Laid;
    KeepsStep(v, w, {}, {});
  }

  lemma DataSame(v: View)
    ensures DataKept(v.mem, v.mem, v.chunks, v.direct, {}, v.msp)
  {
  }

  lemma SameKeysKept(v: View, w: View)
    requires DataKept(v.mem, w.mem, v.chunks, v.direct, {}, v.msp)
    ensures w.mem.Keys == v.mem.Keys
  {
  }

  /** How many bytes the block in chunk a holds. */
  ghost function UsedSize(cs: Chunks, a: int): int {
    if a in cs && cs[a].kind.Used? then cs[a].size else 0
  }

  lemma KeepsStep(v: View, w: View, x: set<int>, y: set<int>)
    requires w.direct == v.direct && v.Laid() && w.Laid() && DataKept(v.mem, w.mem, v.chunks, v.direct, x, v.msp)
    requires forall a | a !in x :: UsedSize(w.chunks, a) == UsedSize(v.chunks, a)
    requires forall a | a in x :: a + 16 in y
    ensures Keeps(v, w, y)
  {
    hide View.Laid;
    forall p | p !in y
      ensures BlockKept(v, w, p)
    {
      var a := p - 16;
      assert a !in x;
      assert UsedSize(w.chunks, a) == UsedSize(v.chunks, a);
      if a in v.chunks {
        ChunkPositive(v, a);
      }
      if a in w.chunks {
        ChunkPositive(w, a);
      }
      BlockStep(v, w, x, p);
    }
  }

  lemma BlockStep(v: View, w: View, x: set<int>, p: int)
    requires w.direct == v.direct && DataKept(v.mem, w.mem, v.chunks, v.direct, x, v.msp)
    requires p - 16 !in x && UsedSize(w.chunks, p - 16) == UsedSize(v.chunks, p - 16)
    requires p - 16 in v.chunks ==> v.chunks[p - 16].size > 0
    requires p - 16 in w.chunks ==> w.chunks[p - 16].size > 0
    ensures BlockKept(v, w, p)
  {
  }

  lemma ChunkPositive(v: View, a: int)
    requires v.Laid() && a in v.chunks
    ensures v.chunks[a].size > 0 && a > 0 && a % 8 == 0
  {
    assert ChunkOK(a, v.chunks[a]);
  }

  lemma NoDirectChunk(v: View, a: int)
    requires v.Laid() && a in v.chunks
    ensures a !in v.direct
  {
    ChunkPositive(v, a);
    assert forall p | p in v.direct ::
      DirectAlone(v.chunks, v.segs, p, v.direct[p]) && DirectAt(v.mem.Keys, p, v.direct[p]);
  }

  /** Chunk x was taken; n is what its block may hold. */
  lemma TakenGranted(v: View, w: View, x: int)
    requires w.direct == v.direct && v.Laid() && w.Laid() && DataKept(v.mem, w.mem, v.chunks, v.direct, {x}, v.msp)
    requires x in v.chunks && !v.chunks[x].kind.Used? && x in w.chunks && w.chunks[x].kind.Used?
    requires forall a | a != x :: UsedSize(w.chunks, a) == UsedSize(v.chunks, a)
    ensures Granted(v, w, x + 16, w.chunks[x].size - 8)
  {
    hide View.Laid, DataKept;
    ChunkPositive(v, x);
    NoDirectChunk(v, x);
    KeepsStep(v, w, {x}, {x + 16});
  }

  /** The comparison of `tmalloc_large` with the designated victim. */
  lemma VictimFits(nb: nat, s: int, dvsize: int)
    requires 0 < nb < WORD && nb <= s < ADDRESS_LIMIT && 0 <= dvsize < ADDRESS_LIMIT
    ensures s - nb < Wrap(dvsize - nb) <==> !(nb <= dvsize <= s)
  {
    if dvsize < nb {
      assert Wrap(dvsize - nb) == dvsize - nb + WORD;
    }
  }

  lemma VictimSize(v: View, loose: set<int>)
    requires v.Laid() && v.Binned(loose)
    ensures 0 <= v.dvsize < ADDRESS_LIMIT
  {
    if v.dv != 0 {
      assert FreeAt(v.chunks, v.dv);
      assert ChunkOK(v.dv, v.chunks[v.dv]);
    }
  }

  // ----- when no free chunk fits -----

  /** Some free chunk has nb bytes. */
  ghost predicate FreeFits(v: View, nb: int) {
    exists a :: FreeAt(v.chunks, a) && v.chunks[a].size >= nb
  }

  /** A binned chunk sits in a marked bin. */
  lemma BinnedMarked(v: View, a: int)
    requires v.Laid() && v.Binned({}) && FreeAt(v.chunks, a) && a != v.dv
    ensures v.chunks[a].size < MIN_LARGE_SIZE ==>
      v.chunks[a].size % 8 == 0 && Marked(v.bins.smallmap, v.chunks[a].size / 8)
    ensures v.chunks[a].size >= MIN_LARGE_SIZE ==> InTrees(v, a) && v.bins.treemap != 0
  {
    hide Tagged, TopIs, StateAt, SegsOK, DirectOK, SmallHold, TreesHold, VictimOK, TreeOK, Index, Linked, Preceded;
    hide Apart;
    assert IsBinned(v.chunks, v.bins, a);
    assert ChunkOK(a, v.chunks[a]);
    if v.chunks[a].size >= MIN_LARGE_SIZE {
      var i := Index(v.chunks[a].size);
      assert Has(v.bins.trees[i], a) && Marked(v.bins.treemap, i);
      ZeroHasNone(i);
    }
  }

  /** Chunk a is in small bin i. */
  ghost predicate InSmall(v: View, i: nat, a: int) {
    && Marked(v.bins.smallmap, i) && FreeAt(v.chunks, a) && a != v.dv && v.chunks[a].size == 8 * i && i < 32
  }

  lemma FirstInSmall(v: View, i: nat)
    requires v.Laid() && v.Binned({}) && Marked(v.bins.smallmap, i)
    ensures i < |v.bins.small| && v.bins.small[i] != [] && InSmall(v, i, v.bins.small[i][0])
  {
    hide View.Laid, TreesOK, TreesHold, AllBinned, VictimOK, Marked;
    var a := v.bins.small[i][0];
    assert a in v.bins.small[i];
    assert FreeAt(v.chunks, a) && a != v.dv && v.chunks[a].size == 8 * i;
  }

  /** The first small bin that is not empty, from the size asked for on, has the best fit. */
  lemma SmallChosen(v: View, nb: nat, i: nat, c: int)
    requires v.Laid() && v.Binned({}) && nb % 8 == 0 && nb < MIN_LARGE_SIZE && InSmall(v, i, c) && nb / 8 <= i
    requires (forall j: nat | nb / 8 <= j < i :: !Marked(v.bins.smallmap, j)) && (i <= nb / 8 + 1 || v.dvsize < nb)
    ensures Chosen(v, nb, c)
  {
    hide View.Laid, View.Binned, Marked, InTrees;
    assert i <= nb / 8 + 1 ==> nb <= v.chunks[c].size <= nb + 8;
    forall b | FreeAt(v.chunks, b) && b != v.dv && v.chunks[b].size >= nb
      ensures v.chunks[c].size <= v.chunks[b].size
    {
      BinnedMarked(v, b);
    }
  }

  /** With no small chunk large enough, the smallest of the tree bins is the best fit. */
  lemma TreeChosen(v: View, nb: nat, c: int)
    requires v.Laid() && v.Binned({}) && nb % 8 == 0 && nb < MIN_LARGE_SIZE && Smallest(v, c)
    requires ShiftRight(v.bins.smallmap, nb / 8) == 0 && v.dvsize < nb
    ensures Chosen(v, nb, c)
  {
    hide View.Laid, View.Binned, Marked, InTrees;
    InTreesChunk(v, {}, c);
    forall b | FreeAt(v.chunks, b) && b != v.dv && v.chunks[b].size >= nb
      ensures v.chunks[c].size <= v.chunks[b].size
    {
      BinnedMarked(v, b);
      var i := v.chunks[b].size / 8;
      if v.chunks[b].size < MIN_LARGE_SIZE {
        ShiftRightMoves(v.bins.smallmap, nb / 8, i - nb / 8);
        ZeroHasNone(i - nb / 8);
      }
    }
  }

  lemma VictimChosen(v: View, nb: nat)
    requires v.Laid() && v.Binned({}) && 0 < nb <= v.dvsize && nb < MIN_LARGE_SIZE && nb % 8 == 0
    requires !Marked(v.bins.smallmap, nb / 8) && !Marked(v.bins.smallmap, nb / 8 + 1)
    ensures Chosen(v, nb, v.dv)
  {
    hide View.Laid, View.Binned, Marked, InTrees;
    VictimGone(v, {});
    forall b | FreeAt(v.chunks, b) && b != v.dv && v.chunks[b].size < MIN_LARGE_SIZE
      ensures !(nb <= v.chunks[b].size <= nb + 8)
    {
      BinnedMarked(v, b);
    }
  }

  lemma LargeChosen(v: View, nb: nat, c: int)
    requires v.Laid() && v.Binned({}) && nb >= MIN_LARGE_SIZE && BestFor(v, nb, c) && c != 0
    requires !(nb <= v.dvsize <= v.chunks[c].size)
    ensures Chosen(v, nb, c)
  {
    hide View.Laid, View.Binned, InTrees;
    InTreesChunk(v, {}, c);
    forall b | FreeAt(v.chunks, b) && v.chunks[b].size >= nb
      ensures v.chunks[c].size <= v.chunks[b].size
    {
      if b == v.dv {
        VictimGone(v, {});
        NoChunkAtZero(v);
      } else {
        BinnedMarked(v, b);
      }
    }
  }

  lemma LargeVictimChosen(v: View, nb: nat, c: int)
    requires v.Laid() && v.Binned({}) && nb >= MIN_LARGE_SIZE && BestFor(v, nb, c)
    requires c != 0 ==> v.dvsize <= v.chunks[c].size
    ensures nb <= v.dvsize ==> Chosen(v, nb, v.dv)
  {
    hide View.Laid, View.Binned, InTrees;
    VictimGone(v, {});
    forall b | FreeAt(v.chunks, b) && v.chunks[b].size >= nb && nb <= v.dvsize
      ensures v.dvsize <= v.chunks[b].size
    {
      if b != v.dv {
        BinnedMarked(v, b);
      }
    }
  }

  lemma LargeVictimOnly(v: View, nb: nat)
    requires v.Laid() && v.Binned({}) && MIN_LARGE_SIZE <= nb <= v.dvsize && v.bins.treemap == 0
    ensures Chosen(v, nb, v.dv)
  {
    hide View.Laid, View.Binned, InTrees;
    VictimGone(v, {});
    forall b | FreeAt(v.chunks, b) && v.chunks[b].size >= nb
      ensures b == v.dv
    {
      if b != v.dv {
        BinnedMarked(v, b);
      }
    }
  }

  lemma SmallNoFit(v: View, nb: nat)
    requires v.Laid() && v.Binned({}) && nb % 8 == 0 && v.dvsize < nb && v.bins.treemap == 0 &&
      ShiftRight(v.bins.smallmap, nb / 8) == 0
    ensures !FreeFits(v, nb)
  {
    hide View.Laid, View.Binned, InTrees;
    forall a | FreeAt(v.chunks, a)
      ensures v.chunks[a].size < nb
    {
      if a == v.dv {
        VictimGone(v, {});
        NoChunkAtZero(v);
      } else {
        BinnedMarked(v, a);
        var i := v.chunks[a].size / 8;
        if v.chunks[a].size >= nb {
          ShiftRightMoves(v.bins.smallmap, nb / 8, i - nb / 8);
          ZeroHasNone(i - nb / 8);
        }
      }
    }
  }

  lemma LargeNoFit(v: View, nb: nat)
    requires v.Laid() && v.Binned({}) && nb >= MIN_LARGE_SIZE && v.dvsize < nb &&
      (v.bins.treemap == 0 || BestFor(v, nb, 0))
    ensures !FreeFits(v, nb)
  {
    hide View.Laid, View.Binned, InTrees;
    forall a | FreeAt(v.chunks, a)
      ensures v.chunks[a].size < nb
    {
      if a == v.dv {
        VictimGone(v, {});
        NoChunkAtZero(v);
      } else {
        BinnedMarked(v, a);
      }
    }
  }

  lemma SplitOrder(m: Mem, x: int, nb: int, rsize: int)
    requires 0 < nb && 8 < rsize
    ensures m[x + nb + HEAD := rsize + 1][x + nb + rsize := rsize][x + HEAD := nb + 3] == SplitMem(m, x, nb, rsize)
  {
  }

  lemma TopKind(v: View)
    requires v.Laid()
    ensures v.top in v.chunks && v.chunks[v.top].kind.Top? && v.chunks[v.top].size == v.topsize
  {
  }

  /** The designated victim without its first nb bytes. */
  lemma VictimSplit(v: View, nb: int, n: Mem, w: View)
    requires Sound(v) && nb % 8 == 0 && MIN_CHUNK_SIZE <= nb && v.dvsize - nb >= MIN_CHUNK_SIZE
    requires v.dv in v.chunks && n == SplitMem(v.mem, v.dv, nb, v.dvsize - nb)
    requires w == v.(mem := n, chunks := Split(v.chunks, v.dv, nb, Free), dv := v.dv + nb, dvsize := v.dvsize - nb)
    ensures Sound(w) && Granted(v, w, v.dv + 16, nb - 8)
  {
    hide View.Laid, View.Binned, DataKept, Coalesced, Granted;
    var c, r := v.dv, v.dv + nb;
    VictimGone(v, {});
    VictimLoose(v, {});
    assert {} + {c} == {c};
    var u := v.(dv := 0, dvsize := 0);
    SplitReady(u, c, nb);
    var z := w.(dv := 0, dvsize := 0);
    SplitDone(u, {c}, c, nb, n, z);
    assert {c} - {c} + {r} == {r};
    VictimSet(z, {r}, r, v.dvsize - nb, w);
    assert {r} - {r} == {};
    SplitTaken(v.chunks, c, nb);
    TakenGranted(v, w, c);
  }

  lemma SplitTaken(cs: Chunks, x: int, nb: int)
    requires FreeAt(cs, x) && x + nb !in cs && nb > 0
    ensures forall a | a != x :: UsedSize(Split(cs, x, nb, Free), a) == UsedSize(cs, a)
  {
  }

  lemma WholeUsed(v: View, x: int)
    requires v.Laid() && FreeAt(v.chunks, x)
    ensures Nxt(v.chunks, x) in v.chunks && UsedAt(UseWhole(v.chunks, x), x, v.chunks[x].size)
  {
    hide View.Laid;
    WholeReady(v, x);
    SizePositive(v, x);
  }

  lemma SplitUsed(cs: Chunks, x: int, nb: int, rest: Kind)
    requires x in cs && nb > 0
    ensures UsedAt(Split(cs, x, nb, rest), x, nb)
  {
  }
}
