/** The chunks that tile the heap's segments, and their boundary tags in memory. */
module Layout {
  import opened Memory

  /** State is the chunk that holds `malloc_state`; Rec ends a segment and holds its record and fenceposts; Foot is the
      fake chunk of TOP_FOOT_SIZE bytes behind the top chunk. */
  datatype Kind = Used | State | Free | Top | Foot | Rec

  /** pin says that the chunk before this one is in use, or that there is none. */
  datatype Chunk = Chunk(size: int, kind: Kind, pin: bool)

  type Chunks = map<int, Chunk>

  const MIN_CHUNK_SIZE := 32
  const TOP_FOOT_SIZE := 64

  /** In 64 bit mode all heap memory is mapped in the low 2 GB. */
  const ADDRESS_LIMIT := 0x8000_0000

  predicate InUse(k: Kind) {
    k.Used? || k.State? || k.Rec?
  }

  predicate Ends(k: Kind) {
    k.Foot? || k.Rec?
  }

  /** The head word of a chunk; a record chunk claims 32 bytes, the fenceposts behind it are never looked at. */
  function HeadWord(c: Chunk): int {
    (if c.kind.Rec? then 32 else c.size) + (if InUse(c.kind) then 2 else 0) + (if c.pin then 1 else 0)
  }

  lemma HeadBits(c: Chunk)
    requires c.size % 8 == 0
    ensures CInUse(HeadWord(c)) == InUse(c.kind) && PInUse(HeadWord(c)) == c.pin
    ensures !c.kind.Rec? ==> ChunkSize(HeadWord(c)) == c.size
    ensures ClearPin(HeadWord(c)) == HeadWord(c.(pin := false)) && SetPin(HeadWord(c)) == HeadWord(c.(pin := true))
  {
  }

  /** The address right behind a chunk. */
  function Nxt(cs: Chunks, a: int): int {
    if a in cs then a + cs[a].size else a
  }

  predicate ChunkOK(a: int, c: Chunk) {
    && 0 < a && a % 8 == 0 && c.size % 8 == 0 && c.size >= 8 && a + c.size <= ADDRESS_LIMIT
    && (c.kind.Used? || c.kind.State? || c.kind.Free? ==> c.size >= MIN_CHUNK_SIZE)
    && (Ends(c.kind) ==> c.size >= TOP_FOOT_SIZE)
  }

  ghost predicate SizesOK(cs: Chunks) {
    forall a | a in cs :: ChunkOK(a, cs[a])
  }

  ghost predicate Apart(cs: Chunks) {
    forall a, b | a in cs && b in cs && a < b :: a + cs[a].size <= b
  }

  /** Every chunk that does not end its segment has a successor, which mirrors in pin whether it is in use. */
  ghost predicate Linked(cs: Chunks) {
    forall a {:trigger Nxt(cs, a)} | a in cs && !Ends(cs[a].kind) ::
      Nxt(cs, a) in cs && cs[Nxt(cs, a)].pin == InUse(cs[a].kind)
  }

  /** A chunk with a clear pin bit has a predecessor. */
  ghost predicate Preceded(cs: Chunks) {
    forall a | a in cs && !cs[a].pin :: exists b :: b in cs && !Ends(cs[b].kind) && Nxt(cs, b) == a
  }

  ghost predicate Tiled(cs: Chunks) {
    SizesOK(cs) && Apart(cs) && Linked(cs) && Preceded(cs)
  }

  /** No two free chunks touch, and none touches the top chunk. */
  ghost predicate Coalesced(cs: Chunks) {
    && (forall a {:trigger Nxt(cs, a)} | a in cs && cs[a].kind.Free? :: Nxt(cs, a) in cs && InUse(cs[Nxt(cs, a)].kind))
    && (forall a | a in cs && (cs[a].kind.Free? || cs[a].kind.Top?) :: cs[a].pin)
  }

  /** Boundary tags: every head word, and the foot of every free chunk. */
  ghost predicate Tagged(m: Mem, cs: Chunks) {
    && (forall a | a in cs :: Head(m, a) == HeadWord(cs[a]))
    && (forall a {:trigger Nxt(cs, a)} | a in cs && cs[a].kind.Free? :: PrevFoot(m, Nxt(cs, a)) == cs[a].size)
  }

  ghost predicate TopIs(cs: Chunks, top: int, topsize: int) {
    && top in cs && cs[top].kind.Top? && cs[top].size == topsize
    && top + topsize in cs && cs[top + topsize] == Chunk(TOP_FOOT_SIZE, Foot, false)
    && (forall a | a in cs && cs[a].kind.Top? :: a == top)
    && (forall a | a in cs && cs[a].kind.Foot? :: a == top + topsize)
  }

  // ----- single steps on the tiling -----

  /** Take a free chunk whole. */
  function UseWhole(cs: Chunks, v: int): Chunks
    requires v in cs && Nxt(cs, v) in cs
  {
    var n := Nxt(cs, v);
    cs[v := cs[v].(kind := Used)][n := cs[n].(pin := true)]
  }

  /** Take the first nb bytes of a chunk; the remainder is of the given kind. */
  function Split(cs: Chunks, v: int, nb: int, rest: Kind): Chunks
    requires v in cs
  {
    cs[v := Chunk(nb, Used, cs[v].pin)][v + nb := Chunk(cs[v].size - nb, rest, true)]
  }

  /** Turn a chunk in use into a free one. */
  function Release(cs: Chunks, p: int): Chunks
    requires p in cs && Nxt(cs, p) in cs
  {
    var n := Nxt(cs, p);
    cs[p := cs[p].(kind := Free)][n := cs[n].(pin := false)]
  }

  /** Join a chunk with its successor, which gives the kind. */
  function Join(cs: Chunks, a: int): Chunks
    requires a in cs && Nxt(cs, a) in cs
  {
    var b := Nxt(cs, a);
    (cs - {b})[a := Chunk(cs[a].size + cs[b].size, cs[b].kind, cs[a].pin)]
  }

  /** Chunks are not empty and do not overlap. */
  ghost predicate Solid(cs: Chunks) {
    Apart(cs) && forall a | a in cs :: cs[a].size > 0
  }

  lemma TiledSolid(cs: Chunks)
    requires Tiled(cs)
    ensures Solid(cs)
  {
    forall a | a in cs
      ensures cs[a].size > 0
    {
      assert ChunkOK(a, cs[a]);
    }
  }

  /** Only one chunk ends where another begins. */
  lemma OnePrevious(cs: Chunks, a: int, b: int)
    requires Solid(cs) && a in cs && b in cs && Nxt(cs, a) == Nxt(cs, b)
    ensures a == b
  {
  }

  // ----- changing tags without moving borders -----

  /** The same chunks with other kinds, where v changed whether it is in use. */
  ghost predicate Recoloured(cs: Chunks, ds: Chunks, v: int) {
    && v in cs && !Ends(cs[v].kind) && Nxt(cs, v) in cs && Nxt(cs, v) != v
    && ds.Keys == cs.Keys
    && (forall a | a in cs && a != v :: ds[a].size == cs[a].size && ds[a].kind == cs[a].kind)
    && (forall a | a in cs && a != Nxt(cs, v) :: ds[a].pin == cs[a].pin)
    && ds[v].size == cs[v].size && !Ends(ds[v].kind)
    && ds[Nxt(cs, v)].pin == InUse(ds[v].kind)
  }

  lemma RecolouredTiled(cs: Chunks, ds: Chunks, v: int)
    requires Solid(cs) && Linked(cs) && Preceded(cs) && Recoloured(cs, ds, v)
    ensures Apart(ds) && Linked(ds) && Preceded(ds)
  {
    forall a | a in cs
      ensures Nxt(ds, a) == Nxt(cs, a) && Ends(ds[a].kind) == Ends(cs[a].kind)
    {
    }
    forall a {:trigger Nxt(ds, a)} | a in ds && !Ends(ds[a].kind)
      ensures Nxt(ds, a) in ds && ds[Nxt(ds, a)].pin == InUse(ds[a].kind)
    {
      if a != v && Nxt(cs, a) == Nxt(cs, v) {
        OnePrevious(cs, a, v);
      }
    }
    forall a | a in ds && !ds[a].pin
      ensures exists b :: b in ds && !Ends(ds[b].kind) && Nxt(ds, b) == a
    {
      if a == Nxt(cs, v) {
        assert Nxt(ds, v) == a;
      } else {
        var b :| b in cs && !Ends(cs[b].kind) && Nxt(cs, b) == a;
        assert Nxt(ds, b) == a;
      }
    }
  }

  lemma UseWholeTiled(cs: Chunks, v: int)
    requires Tiled(cs) && v in cs && cs[v].kind.Free? && Nxt(cs, v) in cs
    ensures Tiled(UseWhole(cs, v))
  {
    hide SizesOK, Linked, Preceded, Apart;
    TiledSolid(cs);
    RecolouredTiled(cs, UseWhole(cs, v), v);
    SameSizes(cs, UseWhole(cs, v), v);
  }

  lemma ReleaseTiled(cs: Chunks, p: int)
    requires Tiled(cs) && p in cs && cs[p].kind.Used? && Nxt(cs, p) in cs
    ensures Tiled(Release(cs, p))
  {
    hide SizesOK, Linked, Preceded, Apart;
    TiledSolid(cs);
    RecolouredTiled(cs, Release(cs, p), p);
    SameSizes(cs, Release(cs, p), p);
  }

  lemma SameSizes(cs: Chunks, ds: Chunks, v: int)
    requires SizesOK(cs) && ds.Keys == cs.Keys && v in cs && (ds[v].kind.Used? || ds[v].kind.Free?)
    requires cs[v].kind.Used? || cs[v].kind.Free?
    requires forall a | a in cs :: ds[a].size == cs[a].size && (a != v ==> ds[a].kind == cs[a].kind)
    ensures SizesOK(ds)
  {
    forall a | a in ds
      ensures ChunkOK(a, ds[a])
    {
      assert ChunkOK(a, cs[a]);
    }
  }

  // ----- splitting -----

  /** A chunk that may be split at nb, leaving a remainder of the given kind. */
  ghost predicate Splits(cs: Chunks, v: int, nb: int, rest: Kind) {
    && v in cs && !Ends(cs[v].kind)
    && nb % 8 == 0 && MIN_CHUNK_SIZE <= nb < cs[v].size && InUse(rest) == InUse(cs[v].kind) && !Ends(rest)
    && (rest.Top? || cs[v].size - nb >= MIN_CHUNK_SIZE)
  }

  lemma SplitFresh(cs: Chunks, v: int, nb: int, rest: Kind)
    requires Solid(cs) && Splits(cs, v, nb, rest)
    ensures v + nb !in cs
  {
  }

  lemma SplitSizes(cs: Chunks, v: int, nb: int, rest: Kind)
    requires SizesOK(cs) && Splits(cs, v, nb, rest)
    ensures SizesOK(Split(cs, v, nb, rest))
  {
    var ds := Split(cs, v, nb, rest);
    assert ChunkOK(v, cs[v]);
    forall a | a in ds
      ensures ChunkOK(a, ds[a])
    {
      if a != v && a != v + nb {
        assert ChunkOK(a, cs[a]);
      }
    }
  }

  lemma SplitApart(cs: Chunks, v: int, nb: int, rest: Kind)
    requires Solid(cs) && Splits(cs, v, nb, rest) && v + nb !in cs
    ensures Apart(Split(cs, v, nb, rest))
  {
    var r := v + nb;
    var ds := Split(cs, v, nb, rest);
    forall a, b | a in ds && b in ds && a < b
      ensures a + ds[a].size <= b
    {
      if a == r && b != v {
        assert v < b ==> v + cs[v].size <= b;
      } else if b == r && a != v {
        assert a < v ==> a + cs[a].size <= v;
      }
    }
  }

  lemma SplitLinked(cs: Chunks, v: int, nb: int, rest: Kind)
    requires Solid(cs) && Linked(cs) && Splits(cs, v, nb, rest) && v + nb !in cs
    ensures Linked(Split(cs, v, nb, rest))
  {
    hide Apart;
    var ds := Split(cs, v, nb, rest);
    var r := v + nb;
    assert Nxt(ds, v) == r && Nxt(ds, r) == Nxt(cs, v);
    forall a {:trigger Nxt(ds, a)} | a in ds && !Ends(ds[a].kind)
      ensures Nxt(ds, a) in ds && ds[Nxt(ds, a)].pin == InUse(ds[a].kind)
    {
      if a != v && a != r {
        assert Nxt(ds, a) == Nxt(cs, a);
      }
    }
  }

  lemma SplitPreceded(cs: Chunks, v: int, nb: int, rest: Kind)
    requires Preceded(cs) && Splits(cs, v, nb, rest) && v + nb !in cs
    ensures Preceded(Split(cs, v, nb, rest))
  {
    var ds := Split(cs, v, nb, rest);
    var r := v + nb;
    assert Nxt(ds, v) == r && Nxt(ds, r) == Nxt(cs, v);
    forall a | a in ds && !ds[a].pin
      ensures exists b :: b in ds && !Ends(ds[b].kind) && Nxt(ds, b) == a
    {
      var b :| b in cs && !Ends(cs[b].kind) && Nxt(cs, b) == a;
      if b == v {
        assert r in ds && !Ends(ds[r].kind) && Nxt(ds, r) == a;
      } else {
        assert b in ds && ds[b] == cs[b] && Nxt(ds, b) == a;
      }
    }
  }

  lemma SplitTiled(cs: Chunks, v: int, nb: int, rest: Kind)
    requires Tiled(cs) && Splits(cs, v, nb, rest)
    ensures Tiled(Split(cs, v, nb, rest))
    ensures v + nb !in cs
  {
    TiledSolid(cs);
    SplitFresh(cs, v, nb, rest);
    SplitSizes(cs, v, nb, rest);
    SplitApart(cs, v, nb, rest);
    SplitLinked(cs, v, nb, rest);
    SplitPreceded(cs, v, nb, rest);
  }

  // ----- joining -----

  /** A free chunk whose successor is free or the top chunk. */
  ghost predicate Joins(cs: Chunks, a: int) {
    && a in cs && cs[a].kind.Free? && Nxt(cs, a) in cs && Nxt(cs, a) != a
    && var k := cs[Nxt(cs, a)].kind; k.Free? || k.Top?
  }

  lemma JoinSizes(cs: Chunks, a: int)
    requires SizesOK(cs) && Joins(cs, a)
    ensures SizesOK(Join(cs, a))
  {
    var b := Nxt(cs, a);
    var ds := Join(cs, a);
    assert ChunkOK(a, cs[a]) && ChunkOK(b, cs[b]);
    forall x | x in ds
      ensures ChunkOK(x, ds[x])
    {
      if x != a {
        assert ChunkOK(x, cs[x]);
      }
    }
  }

  lemma JoinApart(cs: Chunks, a: int)
    requires Solid(cs) && Joins(cs, a)
    ensures Apart(Join(cs, a))
  {
    var b := Nxt(cs, a);
    var ds := Join(cs, a);
    forall x, y | x in ds && y in ds && x < y
      ensures x + ds[x].size <= y
    {
      if x == a {
        assert a + cs[a].size <= y;
        assert b < y;
      }
    }
  }

  lemma JoinLinked(cs: Chunks, a: int)
    requires Solid(cs) && Linked(cs) && Joins(cs, a)
    ensures Linked(Join(cs, a))
  {
    var b := Nxt(cs, a);
    var ds := Join(cs, a);
    assert Nxt(ds, a) == Nxt(cs, b);
    forall x {:trigger Nxt(ds, x)} | x in ds && !Ends(ds[x].kind)
      ensures Nxt(ds, x) in ds && ds[Nxt(ds, x)].pin == InUse(ds[x].kind)
    {
      if x != a {
        assert Nxt(ds, x) == Nxt(cs, x);
        if Nxt(cs, x) == b {
          OnePrevious(cs, x, a);
        }
      }
    }
  }

  lemma JoinPreceded(cs: Chunks, a: int)
    requires Solid(cs) && Preceded(cs) && Joins(cs, a)
    ensures Preceded(Join(cs, a))
  {
    hide Apart;
    var b := Nxt(cs, a);
    var ds := Join(cs, a);
    assert Nxt(ds, a) == Nxt(cs, b);
    forall x | x in ds && !ds[x].pin
      ensures exists y :: y in ds && !Ends(ds[y].kind) && Nxt(ds, y) == x
    {
      var y :| y in cs && !Ends(cs[y].kind) && Nxt(cs, y) == x;
      if y == b {
        assert a in ds && !Ends(ds[a].kind) && Nxt(ds, a) == x;
      } else {
        assert y in ds && Nxt(ds, y) == x;
      }
    }
  }

  lemma JoinTiled(cs: Chunks, a: int)
    requires Tiled(cs) && Joins(cs, a)
    ensures Tiled(Join(cs, a))
  {
    TiledSolid(cs);
    JoinSizes(cs, a);
    JoinApart(cs, a);
    JoinLinked(cs, a);
    JoinPreceded(cs, a);
  }
}
