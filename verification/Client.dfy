/** Any run of requests against the allocator behaves as one against a map from live blocks to their contents. */
module Client {
  import opened Memory
  import opened BinSteps
  import opened BestFit
  import opened Blocks
  import opened Bytes
  import opened UserSteps
  import opened Segments
  import opened SegSteps
  import opened Heap

  /** What a program asks for: the three uses of `lj_alloc_f`, and a store into a block of its own. */
  datatype Request = Get(n: nat) | Drop(p: int) | Resize(p: int, n: nat) | Store(p: int, i: nat, b: int)

  type Contents = map<int, seq<int>>

  predicate Legal(live: Contents, r: Request) {
    match r
    case Get(n) => 0 < n < WORD
    case Drop(p) => p in live
    case Resize(p, n) => p in live && 0 < n < WORD
    case Store(p, i, b) => p in live && i < |live[p]| && 0 <= b < 256
  }

  /** What a legal request does to the map; denied says that the system refused memory meanwhile. */
  ghost predicate Served(live: Contents, r: Request, live': Contents, denied: bool)
    requires Legal(live, r)
  {
    match r
    case Get(n) => Got(live, n, live') || (live' == live && (denied || Overflows(n)))
    case Drop(p) => live' == live - {p}
    case Resize(p, n) => Resized(live, p, n, live') || (live' == live && (denied || Overflows(n)))
    case Store(p, i, b) => live' == live[p := live[p][i := b]]
  }

  /** There is one more block, of n bytes. */
  ghost predicate Got(live: Contents, n: nat, live': Contents) {
    exists q :: q !in live && q in live' && |live'[q]| == n && live' == live[q := live'[q]]
  }

  /** The block at p has n bytes now, here or elsewhere, and kept its contents as far as they fit. */
  ghost predicate Resized(live: Contents, p: int, n: nat, live': Contents) {
    exists q :: (q == p || q !in live) && MovedTo(live, p, n, live', q)
  }

  ghost predicate MovedTo(live: Contents, p: int, n: nat, live': Contents, q: int) {
    && p in live && q in live' && |live'[q]| == n && live' == (live - {p})[q := live'[q]]
    && forall i | 0 <= i < n && i < |live[p]| :: live'[q][i] == live[p][i]
  }

  /** The heap holds exactly the blocks of the map, with these contents. */
  ghost predicate Mirrors(v: View, live: Contents) {
    && (forall p :: p in live <==> Usable(v, p) > 0)
    && forall p | p in live :: Holds(v, p, live[p])
  }

  ghost predicate Holds(v: View, p: int, s: seq<int>) {
    p % 8 == 0 && 0 < |s| <= Usable(v, p) && forall i | 0 <= i < |s| :: ByteAt(v.mem, p, i) == s[i]
  }

  /** The n bytes at p. */
  function BytesOf(m: Mem, p: int, n: nat): (s: seq<int>)
    ensures |s| == n && forall i | 0 <= i < n :: s[i] == ByteAt(m, p, i)
  {
    seq(n, i => ByteAt(m, p, i))
  }

  lemma HoldsStill(v: View, w: View, p: int, s: seq<int>)
    requires Holds(v, p, s) && BlockKept(v, w, p)
    ensures Holds(w, p, s)
  {
    hide Usable, Byte;
    WordsToBytes(v.mem, w.mem, p, |s|);
    forall i | 0 <= i < |s|
      ensures ByteAt(w.mem, p, i) == s[i]
    {
      assert ByteAt(w.mem, p, i) == ByteAt(v.mem, p, i);
    }
  }

  lemma MirrorsAfter(v: View, w: View, live: Contents, live': Contents, x: set<int>)
    requires Mirrors(v, live) && Keeps(v, w, x)
    requires forall p | p !in x :: (p in live' <==> p in live) && (p in live ==> live'[p] == live[p])
    requires forall p | p in x :: (p in live' <==> Usable(w, p) > 0) && (p in live' ==> Holds(w, p, live'[p]))
    ensures Mirrors(w, live')
  {
    hide Usable, Holds, BlockKept;
    forall p
      ensures p in live' <==> Usable(w, p) > 0
      ensures p in live' ==> Holds(w, p, live'[p])
    {
      if p !in x {
        assert BlockKept(v, w, p);
        SameUsable(v, w, p);
        if p in live {
          HoldsStill(v, w, p, live[p]);
        }
      }
    }
  }

  lemma SameUsable(v: View, w: View, p: int)
    requires BlockKept(v, w, p)
    ensures Usable(w, p) == Usable(v, p)
  {
  }

  lemma GetMirrors(v: View, w: View, live: Contents, q: int, n: nat)
    requires Mirrors(v, live) && Granted(v, w, q, n) && n > 0
    ensures q !in live && Mirrors(w, live[q := BytesOf(w.mem, q, n)])
  {
    hide Usable;
    MirrorsAfter(v, w, live, live[q := BytesOf(w.mem, q, n)], {q});
  }

  lemma DropMirrors(v: View, w: View, live: Contents, p: int)
    requires Mirrors(v, live) && Keeps(v, w, {p}) && Usable(w, p) == 0
    ensures Mirrors(w, live - {p})
  {
    hide Usable;
    MirrorsAfter(v, w, live, live - {p}, {p});
  }

  lemma ResizeMirrors(v: View, w: View, live: Contents, p: int, q: int, n: nat)
    requires Mirrors(v, live) && p in live && Reallocated(v, w, p, q, n) && n > 0
    ensures var s := BytesOf(w.mem, q, n);
      && (q == p || q !in live) && Mirrors(w, (live - {p})[q := s])
      && forall i | 0 <= i < n && i < |live[p]| :: s[i] == live[p][i]
  {
    hide Usable, Byte;
    var s := BytesOf(w.mem, q, n);
    assert Holds(v, p, live[p]);
    forall i | 0 <= i < n && i < |live[p]|
      ensures s[i] == live[p][i]
    {
      assert ByteAt(w.mem, q, i) == ByteAt(v.mem, p, i);
    }
    MirrorsAfter(v, w, live, (live - {p})[q := s], {p, q});
  }

  lemma StoreMirrors(v: View, w: View, live: Contents, p: int, i: nat, b: int)
    requires Mirrors(v, live) && p in live && i < |live[p]| && 0 <= b < 256 && Keeps(v, w, {p})
    requires w == v.(mem := SetByte(v.mem, p + i, b))
    ensures Mirrors(w, live[p := live[p][i := b]])
  {
    hide Byte, SetByte;
    SetByteReads(v.mem, p + i, b);
    assert Holds(v, p, live[p]);
    var s := live[p][i := b];
    forall j | 0 <= j < |s|
      ensures ByteAt(w.mem, p, j) == s[j]
    {
      if j != i {
        assert ByteAt(w.mem, p, j) == ByteAt(v.mem, p, j);
      }
    }
    MirrorsAfter(v, w, live, live[p := s], {p});
  }

  /** A program's store of one byte into the block at p. */
  method StoreByte(s: MState, p: int, i: nat, b: int)
    requires Sound(s.Now()) && i < Usable(s.Now(), p) && 0 <= b < 256
    modifies s`mem
    ensures Sound(s.Now()) && Keeps(old(s.Now()), s.Now(), {p}) &&
      s.Now() == old(s.Now()).(mem := SetByte(old(s.mem), p + i, b))
  {
    hide View.Laid, View.Binned, Sound, Usable, Keeps, SetByte;
    ghost var v := s.Now();
    BlockWords(v, p);
    NoStores(v, p);
    SetByteStores(v, s.mem, p, i, b);
    s.mem := SetByte(s.mem, p + i, b);
    UserStores(v, s.mem, p);
  }

  lemma NoStores(v: View, p: int)
    ensures BlockStores(v, v.mem, p)
  {
  }

  /** One request. */
  method Serve(s: MState, live: Contents, r: Request) returns (live': Contents)
    requires Sound(s.Now()) && Mirrors(s.Now(), live) && Legal(live, r)
    modifies s
    ensures Sound(s.Now()) && Mirrors(s.Now(), live') && Served(live, r, live', s.denied > old(s.denied)) &&
      s.denied >= old(s.denied)
    ensures r.Get? && (FreeFits(old(s.Now()), ChunkRequest(r.n)) || ChunkRequest(r.n) < old(s.topsize)) ==>
      Got(live, r.n, live')
    ensures r.Resize? && r.n < MAX_REQUEST && Roomy(old(s.Now()), r.p, ChunkRequest(r.n)) ==>
      MovedTo(live, r.p, r.n, live', r.p)
  {
    hide View.Laid, View.Binned, Sound, Usable, Keeps, Holds, Reallocated, Granted, SetByte, ChunkRequest, Roomy;
    hide FreeFits;
    ghost var v := s.Now();
    live' := live;
    match r
    case Get(n) =>
      var q := s.AllocF(0, 0, n);
      if q != 0 {
        GetMirrors(v, s.Now(), live, q, n);
        live' := live[q := BytesOf(s.mem, q, n)];
        GotIt(live, n, live', q);
      }
    case Drop(p) =>
      LiveNotNull(v, live, p);
      var q := s.AllocF(p, |live[p]|, 0);
      DropMirrors(v, s.Now(), live, p);
      live' := live - {p};
    case Resize(p, n) =>
      LiveNotNull(v, live, p);
      var q := s.AllocF(p, |live[p]|, n);
      if q != 0 {
        ResizeMirrors(v, s.Now(), live, p, q, n);
        live' := (live - {p})[q := BytesOf(s.mem, q, n)];
        assert MovedTo(live, p, n, live', q);
      }
    case Store(p, i, b) =>
      LiveRoom(v, live, p);
      StoreByte(s, p, i, b);
      StoreMirrors(v, s.Now(), live, p, i, b);
      live' := live[p := live[p][i := b]];
  }

  lemma GotIt(live: Contents, n: nat, live': Contents, q: int)
    requires q !in live && q in live' && |live'[q]| == n && live' == live[q := live'[q]]
    ensures Got(live, n, live')
  {
  }

  lemma LiveNotNull(v: View, live: Contents, p: int)
    requires Sound(v) && Mirrors(v, live) && p in live
    ensures p != 0 && Usable(v, p) > 0
  {
    hide View.Laid, View.Binned, Usable;
    BlockAbove(v, p);
  }

  lemma LiveRoom(v: View, live: Contents, p: int)
    requires Mirrors(v, live) && p in live
    ensures |live[p]| <= Usable(v, p)
  {
    assert Holds(v, p, live[p]);
  }

  /** Blocks of the map do not overlap. */
  ghost predicate Disjoint(live: Contents) {
    forall p, q | p in live && q in live && p < q :: p + |live[p]| <= q
  }

  lemma MirrorsDisjoint(v: View, live: Contents)
    requires Sound(v) && Mirrors(v, live)
    ensures Disjoint(live)
  {
    hide View.Laid, View.Binned, Usable, Sound;
    forall p, q | p in live && q in live && p < q
      ensures p + |live[p]| <= q
    {
      LiveRoom(v, live, p);
      BlocksApart(v, p, q);
    }
  }

  /** What a run of requests is, seen from outside: the map after each request, and how often the system had refused
      memory by then. Illegal requests are not made. */
  ghost predicate IsRun(reqs: seq<Request>, trace: seq<Contents>, denials: seq<nat>) {
    && |trace| == |denials| == |reqs| + 1 && trace[0] == map[] && denials[0] == 0
    && forall i | 0 <= i < |reqs| :: Step(trace[i], reqs[i], trace[i + 1], denials[i], denials[i + 1])
  }

  ghost predicate Step(live: Contents, r: Request, live': Contents, d: nat, d': nat) {
    d <= d' && if Legal(live, r) then Served(live, r, live', d < d') else live' == live
  }

  /** From a new heap, every sequence of requests keeps the invariant and is served as by a map, with blocks that never
      overlap. */
  method Run(tbase: int, reqs: seq<Request>) returns (s: MState, trace: seq<Contents>, ghost denials: seq<nat>)
    requires FreshAt(map[], tbase, GRANULARITY)
    ensures Sound(s.Now()) && IsRun(reqs, trace, denials) && Mirrors(s.Now(), trace[|reqs|]) &&
      denials[|reqs|] == s.denied
    ensures forall i | 0 <= i < |trace| :: Disjoint(trace[i])
  {
    hide View.Laid, View.Binned, Sound, Usable, Holds, Served, Disjoint, Legal;
    s := new MState(tbase);
    var live: Contents := map[];
    trace, denials := [live], [0];
    MirrorsDisjoint(s.Now(), live);
    var i := 0;
    while i < |reqs|
      invariant 0 <= i <= |reqs| && fresh(s) && Sound(s.Now()) && Mirrors(s.Now(), live)
      invariant IsRun(reqs[..i], trace, denials) && trace[i] == live && denials[i] == s.denied
      invariant forall j | 0 <= j < |trace| :: Disjoint(trace[j])
    {
      if Legal(live, reqs[i]) {
        live := Serve(s, live, reqs[i]);
      }
      RunMore(reqs, trace, denials, i, live, s.denied);
      trace, denials := trace + [live], denials + [s.denied];
      MirrorsDisjoint(s.Now(), live);
      i := i + 1;
    }
    assert reqs[..|reqs|] == reqs;
  }

  lemma RunMore(reqs: seq<Request>, trace: seq<Contents>, denials: seq<nat>, i: nat, live: Contents, d: nat)
    requires i < |reqs| && IsRun(reqs[..i], trace, denials) && Step(trace[i], reqs[i], live, denials[i], d)
    ensures IsRun(reqs[..i + 1], trace + [live], denials + [d])
  {
    hide Step;
    var r, t, e := reqs[..i + 1], trace + [live], denials + [d];
    forall j | 0 <= j < |r|
      ensures Step(t[j], r[j], t[j + 1], e[j], e[j + 1])
    {
      if j < i {
        assert Step(trace[j], reqs[..i][j], trace[j + 1], denials[j], denials[j + 1]);
      }
    }
  }

  /** While the system never refuses memory, every request that does not overflow is met. */
  lemma {:induction false} NeverDenied(reqs: seq<Request>, trace: seq<Contents>, denials: seq<nat>, i: nat)
    requires IsRun(reqs, trace, denials) && denials[|reqs|] == 0 && i < |reqs| && Legal(trace[i], reqs[i])
    ensures reqs[i].Get? && !Overflows(reqs[i].n) ==> Got(trace[i], reqs[i].n, trace[i + 1])
    ensures reqs[i].Resize? && !Overflows(reqs[i].n) ==> Resized(trace[i], reqs[i].p, reqs[i].n, trace[i + 1])
  {
    hide Got, Resized, Legal, Overflows;
    DenialsGrow(reqs, trace, denials, i + 1);
    assert Step(trace[i], reqs[i], trace[i + 1], denials[i], denials[i + 1]);
  }

  lemma {:induction false} DenialsGrow(reqs: seq<Request>, trace: seq<Contents>, denials: seq<nat>, i: nat)
    requires IsRun(reqs, trace, denials) && i <= |reqs|
    ensures denials[i] <= denials[|reqs|]
    decreases |reqs| - i
  {
    if i < |reqs| {
      assert Step(trace[i], reqs[i], trace[i + 1], denials[i], denials[i + 1]);
      DenialsGrow(reqs, trace, denials, i + 1);
    }
  }
}
