/** Calls between goroutines: one server, any number of clients, and every way their steps can interleave. */
module ChanRpc {

  /** What comes of a call. */
  datatype Outcome =
    | Returned(value: int) | Panicked
    | ServerClosed | Refused | ChannelFull | SendOnClosed | TooMany

  /** What is sent on `ChanCall`: the id-th call of `AsynCall` by a client, a call of `Call0`, `Call1` or `CallN`, or
      one of `Server.Go`. */
  datatype Call = Asyn(client: nat, id: nat) | Sync(client: nat) | Cast

  /** What is sent on `ChanAsynRet`. */
  datatype RetInfo = RetInfo(id: nat, outcome: Outcome)

  /** Where the goroutine of a client is: outside; in `asynCall`; there with an error; behind it; before and behind the
      send of a synchronous call. */
  datatype Stage = Ready | Trying(id: nat) | Failing(id: nat, outcome: Outcome) | Counting | SyncSending | SyncWaiting

  /** A client. called records the callbacks that were run, accepted the calls that went into `ChanCall`, ran those
      whose functions were run, and issued is the number of calls of `AsynCall`. */
  datatype Client = Client(capacity: nat, pending: int, ret: seq<RetInfo>, syncRet: seq<Outcome>, stage: Stage,
    issued: nat, called: seq<RetInfo>, accepted: seq<nat>, ran: seq<nat>)

  datatype Server = Idle | Executing(call: Call) | Replying(call: Call, outcome: Outcome)

  datatype State = State(capacity: nat, queue: seq<Call>, closed: bool, server: Server, clients: seq<Client>)

  /** One atomic step; k is the number of a client. */
  datatype Step =
    | Open(capacity: nat)
    | AsynCall(k: nat) | Refuse(k: nat) | Send(k: nat) | SendFull(k: nat) | SendFails(k: nat) | HandOver(k: nat)
    | Report(k: nat) | Count(k: nat) | Cb(k: nat)
    | SyncCall(k: nat) | SyncSend(k: nat) | SyncHandOver(k: nat) | SyncFails(k: nat) | SyncReceive(k: nat)
    | Go | GoHandOver
    | Take | Return(value: int) | Panic | Reply | Close | Drain

  predicate At(s: State, k: nat, stage: Stage) {
    k < |s.clients| && s.clients[k].stage == stage
  }

  predicate IsTrying(s: State, k: nat) {
    k < |s.clients| && s.clients[k].stage.Trying?
  }

  predicate HasRoom(s: State) {
    !s.closed && |s.queue| < s.capacity
  }

  /** The server waits in a receive on the empty channel. */
  predicate Waits(s: State) {
    !s.closed && s.server.Idle? && s.queue == []
  }

  /** There is room for the reply. */
  predicate CanReply(s: State, c: Call) {
    match c
    case Asyn(k, _) => k < |s.clients| && |s.clients[k].ret| < s.clients[k].capacity
    case Sync(k) => k < |s.clients| && |s.clients[k].syncRet| < 1
    case Cast => true
  }

  predicate Enabled(s: State, step: Step) {
    match step
    case Open(_) => true
    case AsynCall(k) => At(s, k, Ready)
    case Refuse(k) => IsTrying(s, k)
    case Send(k) => IsTrying(s, k) && HasRoom(s)
    case SendFull(k) => IsTrying(s, k) && !s.closed && |s.queue| >= s.capacity
    case SendFails(k) => IsTrying(s, k) && s.closed
    case HandOver(k) => IsTrying(s, k) && Waits(s)
    case Report(k) =>
      k < |s.clients| && s.clients[k].stage.Failing? && |s.clients[k].ret| < s.clients[k].capacity
    case Count(k) => At(s, k, Counting)
    case Cb(k) => At(s, k, Ready) && s.clients[k].ret != []
    case SyncCall(k) => At(s, k, Ready)
    case SyncSend(k) => At(s, k, SyncSending) && HasRoom(s)
    case SyncHandOver(k) => At(s, k, SyncSending) && Waits(s)
    case SyncFails(k) => At(s, k, SyncSending) && s.closed
    case SyncReceive(k) => At(s, k, SyncWaiting) && s.clients[k].syncRet != []
    case Go => HasRoom(s)
    case GoHandOver => Waits(s)
    case Take => !s.closed && s.server.Idle? && s.queue != []
    case Return(_) => s.server.Executing?
    case Panic => s.server.Executing?
    case Reply => s.server.Replying? && CanReply(s, s.server.call)
    case Close => !s.closed && s.server.Idle?
    case Drain => s.closed && s.server.Idle? && s.queue != []
  }

  function With(s: State, k: nat, c: Client): State
    requires k < |s.clients|
  {
    s.(clients := s.clients[k := c])
  }

  function Executed(s: State, outcome: Outcome): State
    requires s.server.Executing?
  {
    var t := s.(server := Replying(s.server.call, outcome));
    match s.server.call
    case Asyn(k, id) =>
      if k < |s.clients| then With(t, k, s.clients[k].(ran := s.clients[k].ran + [id])) else t
    case _ => t
  }

  function Replied(s: State): State
    requires s.server.Replying? && CanReply(s, s.server.call)
  {
    var t := s.(server := Idle);
    match s.server.call
    case Asyn(k, id) =>
      With(t, k, s.clients[k].(ret := s.clients[k].ret + [RetInfo(id, s.server.outcome)]))
    case Sync(k) => With(t, k, s.clients[k].(syncRet := s.clients[k].syncRet + [s.server.outcome]))
    case Cast => t
  }

  function Apply(s: State, step: Step): State
    requires Enabled(s, step)
  {
    match step
    case Open(capacity) => s.(clients := s.clients + [Client(capacity, 0, [], [], Ready, 0, [], [], [])])
    case AsynCall(k) =>
      var c := s.clients[k];
      if c.pending >= c.capacity then
        With(s, k, c.(called := c.called + [RetInfo(c.issued, TooMany)], issued := c.issued + 1))
      else With(s, k, c.(stage := Trying(c.issued), issued := c.issued + 1))
    case Refuse(k) => With(s, k, s.clients[k].(stage := Failing(s.clients[k].stage.id, Refused)))
    case Send(k) =>
      var c := s.clients[k];
      With(s.(queue := s.queue + [Asyn(k, c.stage.id)]), k,
        c.(stage := Counting, accepted := c.accepted + [c.stage.id]))
    case SendFull(k) => With(s, k, s.clients[k].(stage := Failing(s.clients[k].stage.id, ChannelFull)))
    case SendFails(k) => With(s, k, s.clients[k].(stage := Failing(s.clients[k].stage.id, SendOnClosed)))
    case HandOver(k) =>
      var c := s.clients[k];
      With(s.(server := Executing(Asyn(k, c.stage.id))), k,
        c.(stage := Counting, accepted := c.accepted + [c.stage.id]))
    case Report(k) =>
      var c := s.clients[k];
      With(s, k, c.(stage := Counting, ret := c.ret + [RetInfo(c.stage.id, c.stage.outcome)]))
    case Count(k) => With(s, k, s.clients[k].(stage := Ready, pending := s.clients[k].pending + 1))
    case Cb(k) =>
      var c := s.clients[k];
      With(s, k, c.(pending := c.pending - 1, ret := c.ret[1..], called := c.called + [c.ret[0]]))
    case SyncCall(k) => With(s, k, s.clients[k].(stage := SyncSending))
    case SyncSend(k) => With(s.(queue := s.queue + [Sync(k)]), k, s.clients[k].(stage := SyncWaiting))
    case SyncHandOver(k) => With(s.(server := Executing(Sync(k))), k, s.clients[k].(stage := SyncWaiting))
    case SyncFails(k) => With(s, k, s.clients[k].(stage := Ready))
    case SyncReceive(k) => With(s, k, s.clients[k].(stage := Ready, syncRet := s.clients[k].syncRet[1..]))
    case Go => s.(queue := s.queue + [Cast])
    case GoHandOver => s.(server := Executing(Cast))
    case Take => s.(server := Executing(s.queue[0]), queue := s.queue[1..])
    case Return(value) => Executed(s, Returned(value))
    case Panic => Executed(s, Panicked)
    case Reply => Replied(s)
    case Close => s.(closed := true)
    case Drain => s.(server := Replying(s.queue[0], ServerClosed), queue := s.queue[1..])
  }

  function Init(capacity: nat): State {
    State(capacity, [], false, Idle, [])
  }

  /** The steps can be taken one after the other. */
  ghost predicate Possible(s: State, steps: seq<Step>)
    decreases |steps|
  {
    steps == [] || (Enabled(s, steps[0]) && Possible(Apply(s, steps[0]), steps[1..]))
  }

  ghost function After(s: State, steps: seq<Step>): State
    requires Possible(s, steps)
    decreases |steps|
  {
    if steps == [] then s else After(Apply(s, steps[0]), steps[1..])
  }

  // ----- where calls are -----

  /** The ids of the asynchronous calls of client k among the calls. */
  function Of(calls: seq<Call>, k: nat): seq<nat> {
    if calls == [] then []
    else if calls[0].Asyn? && calls[0].client == k then [calls[0].id] + Of(calls[1..], k)
    else Of(calls[1..], k)
  }

  /** The number of synchronous calls of client k among the calls. */
  function Syncs(calls: seq<Call>, k: nat): nat {
    if calls == [] then 0 else (if calls[0] == Sync(k) then 1 else 0) + Syncs(calls[1..], k)
  }

  function InServer(server: Server): seq<Call> {
    if server.Idle? then [] else [server.call]
  }

  /** The calls the server has or will get, in the order in which it replies. */
  function Calls(s: State): seq<Call> {
    InServer(s.server) + s.queue
  }

  datatype Kind = All | Accepted | Ran

  predicate Fits(outcome: Outcome, kind: Kind) {
    match kind
    case All => true
    case Accepted => outcome.Returned? || outcome.Panicked? || outcome.ServerClosed?
    case Ran => outcome.Returned? || outcome.Panicked?
  }

  /** The ids of the results of one kind. */
  function Pick(results: seq<RetInfo>, kind: Kind): seq<nat> {
    if results == [] then []
    else if Fits(results[0].outcome, kind) then [results[0].id] + Pick(results[1..], kind)
    else Pick(results[1..], kind)
  }

  /** The call a client has begun and not yet passed on. */
  function Held(stage: Stage): seq<nat> {
    if stage.Trying? || stage.Failing? then [stage.id] else []
  }

  /** The call of client k whose function has run and that has not been replied to. */
  function JustRan(server: Server, k: nat): seq<nat> {
    if server.Replying? && Fits(server.outcome, Ran) then Of([server.call], k) else []
  }

  /** Every id below n occurs, once. */
  ghost predicate Once(ids: seq<nat>, n: nat) {
    (forall id: nat :: id in ids <==> id < n) && forall i, j | 0 <= i < j < |ids| :: ids[i] != ids[j]
  }

  /** What holds of a client when calls are its calls at the server, in order, syncs is the number of its synchronous
      ones there, and just the call whose function has just run. What is pending, or about to be, has its room in
      `ChanAsynRet`; every call is in one place; and replies come in the order in which calls were accepted. */
  ghost predicate Fine(c: Client, calls: seq<nat>, syncs: nat, just: seq<nat>) {
    && |c.ret| + |calls| == c.pending + (if c.stage.Counting? then 1 else 0)
    && c.pending <= c.capacity
    && (c.stage.Trying? || c.stage.Failing? || c.stage.Counting? ==> c.pending < c.capacity)
    && (c.stage.Failing? ==> !Fits(c.stage.outcome, Accepted))
    && syncs + |c.syncRet| == (if c.stage.SyncWaiting? then 1 else 0)
    && Traced(c, calls, just)
  }

  ghost predicate Traced(c: Client, calls: seq<nat>, just: seq<nat>) {
    && Once(Pick(c.called + c.ret, All) + calls + Held(c.stage), c.issued)
    && Pick(c.called + c.ret, Accepted) + calls == c.accepted
    && Pick(c.called + c.ret, Ran) + just == c.ran
  }

  ghost predicate FineAt(s: State, k: nat)
    requires k < |s.clients|
  {
    Fine(s.clients[k], Of(Calls(s), k), Syncs(Calls(s), k), JustRan(s.server, k))
  }

  ghost predicate Known(s: State) {
    && (forall c | c in Calls(s) :: c.Cast? || c.client < |s.clients|)
    && (s.server.Replying? ==> Fits(s.server.outcome, Accepted))
  }

  ghost predicate Inv(s: State) {
    |s.queue| <= s.capacity && Known(s) && forall k | 0 <= k < |s.clients| :: FineAt(s, k)
  }

  // ----- what a step does to a client -----

  lemma {:induction false} PickConcat(a: seq<RetInfo>, b: seq<RetInfo>, kind: Kind)
    ensures Pick(a + b, kind) == Pick(a, kind) + Pick(b, kind)
  {
    if a == [] {
      assert a + b == b;
    } else {
      assert (a + b)[1..] == a[1..] + b;
      PickConcat(a[1..], b, kind);
    }
  }

  lemma PickOne(r: RetInfo, kind: Kind)
    ensures Pick([r], kind) == if Fits(r.outcome, kind) then [r.id] else []
  {
  }

  /** A result more, in front of b. */
  lemma PickMore(a: seq<RetInfo>, r: RetInfo, b: seq<RetInfo>, kind: Kind)
    ensures Pick(a + [r] + b, kind) == Pick(a, kind) + (if Fits(r.outcome, kind) then [r.id] else []) + Pick(b, kind)
  {
    PickConcat(a + [r], b, kind);
    PickConcat(a, [r], kind);
    PickOne(r, kind);
  }

  /** One of the ids moves to another place. */
  lemma OnceMoved(a: seq<nat>, b: seq<nat>, id: nat, n: nat)
    requires Once(a + b + [id], n)
    ensures Once(a + [id] + b, n)
  {
    var s, t := a + b + [id], a + [id] + b;
    forall x: nat
      ensures x in t <==> x in s
    {
    }
    forall i, j | 0 <= i < j < |t|
      ensures t[i] != t[j]
    {
      var p := if i < |a| then i else if i == |a| then |s| - 1 else i - 1;
      var q := if j < |a| then j else if j == |a| then |s| - 1 else j - 1;
      assert t[i] == s[p] && t[j] == s[q] && p != q;
    }
  }

  lemma OnceMore(s: seq<nat>, n: nat)
    requires Once(s, n)
    ensures Once(s + [n], n + 1)
  {
    var t := s + [n];
    forall id: nat
      ensures id in t <==> id in s || id == n
    {
      assert t[|s|] == n;
    }
    assert n !in s;
  }

  lemma BeginFine(c: Client, calls: seq<nat>, syncs: nat, just: seq<nat>)
    requires Fine(c, calls, syncs, just) && c.stage == Ready
    ensures c.pending < c.capacity ==>
      Fine(c.(stage := Trying(c.issued), issued := c.issued + 1), calls, syncs, just)
    ensures c.pending >= c.capacity ==>
      Fine(c.(called := c.called + [RetInfo(c.issued, TooMany)], issued := c.issued + 1), calls, syncs, just)
  {
    hide Once, Pick;
    var all := Pick(c.called + c.ret, All) + calls;
    assert all + Held(c.stage) == all;
    OnceMore(all, c.issued);
    if c.pending >= c.capacity {
      var r := RetInfo(c.issued, TooMany);
      forall kind: Kind
        ensures Pick(c.called + [r] + c.ret, kind) == Pick(c.called, kind) + (if kind == All then [r.id] else []) +
          Pick(c.ret, kind)
        ensures Pick(c.called + c.ret, kind) == Pick(c.called, kind) + Pick(c.ret, kind)
      {
        PickMore(c.called, r, c.ret, kind);
        PickConcat(c.called, c.ret, kind);
      }
      var a, b := Pick(c.called, All), Pick(c.ret, All) + calls;
      assert all + [c.issued] == a + b + [c.issued];
      OnceMoved(a, b, c.issued, c.issued + 1);
      assert a + [c.issued] + b == Pick(c.called + [r] + c.ret, All) + calls + Held(Ready);
    }
  }

  lemma AcceptFine(c: Client, calls: seq<nat>, syncs: nat, just: seq<nat>)
    requires Fine(c, calls, syncs, just) && c.stage.Trying?
    ensures Fine(c.(stage := Counting, accepted := c.accepted + [c.stage.id]), calls + [c.stage.id], syncs, just)
  {
    hide Once, Pick;
    var id := c.stage.id;
    assert Pick(c.called + c.ret, All) + (calls + [id]) + [] == Pick(c.called + c.ret, All) + calls + [id];
    assert Pick(c.called + c.ret, Accepted) + (calls + [id]) == Pick(c.called + c.ret, Accepted) + calls + [id];
  }

  lemma ReportFine(c: Client, calls: seq<nat>, syncs: nat, just: seq<nat>)
    requires Fine(c, calls, syncs, just) && c.stage.Failing?
    ensures |c.ret| < c.capacity
    ensures Fine(c.(stage := Counting, ret := c.ret + [RetInfo(c.stage.id, c.stage.outcome)]), calls, syncs, just)
  {
    hide Once, Pick;
    var r := RetInfo(c.stage.id, c.stage.outcome);
    var all, next := c.called + c.ret, c.called + (c.ret + [r]);
    assert next == all + [r];
    forall kind: Kind
      ensures Pick(next, kind) == Pick(all, kind) + (if kind == All then [r.id] else [])
    {
      PickConcat(all, [r], kind);
      PickOne(r, kind);
    }
    OnceMoved(Pick(all, All), calls, r.id, c.issued);
    assert Pick(all, All) + [r.id] + calls == Pick(next, All) + calls + Held(Counting);
  }

  lemma CbFine(c: Client, calls: seq<nat>, syncs: nat, just: seq<nat>)
    requires Fine(c, calls, syncs, just) && c.stage == Ready && c.ret != []
    ensures c.pending > 0
    ensures Fine(c.(pending := c.pending - 1, ret := c.ret[1..], called := c.called + [c.ret[0]]), calls, syncs, just)
  {
    hide Once, Pick;
    assert c.called + [c.ret[0]] + c.ret[1..] == c.called + c.ret;
  }

  /** The function of the first call has run. */
  lemma RanFine(c: Client, calls: seq<nat>, syncs: nat)
    requires Fine(c, calls, syncs, []) && calls != []
    ensures Fine(c.(ran := c.ran + [calls[0]]), calls, syncs, [calls[0]])
  {
    hide Once, Pick;
  }

  /** The first call is replied to. */
  lemma ReplyFine(c: Client, calls: seq<nat>, syncs: nat, just: seq<nat>, outcome: Outcome)
    requires Fine(c, calls, syncs, just) && calls != [] && Fits(outcome, Accepted)
    requires just == if Fits(outcome, Ran) then [calls[0]] else []
    ensures |c.ret| < c.capacity
    ensures Fine(c.(ret := c.ret + [RetInfo(calls[0], outcome)]), calls[1..], syncs, [])
  {
    hide Once, Pick;
    var r := RetInfo(calls[0], outcome);
    var all, next := c.called + c.ret, c.called + (c.ret + [r]);
    assert next == all + [r] && calls == [calls[0]] + calls[1..];
    forall kind: Kind
      ensures Pick(next, kind) == Pick(all, kind) + (if Fits(outcome, kind) then [r.id] else [])
    {
      PickConcat(all, [r], kind);
      PickOne(r, kind);
    }
    assert Pick(all, All) + calls == Pick(next, All) + calls[1..];
    assert Pick(all, Accepted) + calls == Pick(next, Accepted) + calls[1..];
    assert Pick(all, Ran) + just == Pick(next, Ran) + [];
  }

  // ----- every step keeps the invariant -----

  lemma {:induction false} OfAppend(calls: seq<Call>, c: Call, k: nat)
    ensures Of(calls + [c], k) == Of(calls, k) + (if c.Asyn? && c.client == k then [c.id] else [])
    ensures Syncs(calls + [c], k) == Syncs(calls, k) + (if c == Sync(k) then 1 else 0)
  {
    if calls == [] {
      assert (calls + [c])[1..] == [];
    } else {
      assert (calls + [c])[1..] == calls[1..] + [c];
      OfAppend(calls[1..], c, k);
    }
  }

  lemma {:induction false} OfNobody(calls: seq<Call>, k: nat)
    requires forall c | c in calls :: c.Cast? || c.client < k
    ensures Of(calls, k) == [] && Syncs(calls, k) == 0
  {
    if calls == [] {
    } else {
      assert calls[0] in calls;
      assert forall c | c in calls[1..] :: c in calls;
      OfNobody(calls[1..], k);
    }
  }

  lemma InitInv(capacity: nat)
    ensures Inv(Init(capacity))
  {
    var s := Init(capacity);
    assert |Calls(s)| == 0;
  }

  lemma OpenKeeps(s: State, capacity: nat)
    requires Inv(s)
    ensures Inv(Apply(s, Open(capacity)))
  {
    hide Fine, Of, Syncs;
    var k := |s.clients|;
    OfNobody(Calls(s), k);
    if s.server.Replying? {
      OfNobody([s.server.call], k);
    }
    NewFine(capacity);
    var t := Apply(s, Open(capacity));
    assert Calls(t) == Calls(s);
    forall j | 0 <= j < |t.clients|
      ensures FineAt(t, j)
    {
      if j < k {
        assert FineAt(s, j);
      }
    }
  }

  lemma NewFine(capacity: nat)
    ensures Fine(Client(capacity, 0, [], [], Ready, 0, [], [], []), [], 0, [])
  {
    var none: seq<RetInfo> := [];
    assert none + none == none;
  }

  /** A step of client k that does not concern the server. */
  lemma OwnKeeps(s: State, k: nat, c: Client)
    requires Inv(s) && k < |s.clients|
    requires Fine(c, Of(Calls(s), k), Syncs(Calls(s), k), JustRan(s.server, k))
    ensures Inv(With(s, k, c))
  {
    hide Fine, Of, Syncs;
    var t := With(s, k, c);
    assert Calls(t) == Calls(s);
    assert forall j | 0 <= j < |s.clients| && j != k :: t.clients[j] == s.clients[j] && FineAt(s, j);
  }

  /** Whoever sends on `ChanCall`, the call is the last one at the server. */
  lemma SentKeeps(s: State, call: Call, t: State)
    requires Inv(s) && t.capacity == s.capacity && t.closed == s.closed && |t.clients| == |s.clients|
    requires (HasRoom(s) && t.queue == s.queue + [call] && t.server == s.server)
      || (Waits(s) && t.queue == s.queue && t.server == Executing(call))
    requires call.Cast? || call.client < |s.clients|
    requires forall j | 0 <= j < |s.clients| && (call.Cast? || call.client != j) :: t.clients[j] == s.clients[j]
    requires !call.Cast? ==>
      var k := call.client;
      var ids := Of(Calls(s), k) + (if call.Asyn? then [call.id] else []);
      Fine(t.clients[k], ids, Syncs(Calls(s), k) + (if call.Sync? then 1 else 0), JustRan(s.server, k))
    ensures Inv(t)
  {
    hide Fine, Of, Syncs;
    assert Calls(t) == Calls(s) + [call];
    forall j | 0 <= j < |t.clients|
      ensures FineAt(t, j)
    {
      OfAppend(Calls(s), call, j);
      assert FineAt(s, j) && Of(Calls(s), j) + [] == Of(Calls(s), j);
      assert JustRan(t.server, j) == JustRan(s.server, j);
    }
  }

  lemma SendKeeps(s: State, k: nat, step: Step)
    requires Inv(s) && Enabled(s, step) && (step == Send(k) || step == HandOver(k))
    ensures Inv(Apply(s, step))
  {
    hide Fine, Of, Syncs;
    assert FineAt(s, k);
    AcceptFine(s.clients[k], Of(Calls(s), k), Syncs(Calls(s), k), JustRan(s.server, k));
    SentKeeps(s, Asyn(k, s.clients[k].stage.id), Apply(s, step));
  }

  lemma SyncSendKeeps(s: State, k: nat, step: Step)
    requires Inv(s) && Enabled(s, step) && (step == SyncSend(k) || step == SyncHandOver(k))
    ensures Inv(Apply(s, step))
  {
    hide Of, Syncs, Traced;
    assert FineAt(s, k) && Of(Calls(s), k) + [] == Of(Calls(s), k);
    StageTraced(s.clients[k], SyncWaiting, Of(Calls(s), k), JustRan(s.server, k));
    SentKeeps(s, Sync(k), Apply(s, step));
  }

  /** Calls are only traced through some of the stages. */
  lemma StageTraced(c: Client, stage: Stage, calls: seq<nat>, just: seq<nat>)
    requires Traced(c, calls, just) && Held(stage) == Held(c.stage)
    ensures Traced(c.(stage := stage), calls, just)
  {
  }

  lemma StageKeeps(s: State, k: nat, step: Step)
    requires Inv(s) && Enabled(s, step) && k < |s.clients|
    requires step == Refuse(k) || step == SendFull(k) || step == SendFails(k) || step == Count(k) || step == SyncCall(k)
      || step == SyncFails(k)
    ensures Inv(Apply(s, step))
  {
    hide Of, Syncs, Traced;
    assert FineAt(s, k);
    StageTraced(s.clients[k], Apply(s, step).clients[k].stage, Of(Calls(s), k), JustRan(s.server, k));
    if step.Count? {
      CountTraced(s.clients[k], Of(Calls(s), k), JustRan(s.server, k));
    }
    OwnKeeps(s, k, Apply(s, step).clients[k]);
  }

  lemma CountTraced(c: Client, calls: seq<nat>, just: seq<nat>)
    requires Traced(c, calls, just) && c.stage == Counting
    ensures Traced(c.(stage := Ready, pending := c.pending + 1), calls, just)
  {
  }

  lemma BeginKeeps(s: State, k: nat)
    requires Inv(s) && Enabled(s, AsynCall(k))
    ensures Inv(Apply(s, AsynCall(k)))
  {
    hide Fine, Of, Syncs;
    assert FineAt(s, k);
    BeginFine(s.clients[k], Of(Calls(s), k), Syncs(Calls(s), k), JustRan(s.server, k));
    OwnKeeps(s, k, Apply(s, AsynCall(k)).clients[k]);
  }

  lemma ReportKeeps(s: State, k: nat)
    requires Inv(s) && Enabled(s, Report(k))
    ensures Inv(Apply(s, Report(k)))
  {
    hide Fine, Of, Syncs;
    assert FineAt(s, k);
    ReportFine(s.clients[k], Of(Calls(s), k), Syncs(Calls(s), k), JustRan(s.server, k));
    OwnKeeps(s, k, Apply(s, Report(k)).clients[k]);
  }

  lemma CbKeeps(s: State, k: nat)
    requires Inv(s) && Enabled(s, Cb(k))
    ensures Inv(Apply(s, Cb(k)))
  {
    hide Fine, Of, Syncs;
    assert FineAt(s, k);
    CbFine(s.clients[k], Of(Calls(s), k), Syncs(Calls(s), k), JustRan(s.server, k));
    OwnKeeps(s, k, Apply(s, Cb(k)).clients[k]);
  }

  lemma SyncReceiveKeeps(s: State, k: nat)
    requires Inv(s) && Enabled(s, SyncReceive(k))
    ensures Inv(Apply(s, SyncReceive(k)))
  {
    hide Of, Syncs;
    assert FineAt(s, k);
    OwnKeeps(s, k, Apply(s, SyncReceive(k)).clients[k]);
  }

  /** The server takes the first call of the queue. */
  lemma TakeKeeps(s: State, t: State)
    requires Inv(s) && s.server.Idle? && s.queue != [] && t.clients == s.clients && t.capacity == s.capacity
    requires t.queue == s.queue[1..] &&
      (t.server == Executing(s.queue[0]) || t.server == Replying(s.queue[0], ServerClosed))
    ensures Inv(t)
  {
    hide Fine, Of, Syncs;
    assert Calls(t) == Calls(s);
    forall j | 0 <= j < |t.clients|
      ensures FineAt(t, j)
    {
      assert FineAt(s, j);
    }
  }

  lemma OfFirst(c: Call, calls: seq<Call>, k: nat)
    ensures Of([c] + calls, k) == (if c.Asyn? && c.client == k then [c.id] else []) + Of(calls, k)
    ensures Syncs([c] + calls, k) == (if c == Sync(k) then 1 else 0) + Syncs(calls, k)
    ensures Of([c], k) == if c.Asyn? && c.client == k then [c.id] else []
  {
    assert ([c] + calls)[1..] == calls;
  }

  lemma ExecutedKeeps(s: State, outcome: Outcome)
    requires Inv(s) && s.server.Executing? && Fits(outcome, Ran)
    ensures Inv(Executed(s, outcome))
  {
    hide Fine, Of, Syncs;
    var t, c := Executed(s, outcome), s.server.call;
    assert Calls(t) == Calls(s) == [c] + s.queue && c in Calls(s);
    forall j | 0 <= j < |t.clients|
      ensures FineAt(t, j)
    {
      assert FineAt(s, j);
      OfFirst(c, s.queue, j);
      if c.Asyn? && c.client == j {
        RanFine(s.clients[j], Of(Calls(s), j), Syncs(Calls(s), j));
      }
    }
  }

  lemma RepliedKeeps(s: State)
    requires Inv(s) && s.server.Replying?
    ensures CanReply(s, s.server.call) && Inv(Replied(s))
  {
    hide FineAt, Of, Syncs, Fine;
    var c := s.server.call;
    assert Calls(s) == [c] + s.queue && c in Calls(s);
    ReplyFits(s);
    var t := Replied(s);
    assert Calls(t) == s.queue;
    assert forall d | d in s.queue :: d in Calls(s);
    forall j | 0 <= j < |t.clients|
      ensures FineAt(t, j)
    {
      RepliedFine(s, j);
    }
  }

  lemma RepliedFine(s: State, k: nat)
    requires s.server.Replying? && CanReply(s, s.server.call) && k < |s.clients| && FineAt(s, k) && Known(s)
    ensures FineAt(Replied(s), k)
  {
    hide Fine, Of, Syncs;
    var c := s.server.call;
    assert Calls(s) == [c] + s.queue && Calls(Replied(s)) == s.queue;
    OfFirst(c, s.queue, k);
    assert [] + Of(s.queue, k) == Of(s.queue, k);
    if c.Asyn? && c.client == k {
      assert ([c.id] + Of(s.queue, k))[1..] == Of(s.queue, k);
      ReplyFine(s.clients[k], Of(Calls(s), k), Syncs(Calls(s), k), JustRan(s.server, k), s.server.outcome);
    } else if c == Sync(k) {
      SyncReplyFine(s.clients[k], Of(s.queue, k), Syncs(s.queue, k), s.server.outcome);
    }
  }

  lemma SyncReplyFine(c: Client, calls: seq<nat>, syncs: nat, outcome: Outcome)
    requires Fine(c, calls, 1 + syncs, [])
    ensures |c.syncRet| < 1 && Fine(c.(syncRet := c.syncRet + [outcome]), calls, syncs, [])
  {
  }

  /** The reply never blocks. */
  lemma ReplyFits(s: State)
    requires Inv(s) && s.server.Replying?
    ensures CanReply(s, s.server.call)
  {
    hide Traced, Of, Syncs;
    var c := s.server.call;
    assert Calls(s) == [c] + s.queue && c in Calls(s);
    if !c.Cast? {
      OfFirst(c, s.queue, c.client);
      assert FineAt(s, c.client);
    }
  }

  lemma StepKeeps(s: State, step: Step)
    requires Inv(s) && Enabled(s, step)
    ensures Inv(Apply(s, step))
  {
    hide Inv;
    match step
    case Open(capacity) => OpenKeeps(s, capacity);
    case AsynCall(k) => BeginKeeps(s, k);
    case Refuse(k) => StageKeeps(s, k, step);
    case Send(k) => SendKeeps(s, k, step);
    case SendFull(k) => StageKeeps(s, k, step);
    case SendFails(k) => StageKeeps(s, k, step);
    case HandOver(k) => SendKeeps(s, k, step);
    case Report(k) => ReportKeeps(s, k);
    case Count(k) => StageKeeps(s, k, step);
    case Cb(k) => CbKeeps(s, k);
    case SyncCall(k) => StageKeeps(s, k, step);
    case SyncSend(k) => SyncSendKeeps(s, k, step);
    case SyncHandOver(k) => SyncSendKeeps(s, k, step);
    case SyncFails(k) => StageKeeps(s, k, step);
    case SyncReceive(k) => SyncReceiveKeeps(s, k);
    case Go => SentKeeps(s, Cast, Apply(s, step));
    case GoHandOver => SentKeeps(s, Cast, Apply(s, step));
    case Take => TakeKeeps(s, Apply(s, step));
    case Return(value) => ExecutedKeeps(s, Returned(value));
    case Panic => ExecutedKeeps(s, Panicked);
    case Reply => RepliedKeeps(s);
    case Close => CloseKeeps(s);
    case Drain => TakeKeeps(s, Apply(s, step));
  }

  lemma CloseKeeps(s: State)
    requires Inv(s) && Enabled(s, Close)
    ensures Inv(Apply(s, Close))
  {
    hide Fine, Of, Syncs;
    assert forall k | 0 <= k < |s.clients| :: FineAt(s, k) ==> FineAt(Apply(s, Close), k);
  }

  lemma {:induction false} RunKeeps(s: State, steps: seq<Step>)
    requires Inv(s) && Possible(s, steps)
    ensures Inv(After(s, steps))
    decreases |steps|
  {
    if steps == [] {
    } else {
      StepKeeps(s, steps[0]);
      RunKeeps(Apply(s, steps[0]), steps[1..]);
    }
  }

  // ----- what follows -----

  /** On every run: what is pending is what is queued, executing, or returned and not handled (but for a call that is
      being counted), and the sends of replies and of errors never block. */
  lemma Safe(capacity: nat, steps: seq<Step>, k: nat)
    requires Possible(Init(capacity), steps) && k < |After(Init(capacity), steps).clients|
    ensures var s := After(Init(capacity), steps); var c := s.clients[k];
      && c.pending + (if c.stage.Counting? then 1 else 0) == |c.ret| + |Of(Calls(s), k)|
      && (c.stage.Failing? ==> Enabled(s, Report(k)))
      && (s.server.Replying? ==> Enabled(s, Reply))
  {
    var s := After(Init(capacity), steps);
    hide Of, Syncs, Traced;
    InitInv(capacity);
    RunKeeps(Init(capacity), steps);
    assert FineAt(s, k);
    if s.server.Replying? {
      ReplyFits(s);
    }
  }

  /** When a client is idle, every call of `AsynCall` has had its callback, exactly once; the accepted ones in the order
      of the calls; and exactly the functions whose results say so have been run, once each. */
  lemma IdleMeansDone(s: State, k: nat)
    requires Inv(s) && At(s, k, Ready) && s.clients[k].pending == 0
    ensures var c := s.clients[k];
      && Once(Pick(c.called, All), c.issued) && |c.called| == |Pick(c.called, All)|
      && Pick(c.called, Accepted) == c.accepted && Pick(c.called, Ran) == c.ran
  {
    hide Of, Syncs, Once;
    var c := s.clients[k];
    assert FineAt(s, k);
    assert Of(Calls(s), k) == [] && c.ret == [];
    assert c.called + c.ret == c.called;
    assert Pick(c.called, All) + [] + [] == Pick(c.called, All);
    if s.server.Replying? {
      OfFirst(s.server.call, s.queue, k);
    }
    PickAll(c.called);
  }

  lemma {:induction false} PickAll(results: seq<RetInfo>)
    ensures |Pick(results, All)| == |results|
  {
    if results == [] {
    } else {
      PickAll(results[1..]);
    }
  }

  predicate ByServer(step: Step) {
    step.Take? || step.Return? || step.Panic? || step.Reply? || step.Drain?
  }

  /** While a client waits, in `Close` or in a synchronous call, it can receive or the server can move. */
  lemma Progress(s: State, k: nat) returns (step: Step)
    requires Inv(s) && k < |s.clients|
    requires var c := s.clients[k];
      (c.stage == Ready && c.pending > 0) || c.stage == SyncSending || c.stage == SyncWaiting
    ensures Enabled(s, step)
    ensures ByServer(step) || step == Cb(k) || step == SyncSend(k) || step == SyncHandOver(k) || step == SyncFails(k)
      || step == SyncReceive(k)
  {
    hide Of, Syncs, Traced;
    var c := s.clients[k];
    assert FineAt(s, k);
    if s.server.Replying? {
      ReplyFits(s);
      step := Reply;
    } else if s.server.Executing? {
      step := Panic;
    } else if s.queue != [] {
      step := if s.closed then Drain else Take;
    } else {
      assert Calls(s) == [];
      OfNobody(Calls(s), k);
      step := if c.stage == Ready then Cb(k) else if c.stage == SyncWaiting then SyncReceive(k)
        else if s.closed then SyncFails(k) else SyncHandOver(k);
    }
  }

  /** Which of the calls is the last one of client k, counted from 1; 0 if there is none. */
  function LastOf(calls: seq<Call>, k: nat): (n: nat)
    ensures n <= |calls|
  {
    if calls == [] then 0
    else
      var n := LastOf(calls[1..], k);
      if n > 0 then n + 1 else if IsOf(calls[0], k) then 1 else 0
  }

  predicate IsOf(c: Call, k: nat) {
    (c.Asyn? && c.client == k) || c == Sync(k)
  }

  /** The steps the server needs until it has replied to the last call of client k. */
  function Left(s: State, k: nat): nat {
    var n := LastOf(Calls(s), k);
    if n == 0 then 0
    else 3 * (n - 1) + match s.server case Idle => 3 case Executing(_) => 2 case Replying(_, _) => 1
  }

  lemma {:induction false} LastAppend(calls: seq<Call>, c: Call, k: nat)
    requires !IsOf(c, k)
    ensures LastOf(calls + [c], k) == LastOf(calls, k)
  {
    if calls == [] {
      assert (calls + [c])[1..] == [];
    } else {
      assert (calls + [c])[1..] == calls[1..] + [c];
      LastAppend(calls[1..], c, k);
    }
  }

  /** A step in which client k itself calls the server */
  predicate CallsBy(step: Step, k: nat) {
    step == AsynCall(k) || step == Send(k) || step == HandOver(k) || step == SyncSend(k) || step == SyncHandOver(k)
  }

  lemma LastFirst(c: Call, calls: seq<Call>, k: nat)
    ensures var n := LastOf([c] + calls, k); LastOf(calls, k) == if n > 0 then n - 1 else 0
  {
    assert ([c] + calls)[1..] == calls;
  }

  lemma ServerLeft(s: State, step: Step, k: nat)
    requires Enabled(s, step) && ByServer(step)
    ensures Left(Apply(s, step), k) <= Left(s, k)
    ensures Left(s, k) > 0 ==> Left(Apply(s, step), k) < Left(s, k)
  {
    hide LastOf;
    var calls, t := Calls(s), Apply(s, step);
    if step.Reply? {
      assert calls == [s.server.call] + s.queue && Calls(t) == s.queue && t.server == Idle;
      LastFirst(s.server.call, s.queue, k);
    } else {
      assert Calls(t) == calls;
    }
  }

  lemma OtherLeft(s: State, step: Step, k: nat)
    requires Enabled(s, step) && !ByServer(step) && !CallsBy(step, k)
    ensures Left(Apply(s, step), k) == Left(s, k)
  {
    hide LastOf;
    var t := Apply(s, step);
    var sends := step.Send? || step.HandOver? || step.SyncSend? || step.SyncHandOver? || step.Go? || step.GoHandOver?;
    if sends {
      var c :=
        match step
        case Send(j) => Asyn(j, s.clients[j].stage.id)
        case HandOver(j) => Asyn(j, s.clients[j].stage.id)
        case SyncSend(j) => Sync(j)
        case SyncHandOver(j) => Sync(j)
        case _ => Cast;
      assert Calls(t) == Calls(s) + [c];
      LastAppend(Calls(s), c, k);
      LastNone(k);
    } else {
      assert Calls(t) == Calls(s);
    }
  }

  lemma LastNone(k: nat)
    ensures LastOf([], k) == 0
  {
  }

  /** A client that waits in `Close` receives, and pending goes down; or whatever else happens, the server gets no
      further from having replied to it, and each step of the server brings it nearer. So `Close` ends, even while
      others go on calling. */
  lemma CloseEnds(s: State, step: Step, k: nat)
    requires Inv(s) && At(s, k, Ready) && Enabled(s, step) && !CallsBy(step, k) && step != SyncCall(k)
    ensures At(Apply(s, step), k, Ready)
    ensures var c, d := s.clients[k], Apply(s, step).clients[k];
      if step == Cb(k) then d.pending == c.pending - 1
      else d.pending == c.pending && Left(Apply(s, step), k) <= Left(s, k)
    ensures ByServer(step) && Left(s, k) > 0 ==> Left(Apply(s, step), k) < Left(s, k)
  {
    hide Inv, Left;
    if ByServer(step) {
      ServerLeft(s, step, k);
    } else {
      OtherLeft(s, step, k);
    }
  }

  lemma {:induction false} OfLast(calls: seq<Call>, k: nat)
    requires Of(calls, k) != []
    ensures LastOf(calls, k) > 0
  {
    if Of(calls[1..], k) != [] {
      OfLast(calls[1..], k);
    }
  }

  /** While it waits, it can receive, or the server still has a call of its to reply to and can move. */
  lemma CloseProgress(s: State, k: nat) returns (step: Step)
    requires Inv(s) && At(s, k, Ready) && s.clients[k].pending > 0
    ensures Enabled(s, step) && (step == Cb(k) || (ByServer(step) && Left(s, k) > 0))
  {
    hide Of, Syncs, Traced, LastOf;
    assert FineAt(s, k);
    if s.clients[k].ret != [] {
      step := Cb(k);
    } else {
      OfLast(Calls(s), k);
      step := Progress(s, k);
    }
  }
}
