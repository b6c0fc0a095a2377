/** What callbacks and synchronous calls are told: what came of the call, at the place where it came about. */
module ChanOutcomes {
  import opened ChanRpc

  /** A call of `AsynCall`: the client and the number of its call. */
  type Id = (nat, nat)

  /** What comes of a call in a step: the client gives up on it, or the server has run its function or, once closed,
      answers in its place. */
  function CameBy(s: State, step: Step): map<Id, Outcome>
    requires Enabled(s, step)
  {
    match step
    case AsynCall(k) =>
      if s.clients[k].pending >= s.clients[k].capacity then map[(k, s.clients[k].issued) := TooMany] else map[]
    case Refuse(k) => map[(k, s.clients[k].stage.id) := Refused]
    case SendFull(k) => map[(k, s.clients[k].stage.id) := ChannelFull]
    case SendFails(k) => map[(k, s.clients[k].stage.id) := SendOnClosed]
    case Return(value) => OfCall(s.server.call, Returned(value))
    case Panic => OfCall(s.server.call, Panicked)
    case Drain => OfCall(s.queue[0], ServerClosed)
    case _ => map[]
  }

  function OfCall(c: Call, outcome: Outcome): map<Id, Outcome> {
    if c.Asyn? then map[(c.client, c.id) := outcome] else map[]
  }

  /** What has come of calls after the steps, when m had come of them before. */
  ghost function Came(m: map<Id, Outcome>, s: State, steps: seq<Step>): map<Id, Outcome>
    requires Possible(s, steps)
    decreases |steps|
  {
    if steps == [] then m else Came(m + CameBy(s, steps[0]), Apply(s, steps[0]), steps[1..])
  }

  /** The result says what came of the call. */
  predicate True(m: map<Id, Outcome>, k: nat, r: RetInfo) {
    (k, r.id) in m && m[(k, r.id)] == r.outcome
  }

  ghost predicate TrueAll(m: map<Id, Outcome>, k: nat, results: seq<RetInfo>) {
    forall r | r in results :: True(m, k, r)
  }

  ghost predicate ClientTold(m: map<Id, Outcome>, k: nat, c: Client) {
    && TrueAll(m, k, c.called) && TrueAll(m, k, c.ret)
    && (c.stage.Failing? ==> True(m, k, RetInfo(c.stage.id, c.stage.outcome)))
  }

  ghost predicate ServerTold(m: map<Id, Outcome>, server: Server) {
    server.Replying? && server.call.Asyn? ==> True(m, server.call.client, RetInfo(server.call.id, server.outcome))
  }

  /** Whatever is said anywhere of a call is what came of it. */
  ghost predicate Told(m: map<Id, Outcome>, s: State) {
    ServerTold(m, s.server) && forall k | 0 <= k < |s.clients| :: ClientTold(m, k, s.clients[k])
  }

  // ----- nothing comes of a call twice -----

  lemma {:induction false} Picked(results: seq<RetInfo>, r: RetInfo)
    requires r in results
    ensures r.id in Pick(results, All)
  {
    if r != results[0] {
      assert r in results[1..];
      Picked(results[1..], r);
    }
  }

  /** The id of a call that is still held or at the server is that of no result. */
  lemma Apart(a: seq<nat>, b: seq<nat>, c: seq<nat>, n: nat, id: nat)
    requires Once(a + b + c, n)
    ensures id in b ==> id !in a && id !in c
    ensures id in c ==> id !in a
    ensures id >= n ==> id !in a && id !in b && id !in c
  {
    var s := a + b + c;
    forall i, j | 0 <= i < |a| && 0 <= j < |b|
      ensures a[i] != b[j]
    {
      assert s[i] == a[i] && s[|a| + j] == b[j];
    }
    forall i, j | 0 <= i < |b| && 0 <= j < |c|
      ensures b[i] != c[j]
    {
      assert s[|a| + i] == b[i] && s[|a| + |b| + j] == c[j];
    }
    forall i, j | 0 <= i < |a| && 0 <= j < |c|
      ensures a[i] != c[j]
    {
      assert s[i] == a[i] && s[|a| + |b| + j] == c[j];
    }
    assert id in s ==> id < n;
  }

  /** Client k has no result yet for its call id, and no error that it would report. */
  ghost predicate Unsettled(s: State, k: nat, id: nat) {
    && k < |s.clients|
    && (forall r | r in s.clients[k].called :: r.id != id) && (forall r | r in s.clients[k].ret :: r.id != id)
    && (s.clients[k].stage.Failing? ==> s.clients[k].stage.id != id)
    && (s.server.Replying? && s.server.call.Asyn? && s.server.call.client == k ==> s.server.call.id != id)
  }

  lemma NoResult(s: State, k: nat, id: nat)
    requires Inv(s) && k < |s.clients|
    requires id !in Pick(s.clients[k].called + s.clients[k].ret, All)
    requires s.clients[k].stage.Failing? ==> s.clients[k].stage.id != id
    requires s.server.Replying? && s.server.call.Asyn? && s.server.call.client == k ==> s.server.call.id != id
    ensures Unsettled(s, k, id)
  {
    var c := s.clients[k];
    forall r | r in c.called || r in c.ret
      ensures r.id != id
    {
      Picked(c.called + c.ret, r);
    }
  }

  lemma AtServer(s: State, k: nat, id: nat)
    requires Calls(s) != [] && Calls(s)[0] == Asyn(k, id)
    ensures id in Of(Calls(s), k)
  {
  }

  /** Where something comes of a call, nothing had before. */
  lemma CameFirst(s: State, step: Step, k: nat, id: nat)
    requires Inv(s) && Enabled(s, step) && (k, id) in CameBy(s, step)
    ensures Unsettled(s, k, id)
  {
    hide Of, Syncs, Once, Pick;
    if step.Return? || step.Panic? || step.Drain? {
      assert Calls(s)[0] == Asyn(k, id) && Asyn(k, id) in Calls(s);
      AtServer(s, k, id);
    }
    assert FineAt(s, k);
    var c := s.clients[k];
    Apart(Pick(c.called + c.ret, All), Of(Calls(s), k), Held(c.stage), c.issued, id);
    if s.server.Replying? && s.server.call.Asyn? && s.server.call.client == k {
      assert Calls(s)[0] == s.server.call;
      AtServer(s, k, s.server.call.id);
      Apart(Pick(c.called + c.ret, All), Of(Calls(s), k), Held(c.stage), c.issued, s.server.call.id);
    }
    NoResult(s, k, id);
  }

  // ----- every step tells the truth -----

  /** What comes of a call that is unsettled changes nothing that was said before. */
  lemma MoreCame(m: map<Id, Outcome>, s: State, k: nat, id: nat, outcome: Outcome)
    requires Told(m, s) && Unsettled(s, k, id)
    ensures Told(m + map[(k, id) := outcome], s)
  {
    var n := m + map[(k, id) := outcome];
    forall j | 0 <= j < |s.clients|
      ensures ClientTold(n, j, s.clients[j])
    {
      assert ClientTold(m, j, s.clients[j]);
    }
  }

  lemma CameNow(m: map<Id, Outcome>, s: State, step: Step)
    requires Inv(s) && Told(m, s) && Enabled(s, step)
    ensures Told(m + CameBy(s, step), s)
  {
    hide Inv, Told, Unsettled;
    var now := CameBy(s, step);
    if now == map[] {
      assert m + now == m;
    } else {
      var id := CameOne(s, step);
      CameFirst(s, step, id.0, id.1);
      MoreCame(m, s, id.0, id.1, now[id]);
    }
  }

  lemma CameOne(s: State, step: Step) returns (id: Id)
    requires Enabled(s, step) && CameBy(s, step) != map[]
    ensures id in CameBy(s, step) && CameBy(s, step) == map[(id.0, id.1) := CameBy(s, step)[id]]
  {
    id :| id in CameBy(s, step);
  }

  /** A step of client k: what it says afterwards it said before, or has come of a call just now. */
  lemma OwnTold(m: map<Id, Outcome>, s: State, t: State, k: nat)
    requires Told(m, s) && k < |s.clients| == |t.clients|
    requires t.server == s.server || !t.server.Replying?
    requires forall j | 0 <= j < |s.clients| && j != k :: t.clients[j] == s.clients[j]
    requires ClientTold(m, k, t.clients[k])
    ensures Told(m, t)
  {
    hide ClientTold;
  }

  lemma ServerStepTold(m: map<Id, Outcome>, s: State, t: State)
    requires Told(m, s) && ServerTold(m, t.server) && |s.clients| == |t.clients|
    requires forall j | 0 <= j < |s.clients| ::
        && t.clients[j].called == s.clients[j].called && t.clients[j].ret == s.clients[j].ret
        && t.clients[j].stage == s.clients[j].stage
    ensures Told(m, t)
  {
    forall j | 0 <= j < |s.clients|
      ensures ClientTold(m, j, t.clients[j])
    {
      assert ClientTold(m, j, s.clients[j]);
    }
  }

  lemma ExecutedTold(m: map<Id, Outcome>, s: State, outcome: Outcome)
    requires s.server.Executing? && Told(m + OfCall(s.server.call, outcome), s)
    ensures Told(m + OfCall(s.server.call, outcome), Executed(s, outcome))
  {
    hide Told;
    ServerStepTold(m + OfCall(s.server.call, outcome), s, Executed(s, outcome));
  }

  lemma DrainTold(m: map<Id, Outcome>, s: State)
    requires Enabled(s, Drain) && Told(m + OfCall(s.queue[0], ServerClosed), s)
    ensures Told(m + OfCall(s.queue[0], ServerClosed), Apply(s, Drain))
  {
    hide Told;
    ServerStepTold(m + OfCall(s.queue[0], ServerClosed), s, Apply(s, Drain));
  }

  lemma SilentTold(m: map<Id, Outcome>, s: State, step: Step)
    requires Told(m, s) && Enabled(s, step) && (step.Go? || step.GoHandOver? || step.Take? || step.Close?)
    ensures Told(m, Apply(s, step))
  {
    hide ClientTold;
  }

  lemma ReplyTold(m: map<Id, Outcome>, s: State)
    requires Told(m, s) && Enabled(s, Reply)
    ensures Told(m, Replied(s))
  {
    var t := Replied(s);
    forall j | 0 <= j < |t.clients|
      ensures ClientTold(m, j, t.clients[j])
    {
      assert ClientTold(m, j, s.clients[j]);
    }
  }

  lemma OpenTold(m: map<Id, Outcome>, s: State, capacity: nat)
    requires Told(m, s)
    ensures Told(m, Apply(s, Open(capacity)))
  {
  }

  lemma ClientStepTold(m: map<Id, Outcome>, s: State, step: Step, k: nat)
    requires Enabled(s, step) && Told(m + CameBy(s, step), s)
    requires
      || step == AsynCall(k) || step == Refuse(k) || step == Send(k) || step == SendFull(k) || step == SendFails(k)
      || step == HandOver(k) || step == Report(k) || step == Count(k) || step == Cb(k) || step == SyncCall(k)
      || step == SyncSend(k) || step == SyncHandOver(k) || step == SyncFails(k) || step == SyncReceive(k)
    ensures Told(m + CameBy(s, step), Apply(s, step))
  {
    var n, t := m + CameBy(s, step), Apply(s, step);
    assert ClientTold(n, k, s.clients[k]);
    OwnTold(n, s, t, k);
  }

  /** Each step keeps what is said true. */
  lemma StepTold(m: map<Id, Outcome>, s: State, step: Step)
    requires Inv(s) && Told(m, s) && Enabled(s, step)
    ensures Told(m + CameBy(s, step), Apply(s, step))
  {
    hide Inv, Told;
    CameNow(m, s, step);
    var n := m + CameBy(s, step);
    match step
    case Open(capacity) => OpenTold(n, s, capacity);
    case Go => SilentTold(n, s, step);
    case GoHandOver => SilentTold(n, s, step);
    case Take => SilentTold(n, s, step);
    case Close => SilentTold(n, s, step);
    case Return(value) => ExecutedTold(m, s, Returned(value));
    case Panic => ExecutedTold(m, s, Panicked);
    case Reply => ReplyTold(n, s);
    case Drain => DrainTold(m, s);
    case _ => ClientStepTold(m, s, step, step.k);
  }

  lemma {:induction false} RunTold(m: map<Id, Outcome>, s: State, steps: seq<Step>)
    requires Inv(s) && Told(m, s) && Possible(s, steps)
    ensures Told(Came(m, s, steps), After(s, steps))
    decreases |steps|
  {
    hide Inv, Told;
    if steps != [] {
      StepKeeps(s, steps[0]);
      StepTold(m, s, steps[0]);
      RunTold(m + CameBy(s, steps[0]), Apply(s, steps[0]), steps[1..]);
    }
  }

  // ----- synchronous calls -----

  /** What comes of a synchronous call of client k in a step. */
  function SyncCame(s: State, step: Step, k: nat): seq<Outcome>
    requires Enabled(s, step)
  {
    match step
    case Return(value) => if s.server.call == Sync(k) then [Returned(value)] else []
    case Panic => if s.server.call == Sync(k) then [Panicked] else []
    case Drain => if s.queue[0] == Sync(k) then [ServerClosed] else []
    case _ => []
  }

  ghost function AllSyncCame(s: State, steps: seq<Step>, k: nat): seq<Outcome>
    requires Possible(s, steps)
    decreases |steps|
  {
    if steps == [] then [] else SyncCame(s, steps[0], k) + AllSyncCame(Apply(s, steps[0]), steps[1..], k)
  }

  /** What client k receives. */
  function SyncGot(s: State, step: Step, k: nat): seq<Outcome>
    requires Enabled(s, step)
  {
    if step == SyncReceive(k) then [s.clients[k].syncRet[0]] else []
  }

  ghost function AllSyncGot(s: State, steps: seq<Step>, k: nat): seq<Outcome>
    requires Possible(s, steps)
    decreases |steps|
  {
    if steps == [] then [] else SyncGot(s, steps[0], k) + AllSyncGot(Apply(s, steps[0]), steps[1..], k)
  }

  /** What has come of synchronous calls of client k and has not been received. */
  function OnTheWay(s: State, k: nat): seq<Outcome> {
    (if k < |s.clients| then s.clients[k].syncRet else []) +
    (if s.server.Replying? && s.server.call == Sync(k) then [s.server.outcome] else [])
  }

  lemma SyncStep(s: State, step: Step, k: nat)
    requires Inv(s) && Enabled(s, step)
    ensures OnTheWay(s, k) + SyncCame(s, step, k) == SyncGot(s, step, k) + OnTheWay(Apply(s, step), k)
  {
    hide Inv;
    if step.Return? || step.Panic? || step.Reply? || step.Drain? {
      ServerSync(s, step, k);
    } else {
      ClientSync(s, step, k);
    }
  }

  lemma ClientSync(s: State, step: Step, k: nat)
    requires Enabled(s, step) && !step.Return? && !step.Panic? && !step.Reply? && !step.Drain?
    ensures OnTheWay(s, k) == SyncGot(s, step, k) + OnTheWay(Apply(s, step), k) && SyncCame(s, step, k) == []
  {
    hide OnTheWay;
    if step == SyncReceive(k) {
      SyncReceived(s, k);
    } else {
      KeptOnTheWay(s, Apply(s, step), k);
    }
  }

  lemma SyncReceived(s: State, k: nat)
    requires Enabled(s, SyncReceive(k))
    ensures OnTheWay(s, k) == SyncGot(s, SyncReceive(k), k) + OnTheWay(Apply(s, SyncReceive(k)), k)
  {
    var c := s.clients[k];
    assert c.syncRet == [c.syncRet[0]] + c.syncRet[1..];
  }

  lemma KeptOnTheWay(s: State, t: State, k: nat)
    requires |s.clients| <= |t.clients|
    requires k < |s.clients| ==> t.clients[k].syncRet == s.clients[k].syncRet
    requires |s.clients| <= k < |t.clients| ==> t.clients[k].syncRet == []
    requires t.server == s.server || (!s.server.Replying? && !t.server.Replying?)
    ensures OnTheWay(t, k) == OnTheWay(s, k)
  {
  }

  lemma ServerSync(s: State, step: Step, k: nat)
    requires Enabled(s, step) && (step.Return? || step.Panic? || step.Reply? || step.Drain?)
    ensures OnTheWay(s, k) + SyncCame(s, step, k) == OnTheWay(Apply(s, step), k) && SyncGot(s, step, k) == []
  {
  }

  /** Client k receives what came of its synchronous calls, in order. */
  lemma {:induction false} SyncRun(s: State, steps: seq<Step>, k: nat)
    requires Inv(s) && Possible(s, steps)
    ensures OnTheWay(s, k) + AllSyncCame(s, steps, k) == AllSyncGot(s, steps, k) + OnTheWay(After(s, steps), k)
    decreases |steps|
  {
    hide Inv, OnTheWay, SyncCame, SyncGot;
    if steps != [] {
      var t := Apply(s, steps[0]);
      StepKeeps(s, steps[0]);
      SyncStep(s, steps[0], k);
      SyncRun(t, steps[1..], k);
      var a, b, c := SyncCame(s, steps[0], k), AllSyncCame(t, steps[1..], k), SyncGot(s, steps[0], k);
      assert OnTheWay(s, k) + (a + b) == (OnTheWay(s, k) + a) + b == c + (OnTheWay(t, k) + b);
    }
  }

  // ----- what follows -----

  /** On every run, each callback has been told what came of its call; and when a client is idle, so has that of every
      call it made. */
  lemma CallbacksTrue(capacity: nat, steps: seq<Step>, k: nat)
    requires Possible(Init(capacity), steps) && k < |After(Init(capacity), steps).clients|
    ensures var s, m := After(Init(capacity), steps), Came(map[], Init(capacity), steps); var c := s.clients[k];
      && TrueAll(m, k, c.called)
      && (c.stage == Ready && c.pending == 0 ==> forall id: nat | id < c.issued :: Answered(m, k, c.called, id))
  {
    var s, m := After(Init(capacity), steps), Came(map[], Init(capacity), steps);
    hide Inv, Once;
    InitInv(capacity);
    RunKeeps(Init(capacity), steps);
    RunTold(map[], Init(capacity), steps);
    var c := s.clients[k];
    assert ClientTold(m, k, c);
    if c.stage == Ready && c.pending == 0 {
      IdleMeansDone(s, k);
      forall id: nat | id < c.issued
        ensures Answered(m, k, c.called, id)
      {
        OnceHas(Pick(c.called, All), c.issued, id);
        PickedFrom(c.called, id);
      }
    }
  }

  /** Some callback for the call id was told what came of it. */
  ghost predicate Answered(m: map<Id, Outcome>, k: nat, called: seq<RetInfo>, id: nat) {
    exists r :: r in called && r.id == id && True(m, k, r)
  }

  lemma OnceHas(ids: seq<nat>, n: nat, id: nat)
    requires Once(ids, n) && id < n
    ensures id in ids
  {
  }

  lemma {:induction false} PickedFrom(results: seq<RetInfo>, id: nat)
    requires id in Pick(results, All)
    ensures exists r :: r in results && r.id == id
  {
    if results[0].id != id {
      PickedFrom(results[1..], id);
      var r :| r in results[1..] && r.id == id;
      assert r in results;
    } else {
      assert results[0] in results;
    }
  }

  /** On every run, what a client has received for its synchronous calls is what came of them, in order; and all of it
      while it is not waiting. */
  lemma SyncTrue(capacity: nat, steps: seq<Step>, k: nat)
    requires Possible(Init(capacity), steps) && k < |After(Init(capacity), steps).clients|
    ensures var c := After(Init(capacity), steps).clients[k];
      var got, came := AllSyncGot(Init(capacity), steps, k), AllSyncCame(Init(capacity), steps, k);
      got <= came && (!c.stage.SyncWaiting? ==> got == came)
  {
    var s := After(Init(capacity), steps);
    hide Inv;
    InitInv(capacity);
    RunKeeps(Init(capacity), steps);
    SyncRun(Init(capacity), steps, k);
    var came := AllSyncCame(Init(capacity), steps, k);
    assert OnTheWay(Init(capacity), k) + came == came;
    if !s.clients[k].stage.SyncWaiting? {
      NothingOnTheWay(s, k);
    }
  }

  lemma NothingOnTheWay(s: State, k: nat)
    requires Inv(s) && k < |s.clients| && !s.clients[k].stage.SyncWaiting?
    ensures OnTheWay(s, k) == []
  {
    hide Of, Syncs, Traced;
    assert FineAt(s, k);
    if s.server.Replying? && s.server.call == Sync(k) {
      assert Calls(s) == [s.server.call] + s.queue;
      OfFirst(s.server.call, s.queue, k);
    }
  }
}
