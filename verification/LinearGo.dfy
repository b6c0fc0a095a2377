/** `LinearContext`: functions that run one at a time in goroutines of their own, and their callbacks. */
module LinearGo {

  /** What comes out of `ChanCb`: the callback of one of this context's functions, numbered in the order of submission,
      or of a goroutine started otherwise on the same `Go`. */
  datatype Entry = Own(task: nat) | Foreign

  /** Where the goroutine that owns the `Go` is within `LinearContext.Go`: outside, behind `pendingGo++`, behind the
      `PushBack`. */
  datatype Owner = Ready | Counted | Pushed

  /** Where a goroutine started by `LinearContext.Go` is. */
  datatype Worker = Blocked | Locked | Running(task: nat) | Sending(task: nat) | Sent | Done

  datatype Event = Start(task: nat) | End(task: nat)

  /** listed is the list of functions, execution the mutex that is held while one runs, others the goroutines
      started otherwise, inside the callbacks that have not returned yet; submitted, log and received record what
      has happened. */
  datatype State = State(capacity: nat, pending: int, listed: seq<nat>, execution: bool, channel: seq<Entry>,
    owner: Owner, workers: seq<Worker>, others: nat, inside: nat, crashed: bool,
    submitted: nat, log: seq<Event>, received: seq<Entry>)

  /** One atomic step; g is the number of a worker. A channel operation between a blocked sender and a receiver with
      nothing buffered between them is a step of both. */
  datatype Step =
    | Count | Push | Spawn
    | Lock(g: nat) | Pop(g: nat) | Finish(g: nat) | Send(g: nat) | HandOver(g: nat) | Unlock(g: nat)
    | OtherGo | OtherSend | OtherHandOver
    | Receive | Return

  predicate At(s: State, g: nat, w: Worker) {
    g < |s.workers| && s.workers[g] == w
  }

  predicate Carries(s: State, g: nat) {
    g < |s.workers| && s.workers[g].Sending?
  }

  predicate Enabled(s: State, step: Step) {
    !s.crashed &&
    match step
    case Count => s.owner == Ready
    case Push => s.owner == Counted
    case Spawn => s.owner == Pushed
    case Lock(g) => At(s, g, Blocked) && !s.execution
    case Pop(g) => At(s, g, Locked)
    case Finish(g) => g < |s.workers| && s.workers[g].Running?
    case Send(g) => Carries(s, g) && |s.channel| < s.capacity
    case HandOver(g) => Carries(s, g) && s.owner == Ready && s.channel == []
    case Unlock(g) => At(s, g, Sent)
    case OtherGo => s.owner == Ready
    case OtherSend => s.others > 0 && |s.channel| < s.capacity
    case OtherHandOver => s.others > 0 && s.owner == Ready && s.channel == []
    case Receive => s.owner == Ready && s.channel != []
    case Return => s.owner == Ready && s.inside > 0
  }

  function Apply(s: State, step: Step): State
    requires Enabled(s, step)
  {
    match step
    case Count => s.(owner := Counted, pending := s.pending + 1)
    case Push => s.(owner := Pushed, listed := s.listed + [s.submitted], submitted := s.submitted + 1)
    case Spawn => s.(owner := Ready, workers := s.workers + [Blocked])
    case Lock(g) => s.(workers := s.workers[g := Locked], execution := true)
    case Pop(g) =>
      if s.listed == [] then s.(crashed := true)
      else
        s.(workers := s.workers[g := Running(s.listed[0])], listed := s.listed[1..],
          log := s.log + [Start(s.listed[0])])
    case Finish(g) =>
      var task := s.workers[g].task;
      s.(workers := s.workers[g := Sending(task)], log := s.log + [End(task)])
    case Send(g) => s.(workers := s.workers[g := Sent], channel := s.channel + [Own(s.workers[g].task)])
    case HandOver(g) =>
      s.(workers := s.workers[g := Sent], received := s.received + [Own(s.workers[g].task)], inside := s.inside + 1)
    case Unlock(g) => s.(workers := s.workers[g := Done], execution := false)
    case OtherGo => s.(pending := s.pending + 1, others := s.others + 1)
    case OtherSend => s.(others := s.others - 1, channel := s.channel + [Foreign])
    case OtherHandOver =>
      s.(others := s.others - 1, received := s.received + [Foreign], inside := s.inside + 1)
    case Receive =>
      s.(channel := s.channel[1..], received := s.received + [s.channel[0]], inside := s.inside + 1)
    case Return => s.(inside := s.inside - 1, pending := s.pending - 1)
  }

  function Init(capacity: nat): State {
    State(capacity, 0, [], false, [], Ready, [], 0, 0, false, 0, [], [])
  }

  /** The steps can be taken one after the other. */
  ghost predicate Possible(s: State, steps: seq<Step>)
    decreases |steps|
  {
    steps == [] || (Enabled(s, steps[0]) && Possible(Apply(s, steps[0]), steps[1..]))
  }

  ghost function After(s: State, steps: seq<Step>): State
    requires Possible(s, steps)
    decreases |steps|
  {
    if steps == [] then s else After(Apply(s, steps[0]), steps[1..])
  }

  // ----- the invariant -----

  function Total(workers: seq<Worker>, weight: Worker -> nat): nat {
    if workers == [] then 0 else weight(workers[0]) + Total(workers[1..], weight)
  }

  lemma {:induction false} TotalUpdate(workers: seq<Worker>, weight: Worker -> nat, g: nat, w: Worker)
    requires g < |workers|
    ensures Total(workers[g := w], weight) == Total(workers, weight) - weight(workers[g]) + weight(w)
    ensures Total(workers, weight) >= weight(workers[g])
  {
    var next := workers[g := w];
    if g == 0 {
      assert next[1..] == workers[1..];
    } else {
      assert next[1..] == workers[1..][g - 1 := w];
      TotalUpdate(workers[1..], weight, g - 1, w);
    }
  }

  lemma {:induction false} TotalAppend(workers: seq<Worker>, weight: Worker -> nat, w: Worker)
    ensures Total(workers + [w], weight) == Total(workers, weight) + weight(w)
  {
    if workers == [] {
      assert (workers + [w])[1..] == [];
    } else {
      assert (workers + [w])[1..] == workers[1..] + [w];
      TotalAppend(workers[1..], weight, w);
    }
  }

  /** 1 for a worker that has yet to pop a function. */
  function Unpopped(w: Worker): nat {
    if w.Blocked? || w.Locked? then 1 else 0
  }

  /** 1 for a worker whose callback has yet to be sent. */
  function Carrying(w: Worker): nat {
    if w.Running? || w.Sending? then 1 else 0
  }

  /** 1 for a worker that holds the mutex. */
  function Inside(w: Worker): nat {
    if w.Blocked? || w.Done? then 0 else 1
  }

  /** 1 for a worker whose function has started and not ended. */
  function Executing(w: Worker): nat {
    if w.Running? then 1 else 0
  }

  /** The functions of this context among the entries, in order. */
  function OwnTasks(s: seq<Entry>): seq<nat> {
    if s == [] then []
    else
      var front := OwnTasks(s[..|s| - 1]);
      match s[|s| - 1]
      case Own(task) => front + [task]
      case Foreign => front
  }

  /** How many functions were popped so far. */
  function Popped(s: State): int {
    s.submitted - |s.listed|
  }

  ghost predicate Upto(s: seq<nat>, n: int) {
    |s| == n && forall i | 0 <= i < |s| :: s[i] == i
  }

  /** Each function starts only when the one before it has ended. */
  ghost predicate OneAtATime(log: seq<Event>) {
    forall i | 0 <= i < |log| :: log[i] == if i % 2 == 0 then Start(i / 2) else End(i / 2)
  }

  ghost predicate Counts(s: State) {
    && s.pending == (if s.owner == Counted then 1 else 0) + |s.listed| + Total(s.workers, Carrying) + s.others +
      |s.channel| + s.inside
    && |s.listed| == Total(s.workers, Unpopped) + (if s.owner == Pushed then 1 else 0)
    && Total(s.workers, Inside) == (if s.execution then 1 else 0)
  }

  ghost predicate Order(s: State) {
    && Popped(s) >= 0 && (forall i | 0 <= i < |s.listed| :: s.listed[i] == Popped(s) + i)
    && (forall g | 0 <= g < |s.workers| && (s.workers[g].Running? || s.workers[g].Sending?) ::
      s.workers[g].task == Popped(s) - 1)
    && OneAtATime(s.log)
    && |s.log| == 2 * Popped(s) - Total(s.workers, Executing)
    && Upto(OwnTasks(s.received + s.channel), Popped(s) - Total(s.workers, Carrying))
  }

  ghost predicate Inv(s: State) {
    !s.crashed && |s.channel| <= s.capacity && Counts(s) && Order(s)
  }

  // ----- every step keeps it -----

  lemma {:induction false} Nobody(workers: seq<Worker>)
    requires Total(workers, Inside) == 0
    ensures Total(workers, Carrying) == 0 && Total(workers, Executing) == 0
    ensures forall h | 0 <= h < |workers| :: Inside(workers[h]) == 0
  {
    if workers == [] {
    } else {
      Nobody(workers[1..]);
      assert forall h | 0 < h < |workers| :: workers[h] == workers[1..][h - 1];
    }
  }

  /** Whoever holds the mutex is alone. */
  lemma {:induction false} Alone(workers: seq<Worker>, g: nat)
    requires g < |workers| && Inside(workers[g]) == 1 && Total(workers, Inside) == 1
    ensures Total(workers, Carrying) == Carrying(workers[g]) && Total(workers, Executing) == Executing(workers[g])
    ensures forall h | 0 <= h < |workers| && h != g :: Inside(workers[h]) == 0
  {
    if g == 0 {
      Nobody(workers[1..]);
      assert forall h | 0 < h < |workers| :: workers[h] == workers[1..][h - 1];
    } else {
      assert workers[g] == workers[1..][g - 1];
      TotalUpdate(workers[1..], Inside, g - 1, workers[g]);
      Alone(workers[1..], g - 1);
      assert forall h | 0 < h < |workers| :: workers[h] == workers[1..][h - 1];
    }
  }

  /** The worker that holds the mutex, at what it does next. */
  lemma Advance(s: State, g: nat, w: Worker)
    requires Inv(s) && g < |s.workers| && Inside(s.workers[g]) == 1
    ensures s.execution
    ensures Total(s.workers, Carrying) == Carrying(s.workers[g]) &&
      Total(s.workers, Executing) == Executing(s.workers[g])
    ensures forall h | 0 <= h < |s.workers| && h != g :: Inside(s.workers[h]) == 0
    ensures var next := s.workers[g := w];
      && Total(next, Carrying) == Carrying(w) && Total(next, Executing) == Executing(w) &&
        Total(next, Inside) == Inside(w)
      && Total(next, Unpopped) == Total(s.workers, Unpopped) - Unpopped(s.workers[g]) + Unpopped(w)
      && Total(s.workers, Unpopped) >= Unpopped(s.workers[g])
  {
    TotalUpdate(s.workers, Inside, g, w);
    Alone(s.workers, g);
    TotalUpdate(s.workers, Carrying, g, w);
    TotalUpdate(s.workers, Executing, g, w);
    TotalUpdate(s.workers, Unpopped, g, w);
  }

  lemma OwnTasksAppend(s: seq<Entry>, e: Entry)
    ensures OwnTasks(s + [e]) == if e.Own? then OwnTasks(s) + [e.task] else OwnTasks(s)
  {
    assert (s + [e])[..|s|] == s;
  }

  lemma InitInv(capacity: nat)
    ensures Inv(Init(capacity))
  {
    var none: seq<Entry> := [];
    assert none + none == none;
  }

  lemma StepKeeps(s: State, step: Step)
    requires Inv(s) && Enabled(s, step)
    ensures Inv(Apply(s, step))
  {
    hide Inv;
    match step
    case Count => PushKeeps(s);
    case Push => PushKeeps(s);
    case Spawn => SpawnKeeps(s);
    case Lock(g) => LockKeeps(s, g);
    case Pop(g) => PopKeeps(s, g);
    case Finish(g) => FinishKeeps(s, g);
    case Send(g) => SendKeeps(s, g);
    case HandOver(g) => HandOverKeeps(s, g);
    case Unlock(g) => UnlockKeeps(s, g);
    case OtherGo => OtherKeeps(s, step);
    case OtherSend => OtherKeeps(s, step);
    case OtherHandOver => OtherKeeps(s, step);
    case Receive => ReceiveKeeps(s);
    case Return => ReceiveKeeps(s);
  }

  lemma PushKeeps(s: State)
    requires Inv(s)
    ensures Enabled(s, Count) ==> Inv(Apply(s, Count))
    ensures Enabled(s, Push) ==> Inv(Apply(s, Push))
  {
    hide OwnTasks, Total;
  }

  lemma ReceiveKeeps(s: State)
    requires Inv(s)
    ensures Enabled(s, Receive) ==> Inv(Apply(s, Receive))
    ensures Enabled(s, Return) ==> Inv(Apply(s, Return))
  {
    hide OwnTasks, Total;
    if s.channel != [] {
      assert s.received + [s.channel[0]] + s.channel[1..] == s.received + s.channel;
    }
  }

  lemma OtherKeeps(s: State, step: Step)
    requires Inv(s) && Enabled(s, step) && (step.OtherGo? || step.OtherSend? || step.OtherHandOver?)
    ensures Inv(Apply(s, step))
  {
    hide OwnTasks, Total;
    OwnTasksAppend(s.received + s.channel, Foreign);
    assert s.received + (s.channel + [Foreign]) == s.received + s.channel + [Foreign];
    assert s.channel == [] ==> s.received + [Foreign] + s.channel == s.received + s.channel + [Foreign];
  }

  lemma UnlockKeeps(s: State, g: nat)
    requires Inv(s) && Enabled(s, Unlock(g))
    ensures Inv(Apply(s, Unlock(g)))
  {
    hide OwnTasks, Total;
    Advance(s, g, Done);
  }

  lemma SpawnKeeps(s: State)
    requires Inv(s) && Enabled(s, Spawn)
    ensures Inv(Apply(s, Spawn))
  {
    hide OwnTasks, Total;
    TotalAppend(s.workers, Unpopped, Blocked);
    TotalAppend(s.workers, Carrying, Blocked);
    TotalAppend(s.workers, Executing, Blocked);
    TotalAppend(s.workers, Inside, Blocked);
  }

  lemma LockKeeps(s: State, g: nat)
    requires Inv(s) && Enabled(s, Lock(g))
    ensures Inv(Apply(s, Lock(g)))
  {
    hide OwnTasks, Total;
    TotalUpdate(s.workers, Unpopped, g, Locked);
    TotalUpdate(s.workers, Carrying, g, Locked);
    TotalUpdate(s.workers, Executing, g, Locked);
    TotalUpdate(s.workers, Inside, g, Locked);
  }

  lemma PopKeeps(s: State, g: nat)
    requires Inv(s) && Enabled(s, Pop(g))
    ensures s.listed != [] && Inv(Apply(s, Pop(g)))
  {
    hide OwnTasks, Total;
    Advance(s, g, Running(Popped(s)));
  }

  lemma FinishKeeps(s: State, g: nat)
    requires Inv(s) && Enabled(s, Finish(g))
    ensures Inv(Apply(s, Finish(g)))
  {
    hide OwnTasks, Total;
    Advance(s, g, Sending(s.workers[g].task));
  }

  lemma SendKeeps(s: State, g: nat)
    requires Inv(s) && Enabled(s, Send(g))
    ensures Inv(Apply(s, Send(g)))
  {
    hide OwnTasks, Total;
    Advance(s, g, Sent);
    var e := Own(s.workers[g].task);
    OwnTasksAppend(s.received + s.channel, e);
    assert s.received + (s.channel + [e]) == s.received + s.channel + [e];
  }

  lemma HandOverKeeps(s: State, g: nat)
    requires Inv(s) && Enabled(s, HandOver(g))
    ensures Inv(Apply(s, HandOver(g)))
  {
    hide OwnTasks, Total;
    Advance(s, g, Sent);
    var e := Own(s.workers[g].task);
    OwnTasksAppend(s.received + s.channel, e);
    assert s.received + [e] + s.channel == s.received + s.channel + [e];
  }

  /** Every run keeps the invariant: no goroutine finds the list empty, functions run one at a time and in the order of
      submission, and their callbacks enter the channel in that order. */
  lemma {:induction false} RunKeeps(s: State, steps: seq<Step>)
    requires Inv(s) && Possible(s, steps)
    ensures Inv(After(s, steps))
    decreases |steps|
  {
    if steps == [] {
    } else {
      StepKeeps(s, steps[0]);
      RunKeeps(Apply(s, steps[0]), steps[1..]);
    }
  }

  lemma Safe(capacity: nat, steps: seq<Step>)
    requires Possible(Init(capacity), steps)
    ensures var s := After(Init(capacity), steps);
      && !s.crashed && OneAtATime(s.log) && |s.log| <= 2 * s.submitted
      && var tasks := OwnTasks(s.received + s.channel); |tasks| <= s.submitted && Upto(tasks, |tasks|)
  {
    InitInv(capacity);
    RunKeeps(Init(capacity), steps);
  }

  /** When `Idle` holds between calls, every function has run and every callback been received, each once and in
      order. */
  lemma IdleMeansDone(s: State)
    requires Inv(s) && s.owner == Ready && s.pending == 0
    ensures |s.log| == 2 * s.submitted && OneAtATime(s.log) && Upto(OwnTasks(s.received), s.submitted)
  {
    hide OwnTasks, Total;
    assert s.received + s.channel == s.received;
    ExecutingCarries(s.workers);
  }

  lemma {:induction false} ExecutingCarries(workers: seq<Worker>)
    ensures Total(workers, Executing) <= Total(workers, Carrying)
  {
    if workers == [] {
    } else {
      ExecutingCarries(workers[1..]);
    }
  }

  // ----- closing -----

  /** The steps that are left for a worker. */
  function Left(w: Worker): nat {
    match w
    case Blocked => 7
    case Locked => 6
    case Running(_) => 5
    case Sending(_) => 4
    case Sent => 1
    case Done => 0
  }

  /** A bound on the steps that are left when nothing more is submitted. */
  function Remaining(s: State): nat {
    3 * s.others + 2 * |s.channel| + s.inside + Total(s.workers, Left)
  }

  predicate Submits(step: Step) {
    step.Count? || step.Push? || step.Spawn? || step.OtherGo?
  }

  /** While `Close` waits for callbacks, one can be received or something else moves, and only so often. */
  lemma CloseProgress(s: State)
    returns (step: Step)
    requires Inv(s) && s.owner == Ready && s.pending > 0
    ensures Enabled(s, step) && !Submits(step)
  {
    hide OwnTasks;
    if s.inside > 0 {
      step := Return;
    } else if s.channel != [] {
      step := Receive;
    } else if s.others > 0 {
      step := OtherHandOver;
    } else if s.execution {
      var g := Find(s.workers, Inside);
      step :=
        match s.workers[g]
        case Locked => Pop(g)
        case Running(_) => Finish(g)
        case Sending(_) => HandOver(g)
        case _ => Unlock(g);
    } else {
      Nobody(s.workers);
      var g := Find(s.workers, Unpopped);
      step := Lock(g);
    }
  }

  lemma {:induction false} Find(workers: seq<Worker>, weight: Worker -> nat) returns (g: nat)
    requires Total(workers, weight) > 0
    ensures g < |workers| && weight(workers[g]) > 0
  {
    if weight(workers[0]) > 0 {
      g := 0;
    } else {
      g := Find(workers[1..], weight);
      g := g + 1;
    }
  }

  lemma CloseEnds(s: State, step: Step)
    requires Inv(s) && s.owner == Ready && Enabled(s, step) && !Submits(step)
    ensures var t := Apply(s, step); t.owner == Ready && Remaining(t) < Remaining(s)
  {
    hide OwnTasks, Total;
    match step
    case Lock(g) => TotalUpdate(s.workers, Left, g, Locked);
    case Pop(g) =>
      PopKeeps(s, g);
      TotalUpdate(s.workers, Left, g, Running(s.listed[0]));
    case Finish(g) => TotalUpdate(s.workers, Left, g, Sending(s.workers[g].task));
    case Send(g) => TotalUpdate(s.workers, Left, g, Sent);
    case HandOver(g) => TotalUpdate(s.workers, Left, g, Sent);
    case Unlock(g) => TotalUpdate(s.workers, Left, g, Done);
    case _ =>
  }
}
