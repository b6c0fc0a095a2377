/** One connection: any number of goroutines that write and close, and the goroutine that sends. */
module TcpConn {
  import opened ByteOrder
  import opened TcpMsg

  /** What goes into `writeChan`; `Stop` is nil. */
  datatype Item = Data(bytes: seq<Byte>) | Stop

  /** Who holds the mutex: nobody, or a writer or closer between the test of `doWrite` and its send. */
  datatype Holder = Nobody | Checked(item: Item)

  /** Where the sending goroutine is: in the receive, in `conn.Write`, behind the loop, behind `conn.Close`, at its end.
      failed says whether a write failed. */
  datatype Sender =
    | Receiving | Sending(bytes: seq<Byte>)
    | Leaving(failed: bool) | Flagging(failed: bool) | Done(failed: bool)

  /** accepted records what was sent on writeChan, wire what was handed to the network. */
  datatype State = State(capacity: nat, channel: seq<Item>, chanClosed: bool, closeFlag: bool, connClosed: bool,
    holder: Holder, sender: Sender, crashed: bool, accepted: seq<seq<Byte>>, wire: seq<Byte>)

  /** One atomic step. A writer or closer that does not get to the send is done in one step under the mutex. */
  datatype Step =
    | Write(bytes: seq<Byte>) | Close | Destroy | Put
    | Receive | LoopEnds | WriteAll | WriteFails(n: nat) | HangUp | Flag

  predicate Enabled(s: State, step: Step) {
    !s.crashed &&
    match step
    case Write(_) => s.holder.Nobody?
    case Close => s.holder.Nobody?
    case Destroy => s.holder.Nobody?
    case Put => s.holder.Checked? && (s.chanClosed || |s.channel| < s.capacity)
    case Receive => s.sender.Receiving? && s.channel != []
    case LoopEnds => s.sender.Receiving? && s.channel == [] && s.chanClosed
    case WriteAll => s.sender.Sending? && !s.connClosed
    case WriteFails(n) => s.sender.Sending? && n <= |s.sender.bytes|
    case HangUp => s.sender.Leaving?
    case Flag => s.sender.Flagging? && s.holder.Nobody?
  }

  /** `doDestroy`; closing a closed channel panics. */
  function Destroyed(s: State): State {
    var t := s.(connClosed := true);
    if t.closeFlag then t
    else if t.chanClosed then t.(crashed := true)
    else t.(chanClosed := true, closeFlag := true)
  }

  /** `doWrite` up to its send */
  function DoWrite(s: State, item: Item): State {
    if |s.channel| == s.capacity then Destroyed(s) else s.(holder := Checked(item))
  }

  function Apply(s: State, step: Step): State
    requires Enabled(s, step)
  {
    match step
    case Write(bytes) => if s.closeFlag then s else DoWrite(s, Data(bytes))
    case Close =>
      if s.closeFlag then s
      else
        var t := DoWrite(s, Stop);
        if t.holder.Nobody? then t.(closeFlag := true) else t
    case Destroy => Destroyed(s)
    case Put =>
      var item := s.holder.item;
      if s.chanClosed then s.(crashed := true)
      else
        var t := s.(channel := s.channel + [item], holder := Nobody);
        if item.Data? then t.(accepted := t.accepted + [item.bytes]) else t.(closeFlag := true)
    case Receive =>
      var item := s.channel[0];
      s.(channel := s.channel[1..], sender := if item.Data? then Sending(item.bytes) else Leaving(false))
    case LoopEnds => s.(sender := Leaving(false))
    case WriteAll => s.(sender := Receiving, wire := s.wire + s.sender.bytes)
    case WriteFails(n) => s.(sender := Leaving(true), wire := s.wire + s.sender.bytes[..n])
    case HangUp => s.(sender := Flagging(s.sender.failed), connClosed := true)
    case Flag => s.(sender := Done(s.sender.failed), closeFlag := true)
  }

  function Init(capacity: nat): State {
    State(capacity, [], false, false, false, Nobody, Receiving, false, [], [])
  }

  ghost predicate Possible(s: State, steps: seq<Step>)
    decreases |steps|
  {
    steps == [] || (Enabled(s, steps[0]) && Possible(Apply(s, steps[0]), steps[1..]))
  }

  ghost function After(s: State, steps: seq<Step>): State
    requires Possible(s, steps)
    decreases |steps|
  {
    if steps == [] then s else After(Apply(s, steps[0]), steps[1..])
  }

  // ----- the invariant -----

  /** The bytes that wait in the channel. */
  function Waiting(channel: seq<Item>): seq<Byte> {
    if channel == [] then []
    else (if channel[0].Data? then channel[0].bytes else []) + Waiting(channel[1..])
  }

  /** What the sending goroutine has sent, and has yet to send, is what was accepted; a failed write loses the rest. */
  ghost predicate Flows(s: State) {
    match s.sender
    case Receiving => s.wire + Waiting(s.channel) == Concat(s.accepted)
    case Sending(bytes) => s.wire + bytes + Waiting(s.channel) == Concat(s.accepted)
    case Leaving(failed) => if failed then s.wire <= Concat(s.accepted) else Finished(s)
    case Flagging(failed) => if failed then s.wire <= Concat(s.accepted) else Finished(s)
    case Done(failed) => s.closeFlag && if failed then s.wire <= Concat(s.accepted) else Finished(s)
  }

  ghost predicate Finished(s: State) {
    s.closeFlag && s.wire == Concat(s.accepted)
  }

  ghost predicate Inv(s: State) {
    && !s.crashed && |s.channel| <= s.capacity
    && (s.chanClosed ==> s.closeFlag)
    && (s.holder.Checked? ==> !s.closeFlag && |s.channel| < s.capacity)
    && (forall i | 0 <= i < |s.channel| :: s.channel[i].Stop? ==> i == |s.channel| - 1 && s.closeFlag)
    && Flows(s)
  }

  lemma {:induction false} WaitingAppend(channel: seq<Item>, item: Item)
    ensures Waiting(channel + [item]) == Waiting(channel) + (if item.Data? then item.bytes else [])
  {
    if channel == [] {
      assert (channel + [item])[1..] == [];
    } else {
      assert (channel + [item])[1..] == channel[1..] + [item];
      WaitingAppend(channel[1..], item);
    }
  }

  lemma {:induction false} ConcatAppend(s: seq<seq<Byte>>, b: seq<Byte>)
    ensures Concat(s + [b]) == Concat(s) + b
  {
    if s == [] {
      assert Concat([b]) == b + Concat([b][1..]);
      assert s + [b] == [b];
    } else {
      assert (s + [b])[1..] == s[1..] + [b];
      ConcatAppend(s[1..], b);
    }
  }

  lemma PutKeeps(s: State)
    requires Inv(s) && Enabled(s, Put)
    ensures Inv(Apply(s, Put))
  {
    hide Waiting, Concat;
    WaitingAppend(s.channel, s.holder.item);
    if s.holder.item.Data? {
      ConcatAppend(s.accepted, s.holder.item.bytes);
    }
  }

  lemma ReceiveKeeps(s: State)
    requires Inv(s) && Enabled(s, Receive)
    ensures Inv(Apply(s, Receive))
  {
    hide Concat;
    var head, tail := s.channel[0], s.channel[1..];
    assert Waiting(s.channel) == (if head.Data? then head.bytes else []) + Waiting(tail);
    if head.Stop? {
      assert s.channel[0].Stop?;
      assert tail == [] && s.wire + [] == s.wire;
    } else {
      assert s.wire + (head.bytes + Waiting(tail)) == s.wire + head.bytes + Waiting(tail);
    }
    assert forall i | 0 <= i < |tail| :: tail[i] == s.channel[i + 1];
  }

  lemma SenderKeeps(s: State, step: Step)
    requires Inv(s) && Enabled(s, step) && (step.LoopEnds? || step.WriteAll? || step.WriteFails?)
    ensures Inv(Apply(s, step))
  {
    hide Concat;
    if step.LoopEnds? {
      assert s.wire + [] == s.wire;
    } else if step.WriteFails? {
      var b := s.sender.bytes;
      assert s.wire + b + Waiting(s.channel) == s.wire + b[..step.n] + (b[step.n..] + Waiting(s.channel));
    }
  }

  lemma StepKeeps(s: State, step: Step)
    requires Inv(s) && Enabled(s, step)
    ensures Inv(Apply(s, step))
  {
    hide Waiting, Concat;
    match step
    case Put => PutKeeps(s);
    case Receive => ReceiveKeeps(s);
    case LoopEnds => SenderKeeps(s, step);
    case WriteAll => SenderKeeps(s, step);
    case WriteFails(n) => SenderKeeps(s, step);
    case _ =>
  }

  lemma {:induction false} RunKeeps(s: State, steps: seq<Step>)
    requires Inv(s) && Possible(s, steps)
    ensures Inv(After(s, steps))
    decreases |steps|
  {
    if steps == [] {
    } else {
      StepKeeps(s, steps[0]);
      RunKeeps(Apply(s, steps[0]), steps[1..]);
    }
  }

  lemma InitInv(capacity: nat)
    ensures Inv(Init(capacity))
  {
  }

  /** On every run: no send on a closed channel and no second close; whoever holds the mutex can go on at once; and what
      went out is a part from the start of what was accepted. */
  lemma Safe(capacity: nat, steps: seq<Step>)
    requires Possible(Init(capacity), steps)
    ensures var s := After(Init(capacity), steps);
      !s.crashed && (s.holder.Checked? ==> Enabled(s, Put)) && s.wire <= Concat(s.accepted)
  {
    InitInv(capacity);
    RunKeeps(Init(capacity), steps);
  }

  /** What a step writes: nothing after the flag is set, or to a full channel. */
  function Written(s: State, step: Step): seq<seq<Byte>> {
    if step.Write? && !s.closeFlag && |s.channel| < s.capacity then [step.bytes] else []
  }

  ghost function AllWritten(s: State, steps: seq<Step>): seq<seq<Byte>>
    requires Possible(s, steps)
    decreases |steps|
  {
    if steps == [] then [] else Written(s, steps[0]) + AllWritten(Apply(s, steps[0]), steps[1..])
  }

  /** What is about to be accepted. */
  function InHand(s: State): seq<seq<Byte>> {
    if s.holder.Checked? && s.holder.item.Data? then [s.holder.item.bytes] else []
  }

  lemma WrittenStep(s: State, step: Step)
    requires Inv(s) && Enabled(s, step)
    ensures s.accepted + InHand(s) + Written(s, step) == Apply(s, step).accepted + InHand(Apply(s, step))
  {
  }

  lemma {:induction false} WrittenRun(s: State, steps: seq<Step>)
    requires Inv(s) && Possible(s, steps)
    ensures s.accepted + InHand(s) + AllWritten(s, steps) == After(s, steps).accepted + InHand(After(s, steps))
    decreases |steps|
  {
    hide Inv, InHand, Written;
    if steps != [] {
      var t := Apply(s, steps[0]);
      StepKeeps(s, steps[0]);
      WrittenStep(s, steps[0]);
      WrittenRun(t, steps[1..]);
      var a, b := Written(s, steps[0]), AllWritten(t, steps[1..]);
      assert s.accepted + InHand(s) + (a + b) == (s.accepted + InHand(s) + a) + b;
    }
  }

  /** On every run: what is accepted is what was written while there was room and the connection open, in order. */
  lemma WritesAccepted(capacity: nat, steps: seq<Step>)
    requires Possible(Init(capacity), steps)
    ensures var s := After(Init(capacity), steps); AllWritten(Init(capacity), steps) == s.accepted + InHand(s)
  {
    InitInv(capacity);
    WrittenRun(Init(capacity), steps);
    var all := AllWritten(Init(capacity), steps);
    assert [] + [] + all == all;
  }

  /** On every run: when the sending goroutine has ended and no write failed, everything that was accepted went out. */
  lemma CloseFlushes(capacity: nat, steps: seq<Step>)
    requires Possible(Init(capacity), steps)
    ensures var s := After(Init(capacity), steps);
      s.sender == Done(false) ==> s.wire == Concat(s.accepted) && s.closeFlag
  {
    InitInv(capacity);
    RunKeeps(Init(capacity), steps);
  }

  /** After the mutex is free with the flag set, nothing more is accepted. */
  lemma NothingAfterClose(s: State, step: Step)
    requires Inv(s) && s.closeFlag && Enabled(s, step)
    ensures Apply(s, step).accepted == s.accepted && Apply(s, step).closeFlag
  {
  }

  /** Whatever part of what went out arrives, the peer reads the first messages, in order, if the frames came from
      `Write` of a parser. */
  lemma Delivered(capacity: nat, steps: seq<Step>, f: Format, messages: seq<seq<Byte>>, arrived: seq<Byte>)
    requires Possible(Init(capacity), steps) && ValidFormat(f) && AllFit(f, messages)
    requires var s := After(Init(capacity), steps); s.accepted == Frames(f, messages) && arrived <= s.wire
    ensures Messages(f, arrived) <= messages
  {
    Safe(capacity, steps);
    MessagesPrefix(f, messages, arrived);
  }

  /** If the sending goroutine has ended without a failed write and all that went out arrives, the peer reads exactly
      the messages that were accepted. */
  lemma DeliveredWhole(capacity: nat, steps: seq<Step>, f: Format, messages: seq<seq<Byte>>)
    requires Possible(Init(capacity), steps) && ValidFormat(f) && AllFit(f, messages)
    requires var s := After(Init(capacity), steps); s.accepted == Frames(f, messages) && s.sender == Done(false)
    ensures Messages(f, After(Init(capacity), steps).wire) == messages
  {
    CloseFlushes(capacity, steps);
    MessagesAll(f, messages);
  }
}
