/**
 What becomes of a call: the result it returns against the steps of the run, for a peer that may
 send anything, and runs in which calls end in each way.
 */
module RpcCalls {
  import opened Core
  import opened RpcServer
  import opened RpcClient
  import opened Runs

  // ----- results -----

  /** Before state i the call timed out; it found the queue closed; it picked up this reply. */
  ghost predicate TimedOutBefore(acts: seq<Action>, i: nat, id: Id)
    requires i <= |acts|
  {
    exists j: nat :: j < i && acts[j] == TimeOut(id)
  }

  ghost predicate ClosedBefore(acts: seq<Action>, i: nat, id: Id)
    requires i <= |acts|
  {
    exists j: nat :: j < i && acts[j] == QueueClosed(id)
  }

  /** Before state i the reader got m and took the waiter it names, and handed m over. */
  ghost predicate DeliveredBefore(states: seq<Client>, acts: seq<Action>, i: nat, id: Id, m: Envelope)
    requires i <= |acts| < |states|
  {
    && (exists j: nat :: j < i && acts[j] == Receive(m))
    && (exists j: nat :: j < i && acts[j] == Deliver && states[j].reader == HasWaiter(id, m))
    && m.replyTo == Some(id)
  }

  /** What a call's state says of the steps so far. */
  ghost predicate Explained(timedOut: bool, closed: bool, c: CallState) {
    match c
    case Registered(_) => !timedOut && !closed
    case SendFailed(_) => !timedOut && closed
    case Waiting(_) => !timedOut && !closed
    case Expired(_) => timedOut && !closed
    case Returned(_, result) =>
      && (timedOut <==> result == Timeout)
      && (closed <==> result == SendError)
  }

  lemma ExplainedStep(c: Client, a: Action, id: Id, timedOut: bool, closed: bool)
    requires Inv(c) && Enabled(c, a) && id in Apply(c, a).calls
    requires id in c.calls ==> Explained(timedOut, closed, c.calls[id])
    requires id !in c.calls ==> !timedOut && !closed
    ensures Explained(timedOut || a == TimeOut(id), closed || a == QueueClosed(id), Apply(c, a).calls[id])
  {
    if a.NoticeClosed? {
      CannotNoticeClosed(c, a.id);
    }
  }

  lemma {:induction false} EveryCallIsExplained(states: seq<Client>, acts: seq<Action>, i: nat, id: Id)
    requires IsRun(INIT, Next, states, acts) && i < |states|
    ensures id in states[i].calls ==>
              Explained(TimedOutBefore(acts, i, id), ClosedBefore(acts, i, id), states[i].calls[id])
    ensures id !in states[i].calls ==> !TimedOutBefore(acts, i, id) && !ClosedBefore(acts, i, id)
    decreases i
  {
    hide Inv, Enabled, Apply, Explained;
    if i > 0 {
      var j := i - 1;
      EveryCallIsExplained(states, acts, j, id);
      InvThroughout(states, acts, j);
      assert Next(states[j], acts[j], states[i]);
      OneMore(acts, j, id);
      CallsStay(states[j], acts[j], id);
      if id in states[i].calls {
        ExplainedStep(states[j], acts[j], id, TimedOutBefore(acts, j, id), ClosedBefore(acts, j, id));
      }
    }
  }

  lemma OneMore(acts: seq<Action>, j: nat, id: Id)
    requires j < |acts|
    ensures TimedOutBefore(acts, j + 1, id) <==> TimedOutBefore(acts, j, id) || acts[j] == TimeOut(id)
    ensures ClosedBefore(acts, j + 1, id) <==> ClosedBefore(acts, j, id) || acts[j] == QueueClosed(id)
  {
    if TimedOutBefore(acts, j + 1, id) {
      var k: nat :| k < j + 1 && acts[k] == TimeOut(id);
      assert k < j || k == j;
    }
    if ClosedBefore(acts, j + 1, id) {
      var k: nat :| k < j + 1 && acts[k] == QueueClosed(id);
      assert k < j || k == j;
    }
  }

  lemma CallsStay(c: Client, a: Action, id: Id)
    requires Enabled(c, a)
    ensures id in c.calls ==> id in Apply(c, a).calls
    ensures id !in c.calls ==> a != TimeOut(id) && a != QueueClosed(id)
  {
  }

  // ----- replies -----

  /** The reply in a slot, or in a result, was received for that call and handed over. */
  ghost predicate RepliesExplained(states: seq<Client>, acts: seq<Action>, i: nat)
    requires i <= |acts| < |states|
  {
    var c := states[i];
    && (forall id <- c.slots :: DeliveredBefore(states, acts, i, id, c.slots[id]))
    && (forall id <- c.calls :: c.calls[id].Returned? && c.calls[id].result.Got? ==>
          DeliveredBefore(states, acts, i, id, c.calls[id].result.reply))
    && (c.reader.HasWaiter? ==> ReceivedBefore(acts, i, c.reader.reply) && c.reader.reply.replyTo == Some(c.reader.id))
  }

  ghost predicate ReceivedBefore(acts: seq<Action>, i: nat, m: Envelope)
    requires i <= |acts|
  {
    exists j: nat :: j < i && acts[j] == Receive(m)
  }

  lemma DeliveredStays(states: seq<Client>, acts: seq<Action>, i: nat, id: Id, m: Envelope)
    requires i < |acts| < |states|
    ensures DeliveredBefore(states, acts, i, id, m) ==> DeliveredBefore(states, acts, i + 1, id, m)
    ensures ReceivedBefore(acts, i, m) ==> ReceivedBefore(acts, i + 1, m)
    ensures acts[i] == Receive(m) ==> ReceivedBefore(acts, i + 1, m)
    ensures acts[i] == Deliver && states[i].reader == HasWaiter(id, m) && ReceivedBefore(acts, i, m)
            && m.replyTo == Some(id) ==>
              DeliveredBefore(states, acts, i + 1, id, m)
  {
    if ReceivedBefore(acts, i, m) {
      var j: nat :| j < i && acts[j] == Receive(m);
      assert j < i + 1 && acts[j] == Receive(m);
    }
  }

  /** Where the replies of the next state come from. */
  lemma ReplySources(c: Client, a: Action)
    requires Enabled(c, a)
    ensures var d := Apply(c, a);
            && (forall id <- d.slots ::
                  || (id in c.slots && d.slots[id] == c.slots[id])
                  || (a == Deliver && c.reader == HasWaiter(id, d.slots[id])))
            && (forall id <- d.calls :: d.calls[id].Returned? && d.calls[id].result.Got? ==>
                  || (id in c.calls && d.calls[id] == c.calls[id])
                  || (id in c.slots && c.slots[id] == d.calls[id].result.reply))
            && (d.reader.HasWaiter? ==>
                  d.reader == c.reader || (a == Receive(d.reader.reply) && d.reader.reply.replyTo == Some(d.reader.id)))
  {
  }

  lemma {:induction false} EveryReplyIsExplained(states: seq<Client>, acts: seq<Action>, i: nat)
    requires IsRun(INIT, Next, states, acts) && i <= |acts| < |states|
    ensures RepliesExplained(states, acts, i)
    decreases i
  {
    if i > 0 {
      hide Enabled, Apply, DeliveredBefore, ReceivedBefore;
      var j := i - 1;
      EveryReplyIsExplained(states, acts, j);
      assert Next(states[j], acts[j], states[i]);
      ReplySources(states[j], acts[j]);
      forall id, m ensures DeliveredBefore(states, acts, j, id, m) ==> DeliveredBefore(states, acts, i, id, m)
                   ensures ReceivedBefore(acts, j, m) ==> ReceivedBefore(acts, i, m)
      {
        DeliveredStays(states, acts, j, id, m);
      }
      forall id | id in states[i].slots ensures DeliveredBefore(states, acts, i, id, states[i].slots[id]) {
        DeliveredStays(states, acts, j, id, states[i].slots[id]);
      }
      if states[i].reader.HasWaiter? {
        DeliveredStays(states, acts, j, states[i].reader.id, states[i].reader.reply);
      }
    }
  }

  /** The result of a call, exactly, whatever the peer sends: Timeout if and only if it timed out, a
      send error if and only if it found the queue closed, and otherwise Ok with a message that was
      received, names the call, and was handed over to it. */
  lemma ResultExactly(states: seq<Client>, acts: seq<Action>, i: nat, id: Id)
    requires IsRun(INIT, Next, states, acts) && i <= |acts| < |states|
    requires id in states[i].calls && states[i].calls[id].Returned?
    ensures var result := states[i].calls[id].result;
            && (result == Timeout <==> TimedOutBefore(acts, i, id))
            && (result == SendError <==> ClosedBefore(acts, i, id))
            && (result.Got? <==> !TimedOutBefore(acts, i, id) && !ClosedBefore(acts, i, id))
            && (result.Got? ==> DeliveredBefore(states, acts, i, id, result.reply))
  {
    hide Inv, Enabled, Apply, TimedOutBefore, ClosedBefore, DeliveredBefore;
    EveryCallIsExplained(states, acts, i, id);
    EveryReplyIsExplained(states, acts, i);
    PendingMapExact(states, acts, i);
  }

  /** A call with its reply in hand returns that reply. */
  ghost predicate WillReturn(c: Client, id: Id, m: Envelope) {
    || (IsWaiting(c, id) && id in c.slots && c.slots[id] == m)
    || (id in c.calls && c.calls[id].Returned? && c.calls[id].result == Got(m))
  }

  lemma WillReturnStep(c: Client, a: Action, id: Id, m: Envelope)
    requires Inv(c) && Enabled(c, a) && WillReturn(c, id, m)
    ensures WillReturn(Apply(c, a), id, m)
    ensures a == Resume(id) ==> Apply(c, a).calls[id].Returned? && Apply(c, a).calls[id].result == Got(m)
  {
  }

  /** Once a waiting call has been handed its reply, it can only return Ok with that reply, and it can. */
  lemma {:induction false} HandedOverIsReturned(states: seq<Client>, acts: seq<Action>, i: nat, j: nat, id: Id)
    requires IsRun(INIT, Next, states, acts) && i <= j < |states|
    requires IsWaiting(states[i], id) && id in states[i].slots
    ensures WillReturn(states[j], id, states[i].slots[id])
    ensures IsWaiting(states[j], id) ==> Enabled(states[j], Resume(id)) && !Enabled(states[j], TimeOut(id))
    decreases j
  {
    hide Inv, Apply;
    if i < j {
      HandedOverIsReturned(states, acts, i, j - 1, id);
      InvThroughout(states, acts, j - 1);
      assert Next(states[j - 1], acts[j - 1], states[j]);
      WillReturnStep(states[j - 1], acts[j - 1], id, states[i].slots[id]);
    }
  }

  // ----- messages -----

  predicate FindsNoWaiter(c: Client, a: Action) {
    a.Receive? && !(a.message.replyTo.Some? && a.message.replyTo.value in c.pending)
  }

  /** The messages that found no waiter when they came. */
  function Unwaited(states: seq<Client>, acts: seq<Action>, i: nat): seq<Envelope>
    requires i <= |acts| < |states|
  {
    if i == 0 then []
    else
      var a, c := acts[i - 1], states[i - 1];
      Unwaited(states, acts, i - 1) + (if FindsNoWaiter(c, a) then [a.message] else [])
  }

  lemma LateStep(c: Client, a: Action)
    requires Enabled(c, a)
    ensures Late(Apply(c, a)) == Late(c) + (if FindsNoWaiter(c, a) then [a.message] else [])
  {
  }

  /** No message is dropped or kept twice: the inbox, with the one on its way into it, is exactly the
      messages that found no waiter when they came, in order. */
  lemma {:induction false} LateExactly(states: seq<Client>, acts: seq<Action>, i: nat)
    requires IsRun(INIT, Next, states, acts) && i <= |acts| < |states|
    ensures Late(states[i]) == Unwaited(states, acts, i)
    decreases i
  {
    if i > 0 {
      hide Enabled, Apply, Late;
      LateExactly(states, acts, i - 1);
      assert Next(states[i - 1], acts[i - 1], states[i]);
      LateStep(states[i - 1], acts[i - 1]);
    }
  }

  // ----- runs -----

  lemma Then(states: seq<Client>, acts: seq<Action>, a: Action) returns (states': seq<Client>, acts': seq<Action>)
    requires IsRun(INIT, Next, states, acts) && |states| == |acts| + 1 && Enabled(states[|acts|], a)
    ensures IsRun(INIT, Next, states', acts') && |states'| == |acts'| + 1
    ensures states'[|acts'|] == Apply(states[|acts|], a)
  {
    hide Enabled, Apply;
    states', acts' := states + [Apply(states[|acts|], a)], acts + [a];
  }

  /** A call whose writer has stopped ends in a send error. */
  lemma SomeCallFailsToSend(id: Id, payload: WireMessage) returns (states: seq<Client>, acts: seq<Action>)
    requires payload.Request?
    ensures IsRun(INIT, Next, states, acts) && |states| == |acts| + 1
    ensures states[|acts|].calls == map[id := Returned(payload, SendError)] && states[|acts|].pending == {}
  {
    hide IsRun;
    states, acts := Start();
    states, acts := Then(states, acts, Call(id, payload));
    states, acts := Then(states, acts, StopWriter);
    states, acts := Then(states, acts, QueueClosed(id));
    states, acts := Then(states, acts, TakeBack(id));
  }

  lemma Start() returns (states: seq<Client>, acts: seq<Action>)
    ensures IsRun(INIT, Next, states, acts) && |states| == |acts| + 1 && states[|acts|] == INIT
  {
    states, acts := [INIT], [];
  }

  /** The race: the reader has taken the waiter, the call times out, and the reply is handed to nobody. */
  lemma SomeReplyRacesTimeout(id: Id, payload: WireMessage, m: Envelope)
    returns (states: seq<Client>, acts: seq<Action>)
    requires payload.Request? && m.replyTo == Some(id)
    ensures IsRun(INIT, Next, states, acts) && |states| == |acts| + 1
    ensures var c := states[|acts|];
            && c.calls == map[id := Returned(payload, Timeout)] && c.received == [m]
            && c.pending == {} && c.slots == map[] && c.inbox == [] && c.reader.Reading?
  {
    hide IsRun;
    states, acts := Start();
    states, acts := Then(states, acts, Call(id, payload));
    states, acts := Then(states, acts, Enqueue(id));
    states, acts := Then(states, acts, Write);
    states, acts := Then(states, acts, Receive(m));
    states, acts := Then(states, acts, TimeOut(id));
    states, acts := Then(states, acts, Deliver);
    states, acts := Then(states, acts, TakeBack(id));
    assert [] + [m] == [m];
  }
}
