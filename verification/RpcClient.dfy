/**
 One RPC connection as the calling side sees it: any number of concurrent calls, a writer task
 and a reader task around a shared map of waiters.  The peer may send anything.

 A step is what happens between two points where another task can get in.  The reader takes a
 waiter out of the map in one step and hands it the reply in the next, and a call that gives up
 lets go of its receiver in one step and clears the map in the next.
 */
module RpcClient {
  import opened Core
  import opened RpcServer
  import opened Runs

  /** Capacity of the outgoing and the incoming queue of a client. */
  const BUFFER := 1024

  datatype RpcResult = Got(reply: Envelope) | SendError | ChannelClosed | Timeout

  datatype CallState =
    | Registered(payload: WireMessage)  // the waiter is in the map, the request not yet queued
    | SendFailed(payload: WireMessage)  // the queue is closed, the waiter not yet taken back
    | Waiting(payload: WireMessage)     // the request is queued
    | Expired(payload: WireMessage)     // timed out and deaf, the waiter not yet taken back
    | Returned(payload: WireMessage, result: RpcResult)

  datatype Reader =
    | Reading
    | HasWaiter(id: Id, reply: Envelope)  // has taken this waiter out of the map for this reply
    | HasMessage(message: Envelope)       // has a message nobody waits for, bound for the inbox
    | Stopped

  datatype Client = Client(
    pending: set<Id>,              // keys of the waiter map
    calls: map<Id, CallState>,
    slots: map<Id, Envelope>,      // replies handed over and not yet picked up
    reader: Reader,
    out: seq<Envelope>,
    writing: bool,                 // the writer task is alive
    inbox: seq<Envelope>,          // never read by a Client
    // the record of the run
    queued: seq<Envelope>,         // every request that entered the outgoing queue
    received: seq<Envelope>,       // every message the reader got
    taken: set<Id>)                // waiters the reader took out

  datatype Action =
    | Call(id: Id, payload: WireMessage)
    | Enqueue(id: Id)
    | QueueClosed(id: Id)
    | Write
    | StopWriter
    | Receive(message: Envelope)
    | Deliver
    | PushInbox
    | StopReader
    | Resume(id: Id)
    | TimeOut(id: Id)
    | TakeBack(id: Id)
    | NoticeClosed(id: Id)

  const INIT := Client({}, map[], map[], Reading, [], true, [], [], [], {})

  predicate IsWaiting(c: Client, id: Id) {
    id in c.calls && c.calls[id].Waiting?
  }

  predicate Enabled(c: Client, a: Action) {
    match a
    case Call(id, payload) => id !in c.calls && payload.Request?
    case Enqueue(id) => id in c.calls && c.calls[id].Registered? && c.writing && |c.out| < BUFFER
    case QueueClosed(id) => id in c.calls && c.calls[id].Registered? && !c.writing
    case Write => c.writing && c.out != []
    case StopWriter => c.writing
    case Receive(_) => c.reader.Reading?
    case Deliver => c.reader.HasWaiter? && c.reader.id in c.calls
    case PushInbox => c.reader.HasMessage? && |c.inbox| < BUFFER
    case StopReader => c.reader.Reading?
    case Resume(id) => IsWaiting(c, id) && id in c.slots
    case TimeOut(id) => IsWaiting(c, id) && id !in c.slots
    case TakeBack(id) => id in c.calls && (c.calls[id].Expired? || c.calls[id].SendFailed?)
    // the sending half is gone: it is neither in the map nor in the reader's hand, and sent nothing
    case NoticeClosed(id) =>
      IsWaiting(c, id) && id !in c.slots && id !in c.pending && !(c.reader.HasWaiter? && c.reader.id == id)
  }

  function RequestEnvelope(id: Id, payload: WireMessage): Envelope {
    Envelope(id, None, payload)
  }

  function Apply(c: Client, a: Action): Client
    requires Enabled(c, a)
  {
    match a
    case Call(id, payload) => c.(pending := c.pending + {id}, calls := c.calls[id := Registered(payload)])
    case Enqueue(id) =>
      var p := c.calls[id].payload;
      c.(calls := c.calls[id := Waiting(p)], out := c.out + [RequestEnvelope(id, p)],
         queued := c.queued + [RequestEnvelope(id, p)])
    case QueueClosed(id) => c.(calls := c.calls[id := SendFailed(c.calls[id].payload)])
    case Write => c.(out := c.out[1..])
    case StopWriter => c.(writing := false)
    case Receive(m) =>
      var d := c.(received := c.received + [m]);
      if m.replyTo.Some? && m.replyTo.value in c.pending then
        var id := m.replyTo.value;
        d.(pending := c.pending - {id}, taken := c.taken + {id}, reader := HasWaiter(id, m))
      else d.(reader := HasMessage(m))
    case Deliver =>
      var id := c.reader.id;
      // the receiver of a call that has given up is gone, and the reply with it
      if c.calls[id].Registered? || c.calls[id].Waiting?
      then c.(slots := c.slots[id := c.reader.reply], reader := Reading)
      else c.(reader := Reading)
    case PushInbox => c.(inbox := c.inbox + [c.reader.message], reader := Reading)
    case StopReader => c.(reader := Stopped)
    case Resume(id) =>
      c.(calls := c.calls[id := Returned(c.calls[id].payload, Got(c.slots[id]))], slots := c.slots - {id})
    case TimeOut(id) => c.(calls := c.calls[id := Expired(c.calls[id].payload)])
    case TakeBack(id) =>
      var why := if c.calls[id].Expired? then Timeout else SendError;
      c.(pending := c.pending - {id}, calls := c.calls[id := Returned(c.calls[id].payload, why)])
    case NoticeClosed(id) => c.(calls := c.calls[id := Returned(c.calls[id].payload, ChannelClosed)])
  }

  ghost predicate Next(c: Client, a: Action, d: Client) {
    Enabled(c, a) && d == Apply(c, a)
  }

  /** Messages nobody waits for. */
  function Late(c: Client): seq<Envelope> {
    c.inbox + (if c.reader.HasMessage? then [c.reader.message] else [])
  }

  // ----- invariants that need nothing of the peer -----

  predicate Outstanding(s: CallState) {
    !s.Returned?
  }

  /** The waiter map holds exactly the calls that have not returned and whose waiter the reader has
      not taken for a reply. */
  ghost predicate PendingExact(pending: set<Id>, calls: map<Id, CallState>, taken: set<Id>) {
    && taken <= calls.Keys
    && forall id :: id in pending <==> id in calls && Outstanding(calls[id]) && id !in taken
  }

  /** Whoever was taken out of the map and still listens has its reply, or is about to get it. */
  ghost predicate HandOver(calls: map<Id, CallState>, taken: set<Id>, slots: map<Id, Envelope>, reader: Reader) {
    forall id <- taken ::
      id in calls && (calls[id].Registered? || calls[id].Waiting?) ==>
        id in slots || (reader.HasWaiter? && reader.id == id)
  }

  /** A reply is only ever in the hand, the slot or the result of the call it names. */
  ghost predicate Addressed(calls: map<Id, CallState>, taken: set<Id>, slots: map<Id, Envelope>, reader: Reader,
                            received: seq<Envelope>) {
    && (forall id <- slots :: id in taken && slots[id].replyTo == Some(id) && slots[id] in received)
    && (reader.HasWaiter? ==>
          && reader.id in taken && reader.id !in slots
          && reader.reply.replyTo == Some(reader.id) && reader.reply in received)
    && (reader.HasWaiter? ==>
          reader.id in calls && !(calls[reader.id].Returned? && calls[reader.id].result.Got?))
    && (forall id <- calls :: calls[id].Returned? && calls[id].result.Got? ==>
          id in taken && calls[id].result.reply.replyTo == Some(id) && calls[id].result.reply in received)
  }

  ghost predicate NeverClosed(calls: map<Id, CallState>) {
    forall id <- calls :: calls[id].Returned? ==> !calls[id].result.ChannelClosed?
  }

  ghost predicate Inv(c: Client) {
    && PendingExact(c.pending, c.calls, c.taken)
    && HandOver(c.calls, c.taken, c.slots, c.reader)
    && Addressed(c.calls, c.taken, c.slots, c.reader, c.received)
    && NeverClosed(c.calls)
  }

  lemma CannotNoticeClosed(c: Client, id: Id)
    requires Inv(c)
    ensures !Enabled(c, NoticeClosed(id))
  {
  }

  lemma PendingKept(c: Client, a: Action)
    requires Inv(c) && Enabled(c, a)
    ensures var d := Apply(c, a); PendingExact(d.pending, d.calls, d.taken)
  {
    hide HandOver, NeverClosed;
  }

  lemma HandOverKept(c: Client, a: Action)
    requires Inv(c) && Enabled(c, a)
    ensures var d := Apply(c, a); HandOver(d.calls, d.taken, d.slots, d.reader)
  {
    hide NeverClosed;
  }

  lemma AddressedKept(c: Client, a: Action)
    requires Inv(c) && Enabled(c, a)
    ensures var d := Apply(c, a); Addressed(d.calls, d.taken, d.slots, d.reader, d.received)
  {
    hide Inv, Enabled, Apply, Addressed;
    if a.Receive? {
      AddressedReceive(c, a.message);
    } else {
      AddressedQuiet(c, a);
    }
  }

  lemma AddressedQuiet(c: Client, a: Action)
    requires Inv(c) && Enabled(c, a) && !a.Receive?
    ensures var d := Apply(c, a); Addressed(d.calls, d.taken, d.slots, d.reader, d.received)
  {
    hide NeverClosed, HandOver, PendingExact;
  }

  lemma AddressedReceive(c: Client, m: Envelope)
    requires Inv(c) && Enabled(c, Receive(m))
    ensures var d := Apply(c, Receive(m)); Addressed(d.calls, d.taken, d.slots, d.reader, d.received)
  {
    hide NeverClosed, HandOver;
    var d := Apply(c, Receive(m));
    assert forall x <- c.received :: x in d.received;
    assert d.received[|c.received|] == m;
  }

  lemma InvStep(c: Client, a: Action)
    requires Inv(c) && Enabled(c, a)
    ensures Inv(Apply(c, a))
  {
    if a.NoticeClosed? {
      CannotNoticeClosed(c, a.id);
    }
    NeverClosedKept(c, a);
    hide Enabled, Apply, PendingExact, HandOver, Addressed, NeverClosed;
    PendingKept(c, a);
    HandOverKept(c, a);
    AddressedKept(c, a);
  }

  lemma NeverClosedKept(c: Client, a: Action)
    requires Inv(c) && Enabled(c, a)
    ensures NeverClosed(Apply(c, a).calls)
  {
    if a.NoticeClosed? {
      CannotNoticeClosed(c, a.id);
    }
    hide PendingExact, HandOver, Addressed;
  }

  lemma InvThroughout(states: seq<Client>, acts: seq<Action>, i: nat)
    requires IsRun(INIT, Next, states, acts) && i < |states|
    ensures Inv(states[i])
  {
    hide Inv, Enabled, Apply;
    InvInitially();
    forall c, a, d | Inv(c) && Next(c, a, d) ensures Inv(d) {
      InvStep(c, a);
    }
    HoldsThroughout(INIT, Next, Inv, states, acts, i);
  }

  lemma InvInitially()
    ensures Inv(INIT)
  {
  }

  /** No cross-talk, whatever the peer sends and however calls, timeouts and late or repeated
      replies interleave: a call that returns Ok got a message that was received and names that
      call, and no two calls got the same one. */
  lemma NoCrossTalk(states: seq<Client>, acts: seq<Action>, i: nat)
    requires IsRun(INIT, Next, states, acts) && i < |states|
    ensures var calls := states[i].calls;
            && (forall id <- calls :: calls[id].Returned? && calls[id].result.Got? ==>
                  calls[id].result.reply.replyTo == Some(id) && calls[id].result.reply in states[i].received)
            && (forall j <- calls, k <- calls ::
                  j != k && calls[j].Returned? && calls[j].result.Got? && calls[k].Returned? && calls[k].result.Got? ==>
                    calls[j].result.reply != calls[k].result.reply)
  {
    InvThroughout(states, acts, i);
  }

  /** The pending map is exact at every step, a returned call is never in it, and no call ever
      returns ChannelClosed. */
  lemma PendingMapExact(states: seq<Client>, acts: seq<Action>, i: nat)
    requires IsRun(INIT, Next, states, acts) && i < |states|
    ensures var c := states[i];
            && (forall id :: id in c.pending <==> id in c.calls && Outstanding(c.calls[id]) && id !in c.taken)
            && (forall id <- c.calls ::
                  c.calls[id].Returned? ==> id !in c.pending && !c.calls[id].result.ChannelClosed?)
            && (forall id :: !Enabled(c, NoticeClosed(id)))
  {
    InvThroughout(states, acts, i);
    forall id ensures !Enabled(states[i], NoticeClosed(id)) {
      CannotNoticeClosed(states[i], id);
    }
  }

  /** Once the reader has stopped, the only step that can move a call still waiting without a reply
      is its timeout. */
  lemma StoppedReaderLeavesTimeout(states: seq<Client>, acts: seq<Action>, i: nat, id: Id)
    requires IsRun(INIT, Next, states, acts) && i < |acts|
    requires states[i].reader.Stopped? && IsWaiting(states[i], id) && id !in states[i].slots
    ensures acts[i] == TimeOut(id) || (states[i + 1].calls[id] == states[i].calls[id] && id !in states[i + 1].slots)
  {
    InvThroughout(states, acts, i);
    CannotNoticeClosed(states[i], id);
    assert Next(states[i], acts[i], states[i + 1]);
  }
}
