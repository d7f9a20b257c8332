/**
 A client connected to this repository's server over a byte stream that keeps order.  Either
 side may stop at any time; whatever is then still on the way is simply never taken further.
 */
module RpcSystem {
  import opened Core
  import opened RpcServer
  import opened RpcClient
  import opened Runs

  datatype System = System(
    client: Client,
    toServer: seq<Envelope>,
    requests: seq<Envelope>,       // read by the server, not yet handled
    open: bool,                    // the server's loop still runs
    served: seq<Served>,
    replies: seq<Envelope>,        // queued by the server, not yet written
    toClient: seq<Envelope>)

  datatype Step =
    | Local(action: RpcClient.Action)        // anything of the client's but writing and receiving
    | ClientWrites
    | ServerReads
    | ServerHandles(answer: Content, replyId: Id)
    | ServerWrites
    | ClientReceives

  function Init(): System {
    System(RpcClient.INIT, [], [], true, [], [], [])
  }

  predicate CanStep(handlers: set<Kind>, s: System, a: Step) {
    match a
    case Local(x) => !x.Write? && !x.Receive? && RpcClient.Enabled(s.client, x)
    case ClientWrites => RpcClient.Enabled(s.client, Write)
    case ServerReads => s.toServer != [] && |s.requests| < BUFFER
    case ServerHandles(_, _) =>
      s.open && s.requests != [] && (Answers(handlers, s.requests[0].payload) ==> |s.replies| < BUFFER)
    case ServerWrites => s.replies != []
    case ClientReceives => s.toClient != [] && RpcClient.Enabled(s.client, Receive(s.toClient[0]))
  }

  function Do(handlers: set<Kind>, s: System, a: Step): System
    requires CanStep(handlers, s, a)
  {
    match a
    case Local(x) => s.(client := RpcClient.Apply(s.client, x))
    case ClientWrites => s.(client := RpcClient.Apply(s.client, Write), toServer := s.toServer + [s.client.out[0]])
    case ServerReads => s.(toServer := s.toServer[1..], requests := s.requests + [s.toServer[0]])
    case ServerHandles(answer, replyId) =>
      var one := Served(s.requests[0], answer, replyId);
      s.(requests := s.requests[1..], served := s.served + [one],
         replies := s.replies + Replies(handlers, [one]), open := !Closes(handlers, one))
    case ServerWrites => s.(replies := s.replies[1..], toClient := s.toClient + [s.replies[0]])
    case ClientReceives => s.(client := RpcClient.Apply(s.client, Receive(s.toClient[0])), toClient := s.toClient[1..])
  }

  ghost function Moves(handlers: set<Kind>): (System, Step, System) -> bool {
    (s: System, a: Step, t: System) => CanStep(handlers, s, a) && t == Do(handlers, s, a)
  }

  // ----- requests -----

  function RequestsOf(served: seq<Served>): (rs: seq<Envelope>)
    ensures |rs| == |served|
    ensures forall i :: 0 <= i < |rs| ==> rs[i] == served[i].request
  {
    seq(|served|, i requires 0 <= i < |served| => served[i].request)
  }

  /** Every queued request was handled, or is on its way, in order. */
  ghost predicate InOrder(queued: seq<Envelope>, served: seq<Served>, requests: seq<Envelope>,
                          toServer: seq<Envelope>, out: seq<Envelope>) {
    queued == RequestsOf(served) + requests + toServer + out
  }

  /** The queued requests are those of the calls that got past queueing, once each. */
  ghost predicate QueuedOk(queued: seq<Envelope>, calls: map<Id, CallState>) {
    && (forall i, j :: 0 <= i < j < |queued| ==> queued[i].msgId != queued[j].msgId)
    && (forall q <- queued ::
          && q.msgId in calls && q == RequestEnvelope(q.msgId, calls[q.msgId].payload)
          && q.payload.Request?
          && !calls[q.msgId].Registered? && !calls[q.msgId].SendFailed?
          && !(calls[q.msgId].Returned? && calls[q.msgId].result.SendError?))
    && (forall id <- calls :: calls[id].payload.Request?)
  }

  /** Every reply made was received, or is on its way, in order. */
  ghost predicate RepliesInOrder(handlers: set<Kind>, served: seq<Served>, received: seq<Envelope>,
                                 toClient: seq<Envelope>, replies: seq<Envelope>) {
    Replies(handlers, served) == received + toClient + replies
  }

  /** A waiter was taken only for a reply that was received. */
  ghost predicate TakenOk(taken: set<Id>, received: seq<Envelope>) {
    forall id <- taken :: exists m <- received :: m.replyTo == Some(id)
  }

  /** The server stops at the first Hello it rejects. */
  ghost predicate StopsAtRejection(handlers: set<Kind>, served: seq<Served>, open: bool) {
    && (forall i :: 0 <= i < |served| - 1 ==> !Closes(handlers, served[i]))
    && (open <==> served == [] || !Closes(handlers, served[|served| - 1]))
  }

  /** What nobody waits for: replies to distinct calls, each of which timed out. */
  ghost predicate LateOk(late: seq<Envelope>, received: seq<Envelope>, calls: map<Id, CallState>, taken: set<Id>) {
    && DistinctTargets(late)
    && forall m <- late ::
         && m in received && m.replyTo.Some?
         && m.replyTo.value in calls && m.replyTo.value !in taken
         && calls[m.replyTo.value].Returned? && calls[m.replyTo.value].result.Timeout?
  }

  ghost predicate SysInv(handlers: set<Kind>, s: System) {
    && Inv(s.client)
    && InOrder(s.client.queued, s.served, s.requests, s.toServer, s.client.out)
    && QueuedOk(s.client.queued, s.client.calls)
    && RepliesInOrder(handlers, s.served, s.client.received, s.toClient, s.replies)
    && TakenOk(s.client.taken, s.client.received)
    && LateOk(Late(s.client), s.client.received, s.client.calls, s.client.taken)
    && StopsAtRejection(handlers, s.served, s.open)
  }

  lemma ClientKept(handlers: set<Kind>, s: System, a: Step)
    requires SysInv(handlers, s) && CanStep(handlers, s, a)
    ensures Inv(Do(handlers, s, a).client)
  {
    hide Inv, RpcClient.Apply, RpcClient.Enabled, InOrder, QueuedOk, RepliesInOrder, TakenOk, LateOk,
         StopsAtRejection, Replies;
    match a {
      case Local(x) => InvStep(s.client, x);
      case ClientWrites => InvStep(s.client, Write);
      case ClientReceives => InvStep(s.client, Receive(s.toClient[0]));
      case _ =>
    }
  }

  lemma InOrderKept(handlers: set<Kind>, s: System, a: Step)
    requires SysInv(handlers, s) && CanStep(handlers, s, a)
    ensures var t := Do(handlers, s, a); InOrder(t.client.queued, t.served, t.requests, t.toServer, t.client.out)
  {
    hide Inv, QueuedOk, RepliesInOrder, TakenOk, LateOk, StopsAtRejection, Replies;
    var t := Do(handlers, s, a);
    if a.ServerHandles? {
      assert RequestsOf(t.served) == RequestsOf(s.served) + [s.requests[0]];
    }
  }

  lemma QueuedClientStep(c: Client, x: RpcClient.Action)
    requires QueuedOk(c.queued, c.calls) && RpcClient.Enabled(c, x)
    ensures var d := RpcClient.Apply(c, x); QueuedOk(d.queued, d.calls)
  {
  }

  lemma QueuedKept(handlers: set<Kind>, s: System, a: Step)
    requires SysInv(handlers, s) && CanStep(handlers, s, a)
    ensures var t := Do(handlers, s, a); QueuedOk(t.client.queued, t.client.calls)
  {
    hide Inv, InOrder, QueuedOk, RepliesInOrder, TakenOk, LateOk, StopsAtRejection, Replies, RpcClient.Apply,
         RpcClient.Enabled;
    match a {
      case Local(x) => QueuedClientStep(s.client, x);
      case ClientWrites => QueuedClientStep(s.client, Write);
      case ClientReceives => QueuedClientStep(s.client, Receive(s.toClient[0]));
      case _ =>
    }
  }

  lemma {:induction false} RepliesSplit(handlers: set<Kind>, a: seq<Served>, b: Served)
    ensures Replies(handlers, a + [b]) == Replies(handlers, a) + Replies(handlers, [b])
  {
    assert (a + [b])[..|a|] == a;
    assert [b][..0] == [];
  }

  lemma RepliesKept(handlers: set<Kind>, s: System, a: Step)
    requires SysInv(handlers, s) && CanStep(handlers, s, a)
    ensures var t := Do(handlers, s, a); RepliesInOrder(handlers, t.served, t.client.received, t.toClient, t.replies)
  {
    hide Inv, InOrder, QueuedOk, TakenOk, LateOk, StopsAtRejection, Replies;
    if a.ServerHandles? {
      RepliesSplit(handlers, s.served, Served(s.requests[0], a.answer, a.replyId));
    }
  }

  lemma TakenKept(handlers: set<Kind>, s: System, a: Step)
    requires SysInv(handlers, s) && CanStep(handlers, s, a)
    ensures var t := Do(handlers, s, a); TakenOk(t.client.taken, t.client.received)
  {
    hide Inv, InOrder, QueuedOk, RepliesInOrder, LateOk, StopsAtRejection, Replies;
    var t := Do(handlers, s, a);
    assert forall m <- s.client.received :: m in t.client.received;
    if a.ClientReceives? {
      assert t.client.received[|s.client.received|] == s.toClient[0];
    }
  }

  /** Every reply the server has made answers, in kind, a request some call queued. */
  lemma ReplyHasCall(handlers: set<Kind>, s: System, m: Envelope) returns (one: Served)
    requires SysInv(handlers, s) && m in Replies(handlers, s.served)
    ensures one in s.served && Answers(handlers, one.request.payload) && m == ReplyTo(one)
    ensures one.request in s.client.queued
    ensures var id := one.request.msgId;
            && m.replyTo == Some(id) && id in s.client.calls
            && one.request == RequestEnvelope(id, s.client.calls[id].payload)
            && s.client.calls[id].payload.Request?
            && m.payload == Response(s.client.calls[id].payload.kind, one.answer)
            && !s.client.calls[id].Registered? && !s.client.calls[id].SendFailed?
            && !(s.client.calls[id].Returned? && s.client.calls[id].result.SendError?)
  {
    hide Inv, TakenOk, LateOk, RepliesInOrder;
    RepliesMatch(handlers, s.served, m);
    one :| one in s.served && IsReplyTo(handlers, one, m);
    assert m == ReplyTo(one);
    var i :| 0 <= i < |s.served| && s.served[i] == one;
    assert RequestsOf(s.served)[i] == one.request;
    assert s.client.queued[i] == one.request;
  }

  lemma RepliesStayDistinct(handlers: set<Kind>, s: System)
    requires SysInv(handlers, s)
    ensures DistinctTargets(Replies(handlers, s.served))
  {
    hide Inv, TakenOk, LateOk, RepliesInOrder;
    assert forall i :: 0 <= i < |s.served| ==> s.served[i].request == RequestsOf(s.served)[i] == s.client.queued[i];
    RepliesAreDistinct(handlers, s.served);
  }

  /** A reply that finds no waiter belongs to a call that timed out and never got another. */
  lemma UnwaitedReplyIsLate(handlers: set<Kind>, s: System, m: Envelope)
    requires SysInv(handlers, s) && s.toClient != [] && m == s.toClient[0]
    requires !(m.replyTo.Some? && m.replyTo.value in s.client.pending)
    ensures m.replyTo.Some? && m.replyTo.value in s.client.calls && m.replyTo.value !in s.client.taken
    ensures s.client.calls[m.replyTo.value].Returned? && s.client.calls[m.replyTo.value].result.Timeout?
  {
    hide LateOk, InOrder, QueuedOk;
    var c := s.client;
    var all := Replies(handlers, s.served);
    assert all[|c.received|] == m;
    var one := ReplyHasCall(handlers, s, m);
    var id := one.request.msgId;
    RepliesStayDistinct(handlers, s);
    forall k | 0 <= k < |c.received| ensures c.received[k].replyTo != m.replyTo {
      assert all[k] == c.received[k];
    }
  }

  lemma LateKept(handlers: set<Kind>, s: System, a: Step)
    requires SysInv(handlers, s) && CanStep(handlers, s, a)
    ensures var t := Do(handlers, s, a); LateOk(Late(t.client), t.client.received, t.client.calls, t.client.taken)
  {
    if a.ClientReceives? {
      LateReceive(handlers, s);
    } else {
      LateQuiet(handlers, s, a);
    }
  }

  lemma LateQuiet(handlers: set<Kind>, s: System, a: Step)
    requires SysInv(handlers, s) && CanStep(handlers, s, a) && !a.ClientReceives?
    ensures var t := Do(handlers, s, a); LateOk(Late(t.client), t.client.received, t.client.calls, t.client.taken)
  {
    hide InOrder, QueuedOk, RepliesInOrder, TakenOk, StopsAtRejection, Inv, Replies;
    var t := Do(handlers, s, a);
    assert Late(t.client) == Late(s.client);
  }

  lemma LateReceive(handlers: set<Kind>, s: System)
    requires SysInv(handlers, s) && CanStep(handlers, s, ClientReceives)
    ensures var t := Do(handlers, s, ClientReceives);
            LateOk(Late(t.client), t.client.received, t.client.calls, t.client.taken)
  {
    var t, m := Do(handlers, s, ClientReceives), s.toClient[0];
    var c, d := s.client, t.client;
    if m.replyTo.Some? && m.replyTo.value in c.pending {
      assert Late(d) == Late(c) && d.calls == c.calls && d.taken == c.taken + {m.replyTo.value};
      assert PendingExact(c.pending, c.calls, c.taken);
      hide InOrder, QueuedOk, RepliesInOrder, TakenOk, StopsAtRejection, Inv, Replies;
      assert forall x <- c.received :: x in d.received;
    } else {
      UnwaitedReplyIsLate(handlers, s, m);
      RepliesStayDistinct(handlers, s);
      assert Late(d) == Late(c) + [m] && d.calls == c.calls && d.taken == c.taken && d.received == c.received + [m];
      var all := Replies(handlers, s.served);
      assert all[|c.received|] == m;
      forall x | x in Late(c) ensures x.replyTo != m.replyTo {
        var k :| 0 <= k < |c.received| && c.received[k] == x;
        assert all[k] == x;
      }
      hide InOrder, QueuedOk, RepliesInOrder, TakenOk, StopsAtRejection, Inv, Replies;
      assert forall x <- c.received :: x in d.received;
      assert d.received[|c.received|] == m;
      assert forall x <- Late(d) :: x in Late(c) || x == m;
    }
  }

  lemma StopKept(handlers: set<Kind>, s: System, a: Step)
    requires SysInv(handlers, s) && CanStep(handlers, s, a)
    ensures var t := Do(handlers, s, a); StopsAtRejection(handlers, t.served, t.open)
  {
    hide InOrder, QueuedOk, RepliesInOrder, TakenOk, LateOk, Inv, Replies;
  }

  lemma SysStep(handlers: set<Kind>, s: System, a: Step)
    requires SysInv(handlers, s) && CanStep(handlers, s, a)
    ensures SysInv(handlers, Do(handlers, s, a))
  {
    StopKept(handlers, s, a);
    hide Inv, InOrder, QueuedOk, RepliesInOrder, TakenOk, LateOk, StopsAtRejection, Do, CanStep;
    ClientKept(handlers, s, a);
    InOrderKept(handlers, s, a);
    QueuedKept(handlers, s, a);
    RepliesKept(handlers, s, a);
    TakenKept(handlers, s, a);
    LateKept(handlers, s, a);
  }

  lemma SysInvInitially(handlers: set<Kind>)
    ensures SysInv(handlers, Init())
  {
  }

  lemma SysInvThroughout(handlers: set<Kind>, states: seq<System>, acts: seq<Step>, i: nat)
    requires IsRun(Init(), Moves(handlers), states, acts) && i < |states|
    ensures SysInv(handlers, states[i])
  {
    hide SysInv, CanStep, Do;
    SysInvInitially(handlers);
    forall s, a, t | SysInv(handlers, s) && Moves(handlers)(s, a, t) ensures SysInv(handlers, t) {
      SysStep(handlers, s, a);
    }
    HoldsThroughout(Init(), Moves(handlers), s => SysInv(handlers, s), states, acts, i);
  }

  // ----- what this means -----

  /** A typed call that returns Ok carries the content the server's handler gave to that very
      request: against this server the client never sees UnexpectedResponse, nor an error response. */
  lemma TypedCallsGetTheirAnswer(handlers: set<Kind>, states: seq<System>, acts: seq<Step>, i: nat, id: Id)
    returns (one: Served)
    requires IsRun(Init(), Moves(handlers), states, acts) && i < |states|
    requires id in states[i].client.calls
    requires states[i].client.calls[id].Returned? && states[i].client.calls[id].result.Got?
    ensures var c := states[i].client.calls[id];
            && one in states[i].served && one.request == RequestEnvelope(id, c.payload)
            && c.payload.Request?
            && TypedResult(c.payload.kind, c.result.reply.payload) == Answer(one.answer)
  {
    SysInvThroughout(handlers, states, acts, i);
    var s := states[i];
    var m := s.client.calls[id].result.reply;
    assert m in s.client.received;
    assert m in Replies(handlers, s.served);
    one := ReplyHasCall(handlers, s, m);
  }

  /** A Hello that a handler of this server rejected. */
  ghost predicate RejectedHello(handlers: set<Kind>, x: Served) {
    x.request.payload.Request? && x.request.payload.kind == Hello && Hello in handlers && x.answer.rejected
  }

  /** Seen from the server: the replies made are, in order, those to the handled prefix of the
      requests that were queued, whatever is still on the way, and no request is answered twice.  The
      server has stopped if and only if it handled a rejected Hello; that is the last request it
      handled, and the rejection the last reply. */
  lemma ServerRunShape(handlers: set<Kind>, states: seq<System>, acts: seq<Step>, i: nat)
    requires IsRun(Init(), Moves(handlers), states, acts) && i < |states|
    ensures var s := states[i];
            && RequestsOf(s.served) <= s.client.queued
            && Replies(handlers, s.served) == s.client.received + s.toClient + s.replies
            && DistinctTargets(Replies(handlers, s.served))
            && (!s.open <==> exists x <- s.served :: RejectedHello(handlers, x))
            && (forall k :: 0 <= k < |s.served| && RejectedHello(handlers, s.served[k]) ==> k == |s.served| - 1)
    ensures !states[i].open ==> RejectionIsLast(states[i].served, Replies(handlers, states[i].served))
  {
    SysInvThroughout(handlers, states, acts, i);
    var s := states[i];
    RepliesStayDistinct(handlers, s);
    hide Inv, InOrder, QueuedOk, RepliesInOrder, TakenOk, LateOk, Replies;
    assert forall x :: RejectedHello(handlers, x) <==> Closes(handlers, x);
    if !s.open {
      RejectionIsLastReply(handlers, s.served);
    }
  }

  /** The last reply is a rejection, and answers the last request. */
  ghost predicate RejectionIsLast(served: seq<Served>, replies: seq<Envelope>) {
    && served != [] && replies != []
    && var answer, reply := served[|served| - 1].answer, replies[|replies| - 1];
       answer.rejected && reply.payload == Response(Hello, answer)
       && reply.replyTo == Some(served[|served| - 1].request.msgId)
  }

  function TimedOut(c: Client): set<Id> {
    set id | id in c.calls && c.calls[id].Returned? && c.calls[id].result.Timeout?
  }

  lemma {:induction false} DistinctTargetsBound(late: seq<Envelope>, ids: set<Id>)
    requires DistinctTargets(late)
    requires forall m <- late :: m.replyTo.Some? && m.replyTo.value in ids
    ensures |late| <= |ids|
    decreases |late|
  {
    if late != [] {
      var n := |late| - 1;
      var last := late[n].replyTo.value;
      DistinctTargetsBound(late[..n], ids - {last});
    }
  }

  /** Messages nobody reads answer distinct timed-out calls, so the reader can be stuck on a full
      inbox only after more than BUFFER calls have timed out. */
  lemma LateReplyBound(handlers: set<Kind>, states: seq<System>, acts: seq<Step>, i: nat)
    requires IsRun(Init(), Moves(handlers), states, acts) && i < |states|
    ensures var c := states[i].client;
            && |c.inbox| <= |Late(c)| <= |TimedOut(c)|
            && (c.reader.HasMessage? && !RpcClient.Enabled(c, PushInbox) ==> |TimedOut(c)| > 1024)
  {
    SysInvThroughout(handlers, states, acts, i);
    var c := states[i].client;
    DistinctTargetsBound(Late(c), TimedOut(c));
  }
}
