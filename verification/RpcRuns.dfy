/** Runs of a client and this server: a call that returns its answer, and one that gives up too early. */
module RpcRuns {
  import opened Core
  import opened RpcServer
  import opened RpcClient
  import opened RpcSystem
  import opened Runs

  lemma Then(handlers: set<Kind>, states: seq<System>, acts: seq<Step>, a: Step)
    returns (states': seq<System>, acts': seq<Step>)
    requires IsRun(Init(), Moves(handlers), states, acts) && |states| == |acts| + 1
    requires CanStep(handlers, states[|acts|], a)
    ensures IsRun(Init(), Moves(handlers), states', acts') && |states'| == |acts'| + 1
    ensures states'[|acts'|] == Do(handlers, states[|acts|], a)
  {
    hide CanStep, Do;
    states', acts' := states + [Do(handlers, states[|acts|], a)], acts + [a];
  }

  /** A request of this kind is on its way to the server. */
  lemma RunToRequest(handlers: set<Kind>, id: Id, request: WireMessage) returns (states: seq<System>, acts: seq<Step>)
    requires request.Request?
    ensures IsRun(Init(), Moves(handlers), states, acts) && |states| == |acts| + 1
    ensures var q := RequestEnvelope(id, request);
            states[|acts|] == Init().(
              client := RpcClient.INIT.(pending := {id}, calls := map[id := Waiting(request)], queued := [q]),
              requests := [q])
  {
    hide IsRun;
    states, acts := [Init()], [];
    assert IsRun(Init(), Moves(handlers), states, acts) by {
      Beginning(handlers);
    }
    states, acts := Then(handlers, states, acts, Local(Call(id, request)));
    states, acts := Then(handlers, states, acts, Local(Enqueue(id)));
    states, acts := Then(handlers, states, acts, ClientWrites);
    states, acts := Then(handlers, states, acts, ServerReads);
  }

  lemma Beginning(handlers: set<Kind>)
    ensures IsRun(Init(), Moves(handlers), [Init()], [])
  {
  }

  /** The server has answered it, and the answer is on its way back. */
  lemma RunToReply(handlers: set<Kind>, id: Id, kind: Kind, request: Content, answer: Content, replyId: Id)
    returns (states: seq<System>, acts: seq<Step>)
    requires kind == Ping || kind in handlers
    ensures IsRun(Init(), Moves(handlers), states, acts) && |states| == |acts| + 1
    ensures var q := RequestEnvelope(id, Request(kind, request));
            var s := states[|acts|];
            && s.client == RpcClient.INIT.(
                 pending := {id}, calls := map[id := Waiting(Request(kind, request))], queued := [q])
            && s.served == [Served(q, answer, replyId)]
            && s.toClient == [Envelope(replyId, Some(id), Response(kind, answer))]
  {
    hide IsRun;
    states, acts := RunToRequest(handlers, id, Request(kind, request));
    var one := Served(RequestEnvelope(id, Request(kind, request)), answer, replyId);
    assert Replies(handlers, [one]) == [ReplyTo(one)] by {
      assert [one][..0] == [];
    }
    states, acts := Then(handlers, states, acts, ServerHandles(answer, replyId));
    assert states[|acts|].replies == [ReplyTo(one)] && states[|acts|].served == [one];
    states, acts := Then(handlers, states, acts, ServerWrites);
  }

  /** A typed call returns the answer of its handler: for every kind that has one, and for Ping. */
  lemma SomeCallSucceeds(handlers: set<Kind>, id: Id, kind: Kind, request: Content, answer: Content, replyId: Id)
    returns (states: seq<System>, acts: seq<Step>)
    requires kind == Ping || kind in handlers
    ensures IsRun(Init(), Moves(handlers), states, acts) && |states| == |acts| + 1
    ensures var c := states[|acts|].client;
            && id in c.calls && c.calls[id].Returned? && c.calls[id].result.Got? && c.pending == {}
            && TypedResult(kind, c.calls[id].result.reply.payload) == Answer(answer)
  {
    hide IsRun;
    states, acts := RunToReply(handlers, id, kind, request, answer, replyId);
    states, acts := Then(handlers, states, acts, ClientReceives);
    states, acts := Then(handlers, states, acts, Local(Deliver));
    states, acts := Then(handlers, states, acts, Local(Resume(id)));
  }

  /** A call gives up before its answer comes; the answer ends in the inbox, which nobody reads. */
  lemma SomeReplyIsLate(handlers: set<Kind>, id: Id, kind: Kind, request: Content, answer: Content, replyId: Id)
    returns (states: seq<System>, acts: seq<Step>)
    requires kind == Ping || kind in handlers
    ensures IsRun(Init(), Moves(handlers), states, acts) && |states| == |acts| + 1
    ensures var c := states[|acts|].client;
            && id in c.calls && c.calls[id].Returned? && c.calls[id].result == Timeout
            && c.inbox == [Envelope(replyId, Some(id), Response(kind, answer))]
  {
    hide IsRun;
    states, acts := RunToReply(handlers, id, kind, request, answer, replyId);
    states, acts := Then(handlers, states, acts, Local(TimeOut(id)));
    states, acts := Then(handlers, states, acts, Local(TakeBack(id)));
    states, acts := Then(handlers, states, acts, ClientReceives);
    states, acts := Then(handlers, states, acts, Local(PushInbox));
  }
}
