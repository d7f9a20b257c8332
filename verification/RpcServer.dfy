/** RPC messages, and the server's receive-and-reply loop for one connection. */
module RpcServer {
  import opened Core

  /** The request kinds of the wire protocol; each has one response kind. */
  datatype Kind = Ping | Hello | BatchUpload | Alert | DispatcherStatus | DeviceDisconnection

  /** What a message says.  Of a response to Hello it matters here whether it is a rejection. */
  datatype Content = Content(value: int, rejected: bool)

  datatype WireMessage =
    | Request(kind: Kind, content: Content)
    | Response(kind: Kind, content: Content)
    | Error(content: Content)

  datatype Envelope = Envelope(msgId: Id, replyTo: Option<Id>, payload: WireMessage)

  /** Ping is answered with or without a handler; any other request only if it has one. */
  predicate Answers(handlers: set<Kind>, m: WireMessage) {
    m.Request? && (m.kind == Ping || m.kind in handlers)
  }

  /** A request the server took from its queue, with what the handler made of it and the
      identifier drawn for the reply. */
  datatype Served = Served(request: Envelope, answer: Content, replyId: Id)

  /** Serving this closes the connection: a Hello that the handler rejected. */
  predicate Closes(handlers: set<Kind>, s: Served) {
    s.request.payload.Request? && s.request.payload.kind == Hello && Hello in handlers && s.answer.rejected
  }

  function ReplyTo(s: Served): Envelope
    requires s.request.payload.Request?
  {
    Envelope(s.replyId, Some(s.request.msgId), Response(s.request.payload.kind, s.answer))
  }

  /** The replies to what was served, in order. */
  function Replies(handlers: set<Kind>, served: seq<Served>): (rs: seq<Envelope>)
    ensures |rs| <= |served|
  {
    if served == [] then []
    else
      var n := |served| - 1;
      Replies(handlers, served[..n]) +
        (if Answers(handlers, served[n].request.payload) then [ReplyTo(served[n])] else [])
  }

  class Connection {
    const handlers: set<Kind>
    var served: seq<Served>
    var replies: seq<Envelope>

    constructor (handlers: set<Kind>)
      ensures this.handlers == handlers && served == [] && replies == []
    {
      this.handlers := handlers;
      served, replies := [], [];
    }

    /** The loop of one connection over the requests that reach it.  answers[i] and ids[i] are
        what the handlers and the identifier source would give for requests[i]. */
    method HandleConnection(requests: seq<Envelope>, answers: seq<Content>, ids: seq<Id>)
      requires |answers| == |ids| == |requests|
      requires served == [] && replies == []
      modifies this
      ensures |served| <= |requests|
      ensures forall i :: 0 <= i < |served| ==> served[i] == Served(requests[i], answers[i], ids[i])
      ensures replies == Replies(handlers, served)
      ensures forall i :: 0 <= i < |served| - 1 ==>
                !(requests[i].payload.Request? && requests[i].payload.kind == Hello
                  && Hello in handlers && answers[i].rejected)
      ensures |served| < |requests| ==>
                && served != []
                && var last := |served| - 1;
                   && requests[last].payload.Request? && requests[last].payload.kind == Hello
                   && Hello in handlers && answers[last].rejected
    {
      var i := 0;
      while i < |requests|
        invariant 0 <= i <= |requests| && |served| == i
        invariant forall j :: 0 <= j < i ==> served[j] == Served(requests[j], answers[j], ids[j])
        invariant forall j :: 0 <= j < i ==> !Closes(handlers, served[j])
        invariant replies == Replies(handlers, served)
      {
        var envelope := requests[i];
        ghost var before := served;
        served := served + [Served(envelope, answers[i], ids[i])];
        assert served[..i] == before;
        i := i + 1;
        match envelope.payload {
          case Request(Ping, _) =>
            replies := replies + [Envelope(ids[i - 1], Some(envelope.msgId), Response(Ping, answers[i - 1]))];
          case Request(Hello, _) =>
            if Hello in handlers {
              var response := answers[i - 1];
              var shouldClose := response.rejected;
              replies := replies + [Envelope(ids[i - 1], Some(envelope.msgId), Response(Hello, response))];
              if shouldClose {
                return;
              }
            }
          case Request(kind, _) =>
            if kind in handlers {
              replies := replies + [Envelope(ids[i - 1], Some(envelope.msgId), Response(kind, answers[i - 1]))];
            }
          case Response(_, _) =>
          case Error(_) =>
        }
      }
    }
  }

  /** What a reply says: the identifier of the request, in the request's kind, with what the handler
      made of it.  Ping is answered in any case, any other request if it has a handler. */
  ghost predicate IsReplyTo(handlers: set<Kind>, s: Served, r: Envelope) {
    && s.request.payload.Request? && (s.request.payload.kind == Ping || s.request.payload.kind in handlers)
    && r.replyTo == Some(s.request.msgId)
    && r.payload == Response(s.request.payload.kind, s.answer)
    && r.msgId == s.replyId
  }

  /** Exactly one reply per answered request and none for anything else: the replies are, in
      order, those to the answered requests, each naming its request and of its kind. */
  lemma {:induction false} RepliesMatch(handlers: set<Kind>, served: seq<Served>, r: Envelope)
    ensures r in Replies(handlers, served) <==> exists s <- served :: IsReplyTo(handlers, s, r)
    decreases |served|
  {
    if served != [] {
      var n := |served| - 1;
      RepliesMatch(handlers, served[..n], r);
      assert served == served[..n] + [served[n]];
      assert Answers(handlers, served[n].request.payload) ==>
               (IsReplyTo(handlers, served[n], r) <==> r == ReplyTo(served[n]));
    }
  }

  ghost predicate DistinctRequests(served: seq<Served>) {
    forall i, j :: 0 <= i < j < |served| ==> served[i].request.msgId != served[j].request.msgId
  }

  ghost predicate DistinctTargets(rs: seq<Envelope>) {
    forall i, j :: 0 <= i < j < |rs| ==> rs[i].replyTo != rs[j].replyTo
  }

  /** No request is answered twice. */
  lemma {:induction false} RepliesAreDistinct(handlers: set<Kind>, served: seq<Served>)
    requires DistinctRequests(served)
    ensures DistinctTargets(Replies(handlers, served))
    decreases |served|
  {
    if served != [] {
      var n := |served| - 1;
      RepliesAreDistinct(handlers, served[..n]);
      var before := Replies(handlers, served[..n]);
      forall i | 0 <= i < |before| ensures before[i].replyTo != Some(served[n].request.msgId) {
        RepliesMatch(handlers, served[..n], before[i]);
        var s :| s in served[..n] && IsReplyTo(handlers, s, before[i]);
        assert s.request.msgId != served[n].request.msgId;
      }
    }
  }

  /** Everything served before a connection closes, and nothing after: when it does close, the
      rejection is the last reply in the queue. */
  lemma RejectionIsLastReply(handlers: set<Kind>, served: seq<Served>)
    requires served != []
    requires var last := served[|served| - 1];
             && last.request.payload.Request? && last.request.payload.kind == Hello
             && Hello in handlers && last.answer.rejected
    ensures var rs := Replies(handlers, served);
            && rs != []
            && rs[|rs| - 1].replyTo == Some(served[|served| - 1].request.msgId)
            && rs[|rs| - 1].payload == Response(Hello, served[|served| - 1].answer)
  {
  }

  // ----- the typed client -----

  datatype ClientError = Rpc | UnexpectedResponse | ErrorResponse

  datatype CallResult = Answer(content: Content) | Failure(error: ClientError)

  /** What a typed call of this kind makes of the payload it got. */
  function TypedResult(kind: Kind, payload: WireMessage): (r: CallResult)
    ensures r.Answer? <==> exists c :: payload == Response(kind, c)
    ensures r.Answer? ==> payload == Response(kind, r.content)
    ensures r == Failure(ErrorResponse) <==> payload.Error?
  {
    match payload
    case Response(k, c) => if k == kind then Answer(c) else Failure(UnexpectedResponse)
    case Error(_) => Failure(ErrorResponse)
    case Request(_, _) => Failure(UnexpectedResponse)
  }
}
