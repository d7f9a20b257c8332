/**
 What the upload system takes for granted of the network, and that RPC provides it: any number of
 connections between this repository's client and server, one after another or at once, carry
 each upload to the server at most once and bring back to each call its own reply only.
 */
module Transport {
  import opened Core
  import opened RpcServer
  import opened RpcClient
  import opened RpcSystem
  import opened Runs

  // ----- the network -----

  /** Uploads that were sent, that the server has begun with, that it has answered, and whose answer
      has come back to the call. */
  datatype Net = Net(sent: set<Id>, begun: set<Id>, answered: set<Id>, arrived: set<Id>)

  datatype NetAction = Send(id: Id) | Begin(id: Id) | Reply(id: Id) | Arrive(id: Id)

  const NOTHING := Net({}, {}, {}, {})

  predicate CanDo(n: Net, a: NetAction) {
    match a
    case Send(id) => id !in n.sent
    case Begin(id) => id in n.sent && id !in n.begun
    case Reply(id) => id in n.begun && id !in n.answered
    case Arrive(id) => id in n.answered && id !in n.arrived
  }

  function After(n: Net, a: NetAction): Net {
    match a
    case Send(id) => n.(sent := n.sent + {id})
    case Begin(id) => n.(begun := n.begun + {id})
    case Reply(id) => n.(answered := n.answered + {id})
    case Arrive(id) => n.(arrived := n.arrived + {id})
  }

  /** The trace leads from one state of the network to the other. */
  predicate Leads(n: Net, trace: seq<NetAction>, m: Net)
    decreases |trace|
  {
    if trace == [] then n == m else CanDo(n, trace[0]) && Leads(After(n, trace[0]), trace[1..], m)
  }

  lemma {:induction false} LeadsOn(n: Net, trace: seq<NetAction>, m: Net, more: seq<NetAction>, k: Net)
    requires Leads(n, trace, m) && Leads(m, more, k)
    ensures Leads(n, trace + more, k)
    decreases |trace|
  {
    if trace == [] {
      assert trace + more == more;
    } else {
      assert (trace + more)[1..] == trace[1..] + more;
      LeadsOn(After(n, trace[0]), trace[1..], m, more, k);
    }
  }

  function Union(n: Net, m: Net): Net {
    Net(n.sent + m.sent, n.begun + m.begun, n.answered + m.answered, n.arrived + m.arrived)
  }

  predicate Apart(rest: Net, ids: set<Id>) {
    rest.sent !! ids && rest.begun !! ids && rest.answered !! ids && rest.arrived !! ids
  }

  /** What happens in one part of a network happens in the whole, if the other parts know none of its ids. */
  lemma {:induction false} LeadsInUnion(n: Net, trace: seq<NetAction>, m: Net, rest: Net, ids: set<Id>)
    requires Leads(n, trace, m) && Apart(rest, ids) && forall a <- trace :: a.id in ids
    ensures Leads(Union(n, rest), trace, Union(m, rest))
    decreases |trace|
  {
    if trace != [] {
      var a := trace[0];
      assert a in trace && forall b <- trace[1..] :: b in trace;
      assert Union(After(n, a), rest) == After(Union(n, rest), a);
      LeadsInUnion(After(n, a), trace[1..], m, rest, ids);
    }
  }

  // ----- one connection -----

  predicate IsUpload(m: WireMessage) {
    m.Request? && m.kind == BatchUpload
  }

  ghost function SentIds(queued: seq<Envelope>): set<Id> {
    set q | q in queued && IsUpload(q.payload) :: q.msgId
  }

  ghost function BegunIds(served: seq<Served>): set<Id> {
    set x | x in served && IsUpload(x.request.payload) :: x.request.msgId
  }

  ghost function AnsweredIds(handlers: set<Kind>, served: seq<Served>): set<Id> {
    set x | x in served && IsUpload(x.request.payload) && Answers(handlers, x.request.payload) :: x.request.msgId
  }

  ghost function ArrivedIds(calls: map<Id, CallState>): set<Id> {
    set id | id in calls && IsUpload(calls[id].payload) && calls[id].Returned? && calls[id].result.Got?
  }

  /** The uploads of a connection, as far as the network is concerned. */
  ghost function NetOf(handlers: set<Kind>, s: System): Net {
    Net(SentIds(s.client.queued), BegunIds(s.served), AnsweredIds(handlers, s.served), ArrivedIds(s.client.calls))
  }

  lemma QueuedAppend(queued: seq<Envelope>, q: Envelope)
    ensures SentIds(queued + [q]) == SentIds(queued) + (if IsUpload(q.payload) then {q.msgId} else {})
  {
    forall x | x in queued ensures x in queued + [q] {
    }
    assert (queued + [q])[|queued|] == q;
  }

  lemma ServedAppend(handlers: set<Kind>, served: seq<Served>, x: Served)
    ensures BegunIds(served + [x]) == BegunIds(served) + (if IsUpload(x.request.payload) then {x.request.msgId} else {})
    ensures AnsweredIds(handlers, served + [x]) == AnsweredIds(handlers, served) +
              (if IsUpload(x.request.payload) && Answers(handlers, x.request.payload) then {x.request.msgId} else {})
  {
    assert (served + [x])[|served|] == x;
    assert forall y <- served :: y in served + [x];
  }

  /** Nothing is known to the network that is not a call of this connection. */
  lemma NetIsOfCalls(handlers: set<Kind>, s: System)
    requires SysInv(handlers, s)
    ensures var n := NetOf(handlers, s);
            && n.sent <= s.client.calls.Keys && n.begun <= n.sent && n.answered <= n.begun
            && n.arrived <= s.client.calls.Keys
  {
    hide Inv, TakenOk, LateOk, RepliesInOrder, StopsAtRejection, IsUpload;
    forall x | x in s.served ensures x.request in s.client.queued {
      ServedWasQueued(s, x);
    }
  }

  lemma ServedWasQueued(s: System, x: Served)
    requires InOrder(s.client.queued, s.served, s.requests, s.toServer, s.client.out) && x in s.served
    ensures x.request in s.client.queued
  {
    var i :| 0 <= i < |s.served| && s.served[i] == x;
    assert RequestsOf(s.served)[i] == x.request;
    assert s.client.queued[i] == x.request;
  }

  /** A call enters its request in the outgoing queue: an upload is sent that was not sent before. */
  lemma EnqueueSends(handlers: set<Kind>, s: System, id: Id) returns (trace: seq<NetAction>)
    requires SysInv(handlers, s) && CanStep(handlers, s, Local(Enqueue(id)))
    ensures Leads(NetOf(handlers, s), trace, NetOf(handlers, Do(handlers, s, Local(Enqueue(id)))))
    ensures forall a <- trace :: a.id in s.client.calls
  {
    var c := s.client;
    var d := RpcClient.Apply(c, Enqueue(id));
    var q := RequestEnvelope(id, c.calls[id].payload);
    assert d.queued == c.queued + [q];
    assert id !in SentIds(c.queued);
    assert ArrivedIds(d.calls) == ArrivedIds(c.calls);
    hide SysInv, SentIds, BegunIds, AnsweredIds, ArrivedIds;
    QueuedAppend(c.queued, q);
    trace := if IsUpload(q.payload) then [Send(id)] else [];
    assert SentIds(c.queued) + {} == SentIds(c.queued);
  }

  /** A call picks up its reply: the answer to that very upload has arrived, for the first time. */
  lemma ResumeArrives(handlers: set<Kind>, s: System, id: Id) returns (trace: seq<NetAction>)
    requires SysInv(handlers, s) && CanStep(handlers, s, Local(Resume(id)))
    ensures Leads(NetOf(handlers, s), trace, NetOf(handlers, Do(handlers, s, Local(Resume(id)))))
    ensures forall a <- trace :: a.id in s.client.calls
  {
    var c := s.client;
    var d := RpcClient.Apply(c, Resume(id));
    var upload := IsUpload(c.calls[id].payload);
    if upload {
      SlotIsAnswered(handlers, s, id);
    }
    hide SysInv, SentIds, BegunIds, AnsweredIds;
    assert ArrivedIds(d.calls) == ArrivedIds(c.calls) + (if upload then {id} else {});
    assert id !in ArrivedIds(c.calls);
    hide ArrivedIds;
    trace := if upload then [Arrive(id)] else [];
    assert ArrivedIds(c.calls) + {} == ArrivedIds(c.calls);
  }

  lemma SlotIsAnswered(handlers: set<Kind>, s: System, id: Id)
    requires SysInv(handlers, s) && id in s.client.slots && id in s.client.calls && IsUpload(s.client.calls[id].payload)
    ensures id in AnsweredIds(handlers, s.served)
  {
    var m := s.client.slots[id];
    assert m in s.client.received && m.replyTo == Some(id);
    assert m in Replies(handlers, s.served);
    hide Inv, InOrder, QueuedOk, RepliesInOrder, TakenOk, LateOk, StopsAtRejection, Replies;
    var one := ReplyHasCall(handlers, s, m);
  }

  /** The server takes an upload from its queue: it was sent, and the server has not begun with it before. */
  lemma HandlingBegins(handlers: set<Kind>, s: System, a: Step) returns (trace: seq<NetAction>)
    requires SysInv(handlers, s) && a.ServerHandles? && CanStep(handlers, s, a)
    ensures Leads(NetOf(handlers, s), trace, NetOf(handlers, Do(handlers, s, a)))
    ensures forall b <- trace :: b.id in s.client.calls
  {
    var one := Served(s.requests[0], a.answer, a.replyId);
    var id := one.request.msgId;
    var n := NetOf(handlers, s);
    HandledWasQueued(s);
    NetIsOfCalls(handlers, s);
    ServedAppend(handlers, s.served, one);
    hide SysInv, SentIds, BegunIds, AnsweredIds, ArrivedIds, Replies, Answers;
    if !IsUpload(one.request.payload) {
      assert n.begun + {} == n.begun && n.answered + {} == n.answered;
      return [];
    }
    if Answers(handlers, one.request.payload) {
      trace := [Begin(id), Reply(id)];
      assert trace[1..] == [Reply(id)] && trace[1..][1..] == [];
      assert Leads(After(n, Begin(id)), trace[1..], After(After(n, Begin(id)), Reply(id)));
    } else {
      assert n.answered + {} == n.answered;
      trace := [Begin(id)];
    }
  }

  lemma HandledWasQueued(s: System)
    requires InOrder(s.client.queued, s.served, s.requests, s.toServer, s.client.out)
    requires QueuedOk(s.client.queued, s.client.calls) && s.requests != []
    ensures var q := s.requests[0];
            && q.msgId in s.client.calls && q.msgId !in BegunIds(s.served)
            && (IsUpload(q.payload) ==> q.msgId in SentIds(s.client.queued))
  {
    var q := s.requests[0];
    assert s.client.queued[|s.served|] == q;
    forall x | x in s.served ensures x.request.msgId != q.msgId {
      var i :| 0 <= i < |s.served| && s.served[i] == x;
      assert s.client.queued[i] == RequestsOf(s.served)[i] == x.request;
    }
  }

  /** Whatever a connection does is something the network does. */
  lemma ConnectionStep(handlers: set<Kind>, s: System, a: Step) returns (trace: seq<NetAction>)
    requires SysInv(handlers, s) && CanStep(handlers, s, a)
    ensures Leads(NetOf(handlers, s), trace, NetOf(handlers, Do(handlers, s, a)))
    ensures forall b <- trace :: b.id in s.client.calls
  {
    hide SysInv, Leads;
    if a.Local? && a.action.Enqueue? {
      trace := EnqueueSends(handlers, s, a.action.id);
    } else if a.Local? && a.action.Resume? {
      trace := ResumeArrives(handlers, s, a.action.id);
    } else if a.ServerHandles? {
      trace := HandlingBegins(handlers, s, a);
    } else {
      QuietStep(handlers, s, a);
      LeadsNowhere(NetOf(handlers, s));
      trace := [];
    }
  }

  lemma LeadsNowhere(n: Net)
    ensures Leads(n, [], n)
  {
  }

  lemma QuietStep(handlers: set<Kind>, s: System, a: Step)
    requires CanStep(handlers, s, a) && !a.ServerHandles?
    requires !(a.Local? && (a.action.Enqueue? || a.action.Resume?))
    ensures NetOf(handlers, Do(handlers, s, a)) == NetOf(handlers, s)
  {
    var t := Do(handlers, s, a);
    assert t.client.queued == s.client.queued && t.served == s.served;
    assert ArrivedIds(t.client.calls) == ArrivedIds(s.client.calls);
  }

  // ----- any number of connections -----

  type Connections = map<nat, System>

  datatype NetworkStep = Open(c: nat) | On(c: nat, step: Step)

  /** Identifiers of calls are fresh across all connections. */
  ghost predicate CanGo(handlers: set<Kind>, w: Connections, a: NetworkStep) {
    match a
    case Open(c) => c !in w
    case On(c, step) =>
      && c in w && CanStep(handlers, w[c], step)
      && (step.Local? && step.action.Call? ==> forall other <- w :: step.action.id !in w[other].client.calls)
  }

  ghost function Go(handlers: set<Kind>, w: Connections, a: NetworkStep): Connections
    requires CanGo(handlers, w, a)
  {
    match a
    case Open(c) => w[c := Init()]
    case On(c, step) => w[c := Do(handlers, w[c], step)]
  }

  ghost function Goes(handlers: set<Kind>): (Connections, NetworkStep, Connections) -> bool {
    (w: Connections, a: NetworkStep, v: Connections) => CanGo(handlers, w, a) && v == Go(handlers, w, a)
  }

  ghost function Gathered(w: Connections, part: System -> set<Id>): set<Id> {
    set c, id | c in w && id in part(w[c]) :: id
  }

  ghost function NetOfAll(handlers: set<Kind>, w: Connections): Net {
    Net(Gathered(w, s => NetOf(handlers, s).sent), Gathered(w, s => NetOf(handlers, s).begun),
        Gathered(w, s => NetOf(handlers, s).answered), Gathered(w, s => NetOf(handlers, s).arrived))
  }

  ghost predicate Separate(handlers: set<Kind>, w: Connections) {
    && (forall c <- w :: SysInv(handlers, w[c]))
    && (forall c <- w, d <- w :: c != d ==> w[c].client.calls.Keys !! w[d].client.calls.Keys)
  }

  /** A connection's calls stay, and only Call adds one. */
  lemma CallsGrow(handlers: set<Kind>, s: System, a: Step)
    requires CanStep(handlers, s, a)
    ensures Do(handlers, s, a).client.calls.Keys ==
            s.client.calls.Keys + (if a.Local? && a.action.Call? then {a.action.id} else {})
  {
    hide Replies, Closes;
    match a {
      case Local(x) => CallsGrowLocally(s.client, x);
      case _ =>
    }
  }

  lemma CallsGrowLocally(c: Client, x: RpcClient.Action)
    requires RpcClient.Enabled(c, x)
    ensures RpcClient.Apply(c, x).calls.Keys == c.calls.Keys + (if x.Call? then {x.id} else {})
  {
  }

  lemma SeparateStep(handlers: set<Kind>, w: Connections, a: NetworkStep)
    requires Separate(handlers, w) && CanGo(handlers, w, a)
    ensures Separate(handlers, Go(handlers, w, a))
  {
    hide SysInv, CanStep, Do;
    match a {
      case Open(c) =>
        SysInvInitially(handlers);
        assert Init().client.calls.Keys == {};
      case On(c, step) =>
        SysStep(handlers, w[c], step);
        CallsGrow(handlers, w[c], step);
    }
  }

  function Others(w: Connections, c: nat): Connections {
    map d | d in w && d != c :: w[d]
  }

  lemma GatheredSplit(w: Connections, c: nat, part: System -> set<Id>)
    requires c in w
    ensures Gathered(w, part) == part(w[c]) + Gathered(Others(w, c), part)
  {
    var others := Others(w, c);
    forall id | id in Gathered(w, part) ensures id in part(w[c]) + Gathered(others, part) {
      var d :| d in w && id in part(w[d]);
      assert d == c || (d in others && others[d] == w[d]);
    }
  }

  lemma SplitOff(handlers: set<Kind>, w: Connections, c: nat)
    requires c in w
    ensures NetOfAll(handlers, w) == Union(NetOf(handlers, w[c]), NetOfAll(handlers, Others(w, c)))
  {
    hide NetOf, Gathered;
    GatheredSplit(w, c, s => NetOf(handlers, s).sent);
    GatheredSplit(w, c, s => NetOf(handlers, s).begun);
    GatheredSplit(w, c, s => NetOf(handlers, s).answered);
    GatheredSplit(w, c, s => NetOf(handlers, s).arrived);
  }

  lemma OthersAreApart(handlers: set<Kind>, w: Connections, c: nat)
    requires Separate(handlers, w) && c in w
    ensures Apart(NetOfAll(handlers, Others(w, c)), w[c].client.calls.Keys)
  {
    hide SysInv, NetOf;
    forall d | d in w ensures var n := NetOf(handlers, w[d]);
                                n.sent <= w[d].client.calls.Keys && n.begun <= w[d].client.calls.Keys
                                && n.answered <= w[d].client.calls.Keys && n.arrived <= w[d].client.calls.Keys
    {
      NetIsOfCalls(handlers, w[d]);
    }
  }

  lemma NetworkStepLeads(handlers: set<Kind>, w: Connections, a: NetworkStep) returns (trace: seq<NetAction>)
    requires Separate(handlers, w) && CanGo(handlers, w, a)
    ensures Leads(NetOfAll(handlers, w), trace, NetOfAll(handlers, Go(handlers, w, a)))
  {
    hide SysInv, CanStep, Do, Leads, NetOf, NetOfAll, Union, Apart;
    match a {
      case Open(c) =>
        NewConnectionIsSilent(handlers, w, c);
        LeadsNowhere(NetOfAll(handlers, w));
        trace := [];
      case On(c, step) =>
        var v := Go(handlers, w, a);
        assert Others(v, c) == Others(w, c);
        SplitOff(handlers, w, c);
        SplitOff(handlers, v, c);
        OthersAreApart(handlers, w, c);
        trace := ConnectionStep(handlers, w[c], step);
        LeadsInUnion(NetOf(handlers, w[c]), trace, NetOf(handlers, v[c]), NetOfAll(handlers, Others(w, c)),
                     w[c].client.calls.Keys);
    }
  }

  lemma NewConnectionIsSilent(handlers: set<Kind>, w: Connections, c: nat)
    requires c !in w
    ensures NetOfAll(handlers, w[c := Init()]) == NetOfAll(handlers, w)
  {
    var v := w[c := Init()];
    assert NetOf(handlers, Init()) == NOTHING;
    hide NetOf;
    assert forall d <- w :: v[d] == w[d];
  }

  /** RPC refines the network: in every run of any number of connections, the uploads sent, begun with,
      answered and returned are a trace of the network. */
  lemma {:induction false} ConnectionsRefineNetwork(handlers: set<Kind>, states: seq<Connections>,
                                                    acts: seq<NetworkStep>, i: nat)
    returns (trace: seq<NetAction>)
    requires IsRun(map[], Goes(handlers), states, acts) && i < |states|
    ensures Separate(handlers, states[i])
    ensures Leads(NOTHING, trace, NetOfAll(handlers, states[i]))
    decreases i
  {
    hide SysInv, CanGo, Go, Leads, NetOfAll, Separate;
    if i == 0 {
      EmptyNetwork(handlers);
      LeadsNowhere(NOTHING);
      return [];
    }
    var before := ConnectionsRefineNetwork(handlers, states, acts, i - 1);
    assert Goes(handlers)(states[i - 1], acts[i - 1], states[i]);
    SeparateStep(handlers, states[i - 1], acts[i - 1]);
    var more := NetworkStepLeads(handlers, states[i - 1], acts[i - 1]);
    LeadsOn(NOTHING, before, NetOfAll(handlers, states[i - 1]), more, NetOfAll(handlers, states[i]));
    trace := before + more;
  }

  lemma EmptyNetwork(handlers: set<Kind>)
    ensures NetOfAll(handlers, map[]) == NOTHING && Separate(handlers, map[])
  {
  }
}
