/**
 The network inside the upload system is the network of Transport, with losses: whatever RPC
 connections do with uploads, the upload system allows, and it allows nothing else of a network
 except that a batch or a reply may disappear.
 */
module UploadTransport {
  import opened Core
  import opened Transport
  import Uploads = UploadSystem

  /** A reply that is no longer on its way has arrived, or was lost and will never arrive. */
  ghost function NetworkOf(s: Uploads.State): Net {
    Net(s.sent.Keys, s.tasks.Keys + s.done.Keys, s.done.Keys, s.done.Keys - s.replies.Keys)
  }

  /** What a step of the upload system is on the network. */
  ghost function OnNetwork(s: Uploads.State, a: Uploads.Action): seq<NetAction> {
    match a
    case Send(id) => [Send(id)]
    case Receive(id) => [Begin(id)]
    case Reply(id) => [Reply(id)]
    case ReplyArrives => if s.uploader.Waiting? then [Arrive(s.uploader.id)] else []
    case LoseReply(id) => [Arrive(id)]
    case _ => []
  }

  lemma OneAction(n: Net, a: NetAction, m: Net)
    requires CanDo(n, a) && After(n, a) == m
    ensures Leads(n, [a], m)
  {
    assert [a][1..] == [];
  }

  /** Every step of the upload system is a step of the network. */
  lemma UploadStepLeads(s: Uploads.State, a: Uploads.Action)
    requires Uploads.Inv(s) && Uploads.Enabled(s, a)
    ensures Leads(NetworkOf(s), OnNetwork(s, a), NetworkOf(Uploads.Apply(s, a)))
  {
    hide Leads, CanDo, After, NetworkOf, Uploads.Inv, Uploads.Enabled, Uploads.Apply;
    var n, m := NetworkOf(s), NetworkOf(Uploads.Apply(s, a));
    if a.Send? || a.Receive? || a.Reply? {
      OutwardStep(s, a);
      OneAction(n, OnNetwork(s, a)[0], m);
    } else if a.ReplyArrives? || a.LoseReply? {
      ReturnStep(s, a);
      OneAction(n, OnNetwork(s, a)[0], m);
    } else {
      QuietStep(s, a);
      LeadsNowhere(n);
    }
  }

  lemma OutwardStep(s: Uploads.State, a: Uploads.Action)
    requires Uploads.Inv(s) && Uploads.Enabled(s, a) && (a.Send? || a.Receive? || a.Reply?)
    ensures CanDo(NetworkOf(s), OnNetwork(s, a)[0])
    ensures After(NetworkOf(s), OnNetwork(s, a)[0]) == NetworkOf(Uploads.Apply(s, a))
  {
    hide Uploads.StoreOk, Uploads.UploaderOk, Uploads.SentOk, Uploads.TasksOk, Uploads.AcceptedOk, Uploads.PrimeOk,
         Uploads.ProcessedOk, Uploads.TrustOk, Uploads.CheckOne;
  }

  lemma ReturnStep(s: Uploads.State, a: Uploads.Action)
    requires Uploads.Inv(s) && Uploads.Enabled(s, a) && (a.ReplyArrives? || a.LoseReply?)
    ensures |OnNetwork(s, a)| == 1 && CanDo(NetworkOf(s), OnNetwork(s, a)[0])
    ensures After(NetworkOf(s), OnNetwork(s, a)[0]) == NetworkOf(Uploads.Apply(s, a))
  {
    hide Uploads.StoreOk, Uploads.UploaderOk, Uploads.SentOk, Uploads.TasksOk, Uploads.AcceptedOk, Uploads.PrimeOk,
         Uploads.ProcessedOk, Uploads.TrustOk, Uploads.CheckOne;
  }

  lemma QuietStep(s: Uploads.State, a: Uploads.Action)
    requires Uploads.Enabled(s, a) && OnNetwork(s, a) == []
    ensures NetworkOf(Uploads.Apply(s, a)) == NetworkOf(s)
  {
    hide Uploads.CheckOne;
    if a.Check? {
      Uploads.CheckFrame(s, a.id);
    }
  }

  /** No batch disappeared on its way. */
  ghost predicate NoBatchLost(s: Uploads.State) {
    s.inFlight == s.sent.Keys - (s.tasks.Keys + s.done.Keys)
  }

  lemma NoBatchLostStep(s: Uploads.State, a: Uploads.Action)
    requires Uploads.Inv(s) && Uploads.Enabled(s, a) && NoBatchLost(s) && !a.LoseBatch?
    ensures NoBatchLost(Uploads.Apply(s, a))
  {
    hide Uploads.StoreOk, Uploads.UploaderOk, Uploads.SentOk, Uploads.TasksOk, Uploads.AcceptedOk, Uploads.PrimeOk,
         Uploads.ProcessedOk, Uploads.TrustOk, Uploads.CheckOne;
    if a.Check? {
      Uploads.CheckFrame(s, a.id);
    }
  }

  /** And the upload system is open to whatever the network can do: as long as no batch was lost, prime
      can receive a batch exactly when the network can bring it, and the waiting call can return exactly
      when the network can bring its own reply. */
  lemma OpenToTheNetwork(s: Uploads.State, id: Id)
    requires Uploads.Inv(s)
    ensures NoBatchLost(s) ==> (Uploads.Enabled(s, Uploads.Receive(id)) <==> CanDo(NetworkOf(s), Begin(id)))
    ensures s.uploader == Uploads.Waiting(id) ==>
              (Uploads.Enabled(s, Uploads.ReplyArrives) <==> CanDo(NetworkOf(s), Arrive(id)))
    ensures s.uploader.HaveBatch? && s.uploader.batch != [] ==>
              (Uploads.Enabled(s, Uploads.Send(id)) <==> CanDo(NetworkOf(s), Send(id)))
  {
    hide Uploads.StoreOk, Uploads.UploaderOk, Uploads.SentOk, Uploads.TasksOk, Uploads.AcceptedOk, Uploads.PrimeOk,
         Uploads.ProcessedOk, Uploads.TrustOk;
  }
}
