/**
 Store-and-forward upload as one interleaved system: the collector stores records, the
 uploader fetches, sends, waits and marks, prime works on any number of batches at once, one
 record at a time, and the network may lose or delay a batch or its reply.

 The last block of State's fields records the run; no action reads it, except to draw
 identifiers that were not drawn before.
 */
module UploadSystem {
  import opened Core
  import opened DispatchStorage
  import opened Runs
  import PrimeIngest

  datatype Uploader =
    | Offline                                  // no client
    | Ready                                    // connected, registered, waiting for the tick
    | HaveReadings(readings: seq<Record>)      // readings fetched, statuses not yet
    | HaveBatch(batch: seq<Record>)
    | Waiting(id: Id)                          // the batch is sent, the call is open
    | MarkingReadings(keys: set<Key>)          // a reply arrived
    | MarkingStatuses(keys: set<Key>)

  /** Prime's handler at work on a batch: first every record is checked, then the valid ones are stored. */
  datatype Task = Task(checked: nat, valid: seq<Record>, rejected: nat, stored: nat)

  datatype Outcome = Outcome(stored: nat, rejected: nat)

  datatype State = State(
    store: Table,
    uploader: Uploader,
    inFlight: set<Id>,
    tasks: map<Id, Task>,
    replies: map<Id, Outcome>,
    devices: set<Id>,
    prime: PrimeIngest.Registry,
    // the record of the run
    ever: map<Key, Record>,        // every record the collector stored
    trusted: set<Key>,             // those whose device was registered by then
    sent: map<Id, seq<Record>>,    // every batch sent
    done: map<Id, Outcome>,        // batches prime has worked through
    processed: set<Key>,           // the records in those
    accepted: set<Key>,            // records some check let through
    rejected: set<Key>)            // records some check turned away

  datatype Action =
    | Collect(record: Record)
    | Connect
    | FetchReadings(rs: seq<Record>)
    | FetchStatuses(ss: seq<Record>)
    | NothingToSend
    | Send(id: Id)
    | CallFails                    // a timeout, a dead connection: the client is dropped
    | LoseBatch(id: Id)
    | LoseReply(id: Id)
    | Receive(id: Id)              // prime starts on a batch, perhaps long after the call failed
    | Check(id: Id)
    | StoreNext(id: Id)
    | Reply(id: Id)
    | ReplyArrives
    | MarkReadings
    | MarkStatuses
    | Cleanup
    | Register(deviceId: Id)

  const INIT := State(map[], Offline, {}, map[], map[], {}, map[], map[], {}, map[], map[], {}, {}, {})

  predicate IsReading(k: Key) {
    k.ReadingKey?
  }

  function Readings(t: Table): Table {
    map k | k in t && IsReading(k) :: t[k]
  }

  function Statuses(t: Table): Table {
    map k | k in t && !IsReading(k) :: t[k]
  }

  ghost predicate Enabled(s: State, a: Action) {
    match a
    case Collect(r) => r.Key() !in s.ever
    case Connect => s.uploader.Offline?
    case FetchReadings(rs) => s.uploader.Ready? && ListsPending(Readings(s.store), rs)
    case FetchStatuses(ss) => s.uploader.HaveReadings? && ListsPending(Statuses(s.store), ss)
    case NothingToSend => s.uploader == HaveBatch([])
    case Send(id) => s.uploader.HaveBatch? && s.uploader.batch != [] && id !in s.sent
    case CallFails => !s.uploader.Offline? && !s.uploader.MarkingReadings? && !s.uploader.MarkingStatuses?
    case LoseBatch(id) => id in s.inFlight
    case LoseReply(id) => id in s.replies
    case Receive(id) => id in s.inFlight && id in s.sent
    case Check(id) => id in s.tasks && id in s.sent && s.tasks[id].checked < |s.sent[id]|
    case StoreNext(id) =>
      id in s.tasks && id in s.sent && s.tasks[id].checked == |s.sent[id]| && s.tasks[id].stored < |s.tasks[id].valid|
    case Reply(id) =>
      id in s.tasks && id in s.sent && s.tasks[id].checked == |s.sent[id]| && s.tasks[id].stored == |s.tasks[id].valid|
    case ReplyArrives => s.uploader.Waiting? && s.uploader.id in s.replies && s.uploader.id in s.sent
    case MarkReadings => s.uploader.MarkingReadings?
    case MarkStatuses => s.uploader.MarkingStatuses?
    case Cleanup => true
    case Register(_) => true
  }

  function CheckOne(s: State, id: Id): State
    requires id in s.tasks && id in s.sent && s.tasks[id].checked < |s.sent[id]|
  {
    var t := s.tasks[id];
    var r := s.sent[id][t.checked];
    if r.DeviceId() in s.devices then
      s.(tasks := s.tasks[id := t.(checked := t.checked + 1, valid := t.valid + [r])],
         accepted := s.accepted + {r.Key()})
    else
      s.(tasks := s.tasks[id := t.(checked := t.checked + 1, rejected := t.rejected + 1)],
         rejected := s.rejected + {r.Key()})
  }

  ghost function Apply(s: State, a: Action): State
    requires Enabled(s, a)
  {
    match a
    case Collect(r) =>
      s.(store := Put(s.store, r), ever := s.ever[r.Key() := r],
         trusted := if r.DeviceId() in s.devices then s.trusted + {r.Key()} else s.trusted)
    case Connect => s.(uploader := Ready)
    case FetchReadings(rs) => s.(uploader := HaveReadings(rs))
    case FetchStatuses(ss) => s.(uploader := HaveBatch(s.uploader.readings + ss))
    case NothingToSend => s.(uploader := Ready)
    case Send(id) =>
      s.(uploader := Waiting(id), inFlight := s.inFlight + {id}, sent := s.sent[id := s.uploader.batch])
    case CallFails => s.(uploader := Offline)
    case LoseBatch(id) => s.(inFlight := s.inFlight - {id})
    case LoseReply(id) => s.(replies := s.replies - {id})
    case Receive(id) => s.(inFlight := s.inFlight - {id}, tasks := s.tasks[id := Task(0, [], 0, 0)])
    case Check(id) => CheckOne(s, id)
    case StoreNext(id) =>
      var t := s.tasks[id];
      s.(prime := s.prime[t.valid[t.stored].Key() := t.valid[t.stored]],
         tasks := s.tasks[id := t.(stored := t.stored + 1)])
    case Reply(id) =>
      var o := Outcome(|s.tasks[id].valid|, s.tasks[id].rejected);
      s.(tasks := s.tasks - {id}, replies := s.replies[id := o],
         done := s.done[id := o], processed := s.processed + KeysOf(s.sent[id]))
    case ReplyArrives =>
      s.(uploader := MarkingReadings(KeysOf(s.sent[s.uploader.id])), replies := s.replies - {s.uploader.id})
    case MarkReadings =>
      s.(store := Mark(s.store, set k | k in s.uploader.keys && IsReading(k)),
         uploader := MarkingStatuses(s.uploader.keys))
    case MarkStatuses =>
      s.(store := Mark(s.store, set k | k in s.uploader.keys && !IsReading(k)), uploader := Ready)
    case Cleanup => s.(store := Cleaned(s.store))
    case Register(d) => s.(devices := s.devices + {d})
  }

  ghost predicate Next(s: State, a: Action, t: State) {
    Enabled(s, a) && t == Apply(s, a)
  }

  // ----- the invariant, part by part -----

  type Records = map<Key, Record>

  ghost predicate Known(ever: Records, rs: seq<Record>) {
    forall r <- rs :: r.Key() in ever && ever[r.Key()] == r
  }

  /** What the store holds is what was stored, and whatever is not pending there has been processed. */
  ghost predicate StoreOk(store: Table, ever: Records, processed: set<Key>) {
    && (forall k <- ever :: ever[k].Key() == k)
    && (forall k <- store :: k in ever && store[k].record == ever[k])
    && (forall k <- ever :: IsPending(store, k) || k in processed)
  }

  ghost predicate UploaderOk(uploader: Uploader, ever: Records, sent: map<Id, seq<Record>>, processed: set<Key>) {
    match uploader
    case HaveReadings(rs) => Known(ever, rs)
    case HaveBatch(batch) => Known(ever, batch)
    case Waiting(id) => id in sent
    case MarkingReadings(keys) => keys <= processed
    case MarkingStatuses(keys) => keys <= processed
    case _ => true
  }

  ghost predicate SentOk(sent: map<Id, seq<Record>>, ever: Records) {
    forall id <- sent :: Known(ever, sent[id])
  }

  /** A batch is in flight, or being worked on, or done, and in one of these places at most. */
  ghost predicate PlacesOk(sent: set<Id>, inFlight: set<Id>, tasks: set<Id>, done: set<Id>) {
    && inFlight <= sent && tasks <= sent && done <= sent
    && inFlight !! tasks && inFlight !! done && tasks !! done
  }

  ghost predicate DoneOk(sent: map<Id, seq<Record>>, replies: map<Id, Outcome>, done: map<Id, Outcome>,
                         processed: set<Key>) {
    && (forall id <- replies :: id in done && done[id] == replies[id])
    && (forall id <- done :: id in sent && KeysOf(sent[id]) <= processed
                             && done[id].stored + done[id].rejected == |sent[id]|)
  }

  ghost predicate TaskOk(batch: seq<Record>, t: Task, accepted: set<Key>, rejected: set<Key>, prime: Records) {
    && t.checked <= |batch| && t.stored <= |t.valid|
    && |t.valid| + t.rejected == t.checked
    && (t.stored > 0 ==> t.checked == |batch|)
    && (forall v <- t.valid :: v in batch && v.Key() in accepted)
    && (forall i :: 0 <= i < t.checked ==> batch[i] in t.valid || batch[i].Key() in rejected)
    && (forall i :: 0 <= i < t.stored ==> t.valid[i].Key() in prime)
  }

  ghost predicate TasksOk(sent: map<Id, seq<Record>>, tasks: map<Id, Task>, accepted: set<Key>, rejected: set<Key>,
                          prime: Records) {
    forall id <- tasks :: id in sent && TaskOk(sent[id], tasks[id], accepted, rejected, prime)
  }

  /** k is among the records this task has found valid and not yet stored. */
  predicate Underway(t: Task, k: Key) {
    exists i :: t.stored <= i < |t.valid| && t.valid[i].Key() == k
  }

  ghost predicate AcceptedOk(prime: Records, tasks: map<Id, Task>, accepted: set<Key>) {
    forall k <- accepted :: k in prime || exists id <- tasks :: Underway(tasks[id], k)
  }

  ghost predicate PrimeOk(prime: Records, ever: Records, accepted: set<Key>) {
    prime.Keys <= accepted && forall k <- prime :: k in ever && prime[k] == ever[k]
  }

  /** A record prime has looked at is stored or was turned away. */
  ghost predicate ProcessedOk(processed: set<Key>, prime: Records, rejected: set<Key>) {
    forall k <- processed :: k in prime || k in rejected
  }

  ghost predicate TrustOk(trusted: set<Key>, ever: Records, devices: set<Id>, accepted: set<Key>, rejected: set<Key>) {
    && (forall k <- trusted :: k in ever && ever[k].DeviceId() in devices && k !in rejected)
    && (forall k <- accepted :: k in ever && ever[k].DeviceId() in devices)
    && rejected <= ever.Keys
  }

  ghost predicate Inv(s: State) {
    && StoreOk(s.store, s.ever, s.processed)
    && UploaderOk(s.uploader, s.ever, s.sent, s.processed)
    && SentOk(s.sent, s.ever)
    && PlacesOk(s.sent.Keys, s.inFlight, s.tasks.Keys, s.done.Keys)
    && DoneOk(s.sent, s.replies, s.done, s.processed)
    && TasksOk(s.sent, s.tasks, s.accepted, s.rejected, s.prime)
    && AcceptedOk(s.prime, s.tasks, s.accepted)
    && PrimeOk(s.prime, s.ever, s.accepted)
    && ProcessedOk(s.processed, s.prime, s.rejected)
    && TrustOk(s.trusted, s.ever, s.devices, s.accepted, s.rejected)
  }

  // ----- each part is kept -----

  /** Marking moves only records that have been processed, and so keeps the promise of the store. */
  lemma MarkKeepsStore(store: Table, ever: Records, processed: set<Key>, ks: set<Key>)
    requires StoreOk(store, ever, processed) && ks <= processed
    ensures StoreOk(Mark(store, ks), ever, processed)
  {
  }

  lemma StoreKept(s: State, a: Action)
    requires Inv(s) && Enabled(s, a)
    ensures var u := Apply(s, a); StoreOk(u.store, u.ever, u.processed)
  {
    hide SentOk, PlacesOk, DoneOk, TasksOk, AcceptedOk, PrimeOk, ProcessedOk, TrustOk, ListsPending, CheckOne;
    match a {
      case MarkReadings =>
        MarkKeepsStore(s.store, s.ever, s.processed, set k | k in s.uploader.keys && IsReading(k));
      case MarkStatuses =>
        MarkKeepsStore(s.store, s.ever, s.processed, set k | k in s.uploader.keys && !IsReading(k));
      case Check(id) => CheckFrame(s, id);
      case _ =>
    }
  }

  /** A check touches its task and one of the two verdict sets, and nothing else. */
  lemma CheckFrame(s: State, id: Id)
    requires Enabled(s, Check(id))
    ensures var u := CheckOne(s, id);
            u == s.(tasks := u.tasks, accepted := u.accepted, rejected := u.rejected)
            && u.tasks.Keys == s.tasks.Keys
  {
  }

  /** A fetch lists records as they were stored. */
  lemma FetchedAreKnown(store: Table, ever: Records, processed: set<Key>, part: Table, rs: seq<Record>)
    requires StoreOk(store, ever, processed) && ListsPending(part, rs)
    requires forall k <- part :: k in store && store[k] == part[k]
    ensures Known(ever, rs)
  {
  }

  lemma UploaderKept(s: State, a: Action)
    requires Inv(s) && Enabled(s, a)
    ensures var u := Apply(s, a); UploaderOk(u.uploader, u.ever, u.sent, u.processed)
  {
    hide SentOk, PlacesOk, TasksOk, AcceptedOk, PrimeOk, ProcessedOk, TrustOk, StoreOk, ListsPending, CheckOne;
    match a {
      case FetchReadings(rs) => FetchedAreKnown(s.store, s.ever, s.processed, Readings(s.store), rs);
      case FetchStatuses(ss) => FetchedAreKnown(s.store, s.ever, s.processed, Statuses(s.store), ss);
      case Check(id) => CheckFrame(s, id);
      case _ =>
    }
  }

  lemma SentKept(s: State, a: Action)
    requires Inv(s) && Enabled(s, a)
    ensures var u := Apply(s, a); SentOk(u.sent, u.ever)
  {
    hide PlacesOk, DoneOk, TasksOk, AcceptedOk, PrimeOk, ProcessedOk, TrustOk, StoreOk, ListsPending, CheckOne;
    if a.Check? {
      CheckFrame(s, a.id);
    }
  }

  lemma PlacesKept(s: State, a: Action)
    requires Inv(s) && Enabled(s, a)
    ensures var u := Apply(s, a); PlacesOk(u.sent.Keys, u.inFlight, u.tasks.Keys, u.done.Keys)
  {
    hide SentOk, DoneOk, TasksOk, AcceptedOk, PrimeOk, ProcessedOk, TrustOk, StoreOk, UploaderOk, ListsPending,
         CheckOne;
    if a.Check? {
      CheckFrame(s, a.id);
    }
  }

  lemma DoneKept(s: State, a: Action)
    requires Inv(s) && Enabled(s, a)
    ensures var u := Apply(s, a); DoneOk(u.sent, u.replies, u.done, u.processed)
  {
    hide SentOk, AcceptedOk, PrimeOk, ProcessedOk, TrustOk, StoreOk, UploaderOk, ListsPending, CheckOne, KeysOf;
    if a.Check? {
      CheckFrame(s, a.id);
    }
  }

  lemma CheckedTaskOk(batch: seq<Record>, t: Task, r: Record, accepted: set<Key>, rejected: set<Key>, prime: Records)
    requires TaskOk(batch, t, accepted, rejected, prime) && t.checked < |batch| && r == batch[t.checked]
    ensures TaskOk(batch, t.(checked := t.checked + 1, valid := t.valid + [r]), accepted + {r.Key()}, rejected, prime)
    ensures TaskOk(batch, t.(checked := t.checked + 1, rejected := t.rejected + 1), accepted, rejected + {r.Key()},
                   prime)
  {
    assert (t.valid + [r])[|t.valid|] == r;
    assert forall v <- t.valid :: v in t.valid + [r];
  }

  lemma TaskMonotone(batch: seq<Record>, t: Task, accepted: set<Key>, rejected: set<Key>, prime: Records,
                     accepted': set<Key>, rejected': set<Key>, prime': Records)
    requires TaskOk(batch, t, accepted, rejected, prime)
    requires accepted <= accepted' && rejected <= rejected' && prime.Keys <= prime'.Keys
    ensures TaskOk(batch, t, accepted', rejected', prime')
  {
  }

  lemma TasksKept(s: State, a: Action)
    requires Inv(s) && Enabled(s, a)
    ensures var u := Apply(s, a); TasksOk(u.sent, u.tasks, u.accepted, u.rejected, u.prime)
  {
    hide SentOk, AcceptedOk, PrimeOk, ProcessedOk, TrustOk, StoreOk, UploaderOk, ListsPending, TaskOk, DoneOk, CheckOne,
         Mark, Cleaned, Put, KeysOf;
    if a.Check? {
      CheckKeepsTasks(s, a.id);
      return;
    }
    var u := Apply(s, a);
    forall j | j in u.tasks ensures j in u.sent && TaskOk(u.sent[j], u.tasks[j], u.accepted, u.rejected, u.prime) {
      if a == Receive(j) {
        FreshTaskOk(u.sent[j], u.accepted, u.rejected, u.prime);
      } else {
        TaskMonotone(s.sent[j], s.tasks[j], s.accepted, s.rejected, s.prime, u.accepted, u.rejected, u.prime);
        if a == StoreNext(j) {
          StoredTaskOk(s.sent[j], s.tasks[j], u.accepted, u.rejected, u.prime);
        }
      }
    }
  }

  lemma CheckKeepsTasks(s: State, id: Id)
    requires Inv(s) && Enabled(s, Check(id))
    ensures var u := Apply(s, Check(id)); TasksOk(u.sent, u.tasks, u.accepted, u.rejected, u.prime)
  {
    hide SentOk, PlacesOk, AcceptedOk, PrimeOk, ProcessedOk, TrustOk, StoreOk, UploaderOk, TaskOk, DoneOk;
    var u, t := CheckOne(s, id), s.tasks[id];
    CheckedTaskOk(s.sent[id], t, s.sent[id][t.checked], s.accepted, s.rejected, s.prime);
    forall j | j in u.tasks && j != id ensures TaskOk(u.sent[j], u.tasks[j], u.accepted, u.rejected, u.prime) {
      TaskMonotone(s.sent[j], s.tasks[j], s.accepted, s.rejected, s.prime, u.accepted, u.rejected, u.prime);
    }
  }

  lemma FreshTaskOk(batch: seq<Record>, accepted: set<Key>, rejected: set<Key>, prime: Records)
    ensures TaskOk(batch, Task(0, [], 0, 0), accepted, rejected, prime)
  {
  }

  lemma StoredTaskOk(batch: seq<Record>, t: Task, accepted: set<Key>, rejected: set<Key>, prime: Records)
    requires TaskOk(batch, t, accepted, rejected, prime)
    requires t.checked == |batch| && t.stored < |t.valid| && t.valid[t.stored].Key() in prime
    ensures TaskOk(batch, t.(stored := t.stored + 1), accepted, rejected, prime)
  {
  }

  lemma AcceptedKept(s: State, a: Action)
    requires Inv(s) && Enabled(s, a)
    ensures var u := Apply(s, a); AcceptedOk(u.prime, u.tasks, u.accepted)
  {
    hide SentOk, PrimeOk, ProcessedOk, TrustOk, StoreOk, UploaderOk, ListsPending, DoneOk, Underway, TaskOk;
    var u := Apply(s, a);
    forall k | k in u.accepted && k !in u.prime ensures exists id <- u.tasks :: Underway(u.tasks[id], k) {
      if k in s.accepted {
        var id :| id in s.tasks && Underway(s.tasks[id], k);
        UnderwayKept(s, a, id, k);
      } else {
        JustAccepted(s, a.id);
        assert Underway(u.tasks[a.id], k);
      }
    }
  }

  lemma JustAccepted(s: State, id: Id)
    requires Inv(s) && Enabled(s, Check(id))
    ensures var r := s.sent[id][s.tasks[id].checked];
            r.DeviceId() in s.devices ==> Underway(CheckOne(s, id).tasks[id], r.Key())
  {
    hide SentOk, PrimeOk, ProcessedOk, TrustOk, StoreOk, UploaderOk, ListsPending, DoneOk, AcceptedOk;
    assert TaskOk(s.sent[id], s.tasks[id], s.accepted, s.rejected, s.prime);
    var r := s.sent[id][s.tasks[id].checked];
    assert (s.tasks[id].valid + [r])[|s.tasks[id].valid|] == r;
  }

  lemma UnderwayEvolves(t: Task, k: Key)
    requires Underway(t, k)
    ensures t.stored < |t.valid| && t.valid[t.stored].Key() != k ==> Underway(t.(stored := t.stored + 1), k)
    ensures t.stored != |t.valid|
  {
  }

  /** What an action does to a task at work. */
  lemma TaskFate(s: State, a: Action, id: Id)
    requires Enabled(s, a) && id in s.tasks && id !in s.inFlight
    ensures a != Reply(id) ==> id in Apply(s, a).tasks
    ensures a != Reply(id) && a != Check(id) && a != StoreNext(id) ==> Apply(s, a).tasks[id] == s.tasks[id]
    ensures a == StoreNext(id) ==>
              var t := s.tasks[id];
              Apply(s, a).tasks[id] == t.(stored := t.stored + 1) && t.valid[t.stored].Key() in Apply(s, a).prime
  {
    hide ListsPending, Mark, Cleaned, Put, KeysOf;
  }

  lemma UnderwayKept(s: State, a: Action, id: Id, k: Key)
    requires Inv(s) && Enabled(s, a)
    requires id in s.tasks && Underway(s.tasks[id], k) && k !in Apply(s, a).prime
    ensures id in Apply(s, a).tasks && Underway(Apply(s, a).tasks[id], k)
  {
    hide SentOk, PrimeOk, ProcessedOk, TrustOk, StoreOk, UploaderOk, ListsPending, DoneOk, AcceptedOk, TasksOk,
         Underway;
    TaskFate(s, a, id);
    if a == Check(id) {
      CheckKeepsUnderway(s, id, k);
    } else if a == StoreNext(id) || a == Reply(id) {
      UnderwayEvolves(s.tasks[id], k);
    }
  }

  lemma CheckKeepsUnderway(s: State, id: Id, k: Key)
    requires Enabled(s, Check(id)) && Underway(s.tasks[id], k)
    ensures Underway(Apply(s, Check(id)).tasks[id], k)
  {
    var t, r := s.tasks[id], s.sent[id][s.tasks[id].checked];
    var i :| t.stored <= i < |t.valid| && t.valid[i].Key() == k;
    assert (t.valid + [r])[i] == t.valid[i];
  }

  lemma PrimeKept(s: State, a: Action)
    requires Inv(s) && Enabled(s, a)
    ensures var u := Apply(s, a); PrimeOk(u.prime, u.ever, u.accepted)
  {
    hide ProcessedOk, TrustOk, StoreOk, UploaderOk, ListsPending, DoneOk, AcceptedOk;
    if a.StoreNext? {
      var t := s.tasks[a.id];
      assert TaskOk(s.sent[a.id], t, s.accepted, s.rejected, s.prime);
      assert t.valid[t.stored] in t.valid;
      assert Known(s.ever, s.sent[a.id]);
    }
  }

  /** When a task replies, every record of its batch is stored or was turned away. */
  lemma RepliedSettled(s: State, id: Id, k: Key)
    requires Inv(s) && Enabled(s, Reply(id)) && k in KeysOf(s.sent[id])
    ensures k in s.prime || k in s.rejected
  {
    hide ProcessedOk, TrustOk, StoreOk, UploaderOk, ListsPending, DoneOk, AcceptedOk, SentOk, PrimeOk;
    var t, batch := s.tasks[id], s.sent[id];
    assert TaskOk(batch, t, s.accepted, s.rejected, s.prime);
    var i :| 0 <= i < |batch| && batch[i].Key() == k;
    if batch[i] in t.valid {
      var j :| 0 <= j < |t.valid| && t.valid[j] == batch[i];
    }
  }

  lemma ProcessedKept(s: State, a: Action)
    requires Inv(s) && Enabled(s, a)
    ensures var u := Apply(s, a); ProcessedOk(u.processed, u.prime, u.rejected)
  {
    hide TrustOk, StoreOk, UploaderOk, ListsPending, DoneOk, AcceptedOk, SentOk, PrimeOk, TasksOk, PlacesOk, KeysOf;
    if a.Reply? {
      forall k | k in KeysOf(s.sent[a.id]) ensures k in s.prime || k in s.rejected {
        RepliedSettled(s, a.id, k);
      }
    }
  }

  lemma TrustKept(s: State, a: Action)
    requires Inv(s) && Enabled(s, a)
    ensures var u := Apply(s, a); TrustOk(u.trusted, u.ever, u.devices, u.accepted, u.rejected)
  {
    hide StoreOk, UploaderOk, ListsPending, DoneOk, AcceptedOk, PrimeOk, TasksOk, PlacesOk, KeysOf, ProcessedOk;
    if a.Check? {
      assert Known(s.ever, s.sent[a.id]);
    }
  }

  lemma InvStep(s: State, a: Action)
    requires Inv(s) && Enabled(s, a)
    ensures Inv(Apply(s, a))
  {
    hide StoreOk, UploaderOk, SentOk, PlacesOk, DoneOk, TasksOk, AcceptedOk, PrimeOk, ProcessedOk, TrustOk, Enabled,
         Apply;
    StoreKept(s, a);
    UploaderKept(s, a);
    SentKept(s, a);
    PlacesKept(s, a);
    DoneKept(s, a);
    TasksKept(s, a);
    AcceptedKept(s, a);
    PrimeKept(s, a);
    ProcessedKept(s, a);
    TrustKept(s, a);
  }

  lemma InvInitially()
    ensures Inv(INIT)
  {
  }

  lemma InvThroughout(states: seq<State>, acts: seq<Action>, i: nat)
    requires IsRun(INIT, Next, states, acts) && i < |states|
    ensures Inv(states[i])
  {
    hide Inv, Enabled, Apply;
    InvInitially();
    forall s, a, t | Inv(s) && Next(s, a, t) ensures Inv(t) {
      InvStep(s, a);
    }
    HoldsThroughout(INIT, Next, Inv, states, acts, i);
  }

  // ----- what this means -----

  /** No loss: in every reachable state, every record ever stored at the dispatcher is pending
      there, or was in a batch that prime has worked through; Uploaded, or cleaned away, implies
      the latter. */
  lemma NoLoss(states: seq<State>, acts: seq<Action>, i: nat, k: Key)
    requires IsRun(INIT, Next, states, acts) && i < |states|
    requires k in states[i].ever
    ensures var s := states[i];
            && (IsPending(s.store, k) || k in s.processed)
            && (k in s.store && s.store[k].state == Uploaded ==> k in s.processed)
            && (k !in s.store ==> k in s.processed)
  {
    InvThroughout(states, acts, i);
  }

  /** Exactly-once effect: prime's map holds, each with its one original value, only records that a
      check let through for a registered device, and all of those once no batch is being worked on. */
  lemma ExactlyOnceEffect(states: seq<State>, acts: seq<Action>, i: nat)
    requires IsRun(INIT, Next, states, acts) && i < |states|
    ensures var s := states[i];
            && (forall k <- s.prime :: k in s.accepted && k in s.ever && s.prime[k] == s.ever[k])
            && (forall k <- s.accepted :: k in s.ever && s.ever[k].DeviceId() in s.devices)
            && (s.tasks == map[] ==> s.prime.Keys == s.accepted)
            && (forall id <- s.done :: id in s.sent && s.done[id].stored + s.done[id].rejected == |s.sent[id]|)
  {
    InvThroughout(states, acts, i);
  }

  /** End to end: a record whose device was registered when the collector stored it is pending at
      the dispatcher or stored, unchanged, at prime. */
  lemma TrustedRecordsArrive(states: seq<State>, acts: seq<Action>, i: nat, k: Key)
    requires IsRun(INIT, Next, states, acts) && i < |states|
    requires k in states[i].trusted
    ensures var s := states[i];
            IsPending(s.store, k) || (k in s.prime && k in s.ever && s.prime[k] == s.ever[k])
  {
    InvThroughout(states, acts, i);
  }

  /** For any record that is no longer pending, with no batch being worked on, arriving at prime is
      the same as having passed a registration check; one that did not was turned away. */
  lemma ArrivedIffAccepted(states: seq<State>, acts: seq<Action>, i: nat, k: Key)
    requires IsRun(INIT, Next, states, acts) && i < |states|
    requires var s := states[i]; k in s.ever && !IsPending(s.store, k) && s.tasks == map[]
    ensures var s := states[i];
            && (k in s.prime <==> k in s.accepted)
            && (k !in s.prime ==> k in s.rejected && k !in s.trusted)
  {
    InvThroughout(states, acts, i);
  }

  // ----- one batch on its own -----

  /** Batch id is being worked on against the registry d; prime's map was m when that began. */
  ghost predicate Undisturbed(s: State, id: Id, d: set<Id>, m: PrimeIngest.Registry) {
    && id in s.tasks && id in s.sent && s.devices == d
    && var t := s.tasks[id];
       && t.checked <= |s.sent[id]| && t.stored <= |t.valid|
       && t.valid == PrimeIngest.Accepted(d, s.sent[id][..t.checked])
       && t.rejected == t.checked - |t.valid|
       && (t.stored > 0 ==> t.checked == |s.sent[id]|)
       && s.prime == PrimeIngest.StoreAll(m, t.valid[..t.stored])
  }

  lemma UndisturbedCheck(s: State, id: Id, d: set<Id>, m: PrimeIngest.Registry)
    requires Undisturbed(s, id, d, m) && Enabled(s, Check(id))
    ensures Undisturbed(Apply(s, Check(id)), id, d, m)
  {
    var t, batch := s.tasks[id], s.sent[id];
    var next := batch[..t.checked + 1];
    assert next[..t.checked] == batch[..t.checked];
    assert PrimeIngest.Accepted(d, next) ==
           t.valid + (if batch[t.checked].DeviceId() in d then [batch[t.checked]] else []);
  }

  lemma UndisturbedStore(s: State, id: Id, d: set<Id>, m: PrimeIngest.Registry)
    requires Undisturbed(s, id, d, m) && Enabled(s, StoreNext(id))
    ensures Undisturbed(Apply(s, StoreNext(id)), id, d, m)
  {
    hide PrimeIngest.Accepted;
    var t := s.tasks[id];
    assert t.valid[..t.stored + 1][..t.stored] == t.valid[..t.stored];
  }

  /** When no other batch and no registration comes between, the record-by-record work on a batch
      has exactly the effect and the counts of one call of the upload handler. */
  lemma UndisturbedTaskIsOneUpload(s: State, id: Id, d: set<Id>, m: PrimeIngest.Registry, readings: seq<Record>,
                                   statuses: seq<Record>)
    requires Undisturbed(s, id, d, m) && Enabled(s, Reply(id))
    requires s.sent[id] == readings + statuses
    ensures var u := Apply(s, Reply(id));
            && u.prime == PrimeIngest.Ingest(m, d, readings, statuses)
            && u.replies[id].stored == |PrimeIngest.Accepted(d, readings)| + |PrimeIngest.Accepted(d, statuses)|
            && u.replies[id].stored + u.replies[id].rejected == |readings| + |statuses|
  {
    var t, batch := s.tasks[id], s.sent[id];
    assert batch[..|batch|] == batch;
    assert t.valid[..|t.valid|] == t.valid;
    PrimeIngest.IngestIsOnePass(m, d, readings, statuses);
    PrimeIngest.AcceptedAppend(d, readings, statuses);
  }

  // ----- runs -----

  lemma Extend(states: seq<State>, acts: seq<Action>, a: Action)
    requires IsRun(INIT, Next, states, acts) && Enabled(states[|acts|], a)
    ensures IsRun(INIT, Next, states + [Apply(states[|acts|], a)], acts + [a])
  {
    hide Enabled, Apply;
  }

  /** A run in which r is stored, fetched and sent as batch 1. */
  lemma RunToSent(r: Record) returns (states: seq<State>, acts: seq<Action>)
    ensures IsRun(INIT, Next, states, acts) && |states| == |acts| + 1
    ensures forall a <- acts :: !a.Receive?
    ensures states[|acts|] == INIT.(store := map[r.Key() := Stored(r, Pending)], uploader := Waiting(1),
                                    inFlight := {1}, ever := map[r.Key() := r], sent := map[1 := [r]])
  {
    hide ListsPending, PendingKeys, KeysOf;
    states, acts := [INIT], [];
    states, acts := Then(states, acts, Collect(r));
    states, acts := Then(states, acts, Connect);
    var table := map[r.Key() := Stored(r, Pending)];
    assert states[|acts|] == INIT.(store := table, ever := map[r.Key() := r], uploader := Ready);
    states, acts := FetchAndSend(r, states, acts, 1);
  }

  /** One turn of the uploader with r the only record in the store. */
  lemma FetchAndSend(r: Record, states: seq<State>, acts: seq<Action>, id: Id)
    returns (states': seq<State>, acts': seq<Action>)
    requires IsRun(INIT, Next, states, acts) && |states| == |acts| + 1
    requires var s := states[|acts|];
             s.uploader.Ready? && s.store == map[r.Key() := Stored(r, Pending)] && id !in s.sent
    ensures IsRun(INIT, Next, states', acts') && |states'| == |acts'| + 1
    ensures acts' == acts + [FetchReadings(IfReading(r)), FetchStatuses(IfStatus(r)), Send(id)]
    ensures states <= states'
    ensures var s := states[|acts|];
            states'[|acts'|] == s.(uploader := Waiting(id), inFlight := s.inFlight + {id}, sent := s.sent[id := [r]])
  {
    hide IsRun, ListsPending, KeysOf, CheckOne, Mark, Cleaned, Put, Readings, Statuses;
    OneRecordListed(r, states[|acts|].store);
    states', acts' := Then(states, acts, FetchReadings(IfReading(r)));
    states', acts' := Then(states', acts', FetchStatuses(IfStatus(r)));
    states', acts' := Then(states', acts', Send(id));
  }

  function IfReading(r: Record): seq<Record> {
    if r.Reading? then [r] else []
  }

  function IfStatus(r: Record): seq<Record> {
    if r.Reading? then [] else [r]
  }

  lemma OneRecordListed(r: Record, table: Table)
    requires table == map[r.Key() := Stored(r, Pending)]
    ensures ListsPending(Readings(table), IfReading(r)) && ListsPending(Statuses(table), IfStatus(r))
    ensures IfReading(r) + IfStatus(r) == [r]
    ensures KeysOf([r]) == {r.Key()}
  {
    KeysOfAppend([], r);
    assert [] + [r] == [r];
    assert Readings(table) == if r.Reading? then table else map[];
    assert Statuses(table) == if r.Reading? then map[] else table;
  }

  /** From there, prime turns r away and answers. */
  lemma RunToReply(r: Record) returns (states: seq<State>, acts: seq<Action>)
    ensures IsRun(INIT, Next, states, acts) && |states| == |acts| + 1
    ensures states[|acts|] == INIT.(store := map[r.Key() := Stored(r, Pending)], uploader := Waiting(1),
                                    ever := map[r.Key() := r], sent := map[1 := [r]],
                                    replies := map[1 := Outcome(0, 1)], done := map[1 := Outcome(0, 1)],
                                    processed := {r.Key()}, rejected := {r.Key()})
  {
    hide IsRun, KeysOf, ListsPending, Mark, Cleaned, Put;
    states, acts := RunToSent(r);
    var sent := states[|acts|];
    assert KeysOf([r]) == {r.Key()} by {
      OneRecordListed(r, sent.store);
    }
    states, acts := Then(states, acts, Receive(1));
    assert states[|acts|] == sent.(inFlight := {}, tasks := map[1 := Task(0, [], 0, 0)]);
    states, acts := Then(states, acts, Check(1));
    assert states[|acts|] == sent.(inFlight := {}, tasks := map[1 := Task(1, [], 1, 0)], rejected := {r.Key()});
    states, acts := Then(states, acts, Reply(1));
  }

  /** From there, the device gets registered and prime accepts r. */
  lemma RunToAccepted(r: Record) returns (states: seq<State>, acts: seq<Action>)
    ensures IsRun(INIT, Next, states, acts) && |states| == |acts| + 1
    ensures states[|acts|] == INIT.(store := map[r.Key() := Stored(r, Pending)], uploader := Waiting(1),
                                    ever := map[r.Key() := r], sent := map[1 := [r]], devices := {r.DeviceId()},
                                    accepted := {r.Key()}, tasks := map[1 := Task(1, [r], 0, 0)])
  {
    hide IsRun, KeysOf, ListsPending, Put, Mark, Cleaned;
    states, acts := RunToSent(r);
    var sent := states[|acts|];
    states, acts := Then(states, acts, Register(r.DeviceId()));
    states, acts := Then(states, acts, Receive(1));
    assert states[|acts|] == sent.(inFlight := {}, devices := {r.DeviceId()}, tasks := map[1 := Task(0, [], 0, 0)]);
    states, acts := Then(states, acts, Check(1));
    assert [] + [r] == [r];
  }

  /** An upload that succeeds: r ends up marked uploaded and at prime. */
  lemma UploadSucceeds(r: Record) returns (states: seq<State>, acts: seq<Action>)
    ensures IsRun(INIT, Next, states, acts) && |states| == |acts| + 1
    ensures var s := states[|acts|];
            && s.store == map[r.Key() := Stored(r, Uploaded)] && s.prime == map[r.Key() := r] && s.uploader.Ready?
  {
    hide IsRun, KeysOf, ListsPending, Put, Mark, Cleaned;
    states, acts := RunToAccepted(r);
    var work := states[|acts|].(prime := map[r.Key() := r]);
    states, acts := Then(states, acts, StoreNext(1));
    assert states[|acts|] == work.(tasks := map[1 := Task(1, [r], 0, 1)]);
    states, acts := Then(states, acts, Reply(1));
    states, acts := AnswerAccepted(r, states, acts);
  }

  /** The end of such a run, once prime has answered. */
  lemma AnswerAccepted(r: Record, states: seq<State>, acts: seq<Action>)
    returns (states': seq<State>, acts': seq<Action>)
    requires IsRun(INIT, Next, states, acts) && |states| == |acts| + 1
    requires var s := states[|acts|];
             && s.uploader == Waiting(1) && 1 in s.replies && 1 in s.sent && s.sent[1] == [r]
             && s.store == map[r.Key() := Stored(r, Pending)] && s.prime == map[r.Key() := r]
    ensures IsRun(INIT, Next, states', acts') && |states'| == |acts'| + 1
    ensures var s := states'[|acts'|];
            && s.store == map[r.Key() := Stored(r, Uploaded)] && s.prime == map[r.Key() := r] && s.uploader.Ready?
  {
    hide IsRun, KeysOf;
    assert KeysOf([r]) == {r.Key()} by {
      OneRecordListed(r, states[|acts|].store);
    }
    states', acts' := Then(states, acts, ReplyArrives);
    states', acts' := Then(states', acts', MarkReadings);
    assert states'[|acts'|].store == map[r.Key() := Stored(r, if r.Reading? then Uploaded else Pending)];
    states', acts' := Then(states', acts', MarkStatuses);
  }

  /** The stronger promise, that an uploaded record is stored at prime, is false: the reply to a
      batch counts as success for the records prime turned away. */
  lemma RejectedRecordIsStranded(r: Record) returns (states: seq<State>, acts: seq<Action>)
    ensures IsRun(INIT, Next, states, acts) && |states| == |acts| + 1
    ensures var s := states[|acts|];
            && s.ever == map[r.Key() := r] && s.store == map[r.Key() := Stored(r, Uploaded)] && s.uploader.Ready?
            && r.Key() !in s.prime && s.tasks == map[] && s.inFlight == {}
  {
    hide IsRun, KeysOf, ListsPending, Put;
    states, acts := RunToReply(r);
    var s := states[|acts|];
    assert KeysOf([r]) == {r.Key()} by {
      OneRecordListed(r, s.store);
    }
    states, acts := Then(states, acts, ReplyArrives);
    assert states[|acts|] == s.(uploader := MarkingReadings({r.Key()}), replies := map[]);
    states, acts := Then(states, acts, MarkReadings);
    assert r.Key() in s.store;
    assert states[|acts|] == s.(uploader := MarkingStatuses({r.Key()}), replies := map[],
                                store := map[r.Key() := Stored(r, if r.Reading? then Uploaded else Pending)]);
    states, acts := Then(states, acts, MarkStatuses);
  }

  /** And where cleanup is called, such a record is then stored nowhere. */
  lemma RejectedRecordVanishes(r: Record) returns (states: seq<State>, acts: seq<Action>)
    ensures IsRun(INIT, Next, states, acts) && |states| == |acts| + 1
    ensures var s := states[|acts|];
            r.Key() in s.ever && r.Key() !in s.store && r.Key() !in s.prime && s.tasks == map[]
  {
    hide IsRun;
    states, acts := RejectedRecordIsStranded(r);
    states, acts := Then(states, acts, Cleanup);
  }

  lemma Then(states: seq<State>, acts: seq<Action>, a: Action) returns (states': seq<State>, acts': seq<Action>)
    requires IsRun(INIT, Next, states, acts) && |states| == |acts| + 1 && Enabled(states[|acts|], a)
    ensures IsRun(INIT, Next, states', acts') && |states'| == |acts'| + 1
    ensures states' == states + [Apply(states[|acts|], a)] && acts' == acts + [a]
    ensures states'[|acts'|] == Apply(states[|acts|], a)
  {
    Extend(states, acts, a);
    return states + [Apply(states[|acts|], a)], acts + [a];
  }
}
