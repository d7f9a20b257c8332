/**
 More about runs of the upload system: what decides whether a record arrives, what is never sent
 again, a batch that prime works on alone, and a backlog that no longer fits a frame.
 */
module UploadRuns {
  import opened Core
  import opened Postcard
  import opened DispatchStorage
  import opened Runs
  import opened UploadSystem
  import PrimeIngest
  import RpcFrame

  // ----- what decides -----

  /** Prime looks at the record of k in a batch, and its device is registered, or is not. */
  ghost predicate Checks(s: State, a: Action, k: Key, registered: bool) {
    && a.Check? && Enabled(s, a)
    && var r := s.sent[a.id][s.tasks[a.id].checked];
       r.Key() == k && (r.DeviceId() in s.devices <==> registered)
  }

  ghost predicate Checked(states: seq<State>, acts: seq<Action>, i: nat, k: Key, registered: bool)
    requires i <= |acts| <= |states|
  {
    exists j: nat :: j < i && Checks(states[j], acts[j], k, registered)
  }

  lemma CheckedStep(s: State, a: Action, k: Key)
    requires Enabled(s, a)
    ensures k in Apply(s, a).accepted <==> k in s.accepted || Checks(s, a, k, true)
    ensures k in Apply(s, a).rejected <==> k in s.rejected || Checks(s, a, k, false)
  {
    if !a.Check? {
      OnlyChecksDecide(s, a);
    }
  }

  lemma OnlyChecksDecide(s: State, a: Action)
    requires Enabled(s, a) && !a.Check?
    ensures Apply(s, a).accepted == s.accepted && Apply(s, a).rejected == s.rejected
  {
    hide ListsPending, CheckOne, Mark, Cleaned, Put, KeysOf, Readings, Statuses;
  }

  /** The verdicts are those of the checks made so far, and of nothing else. */
  lemma {:induction false} VerdictsAreChecks(states: seq<State>, acts: seq<Action>, i: nat, k: Key)
    requires IsRun(INIT, Next, states, acts) && i < |states|
    ensures k in states[i].accepted <==> Checked(states, acts, i, k, true)
    ensures k in states[i].rejected <==> Checked(states, acts, i, k, false)
    decreases i
  {
    hide Enabled, Apply, Checks;
    if i > 0 {
      var j := i - 1;
      VerdictsAreChecks(states, acts, j, k);
      assert Next(states[j], acts[j], states[i]);
      CheckedStep(states[j], acts[j], k);
      OneMoreCheck(states, acts, j, k, true);
      OneMoreCheck(states, acts, j, k, false);
    }
  }

  lemma OneMoreCheck(states: seq<State>, acts: seq<Action>, i: nat, k: Key, registered: bool)
    requires i < |acts| <= |states|
    ensures Checked(states, acts, i + 1, k, registered) <==>
              Checked(states, acts, i, k, registered) || Checks(states[i], acts[i], k, registered)
  {
    hide Checks;
    if Checked(states, acts, i + 1, k, registered) {
      var j: nat :| j < i + 1 && Checks(states[j], acts[j], k, registered);
      assert j < i || j == i;
    }
  }

  /** A record that is no longer pending, with no batch being worked on, is at prime if and only if
      its device was registered at one of the moments when prime looked at the record; if not, prime
      looked at it at least once while the device was not registered. */
  lemma ArrivedIffRegisteredAtACheck(states: seq<State>, acts: seq<Action>, i: nat, k: Key)
    requires IsRun(INIT, Next, states, acts) && i < |states|
    requires var s := states[i]; k in s.ever && !IsPending(s.store, k) && s.tasks == map[]
    ensures k in states[i].prime <==> Checked(states, acts, i, k, true)
    ensures k !in states[i].prime ==> Checked(states, acts, i, k, false)
  {
    hide IsRun, Checked;
    ArrivedIffAccepted(states, acts, i, k);
    VerdictsAreChecks(states, acts, i, k);
  }

  // ----- never sent again -----

  ghost predicate InHand(u: Uploader, k: Key) {
    match u
    case HaveReadings(rs) => k in KeysOf(rs)
    case HaveBatch(batch) => k in KeysOf(batch)
    case _ => false
  }

  /** What the uploader has in hand is pending. */
  ghost predicate HandIsPending(s: State) {
    (forall k :: InHand(s.uploader, k) ==> IsPending(s.store, k)) && s.store.Keys <= s.ever.Keys
  }

  lemma KeysOfConcat(a: seq<Record>, b: seq<Record>)
    ensures KeysOf(a + b) == KeysOf(a) + KeysOf(b)
  {
    forall k | k in KeysOf(a) + KeysOf(b) ensures k in KeysOf(a + b) {
      if k in KeysOf(a) {
        var i :| 0 <= i < |a| && a[i].Key() == k;
        assert (a + b)[i].Key() == k;
      } else {
        var i :| 0 <= i < |b| && b[i].Key() == k;
        assert (a + b)[|a| + i].Key() == k;
      }
    }
  }

  lemma HandStep(s: State, a: Action)
    requires HandIsPending(s) && Enabled(s, a)
    ensures HandIsPending(Apply(s, a))
  {
    hide KeysOf, CheckOne;
    match a {
      case Check(id) => CheckFrame(s, id);
      case FetchStatuses(ss) => KeysOfConcat(s.uploader.readings, ss);
      case _ =>
    }
  }

  lemma HandThroughout(states: seq<State>, acts: seq<Action>, i: nat)
    requires IsRun(INIT, Next, states, acts) && i < |states|
    ensures HandIsPending(states[i])
  {
    hide Enabled, Apply;
    forall s, a, t | HandIsPending(s) && Next(s, a, t) ensures HandIsPending(t) {
      HandStep(s, a);
    }
    HoldsThroughout(INIT, Next, HandIsPending, states, acts, i);
  }

  lemma NotPendingStep(s: State, a: Action, k: Key)
    requires k in s.ever && !IsPending(s.store, k) && Enabled(s, a)
    ensures k in Apply(s, a).ever && !IsPending(Apply(s, a).store, k)
  {
    hide KeysOf, ListsPending, CheckOne;
    if a.Check? {
      CheckFrame(s, a.id);
    }
  }

  /** A record that is marked uploaded, or cleaned away, stays so and is in no batch sent from then on. */
  lemma {:induction false} NeverSentAgain(states: seq<State>, acts: seq<Action>, i: nat, j: nat, k: Key)
    requires IsRun(INIT, Next, states, acts) && i <= j < |states|
    requires k in states[i].ever && !IsPending(states[i].store, k)
    ensures k in states[j].ever && !IsPending(states[j].store, k) && !InHand(states[j].uploader, k)
    ensures j < |acts| && acts[j].Send? && states[j].uploader.HaveBatch? ==> k !in KeysOf(states[j].uploader.batch)
    decreases j
  {
    hide Enabled, Apply, IsPending, KeysOf;
    HandThroughout(states, acts, j);
    if i < j {
      NeverSentAgain(states, acts, i, j - 1, k);
      assert Next(states[j - 1], acts[j - 1], states[j]);
      NotPendingStep(states[j - 1], acts[j - 1], k);
    }
  }

  // ----- a batch holds everything pending -----

  function Kind(ks: set<Key>, readings: bool): set<Key> {
    set k | k in ks && (IsReading(k) <==> readings)
  }

  lemma FetchTakesAll(s: State, a: Action)
    requires Enabled(s, a)
    ensures a.FetchReadings? ==> Apply(s, a).uploader == HaveReadings(a.rs)
                                 && KeysOf(a.rs) == Kind(PendingKeys(s.store), true)
    ensures a.FetchStatuses? ==> s.uploader.HaveReadings?
                                 && Apply(s, a).uploader == HaveBatch(s.uploader.readings + a.ss)
                                 && KeysOf(a.ss) == Kind(PendingKeys(s.store), false)
    ensures a.Send? ==> a.id in Apply(s, a).sent && s.uploader.HaveBatch?
                        && Apply(s, a).sent[a.id] == s.uploader.batch
  {
    if a.FetchReadings? {
      hide KeysOf;
      assert PendingKeys(Readings(s.store)) == Kind(PendingKeys(s.store), true);
    } else if a.FetchStatuses? {
      hide KeysOf;
      assert PendingKeys(Statuses(s.store)) == Kind(PendingKeys(s.store), false);
    }
  }

  /** As long as the uploader does not connect anew, it has the readings it fetched or no client. */
  lemma HoldsReadings(s: State, a: Action, rs: seq<Record>)
    requires Enabled(s, a) && !a.Connect? && !a.FetchStatuses?
    requires s.uploader == HaveReadings(rs) || s.uploader.Offline?
    ensures var u := Apply(s, a).uploader; u == HaveReadings(rs) || u.Offline?
  {
    hide KeysOf, ListsPending, CheckOne, Mark, Cleaned, Put;
    if a.Check? {
      CheckFrame(s, a.id);
    }
  }

  lemma HoldsBatch(s: State, a: Action, batch: seq<Record>)
    requires Enabled(s, a) && !a.Connect? && !a.Send? && !a.NothingToSend?
    requires s.uploader == HaveBatch(batch) || s.uploader.Offline?
    ensures var u := Apply(s, a).uploader; u == HaveBatch(batch) || u.Offline?
  {
    hide KeysOf, ListsPending, CheckOne, Mark, Cleaned, Put;
    if a.Check? {
      CheckFrame(s, a.id);
    }
  }

  lemma {:induction false} ReadingsInHand(states: seq<State>, acts: seq<Action>, i: nat, j: nat)
    requires IsRun(INIT, Next, states, acts) && i < j < |states|
    requires acts[i].FetchReadings? && forall l :: i < l < j ==> !acts[l].Connect? && !acts[l].FetchStatuses?
    ensures states[j].uploader == HaveReadings(acts[i].rs) || states[j].uploader.Offline?
    decreases j
  {
    hide Enabled, Apply;
    assert Next(states[j - 1], acts[j - 1], states[j]);
    if i == j - 1 {
      FetchTakesAll(states[i], acts[i]);
    } else {
      ReadingsInHand(states, acts, i, j - 1);
      HoldsReadings(states[j - 1], acts[j - 1], acts[i].rs);
    }
  }

  lemma {:induction false} BatchInHand(states: seq<State>, acts: seq<Action>, i: nat, j: nat, batch: seq<Record>)
    requires IsRun(INIT, Next, states, acts) && i <= j < |states| && states[i].uploader == HaveBatch(batch)
    requires forall l :: i <= l < j ==> !acts[l].Connect? && !acts[l].Send? && !acts[l].NothingToSend?
    ensures states[j].uploader == HaveBatch(batch) || states[j].uploader.Offline?
    decreases j
  {
    hide Enabled, Apply;
    if i < j {
      BatchInHand(states, acts, i, j - 1, batch);
      assert Next(states[j - 1], acts[j - 1], states[j]);
      HoldsBatch(states[j - 1], acts[j - 1], batch);
    }
  }

  /** In any run: what is sent is exactly the readings pending when they were fetched and the statuses
      pending when they were. */
  lemma BatchIsAllPending(states: seq<State>, acts: seq<Action>, i: nat, j: nat, n: nat)
    requires IsRun(INIT, Next, states, acts) && i < j < n < |acts|
    requires acts[i].FetchReadings? && acts[j].FetchStatuses? && acts[n].Send?
    requires forall l :: i < l < n ==> !acts[l].Connect? && !acts[l].Send? && !acts[l].NothingToSend?
    requires forall l :: i < l < j ==> !acts[l].FetchStatuses?
    ensures acts[n].id in states[n + 1].sent
    ensures KeysOf(states[n + 1].sent[acts[n].id]) ==
            Kind(PendingKeys(states[i].store), true) + Kind(PendingKeys(states[j].store), false)
  {
    hide Enabled, Apply, KeysOf;
    assert Next(states[i], acts[i], states[i + 1]) && Next(states[j], acts[j], states[j + 1])
        && Next(states[n], acts[n], states[n + 1]);
    FetchTakesAll(states[i], acts[i]);
    FetchTakesAll(states[j], acts[j]);
    FetchTakesAll(states[n], acts[n]);
    ReadingsInHand(states, acts, i, j);
    BatchInHand(states, acts, j + 1, n, states[j].uploader.readings + acts[j].ss);
    KeysOfConcat(states[j].uploader.readings, acts[j].ss);
  }

  // ----- an answered batch is marked -----

  /** The reply to a batch with these keys has arrived, and its statuses are still to be marked. */
  ghost predicate BeingMarked(s: State, keys: set<Key>) {
    && keys <= s.ever.Keys
    && match s.uploader
       case MarkingReadings(ks) => ks == keys
       case MarkingStatuses(ks) => ks == keys && forall k <- keys :: IsReading(k) ==> !IsPending(s.store, k)
       case _ => false
  }

  /** Nothing outside these keys is touched. */
  ghost predicate Untouched(before: Table, after: Table, keys: set<Key>) {
    && (forall k <- before :: k !in keys ==> k in after && after[k] == before[k])
    && after.Keys == before.Keys
    && (forall k <- before :: after[k].record == before[k].record)
  }

  lemma ArrivalBeginsMarking(s: State, id: Id)
    requires Inv(s) && Enabled(s, ReplyArrives) && s.uploader == Waiting(id)
    ensures id in s.sent && BeingMarked(Apply(s, ReplyArrives), KeysOf(s.sent[id]))
    ensures Apply(s, ReplyArrives).store == s.store
  {
    hide StoreOk, TasksOk, AcceptedOk, PrimeOk, ProcessedOk, TrustOk, PlacesOk, DoneOk;
  }

  lemma MarkingStep(s: State, a: Action, keys: set<Key>)
    requires BeingMarked(s, keys) && Enabled(s, a)
    ensures !a.MarkStatuses? ==> BeingMarked(Apply(s, a), keys)
    ensures a.MarkStatuses? ==> forall k <- keys :: !IsPending(Apply(s, a).store, k)
    ensures a.MarkStatuses? ==> Apply(s, a).uploader.Ready?
    ensures a.MarkReadings? || a.MarkStatuses? ==> Untouched(s.store, Apply(s, a).store, keys)
  {
    hide Enabled, Apply, BeingMarked, Untouched;
    if a.MarkReadings? {
      ReadingsMarked(s, keys);
    } else if a.MarkStatuses? {
      StatusesMarked(s, keys);
    } else {
      QuietMarking(s, a, keys);
    }
  }

  lemma ReadingsMarked(s: State, keys: set<Key>)
    requires BeingMarked(s, keys) && Enabled(s, MarkReadings)
    ensures BeingMarked(Apply(s, MarkReadings), keys)
    ensures Untouched(s.store, Apply(s, MarkReadings).store, keys)
  {
  }

  lemma StatusesMarked(s: State, keys: set<Key>)
    requires BeingMarked(s, keys) && Enabled(s, MarkStatuses)
    ensures forall k <- keys :: !IsPending(Apply(s, MarkStatuses).store, k)
    ensures Apply(s, MarkStatuses).uploader.Ready?
    ensures Untouched(s.store, Apply(s, MarkStatuses).store, keys)
  {
  }

  lemma QuietMarking(s: State, a: Action, keys: set<Key>)
    requires BeingMarked(s, keys) && Enabled(s, a) && !a.MarkReadings? && !a.MarkStatuses?
    ensures BeingMarked(Apply(s, a), keys)
  {
    hide KeysOf, ListsPending, CheckOne;
    if a.Check? {
      CheckFrame(s, a.id);
    }
  }

  lemma {:induction false} StaysBeingMarked(states: seq<State>, acts: seq<Action>, i: nat, j: nat, keys: set<Key>)
    requires IsRun(INIT, Next, states, acts) && i <= j < |states| && BeingMarked(states[i], keys)
    requires forall l :: i <= l < j ==> !acts[l].MarkStatuses?
    ensures BeingMarked(states[j], keys)
    ensures forall l :: i <= l < j && acts[l].MarkReadings? ==> Untouched(states[l].store, states[l + 1].store, keys)
    decreases j
  {
    hide Enabled, Apply, BeingMarked, Untouched;
    if i < j {
      StaysBeingMarked(states, acts, i, j - 1, keys);
      assert Next(states[j - 1], acts[j - 1], states[j]);
      MarkingStep(states[j - 1], acts[j - 1], keys);
    }
  }

  /** In any run: when the reply to a batch arrived, then after the next marking of statuses no record
      of the batch is pending, readings and statuses alike; and the two marking steps change nothing
      of any record outside the batch. */
  lemma AnsweredBatchIsMarked(states: seq<State>, acts: seq<Action>, i: nat, j: nat, id: Id)
    requires IsRun(INIT, Next, states, acts) && i < j < |acts|
    requires acts[i].ReplyArrives? && states[i].uploader == Waiting(id)
    requires acts[j].MarkStatuses? && forall l :: i < l < j ==> !acts[l].MarkStatuses?
    ensures id in states[i].sent
    ensures forall k <- KeysOf(states[i].sent[id]) :: !IsPending(states[j + 1].store, k)
    ensures forall l :: i < l <= j && (acts[l].MarkReadings? || acts[l].MarkStatuses?) ==>
              Untouched(states[l].store, states[l + 1].store, KeysOf(states[i].sent[id]))
    ensures states[j + 1].uploader.Ready?
  {
    hide Enabled, Apply, BeingMarked, Untouched, KeysOf, Inv;
    InvThroughout(states, acts, i);
    assert Next(states[i], acts[i], states[i + 1]) && Next(states[j], acts[j], states[j + 1]);
    ArrivalBeginsMarking(states[i], id);
    StaysBeingMarked(states, acts, i + 1, j, KeysOf(states[i].sent[id]));
    MarkingStep(states[j], acts[j], KeysOf(states[i].sent[id]));
  }

  /** A marking is never held up: once the reply has arrived, the two marking steps are all that the
      uploader can do, and it can do them. */
  lemma MarkingIsOpen(s: State, keys: set<Key>)
    requires BeingMarked(s, keys)
    ensures Enabled(s, MarkReadings) || Enabled(s, MarkStatuses)
    ensures !Enabled(s, CallFails) && !Enabled(s, Connect)
  {
  }

  /** The uploader gives up its client only when a call fails. */
  lemma OnlyFailureDisconnects(s: State, a: Action)
    requires Enabled(s, a)
    ensures Apply(s, a).uploader.Offline? <==> a.CallFails? || (s.uploader.Offline? && !a.Connect?)
  {
    hide KeysOf, ListsPending, CheckOne, Mark, Cleaned, Put;
    if a.Check? {
      CheckFrame(s, a.id);
    }
  }

  // ----- what is lost is gone -----

  /** This batch, or its reply, is nowhere on its way. */
  ghost predicate Gone(s: State, id: Id) {
    id in s.sent && id !in s.inFlight && id !in s.tasks && id !in s.replies
  }

  lemma GoneStep(s: State, a: Action, id: Id)
    requires Gone(s, id) && Enabled(s, a)
    ensures Gone(Apply(s, a), id)
  {
    hide KeysOf, ListsPending, CheckOne, Mark, Cleaned, Put;
    if a.Check? {
      CheckFrame(s, a.id);
    }
  }

  lemma LossIsGone(s: State, a: Action, id: Id)
    requires Inv(s) && Enabled(s, a) && (a == LoseBatch(id) || a == LoseReply(id))
    ensures Gone(Apply(s, a), id)
  {
    hide StoreOk, UploaderOk, SentOk, TasksOk, AcceptedOk, PrimeOk, ProcessedOk, TrustOk;
  }

  /** After a batch or its reply is lost, its call can only fail. */
  lemma {:induction false} LostNeverArrives(states: seq<State>, acts: seq<Action>, i: nat, j: nat, id: Id)
    requires IsRun(INIT, Next, states, acts) && i < j < |states|
    requires acts[i] == LoseBatch(id) || acts[i] == LoseReply(id)
    ensures Gone(states[j], id)
    ensures states[j].uploader == Waiting(id) ==> !Enabled(states[j], ReplyArrives)
    decreases j
  {
    hide Inv, Apply;
    assert Next(states[j - 1], acts[j - 1], states[j]);
    if i == j - 1 {
      InvThroughout(states, acts, i);
      LossIsGone(states[i], acts[i], id);
    } else {
      LostNeverArrives(states, acts, i, j - 1, id);
      GoneStep(states[j - 1], acts[j - 1], id);
    }
  }

  // ----- a batch worked on alone -----

  lemma ReceiveIsUndisturbed(s: State, id: Id)
    requires Enabled(s, Receive(id))
    ensures Undisturbed(Apply(s, Receive(id)), id, s.devices, s.prime)
  {
  }

  /** Actions that come between the beginning and the end of the work on a batch without touching
      what it works with: no other batch is stored from, and no device is registered. */
  predicate Apart(a: Action, id: Id) {
    !a.Register? && (a.StoreNext? ==> a.id == id) && a != Reply(id)
  }

  lemma UndisturbedStep(s: State, a: Action, id: Id, d: set<Id>, m: PrimeIngest.Registry)
    requires Inv(s) && Undisturbed(s, id, d, m) && Enabled(s, a) && Apart(a, id)
    ensures Undisturbed(Apply(s, a), id, d, m)
    ensures Apply(s, a).sent[id] == s.sent[id]
  {
    if a == Check(id) {
      UndisturbedCheck(s, id, d, m);
      CheckFrame(s, id);
    } else if a == StoreNext(id) {
      UndisturbedStore(s, id, d, m);
    } else {
      assert id !in s.inFlight;
      hide Inv, PrimeIngest.Accepted, PrimeIngest.StoreAll, Enabled, Apply;
      TaskFate(s, a, id);
      ApartLeaves(s, a, id);
    }
  }

  lemma ApartLeaves(s: State, a: Action, id: Id)
    requires Enabled(s, a) && Apart(a, id) && !a.StoreNext? && id in s.sent
    ensures var t := Apply(s, a);
            t.devices == s.devices && t.prime == s.prime && id in t.sent && t.sent[id] == s.sent[id]
  {
    hide ListsPending, CheckOne, Mark, Cleaned, Put, KeysOf, Readings, Statuses;
    if a.Check? {
      CheckFrame(s, a.id);
    }
  }

  lemma {:induction false} StaysUndisturbed(states: seq<State>, acts: seq<Action>, i: nat, j: nat, id: Id)
    requires IsRun(INIT, Next, states, acts) && i < j < |states|
    requires acts[i] == Receive(id) && forall l :: i < l < j ==> Apart(acts[l], id)
    ensures id in states[i].sent && id in states[j].sent && states[j].sent[id] == states[i].sent[id]
    ensures Undisturbed(states[j], id, states[i].devices, states[i].prime)
    decreases j
  {
    hide Inv, Enabled, Apply, Undisturbed;
    var n := j - 1;
    assert Next(states[n], acts[n], states[j]);
    if n == i {
      ReceiveIsUndisturbed(states[i], id);
      ReceiveKeepsSent(states[i], id);
    } else {
      StaysUndisturbed(states, acts, i, n, id);
      InvThroughout(states, acts, n);
      UndisturbedStep(states[n], acts[n], id, states[i].devices, states[i].prime);
      UndisturbedIsSent(states[j], id, states[i].devices, states[i].prime);
    }
  }

  lemma ReceiveKeepsSent(s: State, id: Id)
    requires Enabled(s, Receive(id))
    ensures id in s.sent && Apply(s, Receive(id)).sent == s.sent
  {
  }

  lemma UndisturbedIsSent(s: State, id: Id, d: set<Id>, m: PrimeIngest.Registry)
    requires Undisturbed(s, id, d, m)
    ensures id in s.sent
  {
  }

  /** In any run: if between the arrival of a batch and its reply prime stores from no other batch and
      registers no device, the record-by-record work has exactly the effect and the counts of one
      call of the upload handler. */
  lemma BatchAloneIsOneUpload(states: seq<State>, acts: seq<Action>, i: nat, j: nat, id: Id,
                              readings: seq<Record>, statuses: seq<Record>)
    requires IsRun(INIT, Next, states, acts) && i < j < |acts|
    requires acts[i] == Receive(id) && acts[j] == Reply(id) && forall l :: i < l < j ==> Apart(acts[l], id)
    requires id in states[i].sent && states[i].sent[id] == readings + statuses
    ensures var s, t := states[i], states[j + 1];
            && t.prime == PrimeIngest.Ingest(s.prime, s.devices, readings, statuses)
            && id in t.replies
            && t.replies[id].stored ==
                 |PrimeIngest.Accepted(s.devices, readings)| + |PrimeIngest.Accepted(s.devices, statuses)|
            && t.replies[id].stored + t.replies[id].rejected == |readings| + |statuses|
  {
    hide Undisturbed, PrimeIngest.Ingest, PrimeIngest.Accepted;
    StaysUndisturbed(states, acts, i, j, id);
    assert Next(states[j], acts[j], states[j + 1]);
    UndisturbedTaskIsOneUpload(states[j], id, states[i].devices, states[i].prime, readings, statuses);
  }

  // ----- a backlog that does not fit -----

  /** The records of `backlog` are pending and no batch with all of them has reached prime. */
  ghost predicate Stuck(s: State, backlog: set<Key>, uploaded: set<Key>) {
    && backlog <= PendingKeys(s.store)
    && (forall k <- s.store :: s.store[k].state == Uploaded ==> k in uploaded)
    && StuckUploader(s.uploader, s.sent, s.tasks.Keys + s.done.Keys, backlog)
  }

  ghost predicate StuckUploader(u: Uploader, sent: map<Id, seq<Record>>, begun: set<Id>, backlog: set<Key>) {
    match u
    case Offline => true
    case Ready => true
    case HaveReadings(rs) => forall k <- backlog :: IsReading(k) ==> k in KeysOf(rs)
    case HaveBatch(batch) => backlog <= KeysOf(batch)
    case Waiting(id) => id in sent && backlog <= KeysOf(sent[id]) && id !in begun
    case _ => false
  }

  /** Prime receives a batch only if the writer task takes its frame; see RpcFrame.Writer.WriteQueued. */
  ghost predicate ThroughWriter(enc: seq<Record> -> Bytes, s: State, a: Action) {
    a.Receive? && a.id in s.sent ==> RpcFrame.Writable(enc(s.sent[a.id]))
  }

  lemma StuckStep(enc: seq<Record> -> Bytes, s: State, a: Action, backlog: set<Key>, uploaded: set<Key>)
    requires Inv(s) && Enabled(s, a) && Stuck(s, backlog, uploaded)
    requires ThroughWriter(enc, s, a)
    requires s.uploader.Waiting? ==> !RpcFrame.Writable(enc(s.sent[s.uploader.id]))
    ensures Stuck(Apply(s, a), backlog, uploaded)
    ensures !a.ReplyArrives? && !a.MarkReadings? && !a.MarkStatuses?
  {
    hide StoreOk, SentOk, TasksOk, AcceptedOk, PrimeOk, ProcessedOk, TrustOk, UploaderOk, Enabled, Apply, ThroughWriter,
         StuckUploader;
    StuckStore(s, a, backlog, uploaded);
    StuckUploaderStep(enc, s, a, backlog);
  }

  lemma StuckUploaderStep(enc: seq<Record> -> Bytes, s: State, a: Action, backlog: set<Key>)
    requires PlacesOk(s.sent.Keys, s.inFlight, s.tasks.Keys, s.done.Keys) && s.replies.Keys <= s.done.Keys
    requires Enabled(s, a) && ThroughWriter(enc, s, a) && backlog <= PendingKeys(s.store)
    requires StuckUploader(s.uploader, s.sent, s.tasks.Keys + s.done.Keys, backlog)
    requires s.uploader.Waiting? ==> !RpcFrame.Writable(enc(s.sent[s.uploader.id]))
    ensures var t := Apply(s, a); StuckUploader(t.uploader, t.sent, t.tasks.Keys + t.done.Keys, backlog)
    ensures !a.ReplyArrives? && !a.MarkReadings? && !a.MarkStatuses?
  {
    hide KeysOf, CheckOne, RpcFrame.Writable, Mark, Cleaned, Put;
    match a {
      case Check(id) => CheckFrame(s, id);
      case FetchStatuses(ss) => KeysOfConcat(s.uploader.readings, ss);
      case _ =>
    }
  }

  lemma StuckStore(s: State, a: Action, backlog: set<Key>, uploaded: set<Key>)
    requires Enabled(s, a) && Stuck(s, backlog, uploaded)
    ensures var t := Apply(s, a);
            && backlog <= PendingKeys(t.store)
            && forall k <- t.store :: t.store[k].state == Uploaded ==> k in uploaded
  {
    hide ListsPending, CheckOne, KeysOf;
    if a.Check? {
      CheckFrame(s, a.id);
    }
  }

  lemma TooLargeIsRefused(body: Bytes)
    requires RpcFrame.MAX_FRAME_BYTES < |body| < RpcFrame.U32_RANGE
    ensures !RpcFrame.Writable(body)
  {
  }

  /** If the uploader waits for a batch with all these records, that batch encodes to more than a frame
      may hold, and to less than 2^32 bytes. */
  ghost predicate TooLargeIfItHolds(enc: seq<Record> -> Bytes, s: State, backlog: set<Key>) {
    s.uploader.Waiting? && s.uploader.id in s.sent && backlog <= KeysOf(s.sent[s.uploader.id]) ==>
      RpcFrame.MAX_FRAME_BYTES < |enc(s.sent[s.uploader.id])| < RpcFrame.U32_RANGE
  }

  function UploadedKeys(t: Table): set<Key> {
    set k | k in t && t[k].state == Uploaded
  }

  /** The frame limit reaches the uploader: while every batch it sends that holds all the records
      pending at some point is too large, those records stay pending and no record is marked uploaded,
      however often the uploader reconnects. */
  lemma {:induction false} OversizedBacklogIsStuck(enc: seq<Record> -> Bytes, states: seq<State>, acts: seq<Action>,
                                                   i: nat, j: nat)
    requires IsRun(INIT, Next, states, acts) && i <= j < |states|
    requires forall l :: i <= l < j ==> ThroughWriter(enc, states[l], acts[l])
    requires states[i].uploader.Offline? || states[i].uploader.Ready?
    requires forall l :: i <= l < j ==> TooLargeIfItHolds(enc, states[l], PendingKeys(states[i].store))
    ensures Stuck(states[j], PendingKeys(states[i].store), UploadedKeys(states[i].store))
    ensures forall l :: i <= l < j ==> !acts[l].MarkReadings? && !acts[l].MarkStatuses?
    decreases j
  {
    hide Inv, Enabled, Apply, KeysOf, RpcFrame.Writable;
    if i < j {
      var n := j - 1;
      OversizedBacklogIsStuck(enc, states, acts, i, n);
      InvThroughout(states, acts, n);
      assert Next(states[n], acts[n], states[j]);
      if states[n].uploader.Waiting? {
        TooLargeIsRefused(enc(states[n].sent[states[n].uploader.id]));
      }
      StuckStep(enc, states[n], acts[n], PendingKeys(states[i].store), UploadedKeys(states[i].store));
    }
  }

  /** A run in which a batch that is too large is sent, the call fails, and the same record is fetched
      and sent again; it is still pending, and prime has received neither batch. */
  lemma OversizedBatchIsResent(enc: seq<Record> -> Bytes, r: Record)
    returns (states: seq<State>, acts: seq<Action>)
    requires RpcFrame.MAX_FRAME_BYTES < |enc([r])| < RpcFrame.U32_RANGE
    ensures IsRun(INIT, Next, states, acts) && |states| == |acts| + 1
    ensures forall l :: 0 <= l < |acts| ==> ThroughWriter(enc, states[l], acts[l])
    ensures var s := states[|acts|];
            && s.uploader == Waiting(2) && s.sent == map[1 := [r], 2 := [r]]
            && s.store == map[r.Key() := Stored(r, Pending)] && s.tasks == map[] && s.prime == map[]
            && !RpcFrame.Writable(enc(s.sent[1])) && !RpcFrame.Writable(enc(s.sent[2]))
  {
    hide IsRun, ListsPending, PendingKeys, KeysOf, Put, RpcFrame.Writable;
    TooLargeIsRefused(enc([r]));
    states, acts := RunToSent(r);
    var sent := states[|acts|];
    states, acts := Then(states, acts, CallFails);
    states, acts := Then(states, acts, Connect);
    assert states[|acts|] == sent.(uploader := Ready);
    states, acts := FetchAndSend(r, states, acts, 2);
  }

  // ----- when a call can return Ok -----

  /** Some way on from this run in which the writer does its part ends with the call's own reply. */
  ghost predicate CanReturnOk(enc: seq<Record> -> Bytes, states: seq<State>, acts: seq<Action>, id: Id) {
    exists states2, acts2 :: Returns(enc, states, acts, id, states2, acts2)
  }

  ghost predicate Returns(enc: seq<Record> -> Bytes, states: seq<State>, acts: seq<Action>, id: Id,
                          states2: seq<State>, acts2: seq<Action>)
  {
    && IsRun(INIT, Next, states2, acts2) && states <= states2 && acts < acts2
    && (forall l :: |acts| <= l < |acts2| ==> ThroughWriter(enc, states2[l], acts2[l]))
    && acts2[|acts2| - 1] == ReplyArrives && states2[|acts2| - 1].uploader == Waiting(id)
  }

  /** A batch that prime has not begun and, if it is refused, never will. */
  ghost predicate NotBegun(s: State, id: Id, batch: seq<Record>) {
    id in s.sent && s.sent[id] == batch && id !in s.tasks && id !in s.done && id !in s.replies
  }

  lemma NotBegunStep(enc: seq<Record> -> Bytes, s: State, a: Action, id: Id, batch: seq<Record>)
    requires Enabled(s, a) && NotBegun(s, id, batch) && ThroughWriter(enc, s, a) && !RpcFrame.Writable(enc(batch))
    ensures NotBegun(Apply(s, a), id, batch)
  {
    hide KeysOf, ListsPending, CheckOne, Mark, Cleaned, Put, RpcFrame.Writable;
    if a.Check? {
      CheckFrame(s, a.id);
    }
  }

  lemma {:induction false} NeverBegun(enc: seq<Record> -> Bytes, states: seq<State>, acts: seq<Action>, i: nat, j: nat,
                                      id: Id, batch: seq<Record>)
    requires IsRun(INIT, Next, states, acts) && i <= j < |states|
    requires forall l :: i <= l < |acts| ==> ThroughWriter(enc, states[l], acts[l])
    requires NotBegun(states[i], id, batch) && !RpcFrame.Writable(enc(batch))
    ensures NotBegun(states[j], id, batch)
    decreases j
  {
    hide Enabled, Apply, NotBegun, RpcFrame.Writable;
    if i < j {
      NeverBegun(enc, states, acts, i, j - 1, id, batch);
      assert Next(states[j - 1], acts[j - 1], states[j]);
      NotBegunStep(enc, states[j - 1], acts[j - 1], id, batch);
    }
  }

  /** A run that goes on from another without the uploader doing anything. */
  ghost predicate GoesOn(enc: seq<Record> -> Bytes, states: seq<State>, acts: seq<Action>, id: Id,
                         states2: seq<State>, acts2: seq<Action>)
  {
    && IsRun(INIT, Next, states2, acts2) && |states2| == |acts2| + 1 && states <= states2 && acts < acts2
    && (forall l :: |acts| <= l < |acts2| ==> ThroughWriter(enc, states2[l], acts2[l]))
    && var s := states2[|acts2|];
       s.uploader == Waiting(id) && id in s.sent
  }

  /** Prime works on. */
  lemma WorkOn(enc: seq<Record> -> Bytes, states: seq<State>, acts: seq<Action>, id: Id,
               states2: seq<State>, acts2: seq<Action>, a: Action)
    returns (states3: seq<State>, acts3: seq<Action>)
    requires GoesOn(enc, states, acts, id, states2, acts2) && Enabled(states2[|acts2|], a)
    requires a == Check(id) || a == StoreNext(id) || a == Reply(id)
    ensures GoesOn(enc, states, acts, id, states3, acts3)
    ensures states3[|acts3|] == Apply(states2[|acts2|], a)
  {
    hide IsRun, Enabled, KeysOf;
    states3, acts3 := Then(states2, acts2, a);
    WorkLeavesUploader(states2[|acts2|], a);
  }

  lemma WorkLeavesUploader(s: State, a: Action)
    requires Enabled(s, a) && (a.Check? || a.StoreNext? || a.Reply?)
    ensures Apply(s, a).uploader == s.uploader && Apply(s, a).sent == s.sent
  {
    hide KeysOf;
    if a.Check? {
      CheckFrame(s, a.id);
    }
  }

  lemma CheckAdvances(s: State, id: Id)
    requires Enabled(s, Check(id))
    ensures var t := Apply(s, Check(id));
            id in t.tasks && id in t.sent && t.sent[id] == s.sent[id]
            && t.tasks[id].checked == s.tasks[id].checked + 1 && t.tasks[id].stored == s.tasks[id].stored
            && |t.tasks[id].valid| >= |s.tasks[id].valid|
  {
    hide ListsPending, Mark, Cleaned, Put, KeysOf;
    assert Apply(s, Check(id)) == CheckOne(s, id);
  }

  /** The call for a batch in flight can return Ok if and only if the writer takes the batch's frame. */
  lemma CanReturnOkExactly(enc: seq<Record> -> Bytes, states: seq<State>, acts: seq<Action>, id: Id)
    requires IsRun(INIT, Next, states, acts)
    requires states[|acts|].uploader == Waiting(id) && id in states[|acts|].inFlight
    ensures id in states[|acts|].sent
    ensures CanReturnOk(enc, states, acts, id) <==> RpcFrame.Writable(enc(states[|acts|].sent[id]))
  {
    hide Inv, RpcFrame.Writable, Returns, Enabled, Apply, NotBegun;
    InvThroughout(states, acts, |acts|);
    InFlightIsNotBegun(states[|acts|], id);
    var batch := states[|acts|].sent[id];
    if RpcFrame.Writable(enc(batch)) {
      var states2, acts2 := PrimeAnswers(enc, states, acts, id);
      assert Returns(enc, states, acts, id, states2, acts2);
    } else if states2, acts2 :| Returns(enc, states, acts, id, states2, acts2) {
      RefusedNeverReturns(enc, states, acts, id, batch, states2, acts2);
    }
  }

  lemma InFlightIsNotBegun(s: State, id: Id)
    requires Inv(s) && id in s.inFlight
    ensures id in s.sent && NotBegun(s, id, s.sent[id])
  {
    hide StoreOk, UploaderOk, SentOk, TasksOk, AcceptedOk, PrimeOk, ProcessedOk, TrustOk;
  }

  lemma RefusedNeverReturns(enc: seq<Record> -> Bytes, states: seq<State>, acts: seq<Action>, id: Id,
                            batch: seq<Record>, states2: seq<State>, acts2: seq<Action>)
    requires IsRun(INIT, Next, states, acts) && NotBegun(states[|acts|], id, batch) && !RpcFrame.Writable(enc(batch))
    ensures !Returns(enc, states, acts, id, states2, acts2)
  {
    hide Enabled, Apply, NotBegun, RpcFrame.Writable;
    if Returns(enc, states, acts, id, states2, acts2) {
      NeverBegun(enc, states2, acts2, |acts|, |acts2| - 1, id, batch);
      assert Next(states2[|acts2| - 1], acts2[|acts2| - 1], states2[|acts2|]);
      CannotArrive(states2[|acts2| - 1], id, batch);
    }
  }

  lemma CannotArrive(s: State, id: Id, batch: seq<Record>)
    requires NotBegun(s, id, batch) && s.uploader == Waiting(id)
    ensures !Enabled(s, ReplyArrives)
  {
  }

  lemma Begin(enc: seq<Record> -> Bytes, states: seq<State>, acts: seq<Action>, id: Id)
    returns (states2: seq<State>, acts2: seq<Action>)
    requires IsRun(INIT, Next, states, acts)
    requires var s := states[|acts|];
             s.uploader == Waiting(id) && id in s.inFlight && id in s.sent && RpcFrame.Writable(enc(s.sent[id]))
    ensures GoesOn(enc, states, acts, id, states2, acts2)
    ensures states2[|acts2|].tasks == states[|acts|].tasks[id := Task(0, [], 0, 0)]
  {
    hide RpcFrame.Writable;
    assert |states| == |acts| + 1;
    states2, acts2 := Then(states, acts, Receive(id));
  }

  lemma CheckAll(enc: seq<Record> -> Bytes, states: seq<State>, acts: seq<Action>, id: Id,
                 states2: seq<State>, acts2: seq<Action>)
    returns (states3: seq<State>, acts3: seq<Action>)
    requires GoesOn(enc, states, acts, id, states2, acts2)
    requires var s := states2[|acts2|];
             id in s.tasks && s.tasks[id].checked <= |s.sent[id]| && s.tasks[id].stored <= |s.tasks[id].valid|
    ensures GoesOn(enc, states, acts, id, states3, acts3)
    ensures var s := states3[|acts3|];
            id in s.tasks && s.tasks[id].checked == |s.sent[id]| && s.tasks[id].stored <= |s.tasks[id].valid|
  {
    states3, acts3 := states2, acts2;
    var s := states3[|acts3|];
    hide IsRun, RpcFrame.Writable, KeysOf, CheckOne, ThroughWriter;
    while s.tasks[id].checked < |s.sent[id]|
      invariant GoesOn(enc, states, acts, id, states3, acts3) && s == states3[|acts3|]
      invariant id in s.tasks && s.tasks[id].checked <= |s.sent[id]| && s.tasks[id].stored <= |s.tasks[id].valid|
      decreases |s.sent[id]| - s.tasks[id].checked
    {
      CheckAdvances(s, id);
      states3, acts3 := WorkOn(enc, states, acts, id, states3, acts3, Check(id));
      s := states3[|acts3|];
    }
  }

  lemma StoreTheRest(enc: seq<Record> -> Bytes, states: seq<State>, acts: seq<Action>, id: Id,
                     states2: seq<State>, acts2: seq<Action>)
    returns (states3: seq<State>, acts3: seq<Action>)
    requires GoesOn(enc, states, acts, id, states2, acts2)
    requires var s := states2[|acts2|];
             id in s.tasks && s.tasks[id].checked == |s.sent[id]| && s.tasks[id].stored <= |s.tasks[id].valid|
    ensures GoesOn(enc, states, acts, id, states3, acts3)
    ensures Enabled(states3[|acts3|], Reply(id))
  {
    states3, acts3 := states2, acts2;
    var s := states3[|acts3|];
    hide IsRun, RpcFrame.Writable, KeysOf, CheckOne, ThroughWriter;
    while s.tasks[id].stored < |s.tasks[id].valid|
      invariant GoesOn(enc, states, acts, id, states3, acts3) && s == states3[|acts3|]
      invariant id in s.tasks && s.tasks[id].checked == |s.sent[id]| && s.tasks[id].stored <= |s.tasks[id].valid|
      decreases |s.tasks[id].valid| - s.tasks[id].stored
    {
      states3, acts3 := WorkOn(enc, states, acts, id, states3, acts3, StoreNext(id));
      s := states3[|acts3|];
    }
  }

  lemma PrimeAnswers(enc: seq<Record> -> Bytes, states: seq<State>, acts: seq<Action>, id: Id)
    returns (states2: seq<State>, acts2: seq<Action>)
    requires IsRun(INIT, Next, states, acts)
    requires var s := states[|acts|];
             s.uploader == Waiting(id) && id in s.inFlight && id in s.sent && RpcFrame.Writable(enc(s.sent[id]))
    ensures Returns(enc, states, acts, id, states2, acts2)
  {
    hide IsRun, RpcFrame.Writable, KeysOf, CheckOne;
    states2, acts2 := Begin(enc, states, acts, id);
    states2, acts2 := CheckAll(enc, states, acts, id, states2, acts2);
    states2, acts2 := StoreTheRest(enc, states, acts, id, states2, acts2);
    states2, acts2 := WorkOn(enc, states, acts, id, states2, acts2, Reply(id));
    states2, acts2 := Then(states2, acts2, ReplyArrives);
  }
}
