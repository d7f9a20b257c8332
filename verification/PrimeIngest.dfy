/** Prime's handling of one uploaded batch, and its in-memory registries. */
module PrimeIngest {
  import opened Core
  import opened DispatchStorage

  type Registry = map<Key, Record>

  datatype BatchUploadResponse = BatchUploadResponse(
    id: Id,
    readingsStored: nat,
    readingsRejected: nat,
    statusesStored: nat,
    statusesRejected: nat)

  /** The records of registered devices, in batch order. */
  function Accepted(devices: set<Id>, rs: seq<Record>): (vs: seq<Record>)
    ensures |vs| <= |rs|
  {
    if rs == [] then []
    else
      var n := |rs| - 1;
      Accepted(devices, rs[..n]) + (if rs[n].DeviceId() in devices then [rs[n]] else [])
  }

  function StoreAll(m: Registry, rs: seq<Record>): Registry {
    if rs == [] then m
    else
      var n := |rs| - 1;
      StoreAll(m, rs[..n])[rs[n].Key() := rs[n]]
  }

  function Ingest(m: Registry, devices: set<Id>, readings: seq<Record>, statuses: seq<Record>): Registry {
    StoreAll(StoreAll(m, Accepted(devices, readings)), Accepted(devices, statuses))
  }

  class Prime {
    var devices: set<Id>   // the device registry's keys; nothing ever removes one
    var records: Registry

    constructor ()
      ensures devices == {} && records == map[]
    {
      devices, records := {}, map[];
    }

    method RegisterDevice(id: Id)
      modifies this`devices
      ensures devices == old(devices) + {id}
    {
      devices := devices + {id};
    }

    method FilterKnown(rs: seq<Record>) returns (valid: seq<Record>, rejected: nat)
      ensures valid == Accepted(devices, rs)
      ensures |valid| + rejected == |rs|
    {
      valid, rejected := [], 0;
      for i := 0 to |rs|
        invariant valid == Accepted(devices, rs[..i])
        invariant |valid| + rejected == i
      {
        assert rs[..i + 1][..i] == rs[..i];
        if rs[i].DeviceId() in devices {
          valid := valid + [rs[i]];
        } else {
          rejected := rejected + 1;
        }
      }
      assert rs[..|rs|] == rs;
    }

    method BatchStore(rs: seq<Record>)
      modifies this`records
      ensures records == StoreAll(old(records), rs)
    {
      for i := 0 to |rs|
        invariant records == StoreAll(old(records), rs[..i])
      {
        assert rs[..i + 1][..i] == rs[..i];
        records := records[rs[i].Key() := rs[i]];
      }
      assert rs[..|rs|] == rs;
    }

    method OnBatchUpload(id: Id, readings: seq<Record>, statuses: seq<Record>) returns (r: BatchUploadResponse)
      modifies this`records
      ensures records == Ingest(old(records), devices, readings, statuses)
      ensures r.id == id
      ensures r.readingsStored == |Accepted(devices, readings)|
      ensures r.statusesStored == |Accepted(devices, statuses)|
      ensures r.readingsStored + r.readingsRejected == |readings|
      ensures r.statusesStored + r.statusesRejected == |statuses|
    {
      var validReadings, rejectedReadings := FilterKnown(readings);
      var validStatuses, rejectedStatuses := FilterKnown(statuses);
      if validReadings != [] {
        BatchStore(validReadings);
      }
      if validStatuses != [] {
        BatchStore(validStatuses);
      }
      r := BatchUploadResponse(id, |validReadings|, rejectedReadings, |validStatuses|, rejectedStatuses);
    }
  }

  /** What a store of several records leaves under a key: the last of them with that key, if any. */
  lemma {:induction false} StoreAllAt(m: Registry, rs: seq<Record>, k: Key)
    ensures k in StoreAll(m, rs) <==> k in m || k in KeysOf(rs)
    ensures k !in KeysOf(rs) && k in m ==> StoreAll(m, rs)[k] == m[k]
    ensures k in KeysOf(rs) ==> StoreAll(m, rs)[k] in rs && StoreAll(m, rs)[k].Key() == k
    ensures k in KeysOf(rs) ==>
              forall m2: Registry :: k in StoreAll(m2, rs) && StoreAll(m2, rs)[k] == StoreAll(m, rs)[k]
    decreases |rs|
  {
    if rs != [] {
      var n := |rs| - 1;
      StoreAllAt(m, rs[..n], k);
      KeysOfAppend(rs[..n], rs[n]);
      assert rs == rs[..n] + [rs[n]];
      forall m2: Registry | k in KeysOf(rs) ensures k in StoreAll(m2, rs) && StoreAll(m2, rs)[k] == StoreAll(m, rs)[k] {
        assert StoreAll(m2, rs) == StoreAll(m2, rs[..n])[rs[n].Key() := rs[n]];
      }
    }
  }

  /** Prime keeps exactly the records of registered devices: nothing of an unregistered device
      gets in, and everything of a registered one does, in order. */
  lemma {:induction false} AcceptedExactly(devices: set<Id>, rs: seq<Record>, r: Record)
    ensures r in Accepted(devices, rs) <==> r in rs && r.DeviceId() in devices
    decreases |rs|
  {
    if rs != [] {
      var n := |rs| - 1;
      AcceptedExactly(devices, rs[..n], r);
      assert rs == rs[..n] + [rs[n]];
    }
  }

  /** Processing a batch again, against an unchanged device registry, changes nothing: a batch
      that is sent again because its reply was lost has no further effect. */
  lemma ReprocessingIsIdempotent(m: Registry, devices: set<Id>, readings: seq<Record>, statuses: seq<Record>)
    ensures var once := Ingest(m, devices, readings, statuses);
            Ingest(once, devices, readings, statuses) == once
  {
    var rs, ss := Accepted(devices, readings), Accepted(devices, statuses);
    var once := StoreAll(StoreAll(m, rs), ss);
    var twice := StoreAll(StoreAll(once, rs), ss);
    forall k: Key ensures (k in twice <==> k in once) && (k in once ==> twice[k] == once[k]) {
      StoreAllAt(StoreAll(m, rs), ss, k);
      StoreAllAt(StoreAll(once, rs), ss, k);
      StoreAllAt(m, rs, k);
      StoreAllAt(once, rs, k);
    }
  }

  lemma {:induction false} AcceptedAppend(devices: set<Id>, a: seq<Record>, b: seq<Record>)
    ensures Accepted(devices, a + b) == Accepted(devices, a) + Accepted(devices, b)
    decreases |b|
  {
    if b == [] {
      assert a + b == a;
    } else {
      var n := |b| - 1;
      assert (a + b)[..|a| + n] == a + b[..n];
      AcceptedAppend(devices, a, b[..n]);
    }
  }

  lemma {:induction false} StoreAllAppend(m: Registry, a: seq<Record>, b: seq<Record>)
    ensures StoreAll(m, a + b) == StoreAll(StoreAll(m, a), b)
    decreases |b|
  {
    if b == [] {
      assert a + b == a;
    } else {
      var n := |b| - 1;
      assert (a + b)[..|a| + n] == a + b[..n];
      StoreAllAppend(m, a, b[..n]);
    }
  }

  /** Readings first and statuses second comes to one pass over the whole batch. */
  lemma IngestIsOnePass(m: Registry, devices: set<Id>, readings: seq<Record>, statuses: seq<Record>)
    ensures Ingest(m, devices, readings, statuses) == StoreAll(m, Accepted(devices, readings + statuses))
  {
    AcceptedAppend(devices, readings, statuses);
    StoreAllAppend(m, Accepted(devices, readings), Accepted(devices, statuses));
  }
}
