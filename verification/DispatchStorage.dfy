/** The dispatcher's in-memory store: one shelf for readings, one for statuses. */
module DispatchStorage {
  import opened Core

  datatype Key = ReadingKey(id: Id) | StatusKey(id: Id)

  /** What is kept, uploaded and stored centrally: a reading or a status. */
  datatype Record = Reading(reading: SensorReading) | Status(status: DeviceStatus) {
    function Key(): Key {
      match this
      case Reading(r) => ReadingKey(r.id)
      case Status(s) => StatusKey(s.id)
    }

    function DeviceId(): Id {
      match this
      case Reading(r) => r.deviceId
      case Status(s) => s.deviceId
    }
  }

  datatype StorageState = Pending | Uploaded

  datatype Stored = Stored(record: Record, state: StorageState)

  type Table = map<Key, Stored>

  ghost predicate Keyed(t: Table) {
    forall k <- t :: t[k].record.Key() == k
  }

  function Put(t: Table, r: Record): Table {
    t[r.Key() := Stored(r, Pending)]
  }

  function PutAll(t: Table, rs: seq<Record>): Table {
    if rs == [] then t else Put(PutAll(t, rs[..|rs| - 1]), rs[|rs| - 1])
  }

  predicate IsPending(t: Table, k: Key) {
    k in t && t[k].state == Pending
  }

  function PendingKeys(t: Table): set<Key> {
    set k | k in t && t[k].state == Pending
  }

  function Mark(t: Table, ks: set<Key>): Table {
    map k | k in t :: if k in ks then t[k].(state := Uploaded) else t[k]
  }

  function Cleaned(t: Table): Table {
    map k | k in t && t[k].state == Pending :: t[k]
  }

  function KeysOf(rs: seq<Record>): set<Key> {
    set i | 0 <= i < |rs| :: rs[i].Key()
  }

  /** rs lists the pending records of t once each, in some order. */
  ghost predicate ListsPending(t: Table, rs: seq<Record>) {
    && KeysOf(rs) == PendingKeys(t)
    && (forall r <- rs :: r.Key() in t && t[r.Key()].record == r)
    && (forall i, j :: 0 <= i < j < |rs| ==> rs[i].Key() != rs[j].Key())
  }

  function AsSet(ks: seq<Key>): set<Key> {
    set k | k in ks
  }

  class Shelf {
    var entries: Table

    constructor ()
      ensures entries == map[]
    {
      entries := map[];
    }

    method Store(r: Record)
      modifies this
      ensures entries == Put(old(entries), r)
    {
      entries := entries[r.Key() := Stored(r, Pending)];
    }

    method StoreBatch(rs: seq<Record>)
      modifies this
      ensures entries == PutAll(old(entries), rs)
    {
      for i := 0 to |rs|
        invariant entries == PutAll(old(entries), rs[..i])
      {
        assert rs[..i + 1][..i] == rs[..i];
        Store(rs[i]);
      }
      assert rs[..|rs|] == rs;
    }

    /** The order of the result is the hash map's, which nobody may rely on. */
    method FetchPending() returns (rs: seq<Record>)
      requires Keyed(entries)
      ensures ListsPending(entries, rs)
    {
      rs := [];
      var todo := entries.Keys;
      while todo != {}
        invariant todo <= entries.Keys
        invariant KeysOf(rs) == PendingKeys(entries) - todo
        invariant forall r <- rs :: r.Key() in entries && entries[r.Key()].record == r
        invariant forall i, j :: 0 <= i < j < |rs| ==> rs[i].Key() != rs[j].Key()
        decreases todo
      {
        var k :| k in todo;
        ghost var before := rs;
        if entries[k].state == Pending {
          assert k !in KeysOf(rs);
          rs := rs + [entries[k].record];
          KeysOfAppend(before, entries[k].record);
        }
        todo := todo - {k};
      }
    }

    method MarkUploaded(ks: seq<Key>)
      modifies this
      ensures entries == Mark(old(entries), AsSet(ks))
    {
      for i := 0 to |ks|
        invariant entries == Mark(old(entries), AsSet(ks[..i]))
      {
        assert ks[..i + 1] == ks[..i] + [ks[i]];
        assert AsSet(ks[..i + 1]) == AsSet(ks[..i]) + {ks[i]};
        if ks[i] in entries {
          entries := entries[ks[i] := entries[ks[i]].(state := Uploaded)];
        }
      }
      assert ks[..|ks|] == ks;
    }

    /** Removes what is uploaded, whatever its age, and says how much that was. */
    method CleanupUploaded() returns (deleted: nat)
      modifies this
      ensures entries == Cleaned(old(entries))
      ensures deleted == |old(entries)| - |entries|
    {
      var remove := set k | k in entries && entries[k].state == Uploaded;
      deleted := |remove|;
      assert Cleaned(entries).Keys == entries.Keys - remove;
      assert |entries.Keys - remove| == |entries.Keys| - |remove|;
      var todo := remove;
      while todo != {}
        invariant todo <= remove
        invariant entries == old(entries) - (remove - todo)
        decreases todo
      {
        var k :| k in todo;
        entries := entries - {k};
        todo := todo - {k};
      }
      assert entries == Cleaned(old(entries));
    }

    method GetStats() returns (pending: nat, uploaded: nat, total: nat)
      ensures total == |entries| == pending + uploaded
      ensures pending == |PendingKeys(entries)|
      ensures uploaded == |set k | k in entries && entries[k].state == Uploaded|
    {
      total := |entries|;
      pending := |set k | k in entries && entries[k].state == Pending|;
      ghost var up := set k | k in entries && entries[k].state == Uploaded;
      assert PendingKeys(entries) + up == entries.Keys;
      assert |PendingKeys(entries) + up| == |PendingKeys(entries)| + |up|;
      uploaded := total - pending;
    }
  }

  lemma KeysOfAppend(rs: seq<Record>, r: Record)
    ensures KeysOf(rs + [r]) == KeysOf(rs) + {r.Key()}
  {
    var all := rs + [r];
    assert all[|rs|] == r;
    forall k | k in KeysOf(rs) ensures k in KeysOf(all) {
      var i :| 0 <= i < |rs| && rs[i].Key() == k;
      assert all[i].Key() == k;
    }
  }

  /** Marking exactly the fetched keys leaves pending exactly what was stored since the fetch. */
  lemma MarkAfterFetch(before: Table, now: Table, rs: seq<Record>)
    requires ListsPending(before, rs)
    requires forall k <- before :: k in now && now[k] == before[k]
    ensures PendingKeys(Mark(now, KeysOf(rs))) == PendingKeys(now) - before.Keys
    ensures Cleaned(Mark(now, KeysOf(rs))).Keys == PendingKeys(now) - before.Keys
  {
    assert forall k <- before :: IsPending(before, k) ==> k in KeysOf(rs);
  }

  /** The hazard behind fresh identifiers: storing an uploaded record again makes it pending again. */
  lemma StoringAgainResets(t: Table, r: Record)
    ensures IsPending(Put(Mark(Put(t, r), {r.Key()}), r), r.Key())
    ensures !IsPending(Mark(Put(t, r), {r.Key()}), r.Key())
  {
  }
}
