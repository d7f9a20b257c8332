/** The in-memory device status registry, and the latest status of a device in both registries. */
module StatusMemory {
  import opened Core
  import opened UlidText
  import opened Filters
  import opened Paging
  import opened Listing
  import opened StatusFilters
  import opened StatusTables

  ghost predicate Keyed(m: Statuses) {
    forall id <- m :: m[id].id == id
  }

  datatype SortBy = ByTimestamp | ByBattery | ByDeviceId

  type ListOptions = QueryOptions<StatusFilter, SortBy>

  function KeyOf(sortBy: SortBy): DeviceStatus -> int {
    match sortBy
    case ByTimestamp => (s: DeviceStatus) => s.timestamp
    case ByBattery => (s: DeviceStatus) => s.batteryPercent
    case ByDeviceId => (s: DeviceStatus) => s.deviceId
  }

  function IdOf(): DeviceStatus -> Id {
    (s: DeviceStatus) => s.id
  }

  ghost function Accepted(m: Statuses, f: StatusFilter): set<DeviceStatus> {
    set id | id in m && Accepts(f, m[id]) :: m[id]
  }

  ghost predicate IsMemoryList(m: Statuses, o: ListOptions, result: seq<DeviceStatus>) {
    IsPage(Accepted(m, o.filter), KeyOf(o.sortBy), o.descending, IdOf(), o.pagination, result)
  }

  /** The statuses of a device. */
  ghost function Of(m: Statuses, deviceId: Id): set<Id> {
    set id | id in m && m[id].deviceId == deviceId
  }

  /** A status of the device none of whose statuses is later; nothing only if it has none. */
  ghost predicate IsLatest(m: Statuses, deviceId: Id, latest: Option<DeviceStatus>) {
    match latest
    case None => Of(m, deviceId) == {}
    case Some(s) => s.id in Of(m, deviceId) && m[s.id] == s
                    && forall id <- Of(m, deviceId) :: m[id].timestamp <= s.timestamp
  }

  class MemoryStatuses {
    var statuses: Statuses

    constructor ()
      ensures statuses == map[]
    {
      statuses := map[];
    }

    method Store(s: DeviceStatus)
      modifies this
      ensures statuses == old(statuses)[s.id := s]
    {
      statuses := statuses[s.id := s];
    }

    method Count(f: Option<StatusFilter>) returns (n: nat)
      ensures n == if f.Some? then |AcceptedIds(statuses, f.value)| else |statuses|
    {
      if f.None? {
        return |statuses|;
      }
      hide Accepts;
      ghost var all := AcceptedIds(statuses, f.value);
      n := 0;
      var todo := statuses.Keys;
      while todo != {}
        invariant todo <= statuses.Keys
        invariant n == |all - todo|
        decreases todo
      {
        var id :| id in todo;
        VisitCounts(all, todo, id);
        if Accepts(f.value, statuses[id]) {
          n := n + 1;
        }
        todo := todo - {id};
      }
      assert all - {} == all;
    }

    /** The accepted statuses in the hash map's order, which nobody may rely on. */
    method Filtered(f: StatusFilter) returns (xs: seq<DeviceStatus>)
      requires Keyed(statuses)
      ensures Enumerates(xs, Accepted(statuses, f))
    {
      hide Accepts;
      xs := [];
      var todo := statuses.Keys;
      while todo != {}
        invariant todo <= statuses.Keys
        invariant forall x <- xs :: x.id in statuses && x.id !in todo && statuses[x.id] == x && Accepts(f, x)
        invariant forall id <- statuses :: id !in todo && Accepts(f, statuses[id]) ==> statuses[id] in xs
        invariant forall i, j :: 0 <= i < j < |xs| ==> xs[i] != xs[j]
        decreases todo
      {
        var id :| id in todo;
        if Accepts(f, statuses[id]) {
          assert statuses[id] !in xs;
          xs := xs + [statuses[id]];
        }
        todo := todo - {id};
      }
    }

    method List(o: ListOptions) returns (page: seq<DeviceStatus>)
      requires Keyed(statuses)
      ensures IsMemoryList(statuses, o, page)
    {
      hide Accepted, Enumerates, StableSort, Page;
      var filtered := Filtered(o.filter);
      var sorted := StableSort(filtered, KeyOrder(KeyOf(o.sortBy), o.descending));
      page := Page(sorted, IdOf(), o.pagination);
    }

    /** The maximum over the hash map's values, in whatever order they come. */
    method GetLatest(deviceId: Id) returns (latest: Option<DeviceStatus>)
      requires Keyed(statuses)
      ensures IsLatest(statuses, deviceId, latest)
    {
      latest := None;
      var todo := statuses.Keys;
      while todo != {}
        invariant todo <= statuses.Keys
        invariant latest.None? ==> Of(statuses, deviceId) <= todo
        invariant latest.Some? ==>
                    && latest.value.id in Of(statuses, deviceId) && statuses[latest.value.id] == latest.value
                    && forall id <- Of(statuses, deviceId) - todo :: statuses[id].timestamp <= latest.value.timestamp
        decreases todo
      {
        var id :| id in todo;
        var s := statuses[id];
        if s.deviceId == deviceId && (latest.None? || latest.value.timestamp <= s.timestamp) {
          latest := Some(s);
        }
        todo := todo - {id};
      }
    }
  }

  // ----- the latest status in the tables -----

  /** WHERE device_id = ? ORDER BY timestamp DESC LIMIT 1 */
  ghost predicate IsLatestRow(db: Db, deviceId: Id, latest: Option<string>) {
    var device := ToText(deviceId);
    match latest
    case None => forall key <- db.statuses :: db.statuses[key].deviceId != device
    case Some(key) => key in db.statuses && db.statuses[key].deviceId == device
                      && forall k <- db.statuses :: db.statuses[k].deviceId == device ==>
                                                      db.statuses[k].timestamp <= db.statuses[key].timestamp
  }

  /** No two statuses of the device fall in the same second. */
  ghost predicate SecondsApart(m: Statuses, deviceId: Id) {
    forall j <- Of(m, deviceId), k <- Of(m, deviceId) :: AsSecond(m[j].timestamp) == AsSecond(m[k].timestamp) ==> j == k
  }

  /** If no two statuses of a device fall in the same second, the tables give the status the
      in-memory registry gives, with its times cut to seconds. */
  lemma LatestAgrees(db: Db, m: Statuses, deviceId: Id, row: Option<string>, latest: Option<DeviceStatus>)
    requires Mirrors(db, m) && SecondsApart(m, deviceId)
    requires IsLatestRow(db, deviceId, row) && IsLatest(m, deviceId, latest)
    ensures row.Some? <==> latest.Some?
    ensures row.Some? ==> row.value in db.statuses && StatusAt(db, row.value) == Some(AsStored(latest.value))
  {
    hide ToText, FromText, AsSecond, StatusAt, ErrorsAt, SensorsAt;
    forall id | id in m ensures db.statuses[ToText(id)].deviceId == ToText(deviceId) <==> id in Of(m, deviceId) {
      TextPreservesOrder(m[id].deviceId, deviceId);
    }
    if row.Some? {
      assert Named(m, row.value);
      var id := FromText(row.value).value;
      assert id in Of(m, deviceId);
      var best := latest.value.id;
      SecondsOrder(m[id].timestamp, m[best].timestamp);
      assert db.statuses[ToText(best)].timestamp <= db.statuses[ToText(id)].timestamp;
      assert id == best;
      StatusRoundTrip(db, m, id);
    }
  }
}
