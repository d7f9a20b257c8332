/**
 The SQLite tables behind the device status registry, what a compiled query selects from them,
 and its agreement with the in-memory registry that holds the same statuses.
 */
module StatusTables {
  import opened Core
  import opened Postcard
  import opened Sql
  import opened UlidText
  import opened Filters
  import opened StatusFilters

  datatype StatusRow = StatusRow(
    id: string, deviceId: string, dispatcherId: string,
    battery: int, uptime: int, rssi: int, timestamp: int)

  datatype ErrorRow = ErrorRow(id: int, statusId: string, code: int, message: Option<string>)

  datatype SensorRow = SensorRow(statusId: string, sensorId: string, state: int, lastReading: Option<int>)

  /** Rows of the two child tables are kept in the order of their generated keys. */
  datatype Db = Db(statuses: map<string, StatusRow>, errors: seq<ErrorRow>, sensors: seq<SensorRow>, lastErrorId: nat)

  function RowOf(s: DeviceStatus): StatusRow {
    StatusRow(ToText(s.id), ToText(s.deviceId), ToText(s.dispatcherId), s.batteryPercent,
              AsI64(s.uptimeSeconds), s.signalRssi, AsSecond(s.timestamp))
  }

  function StateNumber(s: SensorState): int {
    match s case Active => 0 case Faulty => 1 case Inactive => 2
  }

  function SensorRowOf(key: string, s: SensorStatus): SensorRow {
    SensorRow(key, ToText(s.sensorId), StateNumber(s.state),
              match s.lastReading case Some(t) => Some(AsSecond(t)) case None => None)
  }

  /** The numbers that stand for codes and states in the tables. */
  lemma NumbersInTables(key: string, sensor: SensorStatus)
    ensures CodeNumber(LowBattery) == 0 && CodeNumber(SensorFault) == 1
    ensures CodeNumber(RadioFault) == 2 && CodeNumber(Unknown) == 3
    ensures SensorRowOf(key, sensor.(state := Active)).state == 0
    ensures SensorRowOf(key, sensor.(state := Faulty)).state == 1
    ensures SensorRowOf(key, sensor.(state := Inactive)).state == 2
  {
  }

  // ----- storing -----

  function WithoutErrors(rows: seq<ErrorRow>, key: string): seq<ErrorRow> {
    if rows == [] then []
    else (if rows[0].statusId == key then [] else [rows[0]]) + WithoutErrors(rows[1..], key)
  }

  function WithoutSensors(rows: seq<SensorRow>, key: string): seq<SensorRow> {
    if rows == [] then []
    else (if rows[0].statusId == key then [] else [rows[0]]) + WithoutSensors(rows[1..], key)
  }

  function ErrorRowsOf(key: string, errors: seq<DeviceError>, base: nat): (r: seq<ErrorRow>)
    ensures |r| == |errors|
    ensures forall i :: 0 <= i < |r| ==>
              r[i] == ErrorRow(base + 1 + i, key, CodeNumber(errors[i].code), errors[i].message)
  {
    seq(|errors|, i requires 0 <= i < |errors| =>
      ErrorRow(base + 1 + i, key, CodeNumber(errors[i].code), errors[i].message))
  }

  function SensorRowsOf(key: string, ss: seq<SensorStatus>): (r: seq<SensorRow>)
    ensures |r| == |ss|
    ensures forall i :: 0 <= i < |r| ==> r[i] == SensorRowOf(key, ss[i])
  {
    seq(|ss|, i requires 0 <= i < |ss| => SensorRowOf(key, ss[i]))
  }

  /** The tables after one status is stored: its row and its children replace what was there. */
  function Stored(db: Db, s: DeviceStatus): Db {
    var key := ToText(s.id);
    Db(db.statuses[key := RowOf(s)],
       WithoutErrors(db.errors, key) + ErrorRowsOf(key, s.errors, db.lastErrorId),
       WithoutSensors(db.sensors, key) + SensorRowsOf(key, s.sensorStatuses),
       db.lastErrorId + |s.errors|)
  }

  const EMPTY := Db(map[], [], [], 0)

  function StoredAll(db: Db, ss: seq<DeviceStatus>): Db {
    if ss == [] then db
    else
      var n := |ss| - 1;
      Stored(StoredAll(db, ss[..n]), ss[n])
  }

  class SqliteStatuses {
    var statuses: map<string, StatusRow>
    var errors: seq<ErrorRow>
    var sensors: seq<SensorRow>
    var lastErrorId: nat

    ghost function Contents(): Db
      reads this
    {
      Db(statuses, errors, sensors, lastErrorId)
    }

    constructor ()
      ensures Contents() == EMPTY
    {
      statuses, errors, sensors, lastErrorId := map[], [], [], 0;
    }

    /** One transaction: replace the row, delete its children, insert the new ones. */
    method Store(s: DeviceStatus)
      modifies this
      ensures Contents() == Stored(old(Contents()), s)
    {
      hide ToText, RowOf;
      var key := ToText(s.id);
      statuses := statuses[key := RowOf(s)];
      errors := WithoutErrors(errors, key);
      ghost var kept, base := errors, lastErrorId;
      for i := 0 to |s.errors|
        invariant lastErrorId == base + i
        invariant errors == kept + ErrorRowsOf(key, s.errors, base)[..i]
        invariant sensors == old(sensors) && statuses == old(statuses)[key := RowOf(s)]
      {
        lastErrorId := lastErrorId + 1;
        errors := errors + [ErrorRow(lastErrorId, key, CodeNumber(s.errors[i].code), s.errors[i].message)];
      }
      sensors := WithoutSensors(sensors, key);
      ghost var keptSensors := sensors;
      for i := 0 to |s.sensorStatuses|
        invariant sensors == keptSensors + SensorRowsOf(key, s.sensorStatuses)[..i]
        invariant errors == kept + ErrorRowsOf(key, s.errors, base)
        invariant lastErrorId == base + |s.errors| && statuses == old(statuses)[key := RowOf(s)]
      {
        sensors := sensors + [SensorRowOf(key, s.sensorStatuses[i])];
      }
    }

    method BatchStore(ss: seq<DeviceStatus>)
      modifies this
      ensures Contents() == StoredAll(old(Contents()), ss)
    {
      hide Stored;
      for i := 0 to |ss|
        invariant Contents() == StoredAll(old(Contents()), ss[..i])
      {
        assert ss[..i + 1][..i] == ss[..i];
        Store(ss[i]);
      }
      assert ss[..|ss|] == ss;
    }
  }

  // ----- the tables as a picture of the in-memory map -----

  type Statuses = map<Id, DeviceStatus>

  /** The errors read back for a key; a code that is none of the four is an error of the query. */
  function ErrorsAt(rows: seq<ErrorRow>, key: string): Option<seq<DeviceError>> {
    if rows == [] then Some([])
    else
      match ErrorsAt(rows[1..], key)
      case None => None
      case Some(rest) =>
        if rows[0].statusId != key then Some(rest)
        else
          match CodeOf(rows[0].code)
          case None => None
          case Some(c) => Some([DeviceError(c, rows[0].message)] + rest)
  }

  function StateOf(n: int): Option<SensorState> {
    if n == 0 then Some(Active) else if n == 1 then Some(Faulty) else if n == 2 then Some(Inactive) else None
  }

  function SensorsAt(rows: seq<SensorRow>, key: string): Option<seq<SensorStatus>> {
    if rows == [] then Some([])
    else
      match SensorsAt(rows[1..], key)
      case None => None
      case Some(rest) =>
        if rows[0].statusId != key then Some(rest)
        else
          match (FromText(rows[0].sensorId), StateOf(rows[0].state))
          case (Some(id), Some(state)) =>
            var time := match rows[0].lastReading case Some(t) => Some(FromSecond(t)) case None => None;
            Some([SensorStatus(id, state, time)] + rest)
          case (_, _) => None
  }

  /** `map_row_to_status`: the row and its children turned back into a status. */
  function StatusAt(db: Db, key: string): Option<DeviceStatus>
    requires key in db.statuses
  {
    var r := db.statuses[key];
    match (FromText(r.id), FromText(r.deviceId), FromText(r.dispatcherId), ErrorsAt(db.errors, key),
           SensorsAt(db.sensors, key))
    case (Some(id), Some(deviceId), Some(dispatcherId), Some(errors), Some(sensors)) =>
      if 0 <= r.battery < 256 && -0x8000 <= r.rssi < 0x8000
         && -0x8000_0000_0000_0000 <= r.uptime < 0x8000_0000_0000_0000
      then Some(DeviceStatus(id, deviceId, dispatcherId, r.battery, FromI64(r.uptime), r.rssi, errors,
                             FromSecond(r.timestamp), sensors))
      else None
    case (_, _, _, _, _) => None
  }

  /** key is the text of an identifier in the map. */
  predicate Named(m: Statuses, key: string) {
    FromText(key).Some? && FromText(key).value in m && key == ToText(FromText(key).value)
  }

  ghost predicate Mirrors(db: Db, m: Statuses) {
    && (forall id <- m :: m[id].id == id && ToText(id) in db.statuses && db.statuses[ToText(id)] == RowOf(m[id]))
    && (forall key <- db.statuses :: Named(m, key))
    && (forall id <- m :: ErrorsAt(db.errors, ToText(id)) == Some(m[id].errors))
    && (forall id <- m :: SensorsAt(db.sensors, ToText(id)) == Some(CutSensors(m[id].sensorStatuses)))
    && (forall e <- db.errors :: e.statusId in db.statuses)
    && (forall r <- db.sensors :: r.statusId in db.statuses)
  }

  lemma {:induction false} ErrorsAppend(a: seq<ErrorRow>, b: seq<ErrorRow>, key: string)
    ensures ErrorsAt(a, key).Some? && ErrorsAt(b, key).Some? ==>
              ErrorsAt(a + b, key) == Some(ErrorsAt(a, key).value + ErrorsAt(b, key).value)
    decreases |a|
  {
    if a == [] {
      assert a + b == b;
      assert ErrorsAt(b, key).Some? ==> [] + ErrorsAt(b, key).value == ErrorsAt(b, key).value;
    } else {
      assert (a + b)[1..] == a[1..] + b;
      ErrorsAppend(a[1..], b, key);
      if ErrorsAt(a, key).Some? && ErrorsAt(b, key).Some? && a[0].statusId == key {
        var first := [DeviceError(CodeOf(a[0].code).value, a[0].message)];
        assert first + (ErrorsAt(a[1..], key).value + ErrorsAt(b, key).value)
            == (first + ErrorsAt(a[1..], key).value) + ErrorsAt(b, key).value;
      }
    }
  }

  lemma {:induction false} ErrorsWithout(rows: seq<ErrorRow>, gone: string, key: string)
    ensures ErrorsAt(WithoutErrors(rows, gone), gone) == Some([])
    ensures key != gone ==> ErrorsAt(WithoutErrors(rows, gone), key) == ErrorsAt(rows, key)
    ensures forall e <- WithoutErrors(rows, gone) :: e in rows
    decreases |rows|
  {
    if rows != [] {
      ErrorsWithout(rows[1..], gone, key);
      var rest := WithoutErrors(rows[1..], gone);
      if rows[0].statusId == gone {
        assert WithoutErrors(rows, gone) == rest;
      } else {
        assert ([rows[0]] + rest)[1..] == rest;
      }
    }
  }

  lemma {:induction false} ErrorsOfNew(key: string, errors: seq<DeviceError>, base: nat, other: string)
    ensures ErrorsAt(ErrorRowsOf(key, errors, base), key) == Some(errors)
    ensures other != key ==> ErrorsAt(ErrorRowsOf(key, errors, base), other) == Some([])
    decreases |errors|
  {
    if errors != [] {
      ErrorsOfNew(key, errors[1..], base + 1, other);
      assert ErrorRowsOf(key, errors, base)[1..] == ErrorRowsOf(key, errors[1..], base + 1);
      assert [errors[0]] + errors[1..] == errors;
      assert CodeOf(CodeNumber(errors[0].code)) == Some(errors[0].code);
    }
  }

  lemma {:induction false} SensorsAppend(a: seq<SensorRow>, b: seq<SensorRow>, key: string)
    ensures SensorsAt(a, key).Some? && SensorsAt(b, key).Some? ==>
              SensorsAt(a + b, key) == Some(SensorsAt(a, key).value + SensorsAt(b, key).value)
    decreases |a|
  {
    hide FromText;
    if a == [] {
      assert a + b == b;
      assert SensorsAt(b, key).Some? ==> [] + SensorsAt(b, key).value == SensorsAt(b, key).value;
    } else {
      assert (a + b)[1..] == a[1..] + b;
      SensorsAppend(a[1..], b, key);
      if SensorsAt(a, key).Some? && SensorsAt(b, key).Some? && a[0].statusId == key {
        var first := [SensorsAt(a, key).value[0]];
        assert first + (SensorsAt(a[1..], key).value + SensorsAt(b, key).value)
            == (first + SensorsAt(a[1..], key).value) + SensorsAt(b, key).value;
      }
    }
  }

  lemma {:induction false} SensorsWithout(rows: seq<SensorRow>, gone: string, key: string)
    ensures SensorsAt(WithoutSensors(rows, gone), gone) == Some([])
    ensures key != gone ==> SensorsAt(WithoutSensors(rows, gone), key) == SensorsAt(rows, key)
    ensures forall r <- WithoutSensors(rows, gone) :: r in rows
    decreases |rows|
  {
    hide FromText;
    if rows != [] {
      SensorsWithout(rows[1..], gone, key);
      var rest := WithoutSensors(rows[1..], gone);
      if rows[0].statusId == gone {
        assert WithoutSensors(rows, gone) == rest;
      } else {
        assert ([rows[0]] + rest)[1..] == rest;
      }
    }
  }

  lemma {:induction false} SensorsOfNew(key: string, ss: seq<SensorStatus>, other: string)
    ensures SensorsAt(SensorRowsOf(key, ss), key) == Some(CutSensors(ss))
    ensures other != key ==> SensorsAt(SensorRowsOf(key, ss), other) == Some([])
    decreases |ss|
  {
    hide FromText, ToText;
    if ss != [] {
      SensorsOfNew(key, ss[1..], other);
      assert SensorRowsOf(key, ss)[1..] == SensorRowsOf(key, ss[1..]);
      TextRoundTrip(ss[0].sensorId);
      assert CutSensors(ss) == [CutSensor(ss[0])] + CutSensors(ss[1..]);
    }
  }

  /** The errors of one status are replaced; those of any other stay. */
  lemma ErrorsAfterStore(rows: seq<ErrorRow>, key: string, errors: seq<DeviceError>, base: nat, other: string)
    ensures ErrorsAt(WithoutErrors(rows, key) + ErrorRowsOf(key, errors, base), key) == Some(errors)
    ensures other != key && ErrorsAt(rows, other).Some? ==>
              ErrorsAt(WithoutErrors(rows, key) + ErrorRowsOf(key, errors, base), other) == ErrorsAt(rows, other)
  {
    var kept, new_ := WithoutErrors(rows, key), ErrorRowsOf(key, errors, base);
    ErrorsWithout(rows, key, other);
    ErrorsOfNew(key, errors, base, other);
    ErrorsAppend(kept, new_, key);
    ErrorsAppend(kept, new_, other);
    assert [] + errors == errors;
    assert ErrorsAt(rows, other).Some? ==> ErrorsAt(rows, other).value + [] == ErrorsAt(rows, other).value;
  }

  lemma SensorsAfterStore(rows: seq<SensorRow>, key: string, ss: seq<SensorStatus>, other: string)
    ensures SensorsAt(WithoutSensors(rows, key) + SensorRowsOf(key, ss), key) == Some(CutSensors(ss))
    ensures other != key && SensorsAt(rows, other).Some? ==>
              SensorsAt(WithoutSensors(rows, key) + SensorRowsOf(key, ss), other) == SensorsAt(rows, other)
  {
    hide FromText, ToText;
    var kept, new_ := WithoutSensors(rows, key), SensorRowsOf(key, ss);
    SensorsWithout(rows, key, other);
    SensorsOfNew(key, ss, other);
    SensorsAppend(kept, new_, key);
    SensorsAppend(kept, new_, other);
    assert [] + CutSensors(ss) == CutSensors(ss);
    assert SensorsAt(rows, other).Some? ==> SensorsAt(rows, other).value + [] == SensorsAt(rows, other).value;
  }

  /** Storing a status in the tables and in the map keeps the one a picture of the other. */
  lemma StoreKeepsMirror(db: Db, m: Statuses, s: DeviceStatus)
    requires Mirrors(db, m)
    ensures Mirrors(Stored(db, s), m[s.id := s])
  {
    hide ToText, FromText, RowOf, AsSecond, ErrorsAt, SensorsAt, WithoutErrors, WithoutSensors;
    var db', m', key := Stored(db, s), m[s.id := s], ToText(s.id);
    forall id | id in m'
      ensures m'[id].id == id && ToText(id) in db'.statuses && db'.statuses[ToText(id)] == RowOf(m'[id])
      ensures ErrorsAt(db'.errors, ToText(id)) == Some(m'[id].errors)
      ensures SensorsAt(db'.sensors, ToText(id)) == Some(CutSensors(m'[id].sensorStatuses))
    {
      TextPreservesOrder(id, s.id);
      ErrorsAfterStore(db.errors, key, s.errors, db.lastErrorId, ToText(id));
      SensorsAfterStore(db.sensors, key, s.sensorStatuses, ToText(id));
    }
    TextRoundTrip(s.id);
    forall k | k in db'.statuses ensures Named(m', k) {
      assert k != key ==> Named(m, k);
    }
    ErrorsWithout(db.errors, key, key);
    SensorsWithout(db.sensors, key, key);
  }

  function PutAll(m: Statuses, ss: seq<DeviceStatus>): Statuses {
    if ss == [] then m
    else
      var n := |ss| - 1;
      PutAll(m, ss[..n])[ss[n].id := ss[n]]
  }

  /** From empty registries, after any statuses in any order, with repeats, the tables are a picture
      of the map, and the map holds nothing that was not stored. */
  lemma {:induction false} AnyStoresMirror(ss: seq<DeviceStatus>)
    ensures Mirrors(StoredAll(EMPTY, ss), PutAll(map[], ss))
    ensures forall id <- PutAll(map[], ss) :: PutAll(map[], ss)[id] in ss
    decreases |ss|
  {
    hide Stored, Mirrors;
    if ss == [] {
      EmptyMirrors();
    } else {
      var n := |ss| - 1;
      AnyStoresMirror(ss[..n]);
      StoreKeepsMirror(StoredAll(EMPTY, ss[..n]), PutAll(map[], ss[..n]), ss[n]);
      assert ss == ss[..n] + [ss[n]];
    }
  }

  lemma EmptyMirrors()
    ensures Mirrors(EMPTY, map[])
  {
    hide ToText, FromText, ErrorsAt, SensorsAt;
  }

  /** A status read back from the tables is the one stored, with its times cut to seconds. */
  lemma StatusRoundTrip(db: Db, m: Statuses, id: Id)
    requires Mirrors(db, m) && id in m
    ensures ToText(id) in db.statuses
    ensures StatusAt(db, ToText(id)) == Some(AsStored(m[id]))
  {
    hide ToText, FromText, AsSecond, ErrorsAt, SensorsAt;
    var s := m[id];
    TextRoundTrip(s.id);
    TextRoundTrip(s.deviceId);
    TextRoundTrip(s.dispatcherId);
    assert db.statuses[ToText(id)] == RowOf(s);
    assert FromI64(AsI64(s.uptimeSeconds)) == s.uptimeSeconds;
    assert AsStored(s) ==
           DeviceStatus(s.id, s.deviceId, s.dispatcherId, s.batteryPercent, s.uptimeSeconds, s.signalRssi,
                        s.errors, FromSecond(AsSecond(s.timestamp)), CutSensors(s.sensorStatuses));
  }

  // ----- what a query selects -----

  /** A status row with the error row joined to it, if any. */
  datatype Joined = Joined(status: StatusRow, error: Option<ErrorRow>)

  function Cells(r: Joined): Column -> Value {
    (c: Column) =>
      match c
      case IdCol => Text(r.status.id)
      case DeviceIdCol => Text(r.status.deviceId)
      case DispatcherIdCol => Text(r.status.dispatcherId)
      case BatteryCol => Int(r.status.battery)
      case TimestampCol => Int(r.status.timestamp)
      case ErrorIdCol => (match r.error case Some(e) => Int(e.id) case None => Null)
      case ErrorCodeCol => (match r.error case Some(e) => Int(e.code) case None => Null)
  }

  /** FROM device_statuses, with the LEFT JOIN on errors if the query asks for it. */
  ghost predicate InFrom(db: Db, join: bool, key: string, error: Option<ErrorRow>) {
    && key in db.statuses
    && match error
       case Some(e) => join && e in db.errors && e.statusId == key
       case None => !join || forall e <- db.errors :: e.statusId != key
  }

  ghost predicate Kept(db: Db, q: Query<Column>, key: string, error: Option<ErrorRow>) {
    InFrom(db, q.join, key, error) && Keeps(q.conds, Cells(Joined(db.statuses[key], error)))
  }

  /** SELECT DISTINCT id: a status is selected once however many of its joined rows are kept. */
  ghost function SelectedKeys(db: Db, q: Query<Column>): set<string> {
    set key | key in db.statuses && exists error :: Kept(db, q, key, error)
  }

  /** SELECT COUNT(DISTINCT id) */
  ghost function Count(db: Db, q: Query<Column>): nat {
    |SelectedKeys(db, q)|
  }

  function Compiled(f: StatusFilter): Query<Column> {
    Query(NeedsErrorJoin(f), PlainConds(f) + ErrorConds(f), None, None)
  }

  const NO_FILTER := StatusFilter(None, None, None, None, None, None, None, None)

  /** The query of a count; without a filter it counts all. */
  function CompiledCount(f: Option<StatusFilter>): Query<Column> {
    Compiled(if f.Some? then f.value else NO_FILTER)
  }

  /** Builds the query of a count; what it pushed parses to exactly the query meant. */
  method BuildCount(f: Option<StatusFilter>) returns (qb: QueryBuilder<Column>)
    ensures fresh(qb)
    ensures Parse(qb.sql) == Some(CompiledCount(f))
  {
    hide Parse, Clause;
    qb := new QueryBuilder();
    ghost var filter := if f.Some? then f.value else NO_FILTER;
    if f.Some? {
      FilterStatuses(qb, f.value);
    }
    CompiledParses(filter);
    NoFilterNoText();
    assert qb.sql == Head(NeedsErrorJoin(filter)) + Clause(PlainConds(filter) + ErrorConds(filter));
  }

  lemma NoFilterNoText()
    ensures Head(NeedsErrorJoin(NO_FILTER)) + Clause(PlainConds(NO_FILTER) + ErrorConds(NO_FILTER)) == []
  {
  }

  lemma CompiledParses(f: StatusFilter)
    ensures Parse(Head(NeedsErrorJoin(f)) + Clause(PlainConds(f) + ErrorConds(f))) == Some(Compiled(f))
  {
    hide PlainConds, ErrorConds, NeedsErrorJoin;
    ParseOfParts(NeedsErrorJoin(f), PlainConds(f) + ErrorConds(f), None, None);
    var text := Head<Column>(NeedsErrorJoin(f)) + Clause(PlainConds(f) + ErrorConds(f));
    assert text + Tail(None, None) == text;
  }

  lemma InCodes(cs: seq<DeviceErrorCode>, c: DeviceErrorCode)
    ensures Int(CodeNumber(c)) in Codes(cs) <==> c in cs
  {
    if c in cs {
      var i :| 0 <= i < |cs| && cs[i] == c;
      assert Codes(cs)[i] == Int(CodeNumber(c));
    }
  }

  /** The part of the in-memory predicate that does not look at errors. */
  predicate AcceptsPlain(f: StatusFilter, s: DeviceStatus) {
    && Allows(f.ids, s.id) && Allows(f.deviceIds, s.deviceId) && Allows(f.dispatcherIds, s.dispatcherId)
    && (f.battery.Some? ==> f.battery.value.0 <= s.batteryPercent <= f.battery.value.1)
    && InTime(f.after, f.before, s.timestamp)
  }

  predicate AcceptsErrors(f: StatusFilter, errors: seq<DeviceError>) {
    && (f.hasErrors.Some? ==> f.hasErrors.value == (errors != []))
    && (f.errorCodes.Some? ==> exists e <- errors :: e.code in f.errorCodes.value)
  }

  lemma AcceptsInParts(f: StatusFilter, s: DeviceStatus)
    ensures Accepts(f, s) <==> AcceptsPlain(f, s) && AcceptsErrors(f, s.errors)
  {
  }

  lemma RangeCondsMean(f: StatusFilter, s: DeviceStatus, error: Option<ErrorRow>)
    ensures Keeps(RangeConds(f), Cells(Joined(RowOf(s), error))) <==>
              (f.battery.Some? ==> f.battery.value.0 <= s.batteryPercent <= f.battery.value.1)
              && InTime(Cut(f.after), Cut(f.before), FromSecond(AsSecond(s.timestamp)))
  {
    hide ToText, AsSecond;
    var get := Cells(Joined(RowOf(s), error));
    var a := if f.after.Some? then [AtLeast(TimestampCol, Int(AsSecond(f.after.value)))] else [];
    var b := if f.before.Some? then [AtMost(TimestampCol, Int(AsSecond(f.before.value)))] else [];
    var c := if f.battery.Some? then [Between(BatteryCol, Int(f.battery.value.0), Int(f.battery.value.1))] else [];
    assert RangeConds(f) == a + b + c;
    KeepsAppend(a + b, c, get);
    KeepsAppend(a, b, get);
    KeepsIffAll(a, get);
    KeepsIffAll(b, get);
    KeepsIffAll(c, get);
    assert f.after.Some? ==> a[0] in a;
    assert f.before.Some? ==> b[0] in b;
    assert f.battery.Some? ==> c[0] in c;
  }

  lemma PlainCondsMean(f: StatusFilter, s: DeviceStatus, error: Option<ErrorRow>)
    ensures Keeps(PlainConds(f), Cells(Joined(RowOf(s), error))) <==> AcceptsPlain(SqlView(f), AsStored(s))
  {
    var get := Cells(Joined(RowOf(s), error));
    RangeCondsMean(f, s, error);
    hide ToText, AsSecond, RangeConds, IdsCond, CutSensors;
    IdsCondMeans(IdCol, f.ids, s.id, get);
    IdsCondMeans(DeviceIdCol, f.deviceIds, s.deviceId, get);
    IdsCondMeans(DispatcherIdCol, f.dispatcherIds, s.dispatcherId, get);
    KeepsAppend(IdsCond(IdCol, f.ids) + IdsCond(DeviceIdCol, f.deviceIds)
                + IdsCond(DispatcherIdCol, f.dispatcherIds), RangeConds(f), get);
    KeepsAppend(IdsCond(IdCol, f.ids) + IdsCond(DeviceIdCol, f.deviceIds),
                IdsCond(DispatcherIdCol, f.dispatcherIds), get);
    KeepsAppend(IdsCond(IdCol, f.ids), IdsCond(DeviceIdCol, f.deviceIds), get);
  }

  /** The error conditions on one joined row: NULL columns make the code test unknown, not false. */
  lemma ErrorCondsMean(f: StatusFilter, row: StatusRow, error: Option<ErrorRow>)
    ensures Keeps(ErrorConds(f), Cells(Joined(row, error))) <==>
              && (f.hasErrors.Some? ==> f.hasErrors.value == error.Some?)
              && (Lists(f.errorCodes) ==> error.Some? && Int(error.value.code) in Codes(f.errorCodes.value))
  {
    var get := Cells(Joined(row, error));
    var present := if f.hasErrors == Some(true) then IsNotNull(ErrorIdCol) else IsNull(ErrorIdCol);
    var a := if f.hasErrors.Some? then [present] else [];
    var b := if Lists(f.errorCodes) then [InList(ErrorCodeCol, Codes(f.errorCodes.value))] else [];
    assert ErrorConds(f) == a + b;
    KeepsAppend(a, b, get);
    KeepsIffAll(a, get);
    KeepsIffAll(b, get);
    assert f.hasErrors.Some? ==> a[0] in a;
    assert Lists(f.errorCodes) ==> b[0] in b;
  }

  /** Every row of a key gives one of the errors read for it. */
  lemma {:induction false} RowGivesError(rows: seq<ErrorRow>, key: string, e: ErrorRow)
    requires ErrorsAt(rows, key).Some? && e in rows && e.statusId == key
    ensures CodeOf(e.code).Some? && DeviceError(CodeOf(e.code).value, e.message) in ErrorsAt(rows, key).value
    decreases |rows|
  {
    if rows[0].statusId == key {
      assert ErrorsAt(rows, key).value ==
             [DeviceError(CodeOf(rows[0].code).value, rows[0].message)] + ErrorsAt(rows[1..], key).value;
    }
    if e in rows[1..] {
      RowGivesError(rows[1..], key, e);
    }
  }

  lemma {:induction false} ErrorHasRow(rows: seq<ErrorRow>, key: string, x: DeviceError) returns (e: ErrorRow)
    requires ErrorsAt(rows, key).Some? && x in ErrorsAt(rows, key).value
    ensures e in rows && e.statusId == key && e.code == CodeNumber(x.code)
    decreases |rows|
  {
    if rows[0].statusId == key && x == DeviceError(CodeOf(rows[0].code).value, rows[0].message) {
      CodesAreNumbers(rows[0].code, x.code);
      return rows[0];
    }
    if rows[0].statusId == key {
      assert ErrorsAt(rows, key).value ==
             [DeviceError(CodeOf(rows[0].code).value, rows[0].message)] + ErrorsAt(rows[1..], key).value;
    }
    e := ErrorHasRow(rows[1..], key, x);
  }

  lemma CodesAreNumbers(n: int, c: DeviceErrorCode)
    ensures CodeOf(n) == Some(c) <==> n == CodeNumber(c)
  {
  }

  lemma {:induction false} NoRowsNoErrors(rows: seq<ErrorRow>, key: string)
    requires forall e <- rows :: e.statusId != key
    ensures ErrorsAt(rows, key) == Some([])
    decreases |rows|
  {
    if rows != [] {
      assert rows[0] in rows;
      assert forall e <- rows[1..] :: e in rows;
      NoRowsNoErrors(rows[1..], key);
    }
  }

  /** Through the join, a status is kept exactly when its list of errors is accepted. */
  lemma JoinMeans(db: Db, m: Statuses, f: StatusFilter, id: Id)
    requires Mirrors(db, m) && id in m
    ensures (exists error :: InFrom(db, NeedsErrorJoin(f), ToText(id), error)
                             && Keeps(ErrorConds(f), Cells(Joined(RowOf(m[id]), error))))
            <==> AcceptsErrors(SqlView(f), m[id].errors)
  {
    hide ToText, FromText, RowOf, Cells, ErrorConds, ErrorsAt, SensorsAt;
    var key, errors, row := ToText(id), m[id].errors, RowOf(m[id]);
    if AcceptsErrors(SqlView(f), errors) {
      var error := JoinWitness(db, m, f, id);
      ErrorCondsMean(f, row, error);
    }
    forall error | InFrom(db, NeedsErrorJoin(f), key, error) && Keeps(ErrorConds(f), Cells(Joined(row, error)))
      ensures AcceptsErrors(SqlView(f), errors)
    {
      ErrorCondsMean(f, row, error);
      JoinedRowAccepted(db, m, f, id, error);
    }
  }

  lemma JoinedRowAccepted(db: Db, m: Statuses, f: StatusFilter, id: Id, error: Option<ErrorRow>)
    requires Mirrors(db, m) && id in m
    requires InFrom(db, NeedsErrorJoin(f), ToText(id), error)
    requires f.hasErrors.Some? ==> f.hasErrors.value == error.Some?
    requires Lists(f.errorCodes) ==> error.Some? && Int(error.value.code) in Codes(f.errorCodes.value)
    ensures AcceptsErrors(SqlView(f), m[id].errors)
  {
    hide ToText, FromText, RowOf, ErrorsAt, SensorsAt;
    match error {
      case Some(e) =>
        RowGivesError(db.errors, ToText(id), e);
        var x := DeviceError(CodeOf(e.code).value, e.message);
        assert x in m[id].errors;
        CodesAreNumbers(e.code, x.code);
        if Lists(f.errorCodes) {
          InCodes(f.errorCodes.value, x.code);
        }
      case None =>
        if NeedsErrorJoin(f) {
          NoRowsNoErrors(db.errors, ToText(id));
        }
    }
  }

  lemma {:induction false} NoErrorsNoRows(rows: seq<ErrorRow>, key: string)
    requires ErrorsAt(rows, key) == Some([])
    ensures forall e <- rows :: e.statusId != key
    decreases |rows|
  {
    if rows != [] {
      NoErrorsNoRows(rows[1..], key);
      assert forall e <- rows :: e == rows[0] || e in rows[1..];
    }
  }

  lemma MirrorAt(db: Db, m: Statuses, id: Id)
    requires Mirrors(db, m) && id in m
    ensures ToText(id) in db.statuses && db.statuses[ToText(id)] == RowOf(m[id])
    ensures ErrorsAt(db.errors, ToText(id)) == Some(m[id].errors)
  {
  }

  lemma AcceptedErrors(f: StatusFilter, errors: seq<DeviceError>) returns (x: Option<DeviceError>)
    requires AcceptsErrors(SqlView(f), errors)
    ensures f.hasErrors.Some? ==> f.hasErrors.value == (errors != [])
    ensures x.None? <==> errors == []
    ensures errors == [] ==> !Lists(f.errorCodes)
    ensures x.Some? ==> x.value in errors && (Lists(f.errorCodes) ==> x.value.code in f.errorCodes.value)
  {
    if errors == [] {
      return None;
    }
    if !Lists(f.errorCodes) {
      return Some(errors[0]);
    }
    var e :| e in errors && e.code in f.errorCodes.value;
    return Some(e);
  }

  lemma JoinWitness(db: Db, m: Statuses, f: StatusFilter, id: Id) returns (error: Option<ErrorRow>)
    requires Mirrors(db, m) && id in m && AcceptsErrors(SqlView(f), m[id].errors)
    ensures InFrom(db, NeedsErrorJoin(f), ToText(id), error)
    ensures f.hasErrors.Some? ==> f.hasErrors.value == error.Some?
    ensures Lists(f.errorCodes) ==> error.Some? && Int(error.value.code) in Codes(f.errorCodes.value)
  {
    hide ToText, FromText, RowOf, ErrorsAt, SensorsAt, CodeOf, CodeNumber, Codes, Mirrors, AcceptsErrors, SqlView;
    MirrorAt(db, m, id);
    var x := AcceptedErrors(f, m[id].errors);
    if !NeedsErrorJoin(f) {
      return None;
    }
    if x.None? {
      NoErrorsNoRows(db.errors, ToText(id));
      return None;
    }
    if Lists(f.errorCodes) {
      InCodes(f.errorCodes.value, x.value.code);
    }
    var e := ErrorHasRow(db.errors, ToText(id), x.value);
    return Some(e);
  }

  lemma KeptMeans(db: Db, m: Statuses, f: StatusFilter, id: Id, error: Option<ErrorRow>)
    requires Mirrors(db, m) && id in m
    ensures Kept(db, Compiled(f), ToText(id), error) <==>
              InFrom(db, NeedsErrorJoin(f), ToText(id), error) && AcceptsPlain(SqlView(f), AsStored(m[id]))
              && Keeps(ErrorConds(f), Cells(Joined(RowOf(m[id]), error)))
  {
    hide ToText, FromText, RowOf, Cells, ErrorConds, PlainConds, ErrorsAt, SensorsAt, AcceptsPlain, SqlView, InFrom,
         AsStored, NeedsErrorJoin;
    KeepsAppend(PlainConds(f), ErrorConds(f), Cells(Joined(RowOf(m[id]), error)));
    PlainCondsMean(f, m[id], error);
    assert InFrom(db, NeedsErrorJoin(f), ToText(id), error) ==> ToText(id) in db.statuses;
  }

  /** The compiled query selects a status exactly when the in-memory predicate, given the filter and
      the status as the query sees them, accepts it: for every filter and every status, including
      every mix of has_errors and error codes on statuses with several errors. */
  lemma QuerySelectsExactly(db: Db, m: Statuses, f: StatusFilter, id: Id)
    requires Mirrors(db, m) && id in m
    ensures ToText(id) in SelectedKeys(db, Compiled(f)) <==> Accepts(SqlView(f), AsStored(m[id]))
  {
    hide ToText, FromText, RowOf, Cells, ErrorConds, PlainConds, ErrorsAt, SensorsAt, AcceptsPlain, AcceptsErrors,
         SqlView, Accepts, Compiled, CutSensors, Keeps, Mirrors, InFrom, Kept, AsStored, NeedsErrorJoin;
    var key, s := ToText(id), m[id];
    JoinMeans(db, m, f, id);
    MirrorAt(db, m, id);
    AcceptsInParts(SqlView(f), AsStored(s));
    assert AsStored(s).errors == s.errors by {
      StoredKeepsErrors(s);
    }
    if key in SelectedKeys(db, Compiled(f)) {
      var error :| Kept(db, Compiled(f), key, error);
      KeptMeans(db, m, f, id, error);
    }
    if Accepts(SqlView(f), AsStored(s)) {
      var error :| InFrom(db, NeedsErrorJoin(f), key, error) && Keeps(ErrorConds(f), Cells(Joined(RowOf(s), error)));
      KeptMeans(db, m, f, id, error);
    }
  }

  lemma StoredKeepsErrors(s: DeviceStatus)
    ensures AsStored(s).errors == s.errors
  {
  }

  ghost function AcceptedIds(m: Statuses, f: StatusFilter): set<Id> {
    set id | id in m && Accepts(f, m[id])
  }

  lemma NoFilterAcceptsAll(m: Statuses)
    ensures AcceptedIds(m, NO_FILTER) == m.Keys
  {
  }

  /** For a filter that both backends read alike, or none at all, and statuses with whole-second
      times, the query counts exactly the statuses the in-memory registry counts, each once. */
  lemma CountsAgree(db: Db, m: Statuses, f: Option<StatusFilter>)
    requires Mirrors(db, m)
    requires forall id <- m :: AsStored(m[id]) == m[id]
    requires f.Some? ==> ReadAlike(f.value)
    ensures Count(db, CompiledCount(f)) == if f.Some? then |AcceptedIds(m, f.value)| else |m|
  {
    hide ToText, FromText, RowOf, Accepts, SqlView, AsStored, SelectsNothing, NoEmptyList, BoundsExact, Compiled;
    var filter := if f.Some? then f.value else NO_FILTER;
    NoFilterAcceptsAll(m);
    NoFilterIsReadAlike();
    var keys, ids := SelectedKeys(db, Compiled(filter)), AcceptedIds(m, filter);
    forall id | id in m ensures ToText(id) in keys <==> id in ids {
      QuerySelectsExactly(db, m, filter, id);
      AgreesWhenExact(filter, m[id]);
    }
    SameSize(ids, keys);
  }

  lemma NoFilterIsReadAlike()
    ensures ReadAlike(NO_FILTER)
  {
  }

  /** The same from the beginning: whatever was stored, in both, the counts agree. */
  lemma CountsAgreeAfterStores(ss: seq<DeviceStatus>, f: Option<StatusFilter>)
    requires forall s <- ss :: AsStored(s) == s
    requires f.Some? ==> ReadAlike(f.value)
    ensures Count(StoredAll(EMPTY, ss), CompiledCount(f)) ==
            if f.Some? then |AcceptedIds(PutAll(map[], ss), f.value)| else |PutAll(map[], ss)|
  {
    hide Mirrors, AsStored, ReadAlike, Count, AcceptedIds, CompiledCount, StoredAll, PutAll;
    AnyStoresMirror(ss);
    CountsAgree(StoredAll(EMPTY, ss), PutAll(map[], ss), f);
  }
}
