/** Device status filters: what the in-memory registry accepts, and what the compiled query asks. */
module StatusFilters {
  import opened Core
  import opened Postcard
  import opened Sql
  import opened UlidText
  import opened Filters

  datatype StatusFilter = StatusFilter(
    ids: Option<seq<Id>>,
    deviceIds: Option<seq<Id>>,
    dispatcherIds: Option<seq<Id>>,
    after: Option<Timestamp>,
    before: Option<Timestamp>,
    battery: Option<(Byte, Byte)>,
    hasErrors: Option<bool>,
    errorCodes: Option<seq<DeviceErrorCode>>)

  datatype Column = IdCol | DeviceIdCol | DispatcherIdCol | BatteryCol | TimestampCol | ErrorIdCol | ErrorCodeCol

  // ----- the in-memory registry -----

  /** The predicate `filter_statuses` applies to each status, in its order of tests. */
  predicate Accepts(f: StatusFilter, s: DeviceStatus) {
    if !Allows(f.ids, s.id) then false
    else if !Allows(f.deviceIds, s.deviceId) then false
    else if !Allows(f.dispatcherIds, s.dispatcherId) then false
    else if f.battery.Some? && !(f.battery.value.0 <= s.batteryPercent <= f.battery.value.1) then false
    else if f.hasErrors.Some? && f.hasErrors.value != (s.errors != []) then false
    else if f.errorCodes.Some? && !exists e <- s.errors :: e.code in f.errorCodes.value then false
    else InTime(f.after, f.before, s.timestamp)
  }

  // ----- the compiled query -----

  function CodeNumber(c: DeviceErrorCode): int {
    match c
    case LowBattery => 0
    case SensorFault => 1
    case RadioFault => 2
    case Unknown => 3
  }

  function CodeOf(n: int): Option<DeviceErrorCode> {
    if n == 0 then Some(LowBattery)
    else if n == 1 then Some(SensorFault)
    else if n == 2 then Some(RadioFault)
    else if n == 3 then Some(Unknown)
    else None
  }

  function Codes(cs: seq<DeviceErrorCode>): (vs: seq<Value>)
    ensures |vs| == |cs|
    ensures forall i :: 0 <= i < |cs| ==> vs[i] == Int(CodeNumber(cs[i]))
  {
    seq(|cs|, i requires 0 <= i < |cs| => Int(CodeNumber(cs[i])))
  }

  function PlainConds(f: StatusFilter): seq<Cond<Column>> {
    IdsCond(IdCol, f.ids) + IdsCond(DeviceIdCol, f.deviceIds) + IdsCond(DispatcherIdCol, f.dispatcherIds)
    + RangeConds(f)
  }

  function ErrorConds(f: StatusFilter): seq<Cond<Column>> {
    (if f.hasErrors.Some? then [if f.hasErrors.value then IsNotNull(ErrorIdCol) else IsNull(ErrorIdCol)] else [])
    + (if Lists(f.errorCodes) then [InList(ErrorCodeCol, Codes(f.errorCodes.value))] else [])
  }

  predicate NeedsErrorJoin(f: StatusFilter) {
    f.hasErrors.Some? || Lists(f.errorCodes)
  }

  /** Pushes the join and the conditions of a filter onto a query. */
  method FilterStatuses(qb: QueryBuilder<Column>, f: StatusFilter)
    modifies qb
    ensures qb.sql == old(qb.sql) + Head(NeedsErrorJoin(f)) + Clause(PlainConds(f) + ErrorConds(f))
  {
    hide ToText, IdsCond;
    if NeedsErrorJoin(f) {
      qb.Push(LeftJoin);
    }
    ghost var base := qb.sql;
    assert base == old(qb.sql) + Head(NeedsErrorJoin(f));
    assert base == base + Clause<Column>([]);
    hide Clause, Head;
    ghost var conds := [];
    var hasWhere := false;
    conds, hasWhere := PushIds(qb, base, conds, hasWhere, IdCol, f.ids);
    conds, hasWhere := PushIds(qb, base, conds, hasWhere, DeviceIdCol, f.deviceIds);
    conds, hasWhere := PushIds(qb, base, conds, hasWhere, DispatcherIdCol, f.dispatcherIds);
    ghost var lists := conds;
    assert lists == IdsCond(IdCol, f.ids) + IdsCond(DeviceIdCol, f.deviceIds)
                    + IdsCond(DispatcherIdCol, f.dispatcherIds);
    conds, hasWhere := PushRanges(qb, base, conds, hasWhere, f);
    assert conds == PlainConds(f);
    hide PlainConds, ErrorConds;
    conds, hasWhere := PushErrors(qb, base, conds, hasWhere, f);
  }

  method PushErrors(qb: QueryBuilder<Column>, ghost base: seq<Token<Column>>, ghost conds: seq<Cond<Column>>,
                    hasWhere: bool, f: StatusFilter)
    returns (ghost conds': seq<Cond<Column>>, hasWhere': bool)
    requires qb.sql == base + Clause(conds) && (hasWhere <==> conds != [])
    modifies qb
    ensures conds' == conds + ErrorConds(f)
    ensures qb.sql == base + Clause(conds') && (hasWhere' <==> conds' != [])
  {
    hide Clause, Codes;
    conds', hasWhere' := conds, hasWhere;
    if f.hasErrors.Some? {
      conds', hasWhere' := PushOne(qb, base, conds', hasWhere',
        if f.hasErrors.value then IsNotNull(ErrorIdCol) else IsNull(ErrorIdCol));
    }
    if Lists(f.errorCodes) {
      conds', hasWhere' := PushOne(qb, base, conds', hasWhere', InList(ErrorCodeCol, Codes(f.errorCodes.value)));
    }
  }

  function RangeConds(f: StatusFilter): seq<Cond<Column>> {
    (if f.after.Some? then [AtLeast(TimestampCol, Int(AsSecond(f.after.value)))] else [])
    + (if f.before.Some? then [AtMost(TimestampCol, Int(AsSecond(f.before.value)))] else [])
    + (if f.battery.Some? then [Between(BatteryCol, Int(f.battery.value.0), Int(f.battery.value.1))] else [])
  }

  method PushRanges(qb: QueryBuilder<Column>, ghost base: seq<Token<Column>>, ghost conds: seq<Cond<Column>>,
                    hasWhere: bool, f: StatusFilter)
    returns (ghost conds': seq<Cond<Column>>, hasWhere': bool)
    requires qb.sql == base + Clause(conds) && (hasWhere <==> conds != [])
    modifies qb
    ensures conds' == conds + RangeConds(f)
    ensures qb.sql == base + Clause(conds') && (hasWhere' <==> conds' != [])
  {
    hide Clause;
    conds', hasWhere' := conds, hasWhere;
    if f.after.Some? {
      conds', hasWhere' := PushOne(qb, base, conds', hasWhere', AtLeast(TimestampCol, Int(AsSecond(f.after.value))));
    }
    if f.before.Some? {
      conds', hasWhere' := PushOne(qb, base, conds', hasWhere', AtMost(TimestampCol, Int(AsSecond(f.before.value))));
    }
    if f.battery.Some? {
      conds', hasWhere' := PushOne(qb, base, conds', hasWhere',
        Between(BatteryCol, Int(f.battery.value.0), Int(f.battery.value.1)));
    }
  }

  // ----- what the query sees of a filter and of a status -----

  /** Lists that are empty ask nothing, and times are whole seconds. */
  function SqlView(f: StatusFilter): StatusFilter {
    StatusFilter(DropEmpty(f.ids), DropEmpty(f.deviceIds), DropEmpty(f.dispatcherIds),
                 Cut(f.after), Cut(f.before), f.battery, f.hasErrors, DropEmpty(f.errorCodes))
  }

  function CutSensor(s: SensorStatus): SensorStatus {
    s.(lastReading := Cut(s.lastReading))
  }

  function CutSensors(ss: seq<SensorStatus>): (r: seq<SensorStatus>)
    ensures |r| == |ss|
    ensures forall i :: 0 <= i < |ss| ==> r[i] == CutSensor(ss[i])
  {
    seq(|ss|, i requires 0 <= i < |ss| => CutSensor(ss[i]))
  }

  /** A status as the tables keep it. */
  function AsStored(s: DeviceStatus): DeviceStatus {
    s.(timestamp := FromSecond(AsSecond(s.timestamp)), sensorStatuses := CutSensors(s.sensorStatuses))
  }

  // ----- exactly when both backends agree -----

  predicate NoEmptyList(f: StatusFilter) {
    && (f.ids.Some? ==> f.ids.value != []) && (f.deviceIds.Some? ==> f.deviceIds.value != [])
    && (f.dispatcherIds.Some? ==> f.dispatcherIds.value != []) && (f.errorCodes.Some? ==> f.errorCodes.value != [])
  }

  /** The compiled query can select nothing: crossed bounds, or error codes asked of statuses without errors. */
  predicate SelectsNothing(f: StatusFilter) {
    || EmptyTime(f.after, f.before)
    || (f.battery.Some? && f.battery.value.0 > f.battery.value.1)
    || (f.hasErrors == Some(false) && Lists(f.errorCodes))
  }

  /** Something a caller can see of a filter before using it; what it decides is AgreementExactly. */
  predicate ReadAlike(f: StatusFilter) {
    SelectsNothing(f) || (NoEmptyList(f) && BoundsExact(f.after, f.before))
  }

  /** A status the query selects, on the edge of a bound that cutting moved if there is one. */
  function Witness(f: StatusFilter): DeviceStatus {
    DeviceStatus(
      if Lists(f.ids) then f.ids.value[0] else 0,
      if Lists(f.deviceIds) then f.deviceIds.value[0] else 0,
      if Lists(f.dispatcherIds) then f.dispatcherIds.value[0] else 0,
      if f.battery.Some? then f.battery.value.0 else 0,
      0, 0,
      if Lists(f.errorCodes) then [DeviceError(f.errorCodes.value[0], None)]
      else if f.hasErrors == Some(true) then [DeviceError(Unknown, None)] else [],
      EdgeTime(f.after, f.before),
      [])
  }

  lemma WitnessIsSelected(f: StatusFilter)
    requires !SelectsNothing(f)
    ensures Accepts(SqlView(f), Witness(f)) && AsStored(Witness(f)) == Witness(f)
  {
    EdgeTimeSeparates(f.after, f.before);
    var w := Witness(f);
    if Lists(f.errorCodes) {
      assert w.errors[0] in w.errors;
    }
  }

  /** On statuses with whole-second times the compiled query and the in-memory predicate accept the
      same, for every such status, if and only if no list of the filter is empty and no bound is
      moved by being cut to seconds, or the query can select nothing at all. */
  lemma AgreementExactly(f: StatusFilter)
    ensures (forall s: DeviceStatus :: AsStored(s) == s ==> (Accepts(SqlView(f), s) <==> Accepts(f, s)))
            <==> ReadAlike(f)
  {
    if ReadAlike(f) {
      forall s: DeviceStatus | AsStored(s) == s ensures Accepts(SqlView(f), s) <==> Accepts(f, s) {
        AgreesWhenExact(f, s);
      }
    } else {
      WitnessIsSelected(f);
      EdgeTimeSeparates(f.after, f.before);
      var w := Witness(f);
      assert !Accepts(f, w);
    }
  }

  lemma AgreesWhenExact(f: StatusFilter, s: DeviceStatus)
    requires AsStored(s) == s
    requires ReadAlike(f)
    ensures Accepts(SqlView(f), s) <==> Accepts(f, s)
  {
    CutBounds(f.after, f.before, s.timestamp);
  }
}
