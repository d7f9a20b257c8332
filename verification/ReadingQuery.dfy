/** Readings: what the in-memory registry accepts, the rows of the SQLite table, and the compiled query. */
module ReadingQuery {
  import opened Core
  import opened Postcard
  import opened Sql
  import opened UlidText
  import opened Filters
  import opened Paging

  datatype MetricType = OfSoilMoisture | OfSoilTemp | OfAirTemp | OfHumidity | OfRainfall

  datatype ReadingFilter = ReadingFilter(
    ids: Option<seq<Id>>,
    deviceIds: Option<seq<Id>>,
    sensorIds: Option<seq<Id>>,
    dispatcherIds: Option<seq<Id>>,
    metricTypes: Option<seq<MetricType>>,
    locations: Option<seq<U64>>,
    after: Option<Timestamp>,
    before: Option<Timestamp>,
    confidence: Option<(Byte, Byte)>)

  datatype SortBy = ByTimestamp | ByConfidence | ByDeviceId

  type ListOptions = QueryOptions<ReadingFilter, SortBy>

  datatype Column =
    | IdCol | DeviceIdCol | SensorIdCol | DispatcherIdCol | MetricTypeCol | LocationCol | ConfidenceCol | TimestampCol

  // ----- the in-memory registry -----

  type Readings = map<Id, SensorReading>

  function MetricTypeOf(m: SensorMetric): MetricType {
    match m
    case SoilMoisture(_) => OfSoilMoisture
    case SoilTemp(_) => OfSoilTemp
    case AirTemp(_) => OfAirTemp
    case Humidity(_) => OfHumidity
    case Rainfall(_) => OfRainfall
  }

  predicate Accepts(f: ReadingFilter, r: SensorReading) {
    if !Allows(f.ids, r.id) then false
    else if !Allows(f.deviceIds, r.deviceId) then false
    else if !Allows(f.sensorIds, r.sensorId) then false
    else if !Allows(f.dispatcherIds, r.dispatcherId) then false
    else if !Allows(f.metricTypes, MetricTypeOf(r.metric)) then false
    else if !Allows(f.locations, r.location) then false
    else if f.confidence.Some? && !(f.confidence.value.0 <= r.confidence <= f.confidence.value.1) then false
    else InTime(f.after, f.before, r.timestamp)
  }

  // ----- rows -----

  datatype ReadingRow = ReadingRow(
    id: string, deviceId: string, dispatcherId: string, sensorId: string,
    metricType: int, metricValue: real, location: int, confidence: int, timestamp: int)

  function TypeNumber(t: MetricType): int {
    match t
    case OfSoilMoisture => 0
    case OfSoilTemp => 1
    case OfAirTemp => 2
    case OfHumidity => 3
    case OfRainfall => 4
  }

  function MetricValue(m: SensorMetric): real {
    match m
    case SoilMoisture(p) => p as real
    case SoilTemp(c) => c
    case AirTemp(c) => c
    case Humidity(p) => p as real
    case Rainfall(mm) => mm
  }

  function RowOf(r: SensorReading): ReadingRow {
    ReadingRow(ToText(r.id), ToText(r.deviceId), ToText(r.dispatcherId), ToText(r.sensorId),
               TypeNumber(MetricTypeOf(r.metric)), MetricValue(r.metric), AsI64(r.location), r.confidence,
               AsSecond(r.timestamp))
  }

  /** A float cast to u8 is cut to the range. */
  function ToByte(x: real): Byte {
    if x < 0.0 then 0 else if x >= 255.0 then 255 else x.Floor
  }

  function MetricOf(t: int, v: real): Option<SensorMetric> {
    if t == 0 then Some(SoilMoisture(ToByte(v)))
    else if t == 1 then Some(SoilTemp(v))
    else if t == 2 then Some(AirTemp(v))
    else if t == 3 then Some(Humidity(ToByte(v)))
    else if t == 4 then Some(Rainfall(v))
    else None
  }

  /** `map_row_to_reading` */
  function ReadingAt(row: ReadingRow): Option<SensorReading> {
    match (FromText(row.id), FromText(row.deviceId), FromText(row.dispatcherId), FromText(row.sensorId),
           MetricOf(row.metricType, row.metricValue))
    case (Some(id), Some(deviceId), Some(dispatcherId), Some(sensorId), Some(metric)) =>
      if -0x8000_0000_0000_0000 <= row.location < 0x8000_0000_0000_0000 && 0 <= row.confidence < 256
      then Some(SensorReading(id, deviceId, dispatcherId, metric, FromI64(row.location), row.confidence,
                              FromSecond(row.timestamp), sensorId))
      else None
    case (_, _, _, _, _) => None
  }

  function AsStored(r: SensorReading): SensorReading {
    r.(timestamp := FromSecond(AsSecond(r.timestamp)))
  }

  /** A reading read back from its row is the one stored, with its time cut to whole seconds. */
  lemma RowRoundTrip(r: SensorReading)
    ensures ReadingAt(RowOf(r)) == Some(AsStored(r))
  {
    hide ToText, FromText, AsSecond;
    TextRoundTrip(r.id);
    TextRoundTrip(r.deviceId);
    TextRoundTrip(r.dispatcherId);
    TextRoundTrip(r.sensorId);
    assert FromI64(AsI64(r.location)) == r.location;
  }

  function StoredAll(rows: map<string, ReadingRow>, rs: seq<SensorReading>): map<string, ReadingRow> {
    if rs == [] then rows
    else
      var n := |rs| - 1;
      StoredAll(rows, rs[..n])[ToText(rs[n].id) := RowOf(rs[n])]
  }

  class SqliteReadings {
    var rows: map<string, ReadingRow>

    constructor ()
      ensures rows == map[]
    {
      rows := map[];
    }

    /** INSERT OR REPLACE */
    method Store(r: SensorReading)
      modifies this
      ensures rows == old(rows)[ToText(r.id) := RowOf(r)]
    {
      rows := rows[ToText(r.id) := RowOf(r)];
    }

    /** One transaction over all of them. */
    method BatchStore(rs: seq<SensorReading>)
      modifies this
      ensures rows == StoredAll(old(rows), rs)
    {
      hide ToText, RowOf;
      for i := 0 to |rs|
        invariant rows == StoredAll(old(rows), rs[..i])
      {
        assert rs[..i + 1][..i] == rs[..i];
        Store(rs[i]);
      }
      assert rs[..|rs|] == rs;
    }
  }

  ghost predicate Mirrors(rows: map<string, ReadingRow>, m: Readings) {
    && (forall id <- m :: m[id].id == id && ToText(id) in rows && rows[ToText(id)] == RowOf(m[id]))
    && (forall key <- rows :: FromText(key).Some? && FromText(key).value in m && key == ToText(FromText(key).value))
  }

  lemma StoreKeepsMirror(rows: map<string, ReadingRow>, m: Readings, r: SensorReading)
    requires Mirrors(rows, m)
    ensures Mirrors(rows[ToText(r.id) := RowOf(r)], m[r.id := r])
  {
    hide ToText, FromText, RowOf;
    TextRoundTrip(r.id);
    forall id | id in m ensures ToText(id) == ToText(r.id) <==> id == r.id {
      TextPreservesOrder(id, r.id);
    }
  }

  function PutAll(m: Readings, rs: seq<SensorReading>): Readings {
    if rs == [] then m
    else
      var n := |rs| - 1;
      PutAll(m, rs[..n])[rs[n].id := rs[n]]
  }

  /** From empty registries, after any readings in any order, with repeats, the table is a picture
      of the map, and the map holds nothing that was not stored. */
  lemma {:induction false} AnyStoresMirror(rs: seq<SensorReading>)
    ensures Mirrors(StoredAll(map[], rs), PutAll(map[], rs))
    ensures forall id <- PutAll(map[], rs) :: PutAll(map[], rs)[id] in rs
    decreases |rs|
  {
    hide ToText, RowOf;
    if rs == [] {
      assert Mirrors(map[], map[]);
    } else {
      hide Mirrors;
      var n := |rs| - 1;
      AnyStoresMirror(rs[..n]);
      StoreKeepsMirror(StoredAll(map[], rs[..n]), PutAll(map[], rs[..n]), rs[n]);
      assert rs == rs[..n] + [rs[n]];
    }
  }

  // ----- the compiled query -----

  function Types(ts: seq<MetricType>): (vs: seq<Value>)
    ensures |vs| == |ts|
    ensures forall i :: 0 <= i < |ts| ==> vs[i] == Int(TypeNumber(ts[i]))
  {
    seq(|ts|, i requires 0 <= i < |ts| => Int(TypeNumber(ts[i])))
  }

  function Locations(ls: seq<U64>): (vs: seq<Value>)
    ensures |vs| == |ls|
    ensures forall i :: 0 <= i < |ls| ==> vs[i] == Int(AsI64(ls[i]))
  {
    seq(|ls|, i requires 0 <= i < |ls| => Int(AsI64(ls[i])))
  }

  function ListConds(f: ReadingFilter): seq<Cond<Column>> {
    IdsCond(IdCol, f.ids) + IdsCond(DeviceIdCol, f.deviceIds) + IdsCond(SensorIdCol, f.sensorIds)
    + IdsCond(DispatcherIdCol, f.dispatcherIds)
  }

  function ValueConds(f: ReadingFilter): seq<Cond<Column>> {
    (if Lists(f.metricTypes) then [InList(MetricTypeCol, Types(f.metricTypes.value))] else [])
    + (if Lists(f.locations) then [InList(LocationCol, Locations(f.locations.value))] else [])
    + RangeConds(f)
  }

  function RangeConds(f: ReadingFilter): seq<Cond<Column>> {
    (if f.after.Some? then [AtLeast(TimestampCol, Int(AsSecond(f.after.value)))] else [])
    + (if f.before.Some? then [AtMost(TimestampCol, Int(AsSecond(f.before.value)))] else [])
    + (if f.confidence.Some?
       then [Between(ConfidenceCol, Int(f.confidence.value.0), Int(f.confidence.value.1))] else [])
  }

  method FilterReadings(qb: QueryBuilder<Column>, f: ReadingFilter)
    modifies qb
    ensures qb.sql == old(qb.sql) + Clause(ListConds(f) + ValueConds(f))
  {
    hide ListConds, ValueConds;
    assert qb.sql == qb.sql + Clause<Column>([]);
    hide Clause;
    ghost var base := qb.sql;
    ghost var conds := [];
    var hasWhere := false;
    conds, hasWhere := PushLists(qb, base, conds, hasWhere, f);
    assert conds == ListConds(f);
    conds, hasWhere := PushValues(qb, base, conds, hasWhere, f);
  }

  method PushLists(qb: QueryBuilder<Column>, ghost base: seq<Token<Column>>, ghost conds: seq<Cond<Column>>,
                   hasWhere: bool, f: ReadingFilter)
    returns (ghost conds': seq<Cond<Column>>, hasWhere': bool)
    requires qb.sql == base + Clause(conds) && (hasWhere <==> conds != [])
    modifies qb
    ensures conds' == conds + ListConds(f)
    ensures qb.sql == base + Clause(conds') && (hasWhere' <==> conds' != [])
  {
    hide IdsCond, Clause;
    conds', hasWhere' := PushIds(qb, base, conds, hasWhere, IdCol, f.ids);
    conds', hasWhere' := PushIds(qb, base, conds', hasWhere', DeviceIdCol, f.deviceIds);
    conds', hasWhere' := PushIds(qb, base, conds', hasWhere', SensorIdCol, f.sensorIds);
    conds', hasWhere' := PushIds(qb, base, conds', hasWhere', DispatcherIdCol, f.dispatcherIds);
  }

  method PushValues(qb: QueryBuilder<Column>, ghost base: seq<Token<Column>>, ghost conds: seq<Cond<Column>>,
                    hasWhere: bool, f: ReadingFilter)
    returns (ghost conds': seq<Cond<Column>>, hasWhere': bool)
    requires qb.sql == base + Clause(conds) && (hasWhere <==> conds != [])
    modifies qb
    ensures conds' == conds + ValueConds(f)
    ensures qb.sql == base + Clause(conds') && (hasWhere' <==> conds' != [])
  {
    hide Clause, Types, Locations, RangeConds;
    conds', hasWhere' := conds, hasWhere;
    if Lists(f.metricTypes) {
      conds', hasWhere' := PushOne(qb, base, conds', hasWhere', InList(MetricTypeCol, Types(f.metricTypes.value)));
    }
    if Lists(f.locations) {
      conds', hasWhere' := PushOne(qb, base, conds', hasWhere', InList(LocationCol, Locations(f.locations.value)));
    }
    conds', hasWhere' := PushRanges(qb, base, conds', hasWhere', f);
  }

  method PushRanges(qb: QueryBuilder<Column>, ghost base: seq<Token<Column>>, ghost conds: seq<Cond<Column>>,
                    hasWhere: bool, f: ReadingFilter)
    returns (ghost conds': seq<Cond<Column>>, hasWhere': bool)
    requires qb.sql == base + Clause(conds) && (hasWhere <==> conds != [])
    modifies qb
    ensures conds' == conds + RangeConds(f)
    ensures qb.sql == base + Clause(conds') && (hasWhere' <==> conds' != [])
  {
    hide Clause;
    conds', hasWhere' := conds, hasWhere;
    if f.after.Some? {
      conds', hasWhere' := PushOne(qb, base, conds', hasWhere', AtLeast(TimestampCol, Int(AsSecond(f.after.value))));
    }
    if f.before.Some? {
      conds', hasWhere' := PushOne(qb, base, conds', hasWhere', AtMost(TimestampCol, Int(AsSecond(f.before.value))));
    }
    if f.confidence.Some? {
      conds', hasWhere' := PushOne(qb, base, conds', hasWhere',
        Between(ConfidenceCol, Int(f.confidence.value.0), Int(f.confidence.value.1)));
    }
  }

  function SortColumn(sortBy: SortBy): Column {
    match sortBy
    case ByTimestamp => TimestampCol
    case ByConfidence => ConfidenceCol
    case ByDeviceId => DeviceIdCol
  }

  function Compiled(o: ListOptions): Query<Column> {
    Query(false, ListConds(o.filter) + ValueConds(o.filter), Some((SortColumn(o.sortBy), o.descending)),
          Some(WindowOf(o.pagination)))
  }

  /** Builds the query of a list; what it pushed parses to exactly the query meant. */
  method BuildList(o: ListOptions) returns (qb: QueryBuilder<Column>)
    ensures fresh(qb)
    ensures Parse(qb.sql) == Some(Compiled(o))
  {
    hide ListConds, ValueConds, Clause, Parse, Tail;
    qb := new QueryBuilder();
    FilterReadings(qb, o.filter);
    ghost var q := Compiled(o);
    assert qb.sql == Clause(q.conds);
    PushOrderAndPage(qb, SortColumn(o.sortBy), o.descending, o.pagination);
    ParseOfParts(false, q.conds, q.order, q.window);
    assert qb.sql == Head(false) + Clause(q.conds) + Tail(q.order, q.window);
  }

  /** The query of a count; without a filter it counts all. */
  function CompiledCount(f: Option<ReadingFilter>): Query<Column> {
    Query(false, if f.Some? then ListConds(f.value) + ValueConds(f.value) else [], None, None)
  }

  method BuildCount(f: Option<ReadingFilter>) returns (qb: QueryBuilder<Column>)
    ensures fresh(qb)
    ensures Parse(qb.sql) == Some(CompiledCount(f))
  {
    hide ListConds, ValueConds, Parse;
    qb := new QueryBuilder();
    ghost var conds := CompiledCount(f).conds;
    if f.Some? {
      FilterReadings(qb, f.value);
    }
    assert qb.sql == Clause(conds);
    ParseOfParts(false, conds, None, None);
    assert qb.sql == Head(false) + Clause(conds) + Tail(None, None);
  }

  // ----- what the query selects -----

  function Cells(row: ReadingRow): Column -> Value {
    (c: Column) =>
      match c
      case IdCol => Text(row.id)
      case DeviceIdCol => Text(row.deviceId)
      case SensorIdCol => Text(row.sensorId)
      case DispatcherIdCol => Text(row.dispatcherId)
      case MetricTypeCol => Int(row.metricType)
      case LocationCol => Int(row.location)
      case ConfidenceCol => Int(row.confidence)
      case TimestampCol => Int(row.timestamp)
  }

  ghost function Selected(rows: map<string, ReadingRow>, q: Query<Column>): set<ReadingRow> {
    set key | key in rows && Keeps(q.conds, Cells(rows[key])) :: rows[key]
  }

  function SqlView(f: ReadingFilter): ReadingFilter {
    ReadingFilter(DropEmpty(f.ids), DropEmpty(f.deviceIds), DropEmpty(f.sensorIds), DropEmpty(f.dispatcherIds),
                  DropEmpty(f.metricTypes), DropEmpty(f.locations), Cut(f.after), Cut(f.before), f.confidence)
  }

  lemma InTypes(ts: seq<MetricType>, t: MetricType)
    ensures Int(TypeNumber(t)) in Types(ts) <==> t in ts
  {
    if t in ts {
      var i :| 0 <= i < |ts| && ts[i] == t;
      assert Types(ts)[i] == Int(TypeNumber(t));
    }
  }

  lemma InLocations(ls: seq<U64>, l: U64)
    ensures Int(AsI64(l)) in Locations(ls) <==> l in ls
  {
    if l in ls {
      var i :| 0 <= i < |ls| && ls[i] == l;
      assert Locations(ls)[i] == Int(AsI64(l));
    }
  }

  lemma ListCondsMean(f: ReadingFilter, r: SensorReading)
    ensures Keeps(ListConds(f), Cells(RowOf(r))) <==>
              Allows(DropEmpty(f.ids), r.id) && Allows(DropEmpty(f.deviceIds), r.deviceId)
              && Allows(DropEmpty(f.sensorIds), r.sensorId) && Allows(DropEmpty(f.dispatcherIds), r.dispatcherId)
  {
    var get := Cells(RowOf(r));
    hide ToText, AsSecond, IdsCond, TypeNumber, MetricTypeOf, MetricValue, Keeps;
    IdsCondMeans(IdCol, f.ids, r.id, get);
    IdsCondMeans(DeviceIdCol, f.deviceIds, r.deviceId, get);
    IdsCondMeans(SensorIdCol, f.sensorIds, r.sensorId, get);
    IdsCondMeans(DispatcherIdCol, f.dispatcherIds, r.dispatcherId, get);
    var ab := IdsCond(IdCol, f.ids) + IdsCond(DeviceIdCol, f.deviceIds);
    KeepsAppend(IdsCond(IdCol, f.ids), IdsCond(DeviceIdCol, f.deviceIds), get);
    KeepsAppend(ab, IdsCond(SensorIdCol, f.sensorIds), get);
    KeepsAppend(ab + IdsCond(SensorIdCol, f.sensorIds), IdsCond(DispatcherIdCol, f.dispatcherIds), get);
  }

  /** A clause that is there only if it asks something holds exactly when it is absent or true. */
  lemma OptionalCond<C>(asked: bool, c: Cond<C>, get: C -> Value)
    ensures Keeps(if asked then [c] else [], get) <==> (asked ==> Eval(c, get) == True)
  {
    var cs := if asked then [c] else [];
    KeepsIffAll(cs, get);
    if asked {
      assert cs[0] in cs;
    }
  }

  lemma RangeCondsMean(f: ReadingFilter, r: SensorReading)
    ensures Keeps(RangeConds(f), Cells(RowOf(r))) <==>
              InTime(Cut(f.after), Cut(f.before), FromSecond(AsSecond(r.timestamp)))
              && (f.confidence.Some? ==> f.confidence.value.0 <= r.confidence <= f.confidence.value.1)
  {
    hide ToText, AsSecond, MetricTypeOf, MetricValue, Keeps, TypeNumber;
    var get := Cells(RowOf(r));
    var a := AtLeast(TimestampCol, Int(AsSecond(if f.after.Some? then f.after.value else 0)));
    var b := AtMost(TimestampCol, Int(AsSecond(if f.before.Some? then f.before.value else 0)));
    var range := if f.confidence.Some? then f.confidence.value else (0, 0);
    var c := Between(ConfidenceCol, Int(range.0), Int(range.1));
    OptionalCond(f.after.Some?, a, get);
    OptionalCond(f.before.Some?, b, get);
    OptionalCond(f.confidence.Some?, c, get);
    var as_: seq<Cond<Column>> := if f.after.Some? then [a] else [];
    var bs: seq<Cond<Column>> := if f.before.Some? then [b] else [];
    var cs: seq<Cond<Column>> := if f.confidence.Some? then [c] else [];
    assert RangeConds(f) == as_ + bs + cs;
    KeepsAppend(as_ + bs, cs, get);
    KeepsAppend(as_, bs, get);
  }

  lemma ValueCondsMean(f: ReadingFilter, r: SensorReading)
    ensures Keeps(ValueConds(f), Cells(RowOf(r))) <==>
              Allows(DropEmpty(f.metricTypes), MetricTypeOf(r.metric)) && Allows(DropEmpty(f.locations), r.location)
              && Keeps(RangeConds(f), Cells(RowOf(r)))
  {
    hide ToText, AsSecond, MetricTypeOf, MetricValue, Keeps, TypeNumber, RangeConds;
    var get := Cells(RowOf(r));
    var types := if Lists(f.metricTypes) then f.metricTypes.value else [];
    var places := if Lists(f.locations) then f.locations.value else [];
    var t, l := InList(MetricTypeCol, Types(types)), InList(LocationCol, Locations(places));
    OptionalCond(Lists(f.metricTypes), t, get);
    OptionalCond(Lists(f.locations), l, get);
    var ts: seq<Cond<Column>> := if Lists(f.metricTypes) then [t] else [];
    var ls: seq<Cond<Column>> := if Lists(f.locations) then [l] else [];
    assert ValueConds(f) == ts + ls + RangeConds(f);
    KeepsAppend(ts + ls, RangeConds(f), get);
    KeepsAppend(ts, ls, get);
    InTypes(types, MetricTypeOf(r.metric));
    InLocations(places, r.location);
  }

  /** For every filter and every reading: the query keeps a reading's row exactly when the
      in-memory predicate, on the filter and the reading as the query sees them, accepts it. */
  lemma QueryKeepsExactly(f: ReadingFilter, r: SensorReading)
    ensures Keeps(ListConds(f) + ValueConds(f), Cells(RowOf(r))) <==> Accepts(SqlView(f), AsStored(r))
  {
    ListCondsMean(f, r);
    ValueCondsMean(f, r);
    RangeCondsMean(f, r);
    hide RowOf, Cells, Keeps, ListConds, ValueConds, MetricTypeOf, AsSecond;
    KeepsAppend(ListConds(f), ValueConds(f), Cells(RowOf(r)));
  }

  predicate NoEmptyList(f: ReadingFilter) {
    && (f.ids.Some? ==> f.ids.value != []) && (f.deviceIds.Some? ==> f.deviceIds.value != [])
    && (f.sensorIds.Some? ==> f.sensorIds.value != []) && (f.dispatcherIds.Some? ==> f.dispatcherIds.value != [])
    && (f.metricTypes.Some? ==> f.metricTypes.value != []) && (f.locations.Some? ==> f.locations.value != [])
  }

  /** The query can select nothing: crossed bounds. */
  predicate SelectsNothing(f: ReadingFilter) {
    || EmptyTime(f.after, f.before)
    || (f.confidence.Some? && f.confidence.value.0 > f.confidence.value.1)
  }

  /** Something a caller can see of a filter before using it; what it decides is AgreementExactly. */
  predicate ReadAlike(f: ReadingFilter) {
    SelectsNothing(f) || (NoEmptyList(f) && BoundsExact(f.after, f.before))
  }

  lemma AgreesWhenExact(f: ReadingFilter, r: SensorReading)
    requires ReadAlike(f) && AsStored(r) == r
    ensures Accepts(SqlView(f), r) <==> Accepts(f, r)
  {
    CutBounds(f.after, f.before, r.timestamp);
  }

  function FirstOr<T>(xs: Option<seq<T>>, x: T): T {
    if Lists(xs) then xs.value[0] else x
  }

  function SampleMetric(t: MetricType): (m: SensorMetric)
    ensures MetricTypeOf(m) == t
  {
    match t
    case OfSoilMoisture => SoilMoisture(0)
    case OfSoilTemp => SoilTemp(0.0)
    case OfAirTemp => AirTemp(0.0)
    case OfHumidity => Humidity(0)
    case OfRainfall => Rainfall(0.0)
  }

  /** A reading the query selects, on the edge of a bound that cutting moved if there is one. */
  function Witness(f: ReadingFilter): SensorReading {
    SensorReading(FirstOr(f.ids, 0), FirstOr(f.deviceIds, 0), FirstOr(f.dispatcherIds, 0),
                  SampleMetric(FirstOr(f.metricTypes, OfRainfall)), FirstOr(f.locations, 0),
                  if f.confidence.Some? then f.confidence.value.0 else 0,
                  EdgeTime(f.after, f.before), FirstOr(f.sensorIds, 0))
  }

  /** On readings with whole-second times the compiled query and the in-memory predicate accept the
      same, for every such reading, if and only if no list of the filter is empty and no bound is
      moved by being cut to seconds, or the query can select nothing at all. */
  lemma AgreementExactly(f: ReadingFilter)
    ensures (forall r: SensorReading :: AsStored(r) == r ==> (Accepts(SqlView(f), r) <==> Accepts(f, r)))
            <==> ReadAlike(f)
  {
    if ReadAlike(f) {
      forall r: SensorReading | AsStored(r) == r ensures Accepts(SqlView(f), r) <==> Accepts(f, r) {
        AgreesWhenExact(f, r);
      }
    } else {
      EdgeTimeSeparates(f.after, f.before);
      assert Accepts(SqlView(f), Witness(f)) && AsStored(Witness(f)) == Witness(f);
      assert !Accepts(f, Witness(f));
    }
  }
}
