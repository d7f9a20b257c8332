/** Lists and counts of readings: the in-memory registry against the compiled SQL. */
module ReadingLists {
  import opened Core
  import opened Sql
  import opened UlidText
  import opened Filters
  import opened Paging
  import opened Listing
  import opened ReadingQuery

  // ----- the in-memory registry -----

  function KeyOf(sortBy: SortBy): SensorReading -> int {
    match sortBy
    case ByTimestamp => (r: SensorReading) => r.timestamp
    case ByConfidence => (r: SensorReading) => r.confidence
    case ByDeviceId => (r: SensorReading) => r.deviceId
  }

  function IdOf(): SensorReading -> Id {
    (r: SensorReading) => r.id
  }

  ghost function Accepted(m: Readings, f: ReadingFilter): set<SensorReading> {
    set id | id in m && Accepts(f, m[id]) :: m[id]
  }

  ghost predicate IsMemoryList(m: Readings, o: ListOptions, result: seq<SensorReading>) {
    IsPage(Accepted(m, o.filter), KeyOf(o.sortBy), o.descending, IdOf(), o.pagination, result)
  }

  ghost predicate Keyed(m: Readings) {
    forall id <- m :: m[id].id == id
  }

  ghost function AcceptedIds(m: Readings, f: ReadingFilter): set<Id> {
    set id | id in m && Accepts(f, m[id])
  }

  class MemoryReadings {
    var readings: Readings

    constructor ()
      ensures readings == map[]
    {
      readings := map[];
    }

    method Store(r: SensorReading)
      modifies this
      ensures readings == old(readings)[r.id := r]
    {
      readings := readings[r.id := r];
    }

    method Count(f: Option<ReadingFilter>) returns (n: nat)
      ensures n == if f.Some? then |AcceptedIds(readings, f.value)| else |readings|
    {
      if f.None? {
        return |readings|;
      }
      hide Accepts;
      ghost var all := AcceptedIds(readings, f.value);
      n := 0;
      var todo := readings.Keys;
      while todo != {}
        invariant todo <= readings.Keys
        invariant n == |all - todo|
        decreases todo
      {
        var id :| id in todo;
        VisitCounts(all, todo, id);
        if Accepts(f.value, readings[id]) {
          n := n + 1;
        }
        todo := todo - {id};
      }
      assert all - {} == all;
    }

    /** The accepted readings in the hash map's order, which nobody may rely on. */
    method Filtered(f: ReadingFilter) returns (xs: seq<SensorReading>)
      requires Keyed(readings)
      ensures Enumerates(xs, Accepted(readings, f))
    {
      hide Accepts;
      xs := [];
      var todo := readings.Keys;
      while todo != {}
        invariant todo <= readings.Keys
        invariant forall x <- xs :: x.id in readings && x.id !in todo && readings[x.id] == x && Accepts(f, x)
        invariant forall id <- readings :: id !in todo && Accepts(f, readings[id]) ==> readings[id] in xs
        invariant forall i, j :: 0 <= i < j < |xs| ==> xs[i] != xs[j]
        decreases todo
      {
        var id :| id in todo;
        if Accepts(f, readings[id]) {
          assert readings[id] !in xs;
          xs := xs + [readings[id]];
        }
        todo := todo - {id};
      }
    }

    method List(o: ListOptions) returns (page: seq<SensorReading>)
      requires Keyed(readings)
      ensures IsMemoryList(readings, o, page)
    {
      hide Accepted, Enumerates, StableSort, Page;
      var filtered := Filtered(o.filter);
      var sorted := StableSort(filtered, KeyOrder(KeyOf(o.sortBy), o.descending));
      page := Page(sorted, IdOf(), o.pagination);
    }
  }

  // ----- both sides -----

  function CellOf(col: Column): ReadingRow -> Value {
    (row: ReadingRow) => Cells(row)(col)
  }

  ghost predicate IsSqlList(rows: map<string, ReadingRow>, q: Query<Column>, answer: seq<ReadingRow>) {
    && q.order.Some? && q.window.Some?
    && IsAnswer(Selected(rows, q), CellOf(q.order.value.0), q.order.value.1, q.window.value, answer)
  }

  ghost function BothSides(rows: map<string, ReadingRow>, m: Readings, o: ListOptions)
    : Sides<SensorReading, ReadingRow>
  {
    Sides(Accepted(m, o.filter), Selected(rows, Compiled(o)), RowOf, KeyOf(o.sortBy), CellOf(SortColumn(o.sortBy)))
  }

  lemma RowNamesReading(a: SensorReading, b: SensorReading)
    ensures RowOf(a) == RowOf(b) ==> a.id == b.id
  {
    hide ToText;
    TextPreservesOrder(a.id, b.id);
  }

  /** The selected rows are the rows of the accepted readings. */
  lemma SelectedExactly(rows: map<string, ReadingRow>, m: Readings, o: ListOptions, row: ReadingRow)
    requires Mirrors(rows, m)
    requires forall id <- m :: AsStored(m[id]) == m[id]
    requires ReadAlike(o.filter)
    ensures row in Selected(rows, Compiled(o)) <==> exists r <- Accepted(m, o.filter) :: RowOf(r) == row
  {
    hide ToText, FromText, RowOf, Cells, Keeps, ListConds, ValueConds, Accepts, SqlView, ReadAlike, AsStored;
    var f, sel, acc := o.filter, Selected(rows, Compiled(o)), Accepted(m, o.filter);
    forall id | id in m ensures Keeps(Compiled(o).conds, Cells(RowOf(m[id]))) <==> Accepts(f, m[id]) {
      QueryKeepsExactly(f, m[id]);
      AgreesWhenExact(f, m[id]);
    }
    if row in sel {
      var key :| key in rows && Keeps(Compiled(o).conds, Cells(rows[key])) && rows[key] == row;
      var id := FromText(key).value;
      assert rows[ToText(id)] == RowOf(m[id]);
      assert m[id] in acc;
    }
    if r :| r in acc && RowOf(r) == row {
      var id :| id in m && Accepts(f, m[id]) && m[id] == r;
      assert rows[ToText(id)] == row;
    }
  }

  /** Rows are ordered as their readings are: device identifiers compare as text as they do as numbers. */
  lemma CellOrder(sortBy: SortBy, a: SensorReading, b: SensorReading)
    requires AsStored(a) == a && AsStored(b) == b
    ensures Leq(CellOf(SortColumn(sortBy))(RowOf(a)), CellOf(SortColumn(sortBy))(RowOf(b))) <==>
              KeyOf(sortBy)(a) <= KeyOf(sortBy)(b)
  {
    hide ToText;
    match sortBy {
      case ByTimestamp =>
        assert Cells(RowOf(a))(TimestampCol) == Int(AsSecond(a.timestamp));
        assert Cells(RowOf(b))(TimestampCol) == Int(AsSecond(b.timestamp));
        assert a.timestamp == FromSecond(AsSecond(a.timestamp)) && b.timestamp == FromSecond(AsSecond(b.timestamp));
      case ByConfidence =>
        assert Cells(RowOf(a))(ConfidenceCol) == Int(a.confidence);
        assert Cells(RowOf(b))(ConfidenceCol) == Int(b.confidence);
      case ByDeviceId =>
        assert Cells(RowOf(a))(DeviceIdCol) == Text(ToText(a.deviceId));
        assert Cells(RowOf(b))(DeviceIdCol) == Text(ToText(b.deviceId));
        TextPreservesOrder(b.deviceId, a.deviceId);
    }
  }

  lemma SidesMatch(rows: map<string, ReadingRow>, m: Readings, o: ListOptions)
    requires Mirrors(rows, m)
    requires forall id <- m :: AsStored(m[id]) == m[id]
    requires ReadAlike(o.filter)
    ensures Matching(BothSides(rows, m, o))
  {
    hide Mirrors, RowOf, Accepted, Selected, AsStored, KeyOf, CellOf, Leq, ReadAlike, Compiled;
    var v := BothSides(rows, m, o);
    MirroredIsKeyed(rows, m);
    AcceptedAreStored(m, o.filter);
    forall row ensures row in v.selected <==> exists r <- v.accepted :: RowOf(r) == row {
      SelectedExactly(rows, m, o, row);
    }
    forall row ensures !v.cell(row).Null? {
      NeverNull(SortColumn(o.sortBy), row);
    }
    forall a, b | a in v.accepted && b in v.accepted
      ensures RowOf(a) == RowOf(b) ==> a == b
      ensures Leq(v.cell(RowOf(a)), v.cell(RowOf(b))) <==> v.key(a) <= v.key(b)
    {
      RowNamesReading(a, b);
      CellOrder(o.sortBy, a, b);
    }
  }

  lemma NeverNull(col: Column, row: ReadingRow)
    ensures !CellOf(col)(row).Null?
  {
    assert CellOf(col)(row) == Cells(row)(col);
  }

  lemma AcceptedAreStored(m: Readings, f: ReadingFilter)
    requires Keyed(m) && forall id <- m :: AsStored(m[id]) == m[id]
    ensures forall r <- Accepted(m, f) :: AsStored(r) == r && r.id in m && m[r.id] == r
  {
  }

  lemma MirroredIsKeyed(rows: map<string, ReadingRow>, m: Readings)
    requires Mirrors(rows, m)
    ensures Keyed(m)
  {
  }

  /** Any answer of the database, read back, is any result of the in-memory registry. */
  ghost predicate AlwaysAgree(rows: map<string, ReadingRow>, m: Readings, o: ListOptions) {
    forall answer, result | IsSqlList(rows, Compiled(o), answer) && IsMemoryList(m, o, result) ::
      ReadAll(ReadingAt, answer) == Some(result)
  }

  /** For a filter both backends read alike, whole-second times and offset pages, and whatever the order
      of rows and of hash map entries: the two backends always give the same list if and only if no
      reading the page shows ties with another accepted one in the sort key. */
  lemma ListsAgreeExactly(rows: map<string, ReadingRow>, m: Readings, o: ListOptions, all: seq<SensorReading>)
    requires Mirrors(rows, m)
    requires forall id <- m :: AsStored(m[id]) == m[id]
    requires ReadAlike(o.filter)
    requires o.pagination.AtOffset? && o.pagination.offset < 0x8000_0000_0000_0000 && |m| < 0x8000_0000_0000_0000
    requires SortedList(Accepted(m, o.filter), KeyOf(o.sortBy), o.descending, all)
    ensures AlwaysAgree(rows, m, o) <==> NoTiesShown(all, KeyOf(o.sortBy), o.pagination)
  {
    hide Matching, NoTiesShown, IsAnswer, IsPage, Mirrors, RowOf, ReadingAt, Accepted, Selected, AsStored, KeyOf,
         CellOf, ReadAlike, ReadAll, SortedList;
    var v := BothSides(rows, m, o);
    SidesMatch(rows, m, o);
    MirroredIsKeyed(rows, m);
    AcceptedCounts(m, o.filter);
    AcceptedAreStored(m, o.filter);
    forall r | r in v.accepted ensures ReadingAt(RowOf(r)) == Some(r) {
      RowRoundTrip(r);
    }
    AgreeExactly(v, o.descending, IdOf(), o.pagination, ReadingAt, all);
  }

  lemma AcceptedCounts(m: Readings, f: ReadingFilter)
    requires Keyed(m)
    ensures |Accepted(m, f)| == |AcceptedIds(m, f)| <= |m|
  {
    hide Accepts;
    ImageCounts(m, IdOf(), AcceptedIds(m, f));
    assert Accepted(m, f) == set id | id in AcceptedIds(m, f) :: m[id];
  }

  /** The database has an answer to every such query. */
  lemma AnswerExists(rows: map<string, ReadingRow>, m: Readings, o: ListOptions, xs: seq<SensorReading>)
    returns (answer: seq<ReadingRow>)
    requires Mirrors(rows, m)
    requires forall id <- m :: AsStored(m[id]) == m[id]
    requires ReadAlike(o.filter)
    requires Enumerates(xs, Accepted(m, o.filter))
    ensures IsSqlList(rows, Compiled(o), answer)
  {
    SidesMatch(rows, m, o);
    hide Matching, IsAnswer, Mirrors, RowOf, Accepted, Selected, KeyOf, CellOf, ReadAlike, Enumerates;
    answer := SomeAnswer(BothSides(rows, m, o), o.descending, o.pagination, xs);
  }

  // ----- counts -----

  ghost function SelectedKeys(rows: map<string, ReadingRow>, q: Query<Column>): set<string> {
    set key | key in rows && Keeps(q.conds, Cells(rows[key]))
  }

  /** SELECT COUNT(*) counts what the in-memory registry counts, with or without a filter. */
  lemma CountsAgree(rows: map<string, ReadingRow>, m: Readings, f: Option<ReadingFilter>)
    requires Mirrors(rows, m)
    requires forall id <- m :: AsStored(m[id]) == m[id]
    requires f.Some? ==> ReadAlike(f.value)
    ensures |SelectedKeys(rows, CompiledCount(f))| == if f.Some? then |AcceptedIds(m, f.value)| else |m|
  {
    hide ToText, FromText, RowOf, Cells, Accepts, SqlView, AsStored, ReadAlike, ListConds, ValueConds, Keeps;
    var keys := SelectedKeys(rows, CompiledCount(f));
    var ids := if f.Some? then AcceptedIds(m, f.value) else m.Keys;
    forall id | id in m ensures ToText(id) in keys <==> id in ids {
      if f.Some? {
        QueryKeepsExactly(f.value, m[id]);
        AgreesWhenExact(f.value, m[id]);
      } else {
        KeepsIffAll([], Cells(RowOf(m[id])));
      }
    }
    SameSize(ids, keys);
  }

  /** The same from the beginning: whatever whole-second readings were stored, in both registries. */
  lemma AgreeAfterStores(rs: seq<SensorReading>, o: ListOptions, all: seq<SensorReading>)
    requires forall r <- rs :: AsStored(r) == r
    requires ReadAlike(o.filter)
    requires o.pagination.AtOffset? && o.pagination.offset < 0x8000_0000_0000_0000
    requires |PutAll(map[], rs)| < 0x8000_0000_0000_0000
    requires SortedList(Accepted(PutAll(map[], rs), o.filter), KeyOf(o.sortBy), o.descending, all)
    ensures AlwaysAgree(StoredAll(map[], rs), PutAll(map[], rs), o) <==> NoTiesShown(all, KeyOf(o.sortBy), o.pagination)
    ensures |SelectedKeys(StoredAll(map[], rs), CompiledCount(Some(o.filter)))|
         == |AcceptedIds(PutAll(map[], rs), o.filter)| == |all|
  {
    hide Mirrors, AsStored, ReadAlike, NoTiesShown, AlwaysAgree, SelectedKeys, AcceptedIds, Compiled, CompiledCount,
         StoredAll, PutAll, Accepted, KeyOf, Sorted;
    AnyStoresMirror(rs);
    var m := PutAll(map[], rs);
    ListsAgreeExactly(StoredAll(map[], rs), m, o, all);
    CountsAgree(StoredAll(map[], rs), m, Some(o.filter));
    MirroredIsKeyed(StoredAll(map[], rs), m);
    AcceptedCounts(m, o.filter);
    EnumerationCounts(all, Accepted(m, o.filter));
  }

  /** Over an unchanged map the offset pages are the whole list, which is as long as the count says,
      and a cursor walk from any of its readings visits the rest. */
  lemma ReadingPages(m: Readings, o: ListOptions, xs: seq<SensorReading>, limit: nat)
    requires Keyed(m) && Enumerates(xs, Accepted(m, o.filter)) && limit > 0
    ensures var all := StableSort(xs, KeyOrder(KeyOf(o.sortBy), o.descending));
            && |all| == |AcceptedIds(m, o.filter)|
            && Pages(all, 0, limit) == all
            && forall k :: 0 <= k < |all| ==> Walk(all, IdOf(), Some(all[k].id), limit, |all|) == all[k + 1..]
  {
    AcceptedCounts(m, o.filter);
    assert forall r <- Accepted(m, o.filter) :: m[r.id] == r;
    KeyOrderIsTotal(KeyOf(o.sortBy), o.descending);
    hide Accepted, StableSort, Walk, Pages, Enumerates, Total;
    PagesVisitEachOnce(Accepted(m, o.filter), xs, KeyOrder(KeyOf(o.sortBy), o.descending), IdOf(), limit);
  }

  /** In which order a list comes: by the field asked for, upwards or downwards, ties in any order. */
  ghost predicate InOrder(o: ListOptions, rs: seq<SensorReading>) {
    forall i, j :: 0 <= i < j < |rs| ==>
      var (a, b) := if o.descending then (rs[j], rs[i]) else (rs[i], rs[j]);
      && (o.sortBy.ByTimestamp? ==> a.timestamp <= b.timestamp)
      && (o.sortBy.ByConfidence? ==> a.confidence <= b.confidence)
      && (o.sortBy.ByDeviceId? ==> a.deviceId <= b.deviceId)
  }

  /** A page of any pagination is in order and holds accepted readings of the map only, none twice. */
  lemma PageIsInOrder(m: Readings, o: ListOptions, result: seq<SensorReading>)
    requires Keyed(m) && IsMemoryList(m, o, result)
    ensures InOrder(o, result)
    ensures forall r <- result :: r.id in m && m[r.id] == r && Accepts(o.filter, r)
    ensures forall i, j :: 0 <= i < j < |result| ==> result[i].id != result[j].id
  {
    hide Accepts, IsPage;
    PageInOrder(Accepted(m, o.filter), KeyOf(o.sortBy), o.descending, IdOf(), o.pagination, result);
    assert forall r <- result :: r.id in m && m[r.id] == r;
  }
}
