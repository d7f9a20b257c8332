/**
 Lists of statuses: the in-memory registry against the compiled SQL, where DISTINCT collapses
 the joined rows of a status before the order and the window apply.
 */
module StatusLists {
  import opened Core
  import opened Sql
  import opened UlidText
  import opened Filters
  import opened Paging
  import opened Listing
  import opened StatusFilters
  import opened StatusTables
  import opened StatusMemory

  function SortColumn(sortBy: SortBy): Column {
    match sortBy
    case ByTimestamp => TimestampCol
    case ByBattery => BatteryCol
    case ByDeviceId => DeviceIdCol
  }

  function CompiledList(o: ListOptions): Query<Column> {
    Query(NeedsErrorJoin(o.filter), PlainConds(o.filter) + ErrorConds(o.filter),
          Some((SortColumn(o.sortBy), o.descending)), Some(WindowOf(o.pagination)))
  }

  /** Builds the query of a list; what it pushed parses to exactly the query meant. */
  method BuildList(o: ListOptions) returns (qb: QueryBuilder<Column>)
    ensures fresh(qb)
    ensures Parse(qb.sql) == Some(CompiledList(o))
  {
    hide PlainConds, ErrorConds, Clause, Parse, Tail, NeedsErrorJoin, Head;
    qb := new QueryBuilder();
    FilterStatuses(qb, o.filter);
    ghost var q := CompiledList(o);
    assert qb.sql == Head(q.join) + Clause(q.conds);
    PushOrderAndPage(qb, SortColumn(o.sortBy), o.descending, o.pagination);
    ParseOfParts(q.join, q.conds, q.order, q.window);
  }

  // ----- what the query answers -----

  /** SELECT DISTINCT of the columns of a status: one row, however many of its joined rows are kept. */
  ghost function SelectedRows(db: Db, q: Query<Column>): set<StatusRow> {
    set key | key in SelectedKeys(db, q) :: db.statuses[key]
  }

  function CellOf(col: Column): StatusRow -> Value {
    (row: StatusRow) => Cells(Joined(row, None))(col)
  }

  // ----- the join, row by row -----

  function ErrorsFor(rows: seq<ErrorRow>, key: string): seq<ErrorRow> {
    if rows == [] then [] else (if rows[0].statusId == key then [rows[0]] else []) + ErrorsFor(rows[1..], key)
  }

  /** The rows a status gives in FROM: one per error, or one with NULLs if it has none. */
  function JoinRows(errors: seq<ErrorRow>, join: bool, key: string, row: StatusRow): seq<Joined> {
    if join && ErrorsFor(errors, key) != [] then Mapped((e: ErrorRow) => Joined(row, Some(e)), ErrorsFor(errors, key))
    else [Joined(row, None)]
  }

  function KeptRows(q: Query<Column>, js: seq<Joined>): seq<Joined> {
    if js == [] then [] else (if Keeps(q.conds, Cells(js[0])) then [js[0]] else []) + KeptRows(q, js[1..])
  }

  function StatusOf(): Joined -> StatusRow {
    (j: Joined) => j.status
  }

  /** What SELECT finds before DISTINCT, with the statuses in some order of the table. */
  function Found(db: Db, q: Query<Column>, keys: seq<string>): seq<StatusRow>
    requires forall key <- keys :: key in db.statuses
  {
    if keys == [] then []
    else
      var n := |keys| - 1;
      Found(db, q, keys[..n])
      + Mapped(StatusOf(), KeptRows(q, JoinRows(db.errors, q.join, keys[n], db.statuses[keys[n]])))
  }

  function Distinct<T(==)>(xs: seq<T>): seq<T> {
    if xs == [] then []
    else
      var n := |xs| - 1;
      Distinct(xs[..n]) + (if xs[n] in xs[..n] then [] else [xs[n]])
  }

  lemma {:induction false} DistinctEnumerates<T(!new)>(xs: seq<T>)
    ensures forall x :: x in Distinct(xs) <==> x in xs
    ensures forall i, j :: 0 <= i < j < |Distinct(xs)| ==> Distinct(xs)[i] != Distinct(xs)[j]
    decreases |xs|
  {
    if xs != [] {
      var n := |xs| - 1;
      DistinctEnumerates(xs[..n]);
      assert xs == xs[..n] + [xs[n]];
    }
  }

  lemma {:induction false} ErrorsForExactly(rows: seq<ErrorRow>, key: string)
    ensures forall e :: e in ErrorsFor(rows, key) <==> e in rows && e.statusId == key
    ensures ErrorsAt(rows, key).Some? ==> |ErrorsFor(rows, key)| == |ErrorsAt(rows, key).value|
    decreases |rows|
  {
    if rows != [] {
      ErrorsForExactly(rows[1..], key);
      assert rows == [rows[0]] + rows[1..];
    }
  }

  lemma JoinRowsExactly(db: Db, join: bool, key: string, row: StatusRow, j: Joined)
    requires key in db.statuses
    ensures j in JoinRows(db.errors, join, key, row) <==> j.status == row && InFrom(db, join, key, j.error)
  {
    var es := ErrorsFor(db.errors, key);
    ErrorsForExactly(db.errors, key);
    assert es != [] ==> es[0] in es;
    if join && es != [] && j.error.Some? && j.error.value in es {
      var i :| 0 <= i < |es| && es[i] == j.error.value;
      assert JoinRows(db.errors, join, key, row)[i] == Joined(row, Some(es[i]));
    }
  }

  lemma {:induction false} KeptRowsExactly(q: Query<Column>, js: seq<Joined>, j: Joined)
    ensures j in KeptRows(q, js) <==> j in js && Keeps(q.conds, Cells(j))
    decreases |js|
  {
    hide Keeps, Cells;
    if js != [] {
      KeptRowsExactly(q, js[1..], j);
      assert js == [js[0]] + js[1..];
    }
  }

  /** A status is among what one key gives if and only if the key is selected, and it is that key's row. */
  lemma FoundAtKey(db: Db, q: Query<Column>, key: string, row: StatusRow)
    requires key in db.statuses
    ensures row in Mapped(StatusOf(), KeptRows(q, JoinRows(db.errors, q.join, key, db.statuses[key])))
            <==> key in SelectedKeys(db, q) && row == db.statuses[key]
  {
    hide Keeps, Cells, InFrom, JoinRows;
    var js := JoinRows(db.errors, q.join, key, db.statuses[key]);
    var kept := KeptRows(q, js);
    forall j ensures j in kept <==> j.status == db.statuses[key] && Kept(db, q, key, j.error) {
      KeptRowsExactly(q, js, j);
      JoinRowsExactly(db, q.join, key, db.statuses[key], j);
      assert j == Joined(j.status, j.error);
    }
    if key in SelectedKeys(db, q) {
      var error :| Kept(db, q, key, error);
      var j := Joined(db.statuses[key], error);
      assert j in kept;
      var i :| 0 <= i < |kept| && kept[i] == j;
      assert Mapped(StatusOf(), kept)[i] == db.statuses[key];
    }
    if row in Mapped(StatusOf(), kept) {
      var i :| 0 <= i < |kept| && Mapped(StatusOf(), kept)[i] == row;
      assert kept[i] in kept;
    }
  }

  lemma {:induction false} FoundExactly(db: Db, q: Query<Column>, keys: seq<string>, row: StatusRow)
    requires forall key <- keys :: key in db.statuses
    ensures row in Found(db, q, keys) <==> exists key <- keys :: key in SelectedKeys(db, q) && row == db.statuses[key]
    decreases |keys|
  {
    hide SelectedKeys, KeptRows, JoinRows, Mapped;
    if keys != [] {
      var n := |keys| - 1;
      FoundExactly(db, q, keys[..n], row);
      FoundAtKey(db, q, keys[n], row);
      assert keys == keys[..n] + [keys[n]];
    }
  }

  /** Before DISTINCT a status is found once per kept joined row, and so once per error if no condition
      is on errors; afterwards it is there once if it is selected, and not otherwise. */
  lemma DistinctCollapsesJoin(db: Db, q: Query<Column>, keys: seq<string>)
    requires Enumerates(keys, db.statuses.Keys)
    ensures Enumerates(Distinct(Found(db, q, keys)), SelectedRows(db, q))
  {
    hide SelectedKeys, Found;
    DistinctEnumerates(Found(db, q, keys));
    forall row ensures row in Found(db, q, keys) <==> row in SelectedRows(db, q) {
      FoundExactly(db, q, keys, row);
      assert forall key <- SelectedKeys(db, q) :: key in keys by {
        SelectedAreKeys(db, q);
      }
    }
  }

  lemma SelectedAreKeys(db: Db, q: Query<Column>)
    ensures SelectedKeys(db, q) <= db.statuses.Keys
  {
  }

  lemma JoinCounts(db: Db, m: Statuses, id: Id)
    requires Mirrors(db, m) && id in m
    ensures |JoinRows(db.errors, true, ToText(id), RowOf(m[id]))| == if m[id].errors == [] then 1 else |m[id].errors|
  {
    hide ToText, RowOf, Mirrors;
    MirrorAt(db, m, id);
    ErrorsForExactly(db.errors, ToText(id));
  }

  /** Each row of the table names its key, as every stored one does. */
  ghost predicate RowsName(db: Db) {
    forall key <- db.statuses :: db.statuses[key].id == key
  }

  /** How often a status is found before DISTINCT: once per joined row of it that is kept. */
  lemma {:induction false} FoundCounts(db: Db, q: Query<Column>, keys: seq<string>, key: string)
    requires RowsName(db) && key in db.statuses && (forall k <- keys :: k in db.statuses)
    requires forall i, j :: 0 <= i < j < |keys| ==> keys[i] != keys[j]
    ensures multiset(Found(db, q, keys))[db.statuses[key]] ==
            if key in keys then |KeptRows(q, JoinRows(db.errors, q.join, key, db.statuses[key]))| else 0
    decreases |keys|
  {
    hide KeptRows, JoinRows;
    if keys != [] {
      var n := |keys| - 1;
      FoundCounts(db, q, keys[..n], key);
      AllOneStatus(db, q, keys[n], db.statuses[key]);
      assert keys == keys[..n] + [keys[n]];
      assert key in keys[..n] ==> key != keys[n];
    }
  }

  lemma AllOneStatus(db: Db, q: Query<Column>, key: string, row: StatusRow)
    requires key in db.statuses
    ensures var kept := KeptRows(q, JoinRows(db.errors, q.join, key, db.statuses[key]));
            multiset(Mapped(StatusOf(), kept))[row] == if row == db.statuses[key] then |kept| else 0
  {
    hide Keeps, Cells, InFrom, JoinRows;
    var js := JoinRows(db.errors, q.join, key, db.statuses[key]);
    var kept := KeptRows(q, js);
    forall j | j in kept ensures j.status == db.statuses[key] {
      KeptRowsExactly(q, js, j);
      JoinRowsExactly(db, q.join, key, db.statuses[key], j);
    }
    AllTheSame(Mapped(StatusOf(), kept), db.statuses[key], row);
  }

  lemma {:induction false} AllTheSame<T(!new)>(xs: seq<T>, x: T, y: T)
    requires forall i :: 0 <= i < |xs| ==> xs[i] == x
    ensures multiset(xs)[y] == if y == x then |xs| else 0
    decreases |xs|
  {
    if xs != [] {
      AllTheSame(xs[1..], x, y);
      assert xs == [xs[0]] + xs[1..];
    }
  }

  lemma {:induction false} AllOrNone(q: Query<Column>, js: seq<Joined>, kept: bool)
    requires forall j <- js :: Keeps(q.conds, Cells(j)) <==> kept
    ensures KeptRows(q, js) == if kept then js else []
    decreases |js|
  {
    hide Keeps, Cells;
    if js != [] {
      assert js[0] in js && forall j <- js[1..] :: j in js;
      AllOrNone(q, js[1..], kept);
      assert js == [js[0]] + js[1..];
    }
  }

  lemma MirroredRowsName(db: Db, m: Statuses)
    requires Mirrors(db, m)
    ensures RowsName(db)
  {
    hide ToText, FromText, RowOf;
    forall key | key in db.statuses ensures db.statuses[key].id == key {
      var id := KeyNames(db, m, key);
      MirrorAt(db, m, id);
      RowHasKey(m[id]);
    }
  }

  lemma RowHasKey(s: DeviceStatus)
    ensures RowOf(s).id == ToText(s.id)
  {
    hide ToText;
  }

  /** Why DISTINCT is needed: asked only for statuses that have errors, the join finds each of them as
      often as it has errors. */
  lemma FoundOncePerError(db: Db, m: Statuses, o: ListOptions, keys: seq<string>, id: Id)
    requires Mirrors(db, m) && Enumerates(keys, db.statuses.Keys) && id in m
    requires o.filter.hasErrors == Some(true) && !Lists(o.filter.errorCodes)
    requires AcceptsPlain(SqlView(o.filter), AsStored(m[id]))
    ensures multiset(Found(db, CompiledList(o), keys))[RowOf(m[id])] == |m[id].errors|
  {
    hide ToText, RowOf, Mirrors, AcceptsPlain, SqlView, AsStored, Keeps, Cells, ErrorsAt, SensorsAt, PlainConds,
         ErrorConds, Codes, ErrorsFor, KeptRows, Found;
    var f, q, key, row := o.filter, CompiledList(o), ToText(id), RowOf(m[id]);
    MirrorAt(db, m, id);
    MirroredRowsName(db, m);
    FoundCounts(db, q, keys, key);
    JoinCounts(db, m, id);
    ErrorsForExactly(db.errors, key);
    var js := JoinRows(db.errors, true, key, row);
    forall j | j in js ensures Keeps(q.conds, Cells(j)) <==> m[id].errors != [] {
      JoinRowsExactly(db, true, key, row, j);
      PlainCondsMean(f, m[id], j.error);
      ErrorCondsMean(f, row, j.error);
      KeepsAppend(PlainConds(f), ErrorConds(f), Cells(j));
      assert j == Joined(row, j.error);
    }
    AllOrNone(q, js, m[id].errors != []);
  }

  /** An answer: the statuses found, each once, in some order the ORDER BY allows, cut to the window. */
  ghost predicate IsSqlList(db: Db, q: Query<Column>, answer: seq<StatusRow>) {
    && q.order.Some? && q.window.Some?
    && exists keys, order :: Enumerates(keys, db.statuses.Keys) && IsAnswerFrom(db, q, keys, order, answer)
  }

  ghost predicate IsAnswerFrom(db: Db, q: Query<Column>, keys: seq<string>, order: seq<StatusRow>,
                               answer: seq<StatusRow>)
    requires q.order.Some? && q.window.Some? && Enumerates(keys, db.statuses.Keys)
  {
    && multiset(order) == multiset(Distinct(Found(db, q, keys)))
    && Sorted(order, ColumnOrder(CellOf(q.order.value.0), q.order.value.1))
    && answer == CutTo(order, q.window.value)
  }

  lemma {:induction false} SomeEnumeration<T(!new)>(s: set<T>) returns (xs: seq<T>)
    ensures Enumerates(xs, s)
    decreases |s|
  {
    if s == {} {
      return [];
    }
    var x :| x in s;
    var rest := SomeEnumeration(s - {x});
    xs := rest + [x];
  }

  /** So the database answers from the set of selected rows. */
  lemma SqlListsAreAnswers(db: Db, q: Query<Column>, answer: seq<StatusRow>)
    requires q.order.Some? && q.window.Some?
    ensures IsSqlList(db, q, answer) <==>
              IsAnswer(SelectedRows(db, q), CellOf(q.order.value.0), q.order.value.1, q.window.value, answer)
  {
    hide SelectedRows, CellOf, Found, Distinct, ColumnOrder, CutTo, Sorted;
    var cell, descending := CellOf(q.order.value.0), q.order.value.1;
    if keys, order :| Enumerates(keys, db.statuses.Keys) && IsAnswerFrom(db, q, keys, order, answer) {
      DistinctCollapsesJoin(db, q, keys);
      SortedEnumerates(Distinct(Found(db, q, keys)), order, SelectedRows(db, q));
    }
    if order :| Enumerates(order, SelectedRows(db, q)) && Sorted(order, ColumnOrder(cell, descending))
                && answer == CutTo(order, q.window.value) {
      var keys := SomeEnumeration(db.statuses.Keys);
      DistinctCollapsesJoin(db, q, keys);
      EnumerationCounts(order, SelectedRows(db, q));
      EnumerationCounts(Distinct(Found(db, q, keys)), SelectedRows(db, q));
      assert IsAnswerFrom(db, q, keys, order, answer);
    }
  }

  /** Each row of an answer is read back with the children that belong to its identifier. */
  function ReadOne(db: Db): StatusRow -> Option<DeviceStatus> {
    (row: StatusRow) => if row.id in db.statuses then StatusAt(db, row.id) else None
  }

  // ----- both sides -----

  ghost function BothSides(db: Db, m: Statuses, o: ListOptions): Sides<DeviceStatus, StatusRow> {
    Sides(Accepted(m, o.filter), SelectedRows(db, CompiledList(o)), RowOf, KeyOf(o.sortBy),
          CellOf(SortColumn(o.sortBy)))
  }

  lemma RowNamesStatus(a: DeviceStatus, b: DeviceStatus)
    ensures RowOf(a) == RowOf(b) ==> a.id == b.id
  {
    hide ToText;
    TextPreservesOrder(a.id, b.id);
  }

  /** Order and window do not change what a query selects. */
  lemma SameSelection(db: Db, o: ListOptions)
    ensures SelectedKeys(db, CompiledList(o)) == SelectedKeys(db, Compiled(o.filter))
  {
    hide Keeps, Cells, InFrom, PlainConds, ErrorConds, NeedsErrorJoin;
    assert forall key, error :: Kept(db, CompiledList(o), key, error) <==> Kept(db, Compiled(o.filter), key, error);
  }

  lemma KeySelected(db: Db, m: Statuses, o: ListOptions, id: Id)
    requires Mirrors(db, m) && id in m && AsStored(m[id]) == m[id] && ReadAlike(o.filter)
    ensures ToText(id) in db.statuses && db.statuses[ToText(id)] == RowOf(m[id])
    ensures ToText(id) in SelectedKeys(db, CompiledList(o)) <==> Accepts(o.filter, m[id])
  {
    hide ToText, RowOf, Accepts, SqlView, AsStored, ReadAlike, SelectedKeys, CompiledList, Compiled, Mirrors;
    MirrorAt(db, m, id);
    SameSelection(db, o);
    QuerySelectsExactly(db, m, o.filter, id);
    AgreesWhenExact(o.filter, m[id]);
  }

  lemma KeyNames(db: Db, m: Statuses, key: string) returns (id: Id)
    requires Mirrors(db, m) && key in db.statuses
    ensures id in m && key == ToText(id)
  {
    hide ToText, FromText;
    assert Named(m, key);
    id := FromText(key).value;
  }

  /** The selected rows are the rows of the accepted statuses. */
  lemma SelectedExactly(db: Db, m: Statuses, o: ListOptions, row: StatusRow)
    requires Mirrors(db, m)
    requires forall id <- m :: AsStored(m[id]) == m[id]
    requires ReadAlike(o.filter)
    ensures row in SelectedRows(db, CompiledList(o)) <==> exists s <- Accepted(m, o.filter) :: RowOf(s) == row
  {
    hide ToText, RowOf, Accepts, AsStored, ReadAlike, Mirrors, CompiledList, Kept;
    var q, acc := CompiledList(o), Accepted(m, o.filter);
    if row in SelectedRows(db, q) {
      var key :| key in SelectedKeys(db, q) && db.statuses[key] == row;
      var id := KeyNames(db, m, key);
      KeySelected(db, m, o, id);
      assert m[id] in acc;
    }
    if s :| s in acc && RowOf(s) == row {
      var id :| id in m && Accepts(o.filter, m[id]) && m[id] == s;
      KeySelected(db, m, o, id);
    }
  }

  lemma NeverNull(sortBy: SortBy, row: StatusRow)
    ensures !CellOf(SortColumn(sortBy))(row).Null?
  {
    var get := Cells(Joined(row, None));
    assert CellOf(SortColumn(sortBy))(row) == get(SortColumn(sortBy));
  }

  /** Rows are ordered as their statuses are. */
  lemma CellOrder(sortBy: SortBy, a: DeviceStatus, b: DeviceStatus)
    requires AsStored(a) == a && AsStored(b) == b
    ensures Leq(CellOf(SortColumn(sortBy))(RowOf(a)), CellOf(SortColumn(sortBy))(RowOf(b))) <==>
              KeyOf(sortBy)(a) <= KeyOf(sortBy)(b)
  {
    hide ToText, CutSensors;
    var getA, getB := Cells(Joined(RowOf(a), None)), Cells(Joined(RowOf(b), None));
    match sortBy {
      case ByTimestamp =>
        assert getA(TimestampCol) == Int(AsSecond(a.timestamp)) && getB(TimestampCol) == Int(AsSecond(b.timestamp));
        assert a.timestamp == FromSecond(AsSecond(a.timestamp)) && b.timestamp == FromSecond(AsSecond(b.timestamp));
      case ByBattery =>
        assert getA(BatteryCol) == Int(a.batteryPercent) && getB(BatteryCol) == Int(b.batteryPercent);
      case ByDeviceId =>
        assert getA(DeviceIdCol) == Text(ToText(a.deviceId)) && getB(DeviceIdCol) == Text(ToText(b.deviceId));
        TextPreservesOrder(b.deviceId, a.deviceId);
    }
  }

  lemma AcceptedAreStored(m: Statuses, f: StatusFilter)
    requires Keyed(m) && forall id <- m :: AsStored(m[id]) == m[id]
    ensures forall s <- Accepted(m, f) :: AsStored(s) == s && s.id in m && m[s.id] == s
  {
    hide Accepts;
  }

  lemma MirroredIsKeyed(db: Db, m: Statuses)
    requires Mirrors(db, m)
    ensures Keyed(m)
  {
  }

  lemma SidesMatch(db: Db, m: Statuses, o: ListOptions)
    requires Mirrors(db, m)
    requires forall id <- m :: AsStored(m[id]) == m[id]
    requires ReadAlike(o.filter)
    ensures Matching(BothSides(db, m, o))
  {
    hide Mirrors, RowOf, Accepted, SelectedRows, AsStored, KeyOf, CellOf, Leq, ReadAlike, CompiledList;
    var v := BothSides(db, m, o);
    MirroredIsKeyed(db, m);
    AcceptedAreStored(m, o.filter);
    forall row ensures row in v.selected <==> exists s <- v.accepted :: RowOf(s) == row {
      SelectedExactly(db, m, o, row);
    }
    forall row ensures !v.cell(row).Null? {
      NeverNull(o.sortBy, row);
    }
    forall a, b | a in v.accepted && b in v.accepted
      ensures RowOf(a) == RowOf(b) ==> a == b
      ensures Leq(v.cell(RowOf(a)), v.cell(RowOf(b))) <==> v.key(a) <= v.key(b)
    {
      RowNamesStatus(a, b);
      CellOrder(o.sortBy, a, b);
    }
  }

  lemma AcceptedCounts(m: Statuses, f: StatusFilter)
    requires Keyed(m)
    ensures |Accepted(m, f)| == |AcceptedIds(m, f)| <= |m|
  {
    hide Accepts;
    ImageCounts(m, IdOf(), AcceptedIds(m, f));
    assert Accepted(m, f) == set id | id in AcceptedIds(m, f) :: m[id];
  }

  lemma ReadsOne(db: Db, m: Statuses, s: DeviceStatus)
    requires Mirrors(db, m) && s.id in m && m[s.id] == s && AsStored(s) == s
    ensures ReadOne(db)(RowOf(s)) == Some(s)
  {
    hide ToText, FromText, Mirrors, StatusAt, AsStored;
    StatusRoundTrip(db, m, s.id);
    assert RowOf(s).id == ToText(s.id);
  }

  /** Any answer of the database, each row read back with its children, is any result of the in-memory
      registry. */
  ghost predicate AlwaysAgree(db: Db, m: Statuses, o: ListOptions) {
    forall answer, result | IsSqlList(db, CompiledList(o), answer) && IsMemoryList(m, o, result) ::
      ReadAll(ReadOne(db), answer) == Some(result)
  }

  /** For a filter both backends read alike, whole-second times and offset pages: the two backends always
      give the same list of statuses if and only if no status the page shows ties with another accepted
      one in the sort key. */
  lemma ListsAgreeExactly(db: Db, m: Statuses, o: ListOptions, all: seq<DeviceStatus>)
    requires Mirrors(db, m)
    requires forall id <- m :: AsStored(m[id]) == m[id]
    requires ReadAlike(o.filter)
    requires o.pagination.AtOffset? && o.pagination.offset < 0x8000_0000_0000_0000 && |m| < 0x8000_0000_0000_0000
    requires SortedList(Accepted(m, o.filter), KeyOf(o.sortBy), o.descending, all)
    ensures AlwaysAgree(db, m, o) <==> NoTiesShown(all, KeyOf(o.sortBy), o.pagination)
  {
    hide Matching, NoTiesShown, IsAnswer, IsPage, IsSqlList, Mirrors, RowOf, ReadOne, Accepted, SelectedRows,
         AsStored, KeyOf, CellOf, ReadAlike, ReadAll, SortedList;
    var v := BothSides(db, m, o);
    SidesMatch(db, m, o);
    MirroredIsKeyed(db, m);
    AcceptedCounts(m, o.filter);
    AcceptedAreStored(m, o.filter);
    forall s | s in v.accepted ensures ReadOne(db)(RowOf(s)) == Some(s) {
      ReadsOne(db, m, s);
    }
    forall answer ensures IsSqlList(db, CompiledList(o), answer) <==>
                            IsAnswer(v.selected, v.cell, o.descending, WindowOf(o.pagination), answer)
    {
      SqlListsAreAnswers(db, CompiledList(o), answer);
    }
    AgreeExactly(v, o.descending, IdOf(), o.pagination, ReadOne(db), all);
  }

  /** The database has an answer to every such query. */
  lemma AnswerExists(db: Db, m: Statuses, o: ListOptions, xs: seq<DeviceStatus>) returns (answer: seq<StatusRow>)
    requires Mirrors(db, m)
    requires forall id <- m :: AsStored(m[id]) == m[id]
    requires ReadAlike(o.filter)
    requires Enumerates(xs, Accepted(m, o.filter))
    ensures IsSqlList(db, CompiledList(o), answer)
  {
    hide Matching, IsAnswer, IsSqlList, Mirrors, RowOf, Accepted, SelectedRows, KeyOf, CellOf, ReadAlike,
         Enumerates, AsStored;
    SidesMatch(db, m, o);
    answer := SomeAnswer(BothSides(db, m, o), o.descending, o.pagination, xs);
    SqlListsAreAnswers(db, CompiledList(o), answer);
  }

  /** The same from the beginning: whatever whole-second statuses were stored, in both registries. */
  lemma ListsAgreeAfterStores(ss: seq<DeviceStatus>, o: ListOptions, all: seq<DeviceStatus>)
    requires forall s <- ss :: AsStored(s) == s
    requires ReadAlike(o.filter)
    requires o.pagination.AtOffset? && o.pagination.offset < 0x8000_0000_0000_0000
    requires |PutAll(map[], ss)| < 0x8000_0000_0000_0000
    requires SortedList(Accepted(PutAll(map[], ss), o.filter), KeyOf(o.sortBy), o.descending, all)
    ensures AlwaysAgree(StoredAll(EMPTY, ss), PutAll(map[], ss), o) <==> NoTiesShown(all, KeyOf(o.sortBy), o.pagination)
  {
    hide Mirrors, AsStored, ReadAlike, NoTiesShown, AlwaysAgree, CompiledList, StoredAll, PutAll, Accepted,
         SortedList, KeyOf;
    AnyStoresMirror(ss);
    ListsAgreeExactly(StoredAll(EMPTY, ss), PutAll(map[], ss), o, all);
  }

  /** Over an unchanged map the offset pages are the whole list, which is as long as the count says,
      and a cursor walk from any of its statuses visits the rest. */
  lemma StatusPages(m: Statuses, o: ListOptions, xs: seq<DeviceStatus>, limit: nat)
    requires Keyed(m) && Enumerates(xs, Accepted(m, o.filter)) && limit > 0
    ensures var all := StableSort(xs, KeyOrder(KeyOf(o.sortBy), o.descending));
            && |all| == |AcceptedIds(m, o.filter)|
            && Pages(all, 0, limit) == all
            && forall k :: 0 <= k < |all| ==> Walk(all, IdOf(), Some(all[k].id), limit, |all|) == all[k + 1..]
  {
    AcceptedCounts(m, o.filter);
    assert forall s <- Accepted(m, o.filter) :: m[s.id] == s;
    KeyOrderIsTotal(KeyOf(o.sortBy), o.descending);
    hide Accepted, StableSort, Walk, Pages, Enumerates, Total;
    PagesVisitEachOnce(Accepted(m, o.filter), xs, KeyOrder(KeyOf(o.sortBy), o.descending), IdOf(), limit);
  }

  /** In which order a list comes: by the field asked for, upwards or downwards, ties in any order. */
  ghost predicate InOrder(o: ListOptions, ss: seq<DeviceStatus>) {
    forall i, j :: 0 <= i < j < |ss| ==>
      var (a, b) := if o.descending then (ss[j], ss[i]) else (ss[i], ss[j]);
      && (o.sortBy.ByTimestamp? ==> a.timestamp <= b.timestamp)
      && (o.sortBy.ByBattery? ==> a.batteryPercent <= b.batteryPercent)
      && (o.sortBy.ByDeviceId? ==> a.deviceId <= b.deviceId)
  }

  /** A page of any pagination is in order and holds accepted statuses of the map only, none twice. */
  lemma PageIsInOrder(m: Statuses, o: ListOptions, result: seq<DeviceStatus>)
    requires Keyed(m) && IsMemoryList(m, o, result)
    ensures InOrder(o, result)
    ensures forall s <- result :: s.id in m && m[s.id] == s && Accepts(o.filter, s)
    ensures forall i, j :: 0 <= i < j < |result| ==> result[i].id != result[j].id
  {
    hide Accepts, IsPage;
    PageInOrder(Accepted(m, o.filter), KeyOf(o.sortBy), o.descending, IdOf(), o.pagination, result);
    assert forall r <- result :: r.id in m && m[r.id] == r;
  }
}
