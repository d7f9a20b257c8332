/** Sorting and pagination as the in-memory registries do them, for records of any kind. */
module Paging {
  import opened Core
  import opened Postcard
  import opened Sql

  datatype Pagination = AtOffset(offset: U64, limit: U64) | AtCursor(after: Option<Id>, limit: U64)

  datatype QueryOptions<F, S> = QueryOptions(filter: F, sortBy: S, descending: bool, pagination: Pagination)

  // ----- pages -----

  function Skip<T>(xs: seq<T>, n: nat): seq<T> {
    if n >= |xs| then [] else xs[n..]
  }

  function Take<T>(xs: seq<T>, n: nat): seq<T> {
    if n >= |xs| then xs else xs[..n]
  }

  function OffsetPage<T>(xs: seq<T>, offset: nat, limit: nat): seq<T> {
    Take(Skip(xs, offset), limit)
  }

  function SkipWhileNot<T>(xs: seq<T>, idOf: T -> Id, id: Id): seq<T> {
    if xs == [] || idOf(xs[0]) == id then xs else SkipWhileNot(xs[1..], idOf, id)
  }

  /** The page after the record with this identifier; without one, or for an unknown one, nothing. */
  function CursorPage<T>(xs: seq<T>, idOf: T -> Id, after: Option<Id>, limit: nat): seq<T> {
    match after
    case Some(id) => Take(Skip(SkipWhileNot(xs, idOf, id), 1), limit)
    case None => []
  }

  function Page<T>(xs: seq<T>, idOf: T -> Id, p: Pagination): seq<T> {
    match p
    case AtOffset(offset, limit) => OffsetPage(xs, offset, limit)
    case AtCursor(after, limit) => CursorPage(xs, idOf, after, limit)
  }

  /** Pages from `from` on, one after another. */
  function Pages<T>(xs: seq<T>, from: nat, limit: nat): seq<T>
    requires limit > 0
    decreases if from < |xs| then |xs| - from else 0
  {
    if from >= |xs| then [] else OffsetPage(xs, from, limit) + Pages(xs, from + limit, limit)
  }

  /** Offset pages of any positive limit partition the list. */
  lemma {:induction false} OffsetPagesPartition<T>(xs: seq<T>, from: nat, limit: nat)
    requires limit > 0
    ensures Pages(xs, from, limit) == Skip(xs, from)
    decreases if from < |xs| then |xs| - from else 0
  {
    if from < |xs| {
      OffsetPagesPartition(xs, from + limit, limit);
      assert OffsetPage(xs, from, limit) + Skip(xs, from + limit) == Skip(xs, from);
    }
  }

  ghost predicate DistinctIds<T>(xs: seq<T>, idOf: T -> Id) {
    forall i, j :: 0 <= i < j < |xs| ==> idOf(xs[i]) != idOf(xs[j])
  }

  lemma {:induction false} SkipToRecord<T>(xs: seq<T>, idOf: T -> Id, k: nat)
    requires DistinctIds(xs, idOf) && k < |xs|
    ensures SkipWhileNot(xs, idOf, idOf(xs[k])) == xs[k..]
    decreases k
  {
    if k > 0 {
      assert idOf(xs[0]) != idOf(xs[k]);
      assert xs[1..][k - 1] == xs[k];
      SkipToRecord(xs[1..], idOf, k - 1);
    }
  }

  /** Walking by cursor: ask for the page after a record, then for the page after the last one got. */
  function Walk<T>(xs: seq<T>, idOf: T -> Id, after: Option<Id>, limit: nat, rounds: nat): seq<T>
    decreases rounds
  {
    var page := CursorPage(xs, idOf, after, limit);
    if page == [] || rounds == 0 then page
    else page + Walk(xs, idOf, Some(idOf(page[|page| - 1])), limit, rounds - 1)
  }

  /** A walk of enough rounds from any record enumerates exactly the rest, each record once. */
  lemma {:induction false} CursorWalkEnumerates<T>(xs: seq<T>, idOf: T -> Id, k: nat, limit: nat, rounds: nat)
    requires DistinctIds(xs, idOf) && k < |xs| && limit > 0
    requires rounds >= |xs| - k
    ensures Walk(xs, idOf, Some(idOf(xs[k])), limit, rounds) == xs[k + 1..]
    decreases rounds
  {
    SkipToRecord(xs, idOf, k);
    assert Skip(xs[k..], 1) == xs[k + 1..];
    var page := CursorPage(xs, idOf, Some(idOf(xs[k])), limit);
    if page != [] {
      assert page == xs[k + 1..k + 1 + |page|];
      CursorWalkEnumerates(xs, idOf, k + |page|, limit, rounds - 1);
    }
  }

  /** Without a cursor, or with one of no record in the list, a page is empty. */
  lemma {:induction false} CursorNeedsARecord<T>(xs: seq<T>, idOf: T -> Id, after: Option<Id>, limit: nat)
    requires after.Some? ==> forall x <- xs :: idOf(x) != after.value
    ensures CursorPage(xs, idOf, after, limit) == []
    decreases |xs|
  {
    if after.Some? && xs != [] {
      assert xs[0] in xs;
      assert forall x <- xs[1..] :: x in xs;
      CursorNeedsARecord(xs[1..], idOf, after, limit);
    }
  }

  ghost predicate StartsAt<T>(xs: seq<T>, idOf: T -> Id, after: Option<Id>, k: nat) {
    k < |xs| && after == Some(idOf(xs[k]))
  }

  /** What a caller who has seen the list up to the cursor has not seen: everything, if the cursor is
      missing or names no record of the list. */
  ghost function Unseen<T>(xs: seq<T>, idOf: T -> Id, after: Option<Id>): seq<T> {
    if k: nat :| StartsAt(xs, idOf, after, k) then xs[k + 1..] else xs
  }

  /** A walk gives what its caller has not seen if and only if it starts from a record of the list,
      or the list is empty. */
  lemma CursorWalkExactly<T>(xs: seq<T>, idOf: T -> Id, after: Option<Id>, limit: nat, rounds: nat)
    requires DistinctIds(xs, idOf) && limit > 0 && rounds >= |xs|
    ensures Walk(xs, idOf, after, limit, rounds) == Unseen(xs, idOf, after)
            <==> (exists k: nat :: StartsAt(xs, idOf, after, k)) || xs == []
  {
    if k: nat :| StartsAt(xs, idOf, after, k) {
      CursorWalkEnumerates(xs, idOf, k, limit, rounds);
    } else {
      forall x | x in xs ensures after.Some? ==> idOf(x) != after.value {
        var k :| 0 <= k < |xs| && xs[k] == x;
        assert !StartsAt(xs, idOf, after, k);
      }
      CursorNeedsARecord(xs, idOf, after, limit);
    }
  }

  lemma {:induction false} SkipWhileNotIsSuffix<T>(xs: seq<T>, idOf: T -> Id, id: Id) returns (from: nat)
    ensures from <= |xs| && SkipWhileNot(xs, idOf, id) == xs[from..]
    decreases |xs|
  {
    if xs == [] || idOf(xs[0]) == id {
      return 0;
    }
    from := SkipWhileNotIsSuffix(xs[1..], idOf, id);
    assert xs[1..][from..] == xs[from + 1..];
    from := from + 1;
  }

  /** Every page is a run of consecutive records of the list, at most as many as the limit. */
  lemma PageIsSlice<T>(xs: seq<T>, idOf: T -> Id, p: Pagination) returns (from: nat)
    ensures var page := Page(xs, idOf, p);
            |page| <= p.limit && from + |page| <= |xs| && page == xs[from..from + |page|]
  {
    match p {
      case AtOffset(offset, limit) =>
        from := if offset < |xs| then offset else |xs|;
      case AtCursor(after, limit) =>
        from := 0;
        if after.Some? {
          from := SkipWhileNotIsSuffix(xs, idOf, after.value);
          from := if from < |xs| then from + 1 else from;
        }
    }
  }

  // ----- sorting -----

  /** Stable insertion of x before the first record that must not come earlier. */
  function Insert<T>(x: T, xs: seq<T>, le: (T, T) -> bool): seq<T> {
    if xs == [] || le(x, xs[0]) then [x] + xs else [xs[0]] + Insert(x, xs[1..], le)
  }

  function StableSort<T>(xs: seq<T>, le: (T, T) -> bool): seq<T> {
    if xs == [] then [] else Insert(xs[0], StableSort(xs[1..], le), le)
  }

  ghost predicate Total<T(!new)>(le: (T, T) -> bool) {
    && (forall x, y :: le(x, y) || le(y, x))
    && (forall x, y, z :: le(x, y) && le(y, z) ==> le(x, z))
  }

  ghost predicate Sorted<T>(xs: seq<T>, le: (T, T) -> bool) {
    forall i, j :: 0 <= i < j < |xs| ==> le(xs[i], xs[j])
  }

  lemma {:induction false} InsertKeeps<T>(x: T, xs: seq<T>, le: (T, T) -> bool)
    ensures multiset(Insert(x, xs, le)) == multiset([x] + xs)
    decreases |xs|
  {
    if xs != [] && !le(x, xs[0]) {
      InsertKeeps(x, xs[1..], le);
      assert xs == [xs[0]] + xs[1..];
    }
  }

  lemma {:induction false} InsertSorts<T(!new)>(x: T, xs: seq<T>, le: (T, T) -> bool)
    requires Total(le) && Sorted(xs, le)
    ensures Sorted(Insert(x, xs, le), le)
    decreases |xs|
  {
    if xs != [] && !le(x, xs[0]) {
      InsertSorts(x, xs[1..], le);
      InsertKeeps(x, xs[1..], le);
      var rest := Insert(x, xs[1..], le);
      forall y | y in rest ensures le(xs[0], y) {
        assert y in multiset(rest);
        assert y == x || y in xs[1..];
      }
    }
  }

  /** Sorting orders the list and keeps every record as often as it was there. */
  lemma {:induction false} StableSortSorts<T(!new)>(xs: seq<T>, le: (T, T) -> bool)
    requires Total(le)
    ensures Sorted(StableSort(xs, le), le)
    ensures multiset(StableSort(xs, le)) == multiset(xs)
    decreases |xs|
  {
    if xs != [] {
      StableSortSorts(xs[1..], le);
      InsertSorts(xs[0], StableSort(xs[1..], le), le);
      InsertKeeps(xs[0], StableSort(xs[1..], le), le);
      assert xs == [xs[0]] + xs[1..];
    }
  }

  /** The records of xs that tie with z, in their order. */
  function Ties<T>(xs: seq<T>, le: (T, T) -> bool, z: T): seq<T> {
    if xs == [] then []
    else (if le(xs[0], z) && le(z, xs[0]) then [xs[0]] else []) + Ties(xs[1..], le, z)
  }

  lemma {:induction false} InsertIsStable<T(!new)>(x: T, xs: seq<T>, le: (T, T) -> bool, z: T)
    requires Total(le)
    ensures Ties(Insert(x, xs, le), le, z) == Ties([x] + xs, le, z)
    decreases |xs|
  {
    assert ([x] + xs)[1..] == xs;
    if xs != [] && !le(x, xs[0]) {
      InsertIsStable(x, xs[1..], le, z);
      var rest := Insert(x, xs[1..], le);
      assert ([x] + xs[1..])[1..] == xs[1..];
      assert ([xs[0]] + rest)[1..] == rest;
    }
  }

  /** Sorting is stable: records that tie keep their order. */
  lemma {:induction false} StableSortIsStable<T(!new)>(xs: seq<T>, le: (T, T) -> bool, z: T)
    requires Total(le)
    ensures Ties(StableSort(xs, le), le, z) == Ties(xs, le, z)
    decreases |xs|
  {
    if xs != [] {
      var rest := StableSort(xs[1..], le);
      StableSortIsStable(xs[1..], le, z);
      InsertIsStable(xs[0], rest, le, z);
      assert ([xs[0]] + rest)[1..] == rest;
    }
  }

  ghost predicate SameTies<T(!new)>(a: seq<T>, b: seq<T>, le: (T, T) -> bool) {
    forall z :: Ties(a, le, z) == Ties(b, le, z)
  }

  lemma {:induction false} TiesAreMembers<T>(xs: seq<T>, le: (T, T) -> bool, z: T, x: T)
    ensures x in Ties(xs, le, z) <==> x in xs && le(x, z) && le(z, x)
    decreases |xs|
  {
    if xs != [] {
      TiesAreMembers(xs[1..], le, z, x);
      assert xs == [xs[0]] + xs[1..];
    }
  }

  lemma TiesOfTail<T>(xs: seq<T>, le: (T, T) -> bool, z: T)
    requires xs != []
    ensures Ties(xs[1..], le, z) == if le(xs[0], z) && le(z, xs[0]) then Ties(xs, le, z)[1..] else Ties(xs, le, z)
  {
  }

  /** A sorted list is settled by the order within its ties. */
  lemma {:induction false} SameTiesSameList<T(!new)>(a: seq<T>, b: seq<T>, le: (T, T) -> bool)
    requires Total(le) && Sorted(a, le) && Sorted(b, le)
    requires SameTies(a, b, le)
    ensures a == b
    decreases |a|
  {
    if a != [] && b != [] {
      TiesAreMembers(a, le, a[0], a[0]);
      TiesAreMembers(b, le, a[0], a[0]);
      TiesAreMembers(b, le, b[0], b[0]);
      TiesAreMembers(a, le, b[0], b[0]);
      FirstsTie(a, b, le);
      assert Ties(a, le, a[0])[0] == a[0] && Ties(b, le, a[0])[0] == b[0];
      forall z ensures Ties(a[1..], le, z) == Ties(b[1..], le, z) {
        assert Ties(a, le, z) == Ties(b, le, z);
        TiesOfTail(a, le, z);
        TiesOfTail(b, le, z);
      }
      SameTiesSameList(a[1..], b[1..], le);
      assert a == [a[0]] + a[1..] && b == [b[0]] + b[1..];
    } else if a != [] {
      TiesAreMembers(a, le, a[0], a[0]);
    } else if b != [] {
      TiesAreMembers(b, le, b[0], b[0]);
    }
  }

  /** Being sorted and keeping the order of ties says all there is to say: whatever algorithm the
      library sorts with, this is its result. */
  lemma StableSortIsTheOnlyOne<T(!new)>(xs: seq<T>, ys: seq<T>, le: (T, T) -> bool)
    requires Total(le)
    ensures ys == StableSort(xs, le) <==> Sorted(ys, le) && SameTies(ys, xs, le)
  {
    var sorted := StableSort(xs, le);
    StableSortSorts(xs, le);
    forall z ensures Ties(sorted, le, z) == Ties(xs, le, z) {
      StableSortIsStable(xs, le, z);
    }
    if Sorted(ys, le) && SameTies(ys, xs, le) {
      SameTiesSameList(ys, sorted, le);
    }
  }

  lemma FirstsTie<T(!new)>(a: seq<T>, b: seq<T>, le: (T, T) -> bool)
    requires Total(le) && Sorted(a, le) && Sorted(b, le) && a != [] && b != []
    requires a[0] in b && b[0] in a
    ensures le(a[0], b[0]) && le(b[0], a[0])
  {
    var j :| 0 <= j < |b| && b[j] == a[0];
    var i :| 0 <= i < |a| && a[i] == b[0];
    assert le(a[0], a[0]);
  }

  lemma TailsHoldTheSame<T>(a: seq<T>, b: seq<T>)
    requires a != [] && b != [] && a[0] == b[0] && multiset(a) == multiset(b)
    ensures multiset(a[1..]) == multiset(b[1..])
  {
    assert a == [a[0]] + a[1..] && b == [b[0]] + b[1..];
    assert multiset(a[1..]) == multiset(a) - multiset{a[0]};
    assert multiset(b[1..]) == multiset(b) - multiset{b[0]};
  }

  // ----- the database's window -----

  /** LIMIT and OFFSET bound as signed numbers give the in-memory page for every limit, exactly when
      the offset is below 2^63, nothing was asked for, or there is nothing to skip. */
  lemma WindowAgrees<T>(xs: seq<T>, offset: U64, limit: U64)
    requires |xs| < 0x8000_0000_0000_0000
    ensures Window(xs, AsI64(limit), AsI64(offset)) == OffsetPage(xs, offset, limit)
            <==> offset < 0x8000_0000_0000_0000 || limit == 0 || xs == []
  {
    if offset >= 0x8000_0000_0000_0000 {
      assert Skip(xs, offset) == [];
      assert xs[0..] == xs;
    }
  }

  /** LIMIT and OFFSET of a page; a cursor is not looked at. */
  function WindowOf(p: Pagination): (int, Option<int>) {
    match p
    case AtOffset(offset, limit) => (AsI64(limit), Some(AsI64(offset)))
    case AtCursor(_, limit) => (AsI64(limit), None)
  }

  /** The end of every list query. */
  method PushOrderAndPage<C>(qb: QueryBuilder<C>, col: C, descending: bool, p: Pagination)
    modifies qb
    ensures qb.sql == old(qb.sql) + Tail(Some((col, descending)), Some(WindowOf(p)))
  {
    qb.Push(OrderBy(col, descending));
    match p {
      case AtOffset(offset, limit) =>
        qb.Push(Limit(AsI64(limit)));
        qb.Push(Offset(AsI64(offset)));
      case AtCursor(_, limit) =>
        qb.Push(Limit(AsI64(limit)));
    }
  }
}
