/**
 Lists of records of any kind: a result of an in-memory registry against an answer of the
 database.  Row order within a table and within a hash map is unknown on both sides.
 */
module Listing {
  import opened Core
  import opened Sql
  import opened UlidText
  import opened Paging

  /** xs lists the members of s, once each, in some order. */
  ghost predicate Enumerates<T(!new)>(xs: seq<T>, s: set<T>) {
    && (forall x :: x in xs <==> x in s)
    && (forall i, j :: 0 <= i < j < |xs| ==> xs[i] != xs[j])
  }

  /** The comparison the registries sort by: a need not come after b. */
  function KeyOrder<R>(key: R -> int, descending: bool): (R, R) -> bool {
    (a: R, b: R) => if descending then key(a) >= key(b) else key(a) <= key(b)
  }

  /** ORDER BY a column. */
  function ColumnOrder<W>(cell: W -> Value, descending: bool): (W, W) -> bool {
    (a: W, b: W) => if descending then Leq(cell(b), cell(a)) else Leq(cell(a), cell(b))
  }

  /** A result of an in-memory list: the hash map's order, filtered, stably sorted, cut to a page. */
  ghost predicate IsPage<R(!new)>(accepted: set<R>, key: R -> int, descending: bool, idOf: R -> Id, p: Pagination,
                                  result: seq<R>) {
    exists xs :: Enumerates(xs, accepted) && result == Page(StableSort(xs, KeyOrder(key, descending)), idOf, p)
  }

  /** An answer of the database: the selected rows in some order the ORDER BY allows, cut to the window. */
  ghost predicate IsAnswer<W(!new)>(selected: set<W>, cell: W -> Value, descending: bool,
                                    window: (int, Option<int>), answer: seq<W>) {
    exists order :: Enumerates(order, selected) && Sorted(order, ColumnOrder(cell, descending))
                 && answer == CutTo(order, window)
  }

  function CutTo<T>(xs: seq<T>, window: (int, Option<int>)): seq<T> {
    Window(xs, window.0, if window.1.Some? then window.1.value else 0)
  }

  // ----- enumerations -----

  lemma {:induction false} EnumerationCounts<T(!new)>(xs: seq<T>, s: set<T>)
    requires Enumerates(xs, s)
    ensures multiset(xs) == multiset(s) && |xs| == |s|
    decreases |xs|
  {
    if xs != [] {
      var n := |xs| - 1;
      assert xs == xs[..n] + [xs[n]];
      forall x ensures x in xs[..n] <==> x in s - {xs[n]} {
        if x in xs[..n] {
          var i :| 0 <= i < n && xs[i] == x;
        }
      }
      EnumerationCounts(xs[..n], s - {xs[n]});
      assert xs[n] in s;
      assert multiset(s) == multiset(s - {xs[n]}) + multiset{xs[n]};
    } else {
      assert s == {};
    }
  }

  lemma SortedEnumerates<T(!new)>(xs: seq<T>, ys: seq<T>, s: set<T>)
    requires Enumerates(xs, s) && multiset(xs) == multiset(ys)
    ensures Enumerates(ys, s)
  {
    EnumerationCounts(xs, s);
    forall x ensures x in ys <==> x in s {
      assert x in ys <==> x in multiset(ys);
    }
    forall i, j | 0 <= i < j < |ys| ensures ys[i] != ys[j] {
      assert ys == ys[..i] + [ys[i]] + ys[i + 1..j] + [ys[j]] + ys[j + 1..];
      assert multiset(s)[ys[i]] <= 1;
    }
  }

  /** Records that carry their key are as many as their keys. */
  lemma {:induction false} ImageCounts<R(!new)>(m: map<Id, R>, idOf: R -> Id, ids: set<Id>)
    requires forall id <- m :: idOf(m[id]) == id
    requires ids <= m.Keys
    ensures |set id | id in ids :: m[id]| == |ids| <= |m|
    decreases |ids|
  {
    var image := set id | id in ids :: m[id];
    if ids == {} {
      assert image == {};
    } else {
      var id :| id in ids;
      ImageCounts(m, idOf, ids - {id});
      var rest := set other | other in ids - {id} :: m[other];
      assert image == rest + {m[id]};
      assert m.Keys == ids + (m.Keys - ids);
    }
  }

  // ----- orders -----

  lemma {:induction false} TextLessAsymmetric(a: string, b: string)
    ensures !TextLess(a, b) || !TextLess(b, a)
    decreases |a|
  {
    if a != "" && b != "" {
      TextLessAsymmetric(a[1..], b[1..]);
    }
  }

  lemma {:induction false} TextLessNegatedTransitive(a: string, b: string, c: string)
    requires !TextLess(b, a) && !TextLess(c, b)
    ensures !TextLess(c, a)
    decreases |a|
  {
    if a != "" && b != "" && c != "" {
      if a[0] == b[0] == c[0] {
        TextLessNegatedTransitive(a[1..], b[1..], c[1..]);
      }
    }
  }

  /** Values other than NULL are totally ordered. */
  lemma ValuesAreOrdered(a: Value, b: Value, c: Value)
    requires !a.Null? && !b.Null? && !c.Null?
    ensures Leq(a, b) || Leq(b, a)
    ensures Leq(a, b) && Leq(b, c) ==> Leq(a, c)
  {
    if a.Text? && b.Text? {
      TextLessAsymmetric(a.s, b.s);
      if c.Text? && Leq(a, b) && Leq(b, c) {
        TextLessNegatedTransitive(a.s, b.s, c.s);
      }
    }
  }

  lemma ColumnOrderIsTotal<W(!new)>(cell: W -> Value, descending: bool)
    requires forall w :: !cell(w).Null?
    ensures Total(ColumnOrder(cell, descending))
  {
    var le := ColumnOrder(cell, descending);
    forall x, y ensures le(x, y) || le(y, x) {
      ValuesAreOrdered(cell(x), cell(y), cell(x));
    }
    forall x, y, z | le(x, y) && le(y, z) ensures le(x, z) {
      ValuesAreOrdered(cell(x), cell(y), cell(z));
      ValuesAreOrdered(cell(z), cell(y), cell(x));
    }
  }

  lemma KeyOrderIsTotal<R(!new)>(key: R -> int, descending: bool)
    ensures Total(KeyOrder(key, descending))
  {
  }

  // ----- the same records on both sides -----

  /** What one side accepts and sorts by, what the other selects and orders by, and the row of a record. */
  datatype Sides<!R(==), !W(==)> =
    Sides(accepted: set<R>, selected: set<W>, row: R -> W, key: R -> int, cell: W -> Value)

  ghost predicate Matching<R(!new), W(!new)>(v: Sides<R, W>) {
    && (forall r <- v.accepted :: v.row(r) in v.selected)
    && (forall w <- v.selected :: exists r <- v.accepted :: v.row(r) == w)
    && (forall a <- v.accepted, b <- v.accepted :: v.row(a) == v.row(b) ==> a == b)
    && (forall a <- v.accepted, b <- v.accepted :: Leq(v.cell(v.row(a)), v.cell(v.row(b))) <==> v.key(a) <= v.key(b))
    && (forall w :: !v.cell(w).Null?)
  }

  function Mapped<R, W>(row: R -> W, rs: seq<R>): (rows: seq<W>)
    ensures |rows| == |rs|
    ensures forall i :: 0 <= i < |rs| ==> rows[i] == row(rs[i])
  {
    seq(|rs|, i requires 0 <= i < |rs| => row(rs[i]))
  }

  lemma RowsAreSelected<R(!new), W(!new)>(v: Sides<R, W>, rs: seq<R>)
    requires Matching(v) && Enumerates(rs, v.accepted)
    ensures Enumerates(Mapped(v.row, rs), v.selected)
  {
    var rows := Mapped(v.row, rs);
    forall w | w in v.selected ensures w in rows {
      var r :| r in v.accepted && v.row(r) == w;
      assert r in rs;
      var i :| 0 <= i < |rs| && rs[i] == r;
      assert rows[i] == w;
    }
    forall i | 0 <= i < |rows| ensures rows[i] in v.selected {
      assert rs[i] in v.accepted;
    }
    forall i, j | 0 <= i < j < |rows| ensures rows[i] != rows[j] {
      assert rs[i] in v.accepted && rs[j] in v.accepted;
    }
  }

  lemma RowsInOrder<R(!new), W(!new)>(v: Sides<R, W>, descending: bool, rs: seq<R>)
    requires Matching(v) && Enumerates(rs, v.accepted) && Sorted(rs, KeyOrder(v.key, descending))
    ensures Sorted(Mapped(v.row, rs), ColumnOrder(v.cell, descending))
  {
    var le, rowLe, rows := KeyOrder(v.key, descending), ColumnOrder(v.cell, descending), Mapped(v.row, rs);
    forall i, j | 0 <= i < j < |rs| ensures rowLe(rows[i], rows[j]) {
      assert rs[i] in v.accepted && rs[j] in v.accepted;
      assert le(rs[i], rs[j]);
    }
  }

  /** A sorted list of the accepted records. */
  ghost predicate SortedList<R(!new)>(accepted: set<R>, key: R -> int, descending: bool, rs: seq<R>) {
    Enumerates(rs, accepted) && Sorted(rs, KeyOrder(key, descending))
  }

  lemma StableSortIsSortedList<R(!new)>(accepted: set<R>, key: R -> int, descending: bool, xs: seq<R>)
    requires Enumerates(xs, accepted)
    ensures SortedList(accepted, key, descending, StableSort(xs, KeyOrder(key, descending)))
  {
    hide Enumerates, Sorted, Total, StableSort;
    var le := KeyOrder(key, descending);
    KeyOrderIsTotal(key, descending);
    StableSortSorts(xs, le);
    SortedEnumerates(xs, StableSort(xs, le), accepted);
  }

  /** Sorting what is sorted changes nothing, so every sorted list is a result for some order of the
      hash map. */
  lemma {:induction false} SortingSorted<R>(rs: seq<R>, le: (R, R) -> bool)
    requires Sorted(rs, le)
    ensures StableSort(rs, le) == rs
    decreases |rs|
  {
    if rs != [] {
      SortingSorted(rs[1..], le);
      assert rs == [rs[0]] + rs[1..];
    }
  }

  /** The rows of a sorted list are an order the ORDER BY allows. */
  lemma SortedRows<R(!new), W(!new)>(v: Sides<R, W>, descending: bool, rs: seq<R>)
    requires Matching(v) && SortedList(v.accepted, v.key, descending, rs)
    ensures Enumerates(Mapped(v.row, rs), v.selected)
    ensures Sorted(Mapped(v.row, rs), ColumnOrder(v.cell, descending))
  {
    RowsAreSelected(v, rs);
    RowsInOrder(v, descending, rs);
  }

  /** And every order it allows is the rows of a sorted list. */
  lemma OrderIsSorted<R(!new), W(!new)>(v: Sides<R, W>, descending: bool, order: seq<W>) returns (rs: seq<R>)
    requires Matching(v) && Enumerates(order, v.selected) && Sorted(order, ColumnOrder(v.cell, descending))
    ensures SortedList(v.accepted, v.key, descending, rs) && order == Mapped(v.row, rs)
  {
    rs := RecordsOf(v, order);
    var le, rowLe := KeyOrder(v.key, descending), ColumnOrder(v.cell, descending);
    forall i, j | 0 <= i < j < |rs| ensures le(rs[i], rs[j]) && rs[i] != rs[j] {
      assert rowLe(order[i], order[j]) && order[i] != order[j];
    }
    forall r | r in v.accepted ensures r in rs {
      assert v.row(r) in order;
      var i :| 0 <= i < |order| && order[i] == v.row(r);
      assert v.row(rs[i]) == v.row(r);
    }
  }

  lemma {:induction false} RecordsOf<R(!new), W(!new)>(v: Sides<R, W>, rows: seq<W>) returns (rs: seq<R>)
    requires Matching(v) && forall w <- rows :: w in v.selected
    ensures rows == Mapped(v.row, rs) && forall r <- rs :: r in v.accepted
    decreases |rows|
  {
    if rows == [] {
      return [];
    }
    assert rows[0] in rows && forall w <- rows[1..] :: w in rows;
    var r :| r in v.accepted && v.row(r) == rows[0];
    var rest := RecordsOf(v, rows[1..]);
    rs := [r] + rest;
  }

  lemma WindowOfMapped<R, W>(row: R -> W, rs: seq<R>, limit: int, offset: int)
    ensures Window(Mapped(row, rs), limit, offset) == Mapped(row, Window(rs, limit, offset))
  {
  }

  lemma SameCut<R, W>(row: R -> W, all: seq<R>, idOf: R -> Id, p: Pagination)
    requires p.AtOffset? && p.offset < 0x8000_0000_0000_0000 && |all| < 0x8000_0000_0000_0000
    ensures CutTo(Mapped(row, all), WindowOf(p)) == Mapped(row, Page(all, idOf, p))
  {
    WindowOfMapped(row, all, AsI64(p.limit), AsI64(p.offset));
    WindowAgrees(all, p.offset, p.limit);
  }

  /** The database has an answer. */
  lemma SomeAnswer<R(!new), W(!new)>(v: Sides<R, W>, descending: bool, p: Pagination, xs: seq<R>)
    returns (answer: seq<W>)
    requires Matching(v) && Enumerates(xs, v.accepted)
    ensures IsAnswer(v.selected, v.cell, descending, WindowOf(p), answer)
  {
    var sorted := StableSort(xs, KeyOrder(v.key, descending));
    StableSortIsSortedList(v.accepted, v.key, descending, xs);
    SortedRows(v, descending, sorted);
    answer := CutTo(Mapped(v.row, sorted), WindowOf(p));
  }

  /** Every page is in the order asked for and holds accepted records only, none twice. */
  lemma PageInOrder<R(!new)>(accepted: set<R>, key: R -> int, descending: bool, idOf: R -> Id, p: Pagination,
                                    page: seq<R>)
    requires IsPage(accepted, key, descending, idOf, p, page)
    ensures forall i, j :: 0 <= i < j < |page| ==>
              (if descending then key(page[i]) >= key(page[j]) else key(page[i]) <= key(page[j])) && page[i] != page[j]
    ensures forall r <- page :: r in accepted
  {
    var le := KeyOrder(key, descending);
    var xs :| Enumerates(xs, accepted) && page == Page(StableSort(xs, le), idOf, p);
    var all := StableSort(xs, le);
    StableSortIsSortedList(accepted, key, descending, xs);
    var from := PageIsSlice(all, idOf, p);
    hide StableSort, Page;
    assert forall i :: 0 <= i < |page| ==> page[i] == all[from + i];
    forall i, j | 0 <= i < j < |page|
      ensures (if descending then key(page[i]) >= key(page[j]) else key(page[i]) <= key(page[j])) && page[i] != page[j]
    {
      assert le(all[from + i], all[from + j]) && all[from + i] != all[from + j];
    }
    forall r | r in page ensures r in accepted {
      var i :| 0 <= i < |page| && page[i] == r;
      assert all[from + i] in all;
    }
  }

  // ----- when any answer is any result -----

  predicate Shown(p: Pagination, i: nat) {
    p.AtOffset? && p.offset <= i < p.offset + p.limit
  }

  /** No record the page shows ties with another record of the list, shown or not. */
  ghost predicate NoTiesShown<R>(all: seq<R>, key: R -> int, p: Pagination) {
    forall i, j :: 0 <= i < |all| && 0 <= j < |all| && i != j && Shown(p, i) ==> key(all[i]) != key(all[j])
  }

  lemma {:induction false} SortedNumbers(a: seq<int>, b: seq<int>, descending: bool)
    requires multiset(a) == multiset(b)
    requires Sorted(a, KeyOrder(x => x, descending)) && Sorted(b, KeyOrder(x => x, descending))
    ensures a == b
    decreases |a|
  {
    assert |multiset(a)| == |a| && |multiset(b)| == |b|;
    if a != [] {
      assert a[0] in multiset(b) && b[0] in multiset(a);
      var le := KeyOrder((x: int) => x, descending);
      var j :| 0 <= j < |b| && b[j] == a[0];
      var i :| 0 <= i < |a| && a[i] == b[0];
      assert a[0] == b[0];
      TailsHoldTheSame(a, b);
      SortedNumbers(a[1..], b[1..], descending);
      assert a == [a[0]] + a[1..] && b == [b[0]] + b[1..];
    }
  }

  function Without<T>(xs: seq<T>, j: nat): seq<T>
    requires j < |xs|
  {
    xs[..j] + xs[j + 1..]
  }

  lemma WithoutCounts<T>(xs: seq<T>, j: nat)
    requires j < |xs|
    ensures multiset(xs) == multiset(Without(xs, j)) + multiset{xs[j]}
  {
    assert xs == xs[..j] + [xs[j]] + xs[j + 1..];
  }

  lemma MappedWithout<R, W>(f: R -> W, xs: seq<R>, j: nat)
    requires j < |xs|
    ensures multiset(Mapped(f, xs)) == multiset(Mapped(f, Without(xs, j))) + multiset{f(xs[j])}
  {
    WithoutCounts(Mapped(f, xs), j);
    assert Mapped(f, Without(xs, j)) == Without(Mapped(f, xs), j);
  }

  lemma {:induction false} MappedCounts<R, W>(f: R -> W, a: seq<R>, b: seq<R>)
    requires multiset(a) == multiset(b)
    ensures multiset(Mapped(f, a)) == multiset(Mapped(f, b))
    decreases |a|
  {
    hide Without, Mapped;
    assert |multiset(a)| == |a| && |multiset(b)| == |b|;
    if a != [] {
      assert a[0] in multiset(b);
      var j :| 0 <= j < |b| && b[j] == a[0];
      WithoutCounts(a, 0);
      WithoutCounts(b, j);
      assert multiset(Without(a, 0)) == multiset(a) - multiset{a[0]};
      assert multiset(Without(b, j)) == multiset(b) - multiset{a[0]};
      assert |multiset(Without(a, 0))| == |Without(a, 0)|;
      MappedCounts(f, Without(a, 0), Without(b, j));
      MappedWithout(f, a, 0);
      MappedWithout(f, b, j);
    } else {
      assert a == b;
    }
  }

  /** All sorted lists of the same records have the same keys in the same places. */
  lemma SameKeys<R(!new)>(accepted: set<R>, key: R -> int, descending: bool, a: seq<R>, b: seq<R>)
    requires SortedList(accepted, key, descending, a) && SortedList(accepted, key, descending, b)
    ensures |a| == |b| && forall i :: 0 <= i < |a| ==> key(a[i]) == key(b[i])
  {
    EnumerationCounts(a, accepted);
    EnumerationCounts(b, accepted);
    MappedCounts(key, a, b);
    var le := KeyOrder(key, descending);
    assert forall i, j :: 0 <= i < j < |a| ==> le(a[i], a[j]);
    assert forall i, j :: 0 <= i < j < |b| ==> le(b[i], b[j]);
    SortedNumbers(Mapped(key, a), Mapped(key, b), descending);
    assert forall i :: 0 <= i < |a| ==> Mapped(key, a)[i] == key(a[i]) && Mapped(key, b)[i] == key(b[i]);
  }

  /** Two sorted lists of the same records show the same page if one of them shows no ties. */
  lemma SameShown<R(!new)>(accepted: set<R>, key: R -> int, descending: bool, a: seq<R>, b: seq<R>, idOf: R -> Id,
                           p: Pagination)
    requires SortedList(accepted, key, descending, a) && SortedList(accepted, key, descending, b)
    requires p.AtOffset? && NoTiesShown(a, key, p)
    ensures Page(a, idOf, p) == Page(b, idOf, p)
  {
    SameKeys(accepted, key, descending, a, b);
    forall i: nat | i < |a| && Shown(p, i) ensures a[i] == b[i] {
      assert b[i] in accepted;
      assert b[i] in a;
      var j :| 0 <= j < |a| && a[j] == b[i];
      assert j == i;
    }
    SameWhereShown(a, b, idOf, p);
  }

  lemma SameWhereShown<R>(a: seq<R>, b: seq<R>, idOf: R -> Id, p: Pagination)
    requires p.AtOffset? && |a| == |b| && forall i: nat :: i < |a| && Shown(p, i) ==> a[i] == b[i]
    ensures Page(a, idOf, p) == Page(b, idOf, p)
  {
    var pa, pb := Page(a, idOf, p), Page(b, idOf, p);
    assert |pa| == |pb|;
    forall k | 0 <= k < |pa| ensures pa[k] == pb[k] {
      assert Shown(p, p.offset + k);
    }
  }

  /** Swapping two records that tie keeps a list sorted, and changes the page if it shows one of them. */
  lemma SwapTied<R(!new)>(accepted: set<R>, key: R -> int, descending: bool, a: seq<R>, idOf: R -> Id,
                          p: Pagination, i: nat, j: nat)
    returns (b: seq<R>)
    requires SortedList(accepted, key, descending, a)
    requires i < |a| && j < |a| && i != j && Shown(p, i) && key(a[i]) == key(a[j])
    ensures SortedList(accepted, key, descending, b) && |b| == |a|
    ensures Page(a, idOf, p) != Page(b, idOf, p)
  {
    b := a[i := a[j]][j := a[i]];
    var le := KeyOrder(key, descending);
    assert forall k :: 0 <= k < |a| ==> key(b[k]) == key(a[k]);
    assert forall k, l :: 0 <= k < l < |a| ==> le(a[k], a[l]);
    forall x ensures x in b <==> x in accepted {
      assert x in a <==> x in b by {
        assert b[i] == a[j] && b[j] == a[i];
      }
    }
    assert a[i] != b[i];
    assert Page(a, idOf, p)[i - p.offset] == a[i] && Page(b, idOf, p)[i - p.offset] == b[i];
  }

  /** Any answer of the database, read back, is any result of the in-memory registry. */
  ghost predicate AllAgree<R(!new), W(!new)>(v: Sides<R, W>, descending: bool, idOf: R -> Id, p: Pagination,
                                             read: W -> Option<R>)
  {
    forall answer, result | IsAnswer(v.selected, v.cell, descending, WindowOf(p), answer)
                            && IsPage(v.accepted, v.key, descending, idOf, p, result) ::
      ReadAll(read, answer) == Some(result)
  }

  /** For offset pages: any answer of the database, read back, is any result of the in-memory registry,
      if and only if no record the page shows ties with another. */
  lemma AgreeExactly<R(!new), W(!new)>(v: Sides<R, W>, descending: bool, idOf: R -> Id, p: Pagination,
                                       read: W -> Option<R>, all: seq<R>)
    requires Matching(v) && forall r <- v.accepted :: read(v.row(r)) == Some(r)
    requires p.AtOffset? && p.offset < 0x8000_0000_0000_0000 && |v.accepted| < 0x8000_0000_0000_0000
    requires SortedList(v.accepted, v.key, descending, all)
    ensures AllAgree(v, descending, idOf, p, read) <==> NoTiesShown(all, v.key, p)
  {
    if NoTiesShown(all, v.key, p) {
      forall answer, result | IsAnswer(v.selected, v.cell, descending, WindowOf(p), answer)
                              && IsPage(v.accepted, v.key, descending, idOf, p, result)
        ensures ReadAll(read, answer) == Some(result)
      {
        AgreeWithoutTies(v, descending, idOf, p, read, all, answer, result);
      }
    } else {
      var answer, result := DisagreeOnTies(v, descending, idOf, p, read, all);
    }
  }

  lemma AgreeWithoutTies<R(!new), W(!new)>(v: Sides<R, W>, descending: bool, idOf: R -> Id, p: Pagination,
                                           read: W -> Option<R>, all: seq<R>, answer: seq<W>, result: seq<R>)
    requires Matching(v) && forall r <- v.accepted :: read(v.row(r)) == Some(r)
    requires p.AtOffset? && p.offset < 0x8000_0000_0000_0000 && |v.accepted| < 0x8000_0000_0000_0000
    requires SortedList(v.accepted, v.key, descending, all) && NoTiesShown(all, v.key, p)
    requires IsAnswer(v.selected, v.cell, descending, WindowOf(p), answer)
    requires IsPage(v.accepted, v.key, descending, idOf, p, result)
    ensures ReadAll(read, answer) == Some(result)
  {
    hide Matching, NoTiesShown, Enumerates, Sorted, StableSort, Page, CutTo, ColumnOrder, KeyOrder, WindowOf,
         SortedList, ReadAll;
    var xs :| Enumerates(xs, v.accepted) && result == Page(StableSort(xs, KeyOrder(v.key, descending)), idOf, p);
    var order :| Enumerates(order, v.selected) && Sorted(order, ColumnOrder(v.cell, descending))
              && answer == CutTo(order, WindowOf(p));
    var rs := OrderIsSorted(v, descending, order);
    StableSortIsSortedList(v.accepted, v.key, descending, xs);
    SameShown(v.accepted, v.key, descending, all, rs, idOf, p);
    SameShown(v.accepted, v.key, descending, all, StableSort(xs, KeyOrder(v.key, descending)), idOf, p);
    PageReadBack(v, descending, idOf, p, read, rs);
  }

  /** The answer that a sorted list stands for reads back as its page. */
  lemma PageReadBack<R(!new), W(!new)>(v: Sides<R, W>, descending: bool, idOf: R -> Id, p: Pagination,
                                       read: W -> Option<R>, rs: seq<R>)
    requires forall r <- v.accepted :: read(v.row(r)) == Some(r)
    requires p.AtOffset? && p.offset < 0x8000_0000_0000_0000 && |v.accepted| < 0x8000_0000_0000_0000
    requires SortedList(v.accepted, v.key, descending, rs)
    ensures ReadAll(read, CutTo(Mapped(v.row, rs), WindowOf(p))) == Some(Page(rs, idOf, p))
  {
    EnumerationCounts(rs, v.accepted);
    SameCut(v.row, rs, idOf, p);
    assert forall r <- Page(rs, idOf, p) :: r in rs;
    ReadAllMapped(v.row, read, Page(rs, idOf, p));
  }

  lemma DisagreeOnTies<R(!new), W(!new)>(v: Sides<R, W>, descending: bool, idOf: R -> Id, p: Pagination,
                                         read: W -> Option<R>, all: seq<R>)
    returns (answer: seq<W>, result: seq<R>)
    requires Matching(v) && forall r <- v.accepted :: read(v.row(r)) == Some(r)
    requires p.AtOffset? && p.offset < 0x8000_0000_0000_0000 && |v.accepted| < 0x8000_0000_0000_0000
    requires SortedList(v.accepted, v.key, descending, all) && !NoTiesShown(all, v.key, p)
    ensures IsAnswer(v.selected, v.cell, descending, WindowOf(p), answer)
    ensures IsPage(v.accepted, v.key, descending, idOf, p, result)
    ensures ReadAll(read, answer) != Some(result)
  {
    var i: nat, j: nat :| i < |all| && j < |all| && i != j && Shown(p, i) && v.key(all[i]) == v.key(all[j]);
    var other := SwapTied(v.accepted, v.key, descending, all, idOf, p, i, j);
    SortingSorted(all, KeyOrder(v.key, descending));
    result := Page(all, idOf, p);
    SortedRows(v, descending, other);
    answer := CutTo(Mapped(v.row, other), WindowOf(p));
    PageReadBack(v, descending, idOf, p, read, other);
  }

  // ----- rows turned back into records -----

  function ReadAll<W, R>(read: W -> Option<R>, rows: seq<W>): Option<seq<R>> {
    if rows == [] then Some([])
    else
      match (read(rows[0]), ReadAll(read, rows[1..]))
      case (Some(r), Some(rest)) => Some([r] + rest)
      case (_, _) => None
  }

  lemma {:induction false} ReadAllMapped<R, W>(row: R -> W, read: W -> Option<R>, rs: seq<R>)
    requires forall r <- rs :: read(row(r)) == Some(r)
    ensures ReadAll(read, Mapped(row, rs)) == Some(rs)
    decreases |rs|
  {
    if rs != [] {
      assert rs[0] in rs;
      assert Mapped(row, rs)[1..] == Mapped(row, rs[1..]);
      assert forall r <- rs[1..] :: r in rs;
      ReadAllMapped(row, read, rs[1..]);
      assert rs == [rs[0]] + rs[1..];
    }
  }

  // ----- pages -----

  /** Over an unchanged map and for any limit, whatever is sorted by, the offset pages put together are
      the whole filtered and sorted list, and walking by cursor from any of its records visits exactly
      the records after it, once each. */
  lemma PagesVisitEachOnce<R(!new)>(accepted: set<R>, xs: seq<R>, le: (R, R) -> bool, idOf: R -> Id, limit: nat)
    requires forall a <- accepted, b <- accepted :: idOf(a) == idOf(b) ==> a == b
    requires Total(le) && Enumerates(xs, accepted) && limit > 0
    ensures var all := StableSort(xs, le);
            && Enumerates(all, accepted) && |all| == |accepted|
            && Pages(all, 0, limit) == all
            && forall k :: 0 <= k < |all| ==> Walk(all, idOf, Some(idOf(all[k])), limit, |all|) == all[k + 1..]
  {
    var all := StableSort(xs, le);
    StableSortSorts(xs, le);
    SortedEnumerates(xs, all, accepted);
    EnumerationCounts(all, accepted);
    OffsetPagesPartition(all, 0, limit);
    hide StableSort, Total;
    assert DistinctIds(all, idOf) by {
      forall i, j | 0 <= i < j < |all| ensures idOf(all[i]) != idOf(all[j]) {
        assert all[i] in accepted && all[j] in accepted;
      }
    }
    forall k | 0 <= k < |all| ensures Walk(all, idOf, Some(idOf(all[k])), limit, |all|) == all[k + 1..] {
      CursorWalkEnumerates(all, idOf, k, limit, |all|);
    }
  }
}
