/** What the query filters of all registries share: lists, time bounds, and how they are compiled. */
module Filters {
  import opened Core
  import opened Sql
  import opened UlidText

  // ----- time -----

  const NANOS := 1_000_000_000

  /** Whole seconds since the epoch, cut towards zero. */
  function AsSecond(t: Timestamp): int {
    if t >= 0 then t / NANOS else -((-t) / NANOS)
  }

  function FromSecond(s: int): Timestamp {
    s * NANOS
  }

  /** A time read back is less than a second from the one stored, and not further from the epoch. */
  lemma LessThanASecond(t: Timestamp)
    ensures t >= 0 ==> FromSecond(AsSecond(t)) <= t < FromSecond(AsSecond(t)) + 1_000_000_000
    ensures t <= 0 ==> FromSecond(AsSecond(t)) - 1_000_000_000 < t <= FromSecond(AsSecond(t))
    ensures FromSecond(AsSecond(t)) % 1_000_000_000 == 0
  {
  }

  predicate WholeSecond(t: Timestamp) {
    FromSecond(AsSecond(t)) == t
  }

  function Cut(t: Option<Timestamp>): Option<Timestamp> {
    match t case Some(x) => Some(FromSecond(AsSecond(x))) case None => None
  }

  predicate Allows<T(==)>(xs: Option<seq<T>>, x: T) {
    xs.Some? ==> x in xs.value
  }

  predicate InTime(after: Option<Timestamp>, before: Option<Timestamp>, t: Timestamp) {
    (after.Some? ==> after.value <= t) && (before.Some? ==> t <= before.value)
  }

  function DropEmpty<T>(xs: Option<seq<T>>): Option<seq<T>> {
    if Lists(xs) then xs else None
  }

  // ----- conditions on identifiers -----

  function Texts(ids: seq<Id>): (vs: seq<Value>)
    ensures |vs| == |ids|
    ensures forall i :: 0 <= i < |ids| ==> vs[i] == Text(ToText(ids[i]))
  {
    seq(|ids|, i requires 0 <= i < |ids| => Text(ToText(ids[i])))
  }

  predicate Lists<T>(xs: Option<seq<T>>) {
    xs.Some? && |xs.value| > 0
  }

  function IdsCond<C>(col: C, ids: Option<seq<Id>>): seq<Cond<C>> {
    if Lists(ids) then [InList(col, Texts(ids.value))] else []
  }

  /** Cutting the bounds to whole seconds moves neither past a whole second. */
  predicate BoundsExact(after: Option<Timestamp>, before: Option<Timestamp>) {
    && (after.Some? ==> WholeSecond(after.value) || after.value < 0)
    && (before.Some? ==> WholeSecond(before.value) || before.value > 0)
  }

  predicate EmptyTime(after: Option<Timestamp>, before: Option<Timestamp>) {
    after.Some? && before.Some? && AsSecond(after.value) > AsSecond(before.value)
  }

  lemma SecondsOrder(a: Timestamp, b: Timestamp)
    ensures a <= b ==> AsSecond(a) <= AsSecond(b)
  {
  }

  lemma CutBounds(after: Option<Timestamp>, before: Option<Timestamp>, t: Timestamp)
    requires WholeSecond(t)
    ensures InTime(after, before, t) ==> InTime(Cut(after), Cut(before), t)
    ensures BoundsExact(after, before) ==> (InTime(after, before, t) <==> InTime(Cut(after), Cut(before), t))
  {
    if after.Some? {
      SecondsOrder(after.value, t);
      LessThanASecond(after.value);
    }
    if before.Some? {
      SecondsOrder(t, before.value);
      LessThanASecond(before.value);
    }
    hide AsSecond;
  }

  function EdgeTime(after: Option<Timestamp>, before: Option<Timestamp>): Timestamp {
    if after.Some? && !(WholeSecond(after.value) || after.value < 0) then FromSecond(AsSecond(after.value))
    else if before.Some? then FromSecond(AsSecond(before.value))
    else if after.Some? then FromSecond(AsSecond(after.value))
    else 0
  }

  lemma EdgeTimeSeparates(after: Option<Timestamp>, before: Option<Timestamp>)
    requires !EmptyTime(after, before)
    ensures WholeSecond(EdgeTime(after, before))
    ensures InTime(Cut(after), Cut(before), EdgeTime(after, before))
    ensures !BoundsExact(after, before) ==> !InTime(after, before, EdgeTime(after, before))
  {
  }

  lemma InTexts(ids: seq<Id>, id: Id)
    ensures Text(ToText(id)) in Texts(ids) <==> id in ids
  {
    hide ToText;
    if id in ids {
      var i :| 0 <= i < |ids| && ids[i] == id;
      assert Texts(ids)[i] == Text(ToText(id));
    }
    if Text(ToText(id)) in Texts(ids) {
      var i :| 0 <= i < |ids| && Texts(ids)[i] == Text(ToText(id));
      TextPreservesOrder(ids[i], id);
    }
  }

  lemma IdsCondMeans<C>(col: C, ids: Option<seq<Id>>, id: Id, get: C -> Value)
    requires get(col) == Text(ToText(id))
    ensures Keeps(IdsCond(col, ids), get) <==> Allows(DropEmpty(ids), id)
  {
    hide ToText;
    KeepsIffAll(IdsCond(col, ids), get);
    if Lists(ids) {
      InTexts(ids.value, id);
      assert IdsCond(col, ids)[0] in IdsCond(col, ids);
    }
  }

  // ----- pushing conditions -----

  method PushOne<C>(qb: QueryBuilder<C>, ghost base: seq<Token<C>>, ghost conds: seq<Cond<C>>,
                    hasWhere: bool, c: Cond<C>)
    returns (ghost conds': seq<Cond<C>>, hasWhere': bool)
    requires qb.sql == base + Clause(conds) && (hasWhere <==> conds != [])
    modifies qb
    ensures conds' == conds + [c] && hasWhere'
    ensures qb.sql == base + Clause(conds') && conds' != []
  {
    qb.PushCondition(hasWhere, c);
    conds', hasWhere' := conds + [c], true;
    assert conds'[..|conds|] == conds;
  }

  method PushIds<C>(qb: QueryBuilder<C>, ghost base: seq<Token<C>>, ghost conds: seq<Cond<C>>,
                    hasWhere: bool, col: C, ids: Option<seq<Id>>)
    returns (ghost conds': seq<Cond<C>>, hasWhere': bool)
    requires qb.sql == base + Clause(conds) && (hasWhere <==> conds != [])
    modifies qb
    ensures conds' == conds + IdsCond(col, ids)
    ensures qb.sql == base + Clause(conds') && (hasWhere' <==> conds' != [])
  {
    hide ToText;
    conds', hasWhere' := conds, hasWhere;
    if Lists(ids) {
      conds', hasWhere' := PushOne(qb, base, conds, hasWhere, InList(col, Texts(ids.value)));
    }
  }

  // ----- counting -----

  /** Visiting one more element counts it if it is wanted. */
  lemma VisitCounts<T>(wanted: set<T>, todo: set<T>, x: T)
    requires x in todo
    ensures |wanted - (todo - {x})| == |wanted - todo| + (if x in wanted then 1 else 0)
  {
    if x in wanted {
      assert wanted - (todo - {x}) == (wanted - todo) + {x};
    } else {
      assert wanted - (todo - {x}) == wanted - todo;
    }
  }

  /** Text names identifiers one to one, so a set of texts is as large as the set of identifiers. */
  lemma {:induction false} SameSize(ids: set<Id>, keys: set<string>)
    requires forall id <- ids :: ToText(id) in keys
    requires forall key <- keys ::
               FromText(key).Some? && FromText(key).value in ids && key == ToText(FromText(key).value)
    ensures |ids| == |keys|
    decreases |ids|
  {
    hide ToText, FromText;
    if ids == {} {
      assert keys == {};
    } else {
      var id :| id in ids;
      forall other | other in ids - {id} ensures ToText(other) in keys - {ToText(id)} {
        TextPreservesOrder(other, id);
      }
      SameSize(ids - {id}, keys - {ToText(id)});
    }
  }
}
