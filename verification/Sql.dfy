/**
 The fragment of SQL that the registries' query builders write: text grows token by token, is
 parsed into a query, and a query has a meaning on a table.  Conditions are three-valued, and a
 row is kept only if the WHERE clause is true of it.
 */
module Sql {
  import opened Core
  import opened UlidText

  datatype Value = Null | Int(i: int) | Text(s: string)

  datatype Truth = True | False | Unsure

  datatype Cond<C> =
    | InList(col: C, vs: seq<Value>)
    | AtLeast(col: C, v: Value)
    | AtMost(col: C, v: Value)
    | Between(col: C, lo: Value, hi: Value)
    | IsNull(col: C)
    | IsNotNull(col: C)

  datatype Token<C> =
    | LeftJoin
    | Where
    | And
    | Condition(cond: Cond<C>)
    | OrderBy(col: C, descending: bool)
    | Limit(n: int)
    | Offset(n: int)

  datatype Query<C> = Query(
    join: bool,
    conds: seq<Cond<C>>,
    order: Option<(C, bool)>,
    window: Option<(int, Option<int>)>)   // LIMIT, and OFFSET if there is one

  /** Text pushed onto a query under construction. */
  class QueryBuilder<C> {
    var sql: seq<Token<C>>

    constructor ()
      ensures sql == []
    {
      sql := [];
    }

    method Push(t: Token<C>)
      modifies this
      ensures sql == old(sql) + [t]
    {
      sql := sql + [t];
    }

    /** The builders' `prefix`: WHERE before the first condition, AND before every other. */
    method PushCondition(hasWhere: bool, c: Cond<C>)
      modifies this
      ensures sql == old(sql) + [if hasWhere then And else Where, Condition(c)]
    {
      if hasWhere {
        Push(And);
      } else {
        Push(Where);
      }
      Push(Condition(c));
    }
  }

  // ----- meaning of a condition -----

  /** Integers sort before text; within a type, by value. */
  predicate Leq(a: Value, b: Value) {
    match (a, b)
    case (Int(x), Int(y)) => x <= y
    case (Text(x), Text(y)) => !TextLess(y, x)
    case (Int(_), Text(_)) => true
    case (_, _) => false
  }

  function FromBool(b: bool): Truth {
    if b then True else False
  }

  function Both(a: Truth, b: Truth): Truth {
    if a == False || b == False then False
    else if a == True && b == True then True
    else Unsure
  }

  function Compare(a: Value, b: Value): Truth {
    if a.Null? || b.Null? then Unsure else FromBool(Leq(a, b))
  }

  function Eval<C>(c: Cond<C>, get: C -> Value): Truth {
    match c
    case InList(col, vs) =>
      if get(col).Null? then Unsure
      else if get(col) in vs then True
      else if Null in vs then Unsure
      else False
    case AtLeast(col, v) => Compare(v, get(col))
    case AtMost(col, v) => Compare(get(col), v)
    case Between(col, lo, hi) => Both(Compare(lo, get(col)), Compare(get(col), hi))
    case IsNull(col) => FromBool(get(col).Null?)
    case IsNotNull(col) => FromBool(!get(col).Null?)
  }

  function Conjunction<C>(conds: seq<Cond<C>>, get: C -> Value): Truth {
    if conds == [] then True else Both(Eval(conds[0], get), Conjunction(conds[1..], get))
  }

  predicate Keeps<C>(conds: seq<Cond<C>>, get: C -> Value) {
    Conjunction(conds, get) == True
  }

  /** A row is kept exactly when every condition is true of it. */
  lemma {:induction false} KeepsIffAll<C>(conds: seq<Cond<C>>, get: C -> Value)
    ensures Keeps(conds, get) <==> forall c <- conds :: Eval(c, get) == True
    decreases |conds|
  {
    if conds != [] {
      KeepsIffAll(conds[1..], get);
      assert forall c :: c in conds <==> c == conds[0] || c in conds[1..];
    }
  }

  lemma KeepsAppend<C>(a: seq<Cond<C>>, b: seq<Cond<C>>, get: C -> Value)
    ensures Keeps(a + b, get) <==> Keeps(a, get) && Keeps(b, get)
  {
    KeepsIffAll(a + b, get);
    KeepsIffAll(a, get);
    KeepsIffAll(b, get);
  }

  // ----- clauses -----

  /** A WHERE clause as the builders write it. */
  function Clause<C>(conds: seq<Cond<C>>): seq<Token<C>> {
    if conds == [] then []
    else
      var n := |conds| - 1;
      Clause(conds[..n]) + [if n == 0 then Where else And, Condition(conds[n])]
  }

  function ParseAnds<C>(ts: seq<Token<C>>): (seq<Cond<C>>, seq<Token<C>>)
    decreases |ts|
  {
    if |ts| >= 2 && ts[0] == And && ts[1].Condition? then
      var (cs, rest) := ParseAnds(ts[2..]);
      ([ts[1].cond] + cs, rest)
    else ([], ts)
  }

  function ParseWhere<C>(ts: seq<Token<C>>): (seq<Cond<C>>, seq<Token<C>>) {
    if |ts| >= 2 && ts[0] == Where && ts[1].Condition? then
      var (cs, rest) := ParseAnds(ts[2..]);
      ([ts[1].cond] + cs, rest)
    else ([], ts)
  }

  function ParseWindow<C>(ts: seq<Token<C>>): Option<Option<(int, Option<int>)>> {
    if ts == [] then Some(None)
    else if |ts| == 1 && ts[0].Limit? then Some(Some((ts[0].n, None)))
    else if |ts| == 2 && ts[0].Limit? && ts[1].Offset? then Some(Some((ts[0].n, Some(ts[1].n))))
    else None
  }

  /** [LEFT JOIN] [WHERE c (AND c)*] [ORDER BY col dir] [LIMIT n [OFFSET n]]; anything else is an error. */
  function Parse<C>(ts: seq<Token<C>>): Option<Query<C>> {
    var join := ts != [] && ts[0] == LeftJoin;
    var (conds, rest) := ParseWhere(if join then ts[1..] else ts);
    var ordered := rest != [] && rest[0].OrderBy?;
    var order := if ordered then Some((rest[0].col, rest[0].descending)) else None;
    match ParseWindow(if ordered then rest[1..] else rest)
    case Some(window) => Some(Query(join, conds, order, window))
    case None => None
  }

  predicate EndsClause<C>(tail: seq<Token<C>>) {
    tail != [] ==> tail[0] != And && tail[0] != Where && tail[0] != LeftJoin
  }

  function Ands<C>(conds: seq<Cond<C>>): seq<Token<C>> {
    if conds == [] then [] else [And, Condition(conds[0])] + Ands(conds[1..])
  }

  lemma {:induction false} ParseAndsOf<C>(conds: seq<Cond<C>>, tail: seq<Token<C>>)
    requires EndsClause(tail)
    ensures ParseAnds(Ands(conds) + tail) == (conds, tail)
    decreases |conds|
  {
    if conds != [] {
      var ts := Ands(conds) + tail;
      assert ts[2..] == Ands(conds[1..]) + tail;
      ParseAndsOf(conds[1..], tail);
      assert conds == [conds[0]] + conds[1..];
    } else {
      assert Ands(conds) + tail == tail;
    }
  }

  lemma {:induction false} ClauseIsWhereAnds<C>(conds: seq<Cond<C>>)
    requires conds != []
    ensures Clause(conds) == [Where, Condition(conds[0])] + Ands(conds[1..])
    decreases |conds|
  {
    var n := |conds| - 1;
    if n > 0 {
      ClauseIsWhereAnds(conds[..n]);
      AndsSnoc(conds[1..n], conds[n]);
      assert conds[..n][1..] == conds[1..n];
      assert conds[1..n] + [conds[n]] == conds[1..];
    }
  }

  lemma {:induction false} AndsSnoc<C>(conds: seq<Cond<C>>, c: Cond<C>)
    ensures Ands(conds + [c]) == Ands(conds) + [And, Condition(c)]
    decreases |conds|
  {
    if conds == [] {
      assert [c][1..] == [];
      assert Ands([c]) == [And, Condition(c)] + Ands([c][1..]);
    } else {
      assert (conds + [c])[1..] == conds[1..] + [c];
      AndsSnoc(conds[1..], c);
    }
  }

  lemma ParseWhereStart<C>(c: Cond<C>, rest: seq<Token<C>>)
    ensures ParseWhere([Where, Condition(c)] + rest) == ([c] + ParseAnds(rest).0, ParseAnds(rest).1)
  {
    hide ParseAnds;
    var ts := [Where, Condition(c)] + rest;
    assert ts[2..] == rest;
  }

  lemma ParseNoClause<C>(tail: seq<Token<C>>)
    requires EndsClause(tail)
    ensures ParseWhere(tail) == ([], tail)
  {
  }

  lemma ParseSomeClause<C>(c: Cond<C>, others: seq<Cond<C>>, tail: seq<Token<C>>)
    requires EndsClause(tail)
    ensures ParseWhere([Where, Condition(c)] + (Ands(others) + tail)) == ([c] + others, tail)
  {
    hide Ands, ParseAnds, ParseWhere;
    ParseAndsOf(others, tail);
    ParseWhereStart(c, Ands(others) + tail);
  }

  lemma Reassociate<T>(a: seq<T>, b: seq<T>, c: seq<T>)
    ensures (a + b) + c == a + (b + c)
  {
  }

  lemma ParseClause<C>(conds: seq<Cond<C>>, tail: seq<Token<C>>)
    requires EndsClause(tail)
    ensures ParseWhere(Clause(conds) + tail) == (conds, tail)
  {
    hide Ands, ParseAnds, ParseWhere;
    if conds == [] {
      ParseNoClause(tail);
      assert Clause(conds) + tail == tail;
    } else {
      hide *;
      var c, others := conds[0], conds[1..];
      ParseSomeClause(c, others, tail);
      ClauseIsWhereAnds(conds);
      Reassociate([Where, Condition(c)], Ands(others), tail);
      assert [c] + others == conds;
    }
  }

  function Head<C>(join: bool): seq<Token<C>> {
    if join then [LeftJoin] else []
  }

  function Tail<C>(order: Option<(C, bool)>, window: Option<(int, Option<int>)>): seq<Token<C>> {
    (match order case Some(o) => [OrderBy(o.0, o.1)] case None => []) +
    (match window
     case Some((n, Some(m))) => [Limit(n), Offset(m)]
     case Some((n, None)) => [Limit(n)]
     case None => [])
  }

  lemma ParseBody<C>(body: seq<Token<C>>, conds: seq<Cond<C>>, tail: seq<Token<C>>,
                     order: Option<(C, bool)>, window: Option<(int, Option<int>)>)
    requires ParseWhere(body) == (conds, tail)
    requires tail == Tail(order, window)
    ensures Parse([LeftJoin] + body) == Some(Query(true, conds, order, window))
    ensures (body != [] ==> body[0] != LeftJoin) ==> Parse(body) == Some(Query(false, conds, order, window))
  {
    TailParts(order, window);
    hide ParseWhere, ParseWindow, Tail, EndsClause;
    assert ([LeftJoin] + body)[1..] == body;
  }

  /** Text put together from its parts parses back into exactly those parts. */
  lemma ParseOfParts<C>(join: bool, conds: seq<Cond<C>>, order: Option<(C, bool)>, window: Option<(int, Option<int>)>)
    ensures Parse(Head(join) + Clause(conds) + Tail(order, window)) == Some(Query(join, conds, order, window))
  {
    hide ParseWhere, Clause, Tail, Parse;
    var tail: seq<Token<C>> := Tail(order, window);
    TailParts(order, window);
    ParseClause(conds, tail);
    NoJoinInside(conds, tail);
    ParseBody(Clause(conds) + tail, conds, tail, order, window);
    Reassociate(Head(join), Clause(conds), tail);
    assert [] + (Clause(conds) + tail) == Clause(conds) + tail;
  }

  lemma NoJoinInside<C>(conds: seq<Cond<C>>, tail: seq<Token<C>>)
    requires EndsClause(tail)
    ensures var ts := Clause(conds) + tail; ts != [] ==> ts[0] != LeftJoin
  {
    if conds != [] {
      ClauseIsWhereAnds(conds);
    } else {
      assert Clause(conds) + tail == tail;
    }
  }

  lemma TailParts<C>(order: Option<(C, bool)>, window: Option<(int, Option<int>)>)
    ensures var tail: seq<Token<C>> := Tail(order, window);
            && (order.Some? <==> tail != [] && tail[0].OrderBy?)
            && (order.Some? ==> tail[0] == OrderBy(order.value.0, order.value.1))
            && ParseWindow(if order.Some? then tail[1..] else tail) == Some(window)
            && EndsClause(tail)
  {
    var tail: seq<Token<C>> := Tail(order, window);
    var w: seq<Token<C>> := Tail(None, window);
    assert w == match window
                case Some((n, Some(m))) => [Limit(n), Offset(m)]
                case Some((n, None)) => [Limit(n)]
                case None => [];
    if order.Some? {
      assert tail[1..] == w;
    }
  }

  // ----- windows -----

  /** LIMIT and OFFSET are signed 64-bit: a negative limit means no limit, a negative offset none. */
  function Window<T>(rows: seq<T>, limit: int, offset: int): seq<T> {
    var start := if offset < 0 then 0 else if offset > |rows| then |rows| else offset;
    var rest := rows[start..];
    if limit < 0 || limit >= |rest| then rest else rest[..limit]
  }

  /** A 64-bit unsigned number bound as a signed one. */
  function AsI64(n: nat): int
    requires n < 0x1_0000_0000_0000_0000
  {
    if n < 0x8000_0000_0000_0000 then n else n - 0x1_0000_0000_0000_0000
  }

  function FromI64(n: int): nat
    requires -0x8000_0000_0000_0000 <= n < 0x8000_0000_0000_0000
  {
    if n >= 0 then n else n + 0x1_0000_0000_0000_0000
  }
}
