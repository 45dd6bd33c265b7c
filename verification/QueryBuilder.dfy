/** QueryBuilder: the FROM, JOIN and WHERE parts of a query (src/query/query-builder.ts). */
module QueryBuilders {
  import opened Text
  import opened Joins
  import opened JoinClauses
  import opened Predicates

  class QueryBuilder {
    var from: seq<From>
    var joins: Graph
    var where: Option<Predicate>

    constructor ()
      ensures from == [] && joins == map[] && where.None?
    {
      from, joins, where := [], map[], None;
    }

    // -------------------------------------------------------------------------------------
    // from, innerJoin, leftJoin, rightJoin
    // -------------------------------------------------------------------------------------

    method From(table: string, alias: Option<string>)
      modifies this`from
      ensures from == old(from) + [Joins.From(table, alias)]
    {
      from := from + [Joins.From(table, alias)];
    }

    /** innerJoin, leftJoin and rightJoin. */
    method Join(kind: JoinType, fromAlias: string, table: string, alias: string, condition: Option<string>)
      modifies this`joins
      ensures JoinsOf(joins, fromAlias) == JoinsOf(old(joins), fromAlias) + [Joins.Join(kind, table, alias, condition)]
      ensures forall k | k != fromAlias :: JoinsOf(joins, k) == JoinsOf(old(joins), k)
      ensures joins.Keys == old(joins).Keys + {fromAlias}
    {
      if fromAlias !in joins {
        joins := joins[fromAlias := []];
      }
      joins := joins[fromAlias := joins[fromAlias] + [Joins.Join(kind, table, alias, condition)]];
    }

    /** The first loop: the joins of one alias. */
    method WriteSiblings(fromAlias: string, aliases: AliasSet) returns (r: Result<string, Error>)
      modifies aliases
      ensures var e := EmitSiblings(joins, fromAlias, 0, old(aliases.known));
              if e.Err? then r == Err(e.error)
              else r == Ok(Render(joins, e.value.order)) && aliases.known == e.value.known
    {
      var g := joins;
      var sql, list := "", JoinsOf(g, fromAlias);
      ghost var start, order: seq<Placed> := aliases.known, [];
      AfterNothing(EmitSiblings(g, fromAlias, 0, start));
      assert Render(g, []) == "";
      hide Render, JoinSql, EmitSiblings, After;
      for i := 0 to |list|
        invariant EmitSiblings(g, fromAlias, 0, start) == After(order, EmitSiblings(g, fromAlias, i, aliases.known))
        invariant sql == Render(g, order)
      {
        if list[i].alias in aliases.known {
          SiblingClash(g, fromAlias, i, aliases.known, order);
          return Err(NonUniqueAlias);
        }
        SiblingStep(g, fromAlias, i, aliases.known, order);
        order := order + [Placed(fromAlias, i)];
        var one := WriteJoin(list[i]);
        sql := sql + one;
        aliases.known := aliases.known + {list[i].alias};
      }
      SiblingsEnd(g, fromAlias, aliases.known, order);
      r := Ok(sql);
    }

    lemma TypeIsWritten(kind: JoinType)
      ensures " " + TypeSql(kind) + " JOIN "
           == match kind case Inner => " INNER JOIN " case Left => " LEFT JOIN " case Right => " RIGHT JOIN "
    {
    }

    method WriteJoin(join: Join) returns (sql: string)
      ensures sql == JoinSql(join)
    {
      sql := " " + TypeSql(join.kind) + " JOIN " + join.table + " " + join.alias;
      TypeIsWritten(join.kind);
      ghost var start := " " + TypeSql(join.kind) + " JOIN ";
      assert start + join.table + " " + join.alias + "" == sql;
      if join.condition.Some? {
        sql := sql + (" ON " + join.condition.value);
      }
    }

    /** The joins of one alias, and then recursively those of each alias they brought. */
    method GetSqlForJoins(fromAlias: string, aliases: AliasSet) returns (r: Result<string, Error>)
      modifies aliases
      ensures var e := Emit(joins, fromAlias, old(aliases.known));
              if e.Err? then r == Err(e.error)
              else r == Ok(Render(joins, e.value.order)) && aliases.known == e.value.known
      decreases |Unused(joins, aliases.known)|, 0
    {
      hide Render;
      var g := joins;
      ghost var start := aliases.known;
      r := WriteSiblings(fromAlias, aliases);
      if r.Err? || JoinsOf(g, fromAlias) == [] {
        return;
      }
      ghost var siblings := EmitSiblings(g, fromAlias, 0, start).value;
      UsedUp(g, start, siblings.known);
      SmallerSet(Unused(g, siblings.known), Unused(g, start));
      ghost var below := EmitBelow(g, fromAlias, 0, siblings.known);
      assert Emit(g, fromAlias, start) == After(siblings.order, below);
      hide Emit, EmitSiblings, EmitBelow, Unused;
      var sql := r.value;
      r := WriteBelow(fromAlias, aliases);
      if r.Err? {
        return;
      }
      RenderAppend(g, siblings.order, below.value.order);
      r := Ok(sql + r.value);
    }

    /** The second loop: what hangs from the joins of one alias. */
    method WriteBelow(fromAlias: string, aliases: AliasSet) returns (r: Result<string, Error>)
      modifies aliases
      ensures var e := EmitBelow(joins, fromAlias, 0, old(aliases.known));
              if e.Err? then r == Err(e.error)
              else r == Ok(Render(joins, e.value.order)) && aliases.known == e.value.known
      decreases |Unused(joins, aliases.known)|, 1
    {
      var g := joins;
      var sql, list := "", JoinsOf(g, fromAlias);
      ghost var start, order: seq<Placed> := aliases.known, [];
      ghost var below := EmitBelow(g, fromAlias, 0, start);
      assert Render(g, order) == "";
      AfterNothing(below);
      hide Render, EmitBelow, Unused, Emit, After;
      for i := 0 to |list|
        invariant start <= aliases.known
        invariant below == After(order, EmitBelow(g, fromAlias, i, aliases.known))
        invariant sql == Render(g, order)
      {
        FewerUnused(g, start, aliases.known);
        BelowStep(g, fromAlias, i, aliases.known, order);
        ghost var first := Emit(g, list[i].alias, aliases.known);
        var more := GetSqlForJoins(list[i].alias, aliases);
        if more.Err? {
          return more;
        }
        RenderAppend(g, order, first.value.order);
        sql := sql + more.value;
        order := order + first.value.order;
      }
      SiblingsEnd(g, fromAlias, aliases.known, order);
      r := Ok(sql);
    }

    method GetFromClauses() returns (r: Result<seq<string>, Error>)
      ensures match FromClauses(joins, from)
              case Err(e) => r == Err(e)
              case Ok(orders) =>
                && r.Ok? && |r.value| == |from| == |orders|
                && forall i | 0 <= i < |from| :: r.value[i] == from[i].Sql() + Render(joins, orders[i])
    {
      hide Render, Emit;
      var clauses: seq<string> := [];
      var known := new AliasSet();
      ghost var orders: seq<seq<Placed>> := [];
      assert from[0..] == from;
      AfterNoClauses(EmitFroms(joins, from, {}));
      for i := 0 to |from|
        invariant |clauses| == |orders| == i
        invariant EmitFroms(joins, from, {}) == AfterClauses(orders, EmitFroms(joins, from[i..], known.known))
        invariant forall k | 0 <= k < i :: clauses[k] == from[k].Sql() + Render(joins, orders[k])
      {
        assert from[i..][0] == from[i] && from[i..][1..] == from[i + 1..];
        var tableSql, reference := from[i].table, from[i].table;
        if from[i].alias.Some? && from[i].alias.value != from[i].table {
          tableSql, reference := from[i].table + " " + from[i].alias.value, from[i].alias.value;
        }
        known.known := known.known + {reference};
        ghost var first := Emit(joins, reference, known.known);
        var sql := GetSqlForJoins(reference, known);
        if sql.Err? {
          return Err(sql.error);
        }
        AfterTwoClauses(orders, [first.value.order], EmitFroms(joins, from[i + 1..], first.value.known));
        clauses := clauses + [tableSql + sql.value];
        orders := orders + [first.value.order];
      }
      assert orders + [] == orders;
      if exists k | k in joins :: k !in known.known {
        return Err(UnknownAlias);
      }
      r := Ok(clauses);
    }

    // -------------------------------------------------------------------------------------
    // where, andWhere, orWhere
    // -------------------------------------------------------------------------------------

    method CreatePredicate(predicates: seq<Predicate>) returns (r: Predicate)
      requires predicates != []
      ensures forall env :: Holds(r, env) == AllHold(predicates, env)
      ensures forall env | forall i | 0 <= i < |predicates| :: WellFormed(predicates[i], env) :: WellFormed(r, env)
    {
      if |predicates| == 1 {
        return predicates[0];
      }
      r := Composite(TypeAnd, predicates);
    }

    method AppendToPredicate(current: Option<Predicate>, kind: Type, predicates: seq<Predicate>) returns (r: Predicate)
      requires predicates != []
      ensures forall env ::
                Holds(r, env) ==
                if kind == TypeAnd then (current.Some? ==> Holds(current.value, env)) && AllHold(predicates, env)
                else (current.Some? && Holds(current.value, env)) || AnyHolds(predicates, env)
      ensures forall env | (current.Some? ==> WellFormed(current.value, env))
                           && forall i | 0 <= i < |predicates| :: WellFormed(predicates[i], env) :: WellFormed(r, env)
    {
      if current.Some? && current.value.Composite? && current.value.kind == kind {
        r := With(current.value, predicates);
        forall env: Assignment
          ensures AllHold(r.parts, env) == (AllHold(current.value.parts, env) && AllHold(predicates, env))
          ensures AnyHolds(r.parts, env) == (AnyHolds(current.value.parts, env) || AnyHolds(predicates, env))
        {
          HoldAppend(current.value.parts, predicates, env);
        }
        forall env: Assignment
          ensures Holds(current.value, env) == if kind == TypeAnd then AllHold(current.value.parts, env)
                  else AnyHolds(current.value.parts, env)
          ensures Holds(r, env) == if kind == TypeAnd then AllHold(r.parts, env) else AnyHolds(r.parts, env)
        {
        }
        return;
      }
      var all := predicates;
      if current.Some? {
        all := [current.value] + predicates;
        forall env: Assignment
          ensures AllHold(all, env) == (Holds(current.value, env) && AllHold(predicates, env))
          ensures AnyHolds(all, env) == (Holds(current.value, env) || AnyHolds(predicates, env))
        {
          HoldAppend([current.value], predicates, env);
          OneHolds(current.value, env);
        }
      } else if |predicates| == 1 {
        return predicates[0];
      }
      r := Composite(kind, all);
    }

    method Where(predicates: seq<Predicate>)
      requires predicates != []
      modifies this`where
      ensures where.Some?
      ensures forall env :: Condition(where, env) == Folded(Condition(old(where), env), [Call.Where(predicates)], env)
      ensures forall env | CallWellFormed(Call.Where(predicates), env) :: WellFormed(where.value, env)
    {
      var p := CreatePredicate(predicates);
      where := Some(p);
    }

    method AndWhere(predicates: seq<Predicate>)
      requires predicates != []
      modifies this`where
      ensures where.Some?
      ensures forall env ::
                Condition(where, env) == Folded(Condition(old(where), env), [Call.AndWhere(predicates)], env)
      ensures forall env | CallWellFormed(Call.AndWhere(predicates), env)
              && (old(where).Some? ==> WellFormed(old(where).value, env)) ::
                WellFormed(where.value, env)
    {
      var p := AppendToPredicate(where, TypeAnd, predicates);
      where := Some(p);
    }

    method OrWhere(predicates: seq<Predicate>)
      requires predicates != []
      modifies this`where
      ensures where.Some?
      ensures forall env :: Condition(where, env) == Folded(Condition(old(where), env), [Call.OrWhere(predicates)], env)
      ensures forall env | CallWellFormed(Call.OrWhere(predicates), env)
              && (old(where).Some? ==> WellFormed(old(where).value, env)) ::
                WellFormed(where.value, env)
    {
      var p := AppendToPredicate(where, TypeOr, predicates);
      where := Some(p);
    }

    /**
      * Any run of the calls: the condition is the left-to-right fold of the calls, and the text in
      * the query, read with AND tighter than OR, has the same truth value.
      */
    method Run(calls: seq<Call>)
      requires forall c | c in calls :: c.predicates != []
      modifies this`where
      ensures forall env :: Condition(where, env) == Folded(Condition(old(where), env), calls, env)
      ensures forall env | (old(where).Some? ==> WellFormed(old(where).value, env))
                           && (forall c | c in calls :: CallWellFormed(c, env)) && where.Some? ::
                ReadOr(ToText(where.value), env)
                    == Some(Reading(Folded(Condition(old(where), env), calls, env).value, []))
    {
      for i := 0 to |calls|
        invariant where.Some? || where == old(where)
        invariant forall env :: Condition(where, env) == Folded(Condition(old(where), env), calls[..i], env)
        invariant forall env | (old(where).Some? ==> WellFormed(old(where).value, env))
                               && (forall c | c in calls :: CallWellFormed(c, env)) && where.Some? ::
                    WellFormed(where.value, env)
      {
        assert calls[..i + 1][..i] == calls[..i] && calls[..i + 1][i] == calls[i] && calls[i] in calls;
        ghost var before := where;
        match calls[i] {
          case Where(ps) => Where(ps);
          case AndWhere(ps) => AndWhere(ps);
          case OrWhere(ps) => OrWhere(ps);
        }
        forall env: Assignment
          ensures Condition(where, env) == Folded(Condition(old(where), env), calls[..i + 1], env)
        {
          FoldedNext(Condition(old(where), env), calls, i, env);
          assert Condition(where, env) == Folded(Condition(before, env), [calls[i]], env);
        }
      }
      assert calls[..|calls|] == calls;
      forall env: Assignment | (old(where).Some? ==> WellFormed(old(where).value, env))
                               && (forall c | c in calls :: CallWellFormed(c, env)) && where.Some?
        ensures ReadOr(ToText(where.value), env)
                == Some(Reading(Folded(Condition(old(where), env), calls, env).value, []))
      {
        assert WellFormed(where.value, env);
        TextMeansPredicate(where.value, env);
        assert Condition(where, env) == Folded(Condition(old(where), env), calls, env);
      }
    }
  }
}
