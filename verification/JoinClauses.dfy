/** The text of joins, step by step (src/query/query-builder.ts). */
module JoinClauses {
  import opened Text
  import opened Joins

  function TypeSql(t: JoinType): string {
    match t case Inner => "INNER" case Left => "LEFT" case Right => "RIGHT"
  }

  /** The text of a join, written out. */
  function JoinSql(j: Join): string {
    (match j.kind case Inner => " INNER JOIN " case Left => " LEFT JOIN " case Right => " RIGHT JOIN ")
    + j.table + " " + j.alias
    + match j.condition case None => "" case Some(condition) => " ON " + condition
  }

  function Render(g: Graph, order: seq<Placed>): string {
    if order == [] then ""
    else
      var last := order[|order| - 1];
      Render(g, order[..|order| - 1]) + if Registered(g, last) then JoinSql(JoinsOf(g, last.parent)[last.index]) else ""
  }

  lemma RenderNext(g: Graph, order: seq<Placed>, p: Placed)
    ensures Render(g, order + [p]) == Render(g, order) + if Registered(g, p)
            then JoinSql(JoinsOf(g, p.parent)[p.index]) else ""
  {
    hide JoinSql;
    assert (order + [p])[..|order|] == order;
  }

  lemma JoinText(join: Join)
    ensures var joined := join.table + " " + join.alias;
            var on := if join.condition.Some? then joined + " ON " + join.condition.value else joined;
            && (join.kind == Inner ==> JoinSql(join) == " INNER JOIN " + on)
            && (join.kind == Left ==> JoinSql(join) == " LEFT JOIN " + on)
            && (join.kind == Right ==> JoinSql(join) == " RIGHT JOIN " + on)
  {
    var start := match join.kind case Inner => " INNER JOIN " case Left => " LEFT JOIN " case Right => " RIGHT JOIN ";
    FourParts(start, join.table, join.alias, if join.condition.Some? then " ON " + join.condition.value else "");
    var joined := join.table + " " + join.alias;
    if join.condition.Some? {
      assert joined + (" ON " + join.condition.value) == joined + " ON " + join.condition.value;
    } else {
      assert joined + "" == joined;
    }
  }

  lemma FourParts(start: string, table: string, alias: string, on: string)
    ensures start + table + " " + alias + on == start + (table + " " + alias + on)
  {
  }

  /** A FROM clause names the alias unless it is the table. */
  lemma FromIsWritten(table: string, alias: string)
    ensures Joins.From(table, None).Sql() == table
    ensures Joins.From(table, Some(alias)).Sql() == if alias == table then table else table + " " + alias
  {
  }

  /** What one more join adds to the text. */
  lemma JoinIsWritten(g: Graph, order: seq<Placed>, p: Placed, join: Join)
    requires Registered(g, p) && join == JoinsOf(g, p.parent)[p.index]
    ensures var before, after := Render(g, order), Render(g, order + [p]);
            var joined := join.table + " " + join.alias;
            var on := if join.condition.Some? then joined + " ON " + join.condition.value else joined;
            && (join.kind == Inner ==> after == before + (" INNER JOIN " + on))
            && (join.kind == Left ==> after == before + (" LEFT JOIN " + on))
            && (join.kind == Right ==> after == before + (" RIGHT JOIN " + on))
  {
    hide Render, JoinSql;
    RenderNext(g, order, p);
    JoinText(join);
  }

  lemma {:induction false} RenderAppend(g: Graph, a: seq<Placed>, b: seq<Placed>)
    ensures Render(g, a + b) == Render(g, a) + Render(g, b)
    decreases |b|
  {
    if b == [] {
      assert a + b == a;
    } else {
      hide Render, JoinSql;
      var c, last := b[..|b| - 1], b[|b| - 1];
      assert a + b == a + c + [last] && b == c + [last];
      RenderAppend(g, a, c);
      RenderNext(g, a + c, last);
      RenderNext(g, c, last);
      Regroup(Render(g, a), Render(g, c), if Registered(g, last) then JoinSql(JoinsOf(g, last.parent)[last.index])
              else "");
    }
  }

  lemma Regroup(a: string, b: string, c: string)
    ensures (a + b) + c == a + (b + c)
  {
  }

  /** The set that the whole recursion shares. */
  class AliasSet {
    var known: set<string>

    constructor ()
      ensures known == {}
    {
      known := {};
    }
  }

  /** What follows the joins written so far. */
  function After(order: seq<Placed>, r: Result<Emission, Error>): Result<Emission, Error> {
    if r.Err? then r else Ok(Emission(order + r.value.order, r.value.known))
  }

  lemma AfterTwo(a: seq<Placed>, b: seq<Placed>, r: Result<Emission, Error>)
    ensures After(a + b, r) == After(a, After(b, r))
  {
    if r.Ok? {
      assert a + b + r.value.order == a + (b + r.value.order);
    }
  }

  lemma SiblingStep(g: Graph, parent: string, i: nat, known: set<string>, order: seq<Placed>)
    requires i < |JoinsOf(g, parent)| && JoinsOf(g, parent)[i].alias !in known
    ensures var p, join := Placed(parent, i), JoinsOf(g, parent)[i];
            && After(order, EmitSiblings(g, parent, i, known))
               == After(order + [p], EmitSiblings(g, parent, i + 1, known + {join.alias}))
            && Render(g, order + [p]) == Render(g, order) + JoinSql(join)
  {
    hide JoinSql;
    var p, rest := Placed(parent, i), EmitSiblings(g, parent, i + 1, known + {JoinsOf(g, parent)[i].alias});
    AfterTwo(order, [p], rest);
    assert (order + [p])[..|order|] == order;
  }

  lemma SiblingsEnd(g: Graph, parent: string, known: set<string>, order: seq<Placed>)
    ensures After(order, EmitSiblings(g, parent, |JoinsOf(g, parent)|, known)) == Ok(Emission(order, known))
    ensures After(order, EmitBelow(g, parent, |JoinsOf(g, parent)|, known)) == Ok(Emission(order, known))
  {
    assert order + [] == order;
  }

  lemma SiblingClash(g: Graph, parent: string, i: nat, known: set<string>, order: seq<Placed>)
    requires i < |JoinsOf(g, parent)| && JoinsOf(g, parent)[i].alias in known
    ensures After(order, EmitSiblings(g, parent, i, known)) == Err(NonUniqueAlias)
  {
  }

  lemma BelowStep(g: Graph, parent: string, i: nat, known: set<string>, order: seq<Placed>)
    requires i < |JoinsOf(g, parent)|
    ensures var first := Emit(g, JoinsOf(g, parent)[i].alias, known);
            After(order, EmitBelow(g, parent, i, known))
            == if first.Err? then first
               else After(order + first.value.order, EmitBelow(g, parent, i + 1, first.value.known))
  {
    var first := Emit(g, JoinsOf(g, parent)[i].alias, known);
    if first.Ok? {
      var rest := EmitBelow(g, parent, i + 1, first.value.known);
      AfterTwo(order, first.value.order, rest);
      assert EmitBelow(g, parent, i, known) == After(first.value.order, rest);
    }
  }

  function AfterClauses(orders: seq<seq<Placed>>, r: Result<Clauses, Error>): Result<Clauses, Error> {
    if r.Err? then r else Ok(Clauses(orders + r.value.orders, r.value.known))
  }

  lemma AfterNoClauses(r: Result<Clauses, Error>)
    ensures AfterClauses([], r) == r
  {
    if r.Ok? {
      assert [] + r.value.orders == r.value.orders;
    }
  }

  lemma AfterTwoClauses(a: seq<seq<Placed>>, b: seq<seq<Placed>>, r: Result<Clauses, Error>)
    ensures AfterClauses(a + b, r) == AfterClauses(a, AfterClauses(b, r))
  {
    if r.Ok? {
      assert a + b + r.value.orders == a + (b + r.value.orders);
    }
  }

  lemma AfterNothing(r: Result<Emission, Error>)
    ensures After([], r) == r
  {
    if r.Ok? {
      assert [] + r.value.order == r.value.order;
    }
  }
}
