/**
  * FROM and JOIN clauses of QueryBuilder (src/query/query-builder.ts): a recursive emission over
  * an arbitrary join graph, with a set of known aliases that the whole recursion shares.
  */
module Joins {
  import opened Text

  datatype JoinType = Inner | Left | Right

  datatype Join = Join(kind: JoinType, table: string, alias: string, condition: Option<string>)

  datatype From = From(table: string, alias: Option<string>) {

    function Reference(): string {
      if alias.None? || alias.value == table then table else alias.value
    }

    function Sql(): string {
      if alias.None? || alias.value == table then table else table + " " + alias.value
    }
  }

  /** The registered joins, by the alias they hang from. */
  type Graph = map<string, seq<Join>>

  /** A registered join: its parent and its position among the joins of that parent. */
  datatype Placed = Placed(parent: string, index: nat)

  function JoinsOf(g: Graph, parent: string): seq<Join> { if parent in g then g[parent] else [] }

  predicate Registered(g: Graph, p: Placed) { p.index < |JoinsOf(g, p.parent)| }

  function Alias(g: Graph, p: Placed): string { if Registered(g, p) then JoinsOf(g, p.parent)[p.index].alias else "" }

  function AllAliases(g: Graph): set<string> { set k, j | k in g && j in g[k] :: j.alias }

  function Aliases(g: Graph, order: seq<Placed>): set<string> { set p | p in order :: Alias(g, p) }

  datatype Error = NonUniqueAlias | UnknownAlias

  /** The joins in the order they are written, and the aliases known then. */
  datatype Emission = Emission(order: seq<Placed>, known: set<string>)

  // ---------------------------------------------------------------------------------------
  // The recursion
  // ---------------------------------------------------------------------------------------

  /** The joins of one parent from position i on, unless one of their aliases is known. */
  function EmitSiblings(g: Graph, parent: string, i: nat, known: set<string>): (r: Result<Emission, Error>)
    requires i <= |JoinsOf(g, parent)|
    ensures r.Ok? ==> r.value.known == known + Aliases(g, r.value.order)
    ensures r.Ok? && i < |JoinsOf(g, parent)| ==> known < r.value.known && r.value.known <= known + AllAliases(g)
    ensures r.Ok? ==> r.value.known <= known + AllAliases(g)
    decreases |JoinsOf(g, parent)| - i
  {
    if i == |JoinsOf(g, parent)| then Ok(Emission([], known))
    else
      var join := JoinsOf(g, parent)[i];
      if join.alias in known then Err(NonUniqueAlias)
      else
        assert Alias(g, Placed(parent, i)) == join.alias && join in g[parent] && join.alias in AllAliases(g);
        var rest := EmitSiblings(g, parent, i + 1, known + {join.alias});
        if rest.Err? then rest
        else Ok(Emission([Placed(parent, i)] + rest.value.order, rest.value.known))
  }

  /** The aliases that no join has used yet bound the depth of the recursion. */
  function Unused(g: Graph, known: set<string>): set<string> { AllAliases(g) - known }

  /** The joins of one parent, and then everything that hangs from them. */
  function Emit(g: Graph, parent: string, known: set<string>): (r: Result<Emission, Error>)
    ensures r.Ok? ==> known <= r.value.known
    decreases |Unused(g, known)|, 0
  {
    var siblings := EmitSiblings(g, parent, 0, known);
    if siblings.Err? || JoinsOf(g, parent) == [] then siblings
    else
      assert Unused(g, siblings.value.known) < Unused(g, known) by {
        UsedUp(g, known, siblings.value.known);
      }
      SmallerSet(Unused(g, siblings.value.known), Unused(g, known));
      var below := EmitBelow(g, parent, 0, siblings.value.known);
      if below.Err? then below
      else Ok(Emission(siblings.value.order + below.value.order, below.value.known))
  }

  /** What hangs from the joins of one parent from position i on. */
  function EmitBelow(g: Graph, parent: string, i: nat, known: set<string>): (r: Result<Emission, Error>)
    requires i <= |JoinsOf(g, parent)|
    ensures r.Ok? ==> known <= r.value.known
    decreases |Unused(g, known)|, |JoinsOf(g, parent)| - i + 1
  {
    if i == |JoinsOf(g, parent)| then Ok(Emission([], known))
    else
      var first := Emit(g, JoinsOf(g, parent)[i].alias, known);
      if first.Err? then first
      else
        FewerUnused(g, known, first.value.known);
        var rest := EmitBelow(g, parent, i + 1, first.value.known);
        if rest.Err? then rest
        else Ok(Emission(first.value.order + rest.value.order, rest.value.known))
  }

  lemma UsedUp(g: Graph, known: set<string>, known': set<string>)
    requires known < known' <= known + AllAliases(g)
    ensures Unused(g, known') < Unused(g, known)
  {
    var a :| a in known' && a !in known;
    assert a in Unused(g, known) && a !in Unused(g, known');
  }

  lemma SmallerSet<T>(a: set<T>, b: set<T>)
    requires a < b
    ensures |a| < |b|
  {
    var x :| x in b && x !in a;
    SubsetSize(a, b - {x});
  }

  lemma SubsetSize<T>(a: set<T>, b: set<T>)
    requires a <= b
    ensures |a| <= |b|
  {
    if a != {} {
      var x :| x in a;
      SubsetSize(a - {x}, b - {x});
    }
  }

  lemma FewerUnused(g: Graph, known: set<string>, known': set<string>)
    requires known <= known'
    ensures |Unused(g, known')| <= |Unused(g, known)|
  {
    SubsetSize(Unused(g, known'), Unused(g, known));
  }

  // ---------------------------------------------------------------------------------------
  // What one emission is
  // ---------------------------------------------------------------------------------------

  /** Only registered joins, no alias that is known or repeated, each after the alias it hangs from. */
  ghost predicate Sound(g: Graph, roots: set<string>, known: set<string>, order: seq<Placed>) {
    && (forall p | p in order :: Registered(g, p))
    && (forall i | 0 <= i < |order| :: Alias(g, order[i]) !in known)
    && (forall i, j | 0 <= i < j < |order| :: Alias(g, order[i]) != Alias(g, order[j]))
    && (forall i | 0 <= i < |order| :: order[i].parent in roots || ComesBefore(g, order, i))
  }

  /** The parent of a join is the alias of an earlier one. */
  ghost predicate ComesBefore(g: Graph, order: seq<Placed>, i: nat)
    requires i < |order|
  {
    exists j | 0 <= j < i :: Alias(g, order[j]) == order[i].parent
  }

  /** Everything that hangs from the roots or from an emitted join is emitted. */
  ghost predicate Complete(g: Graph, roots: set<string>, order: seq<Placed>) {
    forall p | Registered(g, p) && (p.parent in roots || p.parent in Aliases(g, order)) :: p in order
  }

  ghost predicate Good(g: Graph, roots: set<string>, known: set<string>, e: Emission) {
    Sound(g, roots, known, e.order) && e.known == known + Aliases(g, e.order)
  }

  lemma AliasesAppend(g: Graph, a: seq<Placed>, b: seq<Placed>)
    ensures Aliases(g, a + b) == Aliases(g, a) + Aliases(g, b)
  {
  }

  lemma SoundAppend(g: Graph, roots: set<string>, roots': set<string>, known: set<string>, a: seq<Placed>,
                    b: seq<Placed>)
    requires Sound(g, roots, known, a) && Sound(g, roots', known + Aliases(g, a), b)
    ensures Sound(g, roots + (roots' - Aliases(g, a)), known, a + b)
  {
    var c := a + b;
    forall i | 0 <= i < |c|
      ensures Alias(g, c[i]) !in known
      ensures c[i].parent in roots + (roots' - Aliases(g, a)) || ComesBefore(g, c, i)
    {
      if i < |a| {
        if ComesBefore(g, a, i) {
          var j :| 0 <= j < i && Alias(g, a[j]) == a[i].parent;
          assert Alias(g, c[j]) == c[i].parent;
        }
      } else if c[i].parent in Aliases(g, a) {
        var p :| p in a && Alias(g, p) == c[i].parent;
        var j :| 0 <= j < |a| && a[j] == p;
        assert Alias(g, c[j]) == c[i].parent;
      } else if c[i].parent !in roots' {
        var j :| 0 <= j < i - |a| && Alias(g, b[j]) == b[i - |a|].parent;
        assert Alias(g, c[j + |a|]) == c[i].parent;
      }
    }
    forall i, j | 0 <= i < j < |c|
      ensures Alias(g, c[i]) != Alias(g, c[j])
    {
      if i < |a| <= j {
        assert a[i] in a && Alias(g, a[i]) in Aliases(g, a);
      }
    }
  }

  lemma SoundMore(g: Graph, roots: set<string>, roots': set<string>, known: set<string>, order: seq<Placed>)
    requires Sound(g, roots, known, order) && roots <= roots'
    ensures Sound(g, roots', known, order)
  {
  }

  lemma GoodAppend(g: Graph, roots: set<string>, roots': set<string>, all: set<string>, known: set<string>,
                   a: Emission, b: Emission)
    requires Good(g, roots, known, a) && Good(g, roots', a.known, b)
    requires roots + (roots' - Aliases(g, a.order)) <= all
    ensures Good(g, all, known, Emission(a.order + b.order, b.known))
  {
    AliasesAppend(g, a.order, b.order);
    SoundAppend(g, roots, roots', known, a.order, b.order);
    SoundMore(g, roots + (roots' - Aliases(g, a.order)), all, known, a.order + b.order);
  }

  lemma CompleteBoth(g: Graph, roots: set<string>, roots': set<string>, a: seq<Placed>, b: seq<Placed>)
    requires Complete(g, roots, a) && Complete(g, roots', b)
    ensures Complete(g, roots + roots', a + b)
  {
    AliasesAppend(g, a, b);
  }

  lemma CompleteBelow(g: Graph, parent: string, a: seq<Placed>, b: seq<Placed>)
    requires Lists(g, parent, 0, a) && Complete(g, AliasesFrom(g, parent, 0), b)
    ensures Complete(g, {parent}, a + b)
  {
    AliasesAppend(g, a, b);
  }

  lemma OneIsGood(g: Graph, p: Placed, known: set<string>)
    requires Registered(g, p) && Alias(g, p) !in known
    ensures Good(g, {p.parent}, known, Emission([p], known + {Alias(g, p)}))
  {
    assert p in [p];
    assert Aliases(g, [p]) == {Alias(g, p)};
  }

  /** All joins of the parent from position i on, and nothing but them. */
  ghost predicate Lists(g: Graph, parent: string, i: nat, order: seq<Placed>) {
    && (forall p | Registered(g, p) && p.parent == parent && p.index >= i :: p in order)
    && Aliases(g, order) <= AliasesFrom(g, parent, i)
  }

  lemma ListsNext(g: Graph, parent: string, i: nat, rest: seq<Placed>)
    requires i < |JoinsOf(g, parent)| && Lists(g, parent, i + 1, rest)
    ensures Lists(g, parent, i, [Placed(parent, i)] + rest)
  {
    AliasesAppend(g, [Placed(parent, i)], rest);
    forall p | Registered(g, p) && p.parent == parent && p.index >= i
      ensures p in [Placed(parent, i)] + rest
    {
      assert p.index == i || p in rest;
    }
  }

  lemma {:induction false} SiblingsAreGood(g: Graph, parent: string, i: nat, known: set<string>)
    requires i <= |JoinsOf(g, parent)|
    ensures var r := EmitSiblings(g, parent, i, known);
            r.Ok? ==> Good(g, {parent}, known, r.value) && Lists(g, parent, i, r.value.order)
    decreases |JoinsOf(g, parent)| - i
  {
    hide Good, Aliases, Lists, JoinsOf, AllAliases, Alias;
    if i == |JoinsOf(g, parent)| {
      NothingIsGood(g, {parent}, known);
      NothingListed(g, parent);
    } else if EmitSiblings(g, parent, i, known).Ok? {
      var p := Placed(parent, i);
      SiblingsUnfold(g, parent, i, known);
      hide EmitSiblings;
      SiblingsAreGood(g, parent, i + 1, known + {Alias(g, p)});
      OneIsGood(g, p, known);
      var rest := EmitSiblings(g, parent, i + 1, known + {Alias(g, p)}).value;
      assert {parent} + ({parent} - Aliases(g, [p])) <= {parent};
      GoodAppend(g, {parent}, {parent}, {parent}, known, Emission([p], known + {Alias(g, p)}), rest);
      ListsNext(g, parent, i, rest.order);
    }
  }

  lemma SiblingsUnfold(g: Graph, parent: string, i: nat, known: set<string>)
    requires i < |JoinsOf(g, parent)| && EmitSiblings(g, parent, i, known).Ok?
    ensures var p := Placed(parent, i);
            && Registered(g, p) && Alias(g, p) !in known
            && var rest := EmitSiblings(g, parent, i + 1, known + {Alias(g, p)});
            && rest.Ok?
            && EmitSiblings(g, parent, i, known).value == Emission([p] + rest.value.order, rest.value.known)
  {
    hide Aliases, AllAliases;
  }

  lemma NothingListed(g: Graph, parent: string)
    ensures Lists(g, parent, |JoinsOf(g, parent)|, [])
  {
  }

  lemma NothingIsGood(g: Graph, roots: set<string>, known: set<string>)
    ensures Good(g, roots, known, Emission([], known)) && Aliases(g, []) == {}
  {
  }

  /** The aliases of one parent's joins from position i on. */
  function AliasesFrom(g: Graph, parent: string, i: nat): set<string> {
    set k | i <= k < |JoinsOf(g, parent)| :: JoinsOf(g, parent)[k].alias
  }

  lemma {:induction false} EmitIsGood(g: Graph, parent: string, known: set<string>)
    ensures var r := Emit(g, parent, known);
            r.Ok? ==> Good(g, {parent}, known, r.value) && Complete(g, {parent}, r.value.order)
    decreases |Unused(g, known)|, 0
  {
    var r := Emit(g, parent, known);
    SiblingsAreGood(g, parent, 0, known);
    hide Good, Complete, Aliases, AliasesFrom, Lists;
    if r.Ok? && JoinsOf(g, parent) != [] {
      var siblings := EmitSiblings(g, parent, 0, known).value;
      UsedUp(g, known, siblings.known);
      SmallerSet(Unused(g, siblings.known), Unused(g, known));
      BelowIsGood(g, parent, 0, siblings.known);
      assert BelowGood(g, parent, 0, siblings.known);
      var below := EmitBelow(g, parent, 0, siblings.known).value;
      hide Emit, EmitSiblings, EmitBelow;
      GoodBelow(g, parent, known, siblings, below);
      CompleteBelow(g, parent, siblings.order, below.order);
    } else if r.Ok? {
      CompleteNothing(g, parent);
    }
  }

  lemma CompleteNothing(g: Graph, parent: string)
    requires JoinsOf(g, parent) == []
    ensures Complete(g, {parent}, [])
  {
  }

  lemma GoodBelow(g: Graph, parent: string, known: set<string>, a: Emission, b: Emission)
    requires Good(g, {parent}, known, a) && Good(g, AliasesFrom(g, parent, 0), a.known, b)
    requires Lists(g, parent, 0, a.order)
    ensures Good(g, {parent}, known, Emission(a.order + b.order, b.known))
  {
    forall x | x in AliasesFrom(g, parent, 0)
      ensures x in Aliases(g, a.order)
    {
      var k :| 0 <= k < |JoinsOf(g, parent)| && JoinsOf(g, parent)[k].alias == x;
      assert Placed(parent, k) in a.order;
    }
    hide Good, Aliases, AliasesFrom;
    GoodAppend(g, {parent}, AliasesFrom(g, parent, 0), {parent}, known, a, b);
  }

  lemma {:induction false} BelowIsGood(g: Graph, parent: string, i: nat, known: set<string>)
    requires i <= |JoinsOf(g, parent)|
    ensures BelowGood(g, parent, i, known)
    decreases |Unused(g, known)|, |JoinsOf(g, parent)| - i + 1
  {
    if i == |JoinsOf(g, parent)| {
      NothingBelow(g, parent, known);
    } else {
      hide BelowGood, Good, Complete, Unused, EmitBelow;
      var alias := JoinsOf(g, parent)[i].alias;
      EmitIsGood(g, alias, known);
      if Emit(g, alias, known).Ok? {
        var next := Emit(g, alias, known).value.known;
        FewerUnused(g, known, next);
        BelowIsGood(g, parent, i + 1, next);
      }
      BelowNext(g, parent, i, known);
    }
  }

  ghost predicate BelowGood(g: Graph, parent: string, i: nat, known: set<string>)
    requires i <= |JoinsOf(g, parent)|
  {
    var r := EmitBelow(g, parent, i, known);
    r.Ok? ==>
      Good(g, AliasesFrom(g, parent, i), known, r.value) && Complete(g, AliasesFrom(g, parent, i), r.value.order)
  }

  lemma BelowNext(g: Graph, parent: string, i: nat, known: set<string>)
    requires i < |JoinsOf(g, parent)|
    requires var a := JoinsOf(g, parent)[i].alias; var first := Emit(g, a, known);
             first.Ok? ==> && Good(g, {a}, known, first.value) && Complete(g, {a}, first.value.order)
                           && BelowGood(g, parent, i + 1, first.value.known)
    ensures BelowGood(g, parent, i, known)
  {
    hide Good, Complete, Emit, AliasesFrom;
    var first := Emit(g, JoinsOf(g, parent)[i].alias, known);
    if EmitBelow(g, parent, i, known).Ok? {
      BelowAppend(g, parent, i, known, first.value, EmitBelow(g, parent, i + 1, first.value.known).value);
    }
  }

  lemma NothingBelow(g: Graph, parent: string, known: set<string>)
    ensures BelowGood(g, parent, |JoinsOf(g, parent)|, known)
  {
    var roots := AliasesFrom(g, parent, |JoinsOf(g, parent)|);
    NothingIsGood(g, roots, known);
    assert roots == {};
    assert Complete(g, roots, []);
  }

  lemma BelowAppend(g: Graph, parent: string, i: nat, known: set<string>, first: Emission, rest: Emission)
    requires i < |JoinsOf(g, parent)|
    requires var a := JoinsOf(g, parent)[i].alias; Good(g, {a}, known, first) && Complete(g, {a}, first.order)
    requires Good(g, AliasesFrom(g, parent, i + 1), first.known, rest)
             && Complete(g, AliasesFrom(g, parent, i + 1), rest.order)
    ensures Good(g, AliasesFrom(g, parent, i), known, Emission(first.order + rest.order, rest.known))
    ensures Complete(g, AliasesFrom(g, parent, i), first.order + rest.order)
  {
    hide Good, Complete, Aliases;
    var a, below := JoinsOf(g, parent)[i].alias, AliasesFrom(g, parent, i + 1);
    assert AliasesFrom(g, parent, i) == {a} + below;
    hide AliasesFrom;
    GoodAppend(g, {a}, below, {a} + below, known, first, rest);
    CompleteBoth(g, {a}, below, first.order, rest.order);
  }

  // ---------------------------------------------------------------------------------------
  // All FROM clauses
  // ---------------------------------------------------------------------------------------

  /** One order per FROM clause, and the aliases known in the end. */
  datatype Clauses = Clauses(orders: seq<seq<Placed>>, known: set<string>)

  function EmitFroms(g: Graph, froms: seq<From>, known: set<string>): Result<Clauses, Error> {
    if froms == [] then Ok(Clauses([], known))
    else
      var first := Emit(g, froms[0].Reference(), known + {froms[0].Reference()});
      if first.Err? then Err(first.error)
      else
        var rest := EmitFroms(g, froms[1..], first.value.known);
        if rest.Err? then rest else Ok(Clauses([first.value.order] + rest.value.orders, rest.value.known))
  }

  /** getFromClauses: every alias that joins hang from has to be known in the end. */
  function FromClauses(g: Graph, froms: seq<From>): Result<seq<seq<Placed>>, Error> {
    var r := EmitFroms(g, froms, {});
    if r.Err? then Err(r.error)
    else if exists k | k in g :: k !in r.value.known then Err(UnknownAlias)
    else Ok(r.value.orders)
  }

  function Flatten(orders: seq<seq<Placed>>): seq<Placed> {
    if orders == [] then [] else orders[0] + Flatten(orders[1..])
  }

  function References(froms: seq<From>): set<string> { set f | f in froms :: f.Reference() }

  lemma ReferencesNext(froms: seq<From>)
    requires froms != []
    ensures References(froms) == {froms[0].Reference()} + References(froms[1..])
  {
    assert froms == [froms[0]] + froms[1..];
  }

  /** Each join of a clause hangs from the table of the clause or from a join before it. */
  ghost predicate InPlace(g: Graph, froms: seq<From>, orders: seq<seq<Placed>>) {
    && |orders| == |froms|
    && forall i, j | 0 <= i < |orders| && 0 <= j < |orders[i]| ::
         orders[i][j].parent == froms[i].Reference() || ComesBefore(g, orders[i], j)
  }

  lemma {:induction false} FromsAreGood(g: Graph, froms: seq<From>, known: set<string>)
    ensures var r := EmitFroms(g, froms, known);
            r.Ok? ==>
              var order := Flatten(r.value.orders);
              && Sound(g, References(froms), known, order)
              && Complete(g, References(froms), order)
              && r.value.known == known + References(froms) + Aliases(g, order)
              && InPlace(g, froms, r.value.orders)
    decreases |froms|
  {
    var r := EmitFroms(g, froms, known);
    if froms != [] && r.Ok? {
      var ref := froms[0].Reference();
      var first := Emit(g, ref, known + {ref}).value;
      EmitIsGood(g, ref, known + {ref});
      FromsAreGood(g, froms[1..], first.known);
      var rest := EmitFroms(g, froms[1..], first.known).value;
      hide Emit, EmitFroms;
      ReferencesNext(froms);
      FlattenTwo(first.order, rest.orders);
      FromsAppend(g, froms, known, first, rest);
    }
  }

  lemma FlattenTwo(a: seq<Placed>, orders: seq<seq<Placed>>)
    ensures Flatten([a] + orders) == a + Flatten(orders)
  {
    assert ([a] + orders)[1..] == orders;
  }

  lemma FromsAppend(g: Graph, froms: seq<From>, known: set<string>, first: Emission, rest: Clauses)
    requires froms != []
    requires References(froms) == {froms[0].Reference()} + References(froms[1..])
    requires Good(g, {froms[0].Reference()}, known + {froms[0].Reference()}, first)
    requires Complete(g, {froms[0].Reference()}, first.order)
    requires Sound(g, References(froms[1..]), first.known, Flatten(rest.orders))
    requires Complete(g, References(froms[1..]), Flatten(rest.orders))
    requires rest.known == first.known + References(froms[1..]) + Aliases(g, Flatten(rest.orders))
    requires InPlace(g, froms[1..], rest.orders)
    ensures var order := first.order + Flatten(rest.orders);
            && Sound(g, References(froms), known, order)
            && Complete(g, References(froms), order)
            && rest.known == known + References(froms) + Aliases(g, order)
            && InPlace(g, froms, [first.order] + rest.orders)
  {
    var ref, refs, below := froms[0].Reference(), References(froms[1..]), Flatten(rest.orders);
    FewerKnown(g, {ref}, known + {ref}, known, first.order);
    FewerKnown(g, refs, first.known, known + Aliases(g, first.order), below);
    InPlaceNext(g, froms, first.order, rest.orders);
    AliasesAppend(g, first.order, below);
    hide Sound, Complete, InPlace, References, Aliases;
    SoundAppend(g, {ref}, refs, known, first.order, below);
    SoundMore(g, {ref} + (refs - Aliases(g, first.order)), References(froms), known, first.order + below);
    CompleteBoth(g, {ref}, refs, first.order, below);
  }

  lemma FewerKnown(g: Graph, roots: set<string>, known: set<string>, known': set<string>, order: seq<Placed>)
    requires Sound(g, roots, known, order) && known' <= known
    ensures Sound(g, roots, known', order)
  {
  }

  lemma InPlaceNext(g: Graph, froms: seq<From>, first: seq<Placed>, orders: seq<seq<Placed>>)
    requires froms != [] && InPlace(g, froms[1..], orders)
    requires forall j | 0 <= j < |first| :: first[j].parent == froms[0].Reference() || ComesBefore(g, first, j)
    ensures InPlace(g, froms, [first] + orders)
  {
    hide ComesBefore;
    var all: seq<seq<Placed>> := [first] + orders;
    forall i: nat, j: nat | i < |all| && j < |all[i]|
      ensures all[i][j].parent == froms[i].Reference() || ComesBefore(g, all[i], j)
    {
      if i > 0 {
        assert all[i] == orders[i - 1] && froms[i] == froms[1..][i - 1];
      }
    }
  }

  /**
    * On success every registered join is written exactly once, after the alias it hangs from, and
    * no join alias is repeated. That there is an answer at all, for every graph, is termination.
    */
  lemma EveryJoinOnce(g: Graph, froms: seq<From>)
    requires FromClauses(g, froms).Ok?
    ensures var orders := FromClauses(g, froms).value; var order := Flatten(orders);
            && InPlace(g, froms, orders)
            && (forall p :: p in order <==> Registered(g, p))
            && (forall i, j | 0 <= i < j < |order| :: order[i] != order[j] && Alias(g, order[i]) != Alias(g, order[j]))
  {
    FromsAreGood(g, froms, {});
    var r := EmitFroms(g, froms, {}).value;
    var order := Flatten(r.orders);
    forall p | Registered(g, p)
      ensures p in order
    {
      assert p.parent in g && p.parent in r.known;
    }
  }
}
