/** When building the FROM and JOIN clauses succeeds (src/query/query-builder.ts). */
module JoinTheorems {
  import opened Text
  import opened Joins

  /** No two registered joins have one alias. */
  ghost predicate DistinctAliases(g: Graph) {
    forall p, q | Registered(g, p) && Registered(g, q) && p != q :: Alias(g, p) != Alias(g, q)
  }

  ghost predicate ReachableIn(g: Graph, refs: set<string>, k: string, n: nat)
    decreases n
  {
    k in refs || (n > 0 && exists p | Registered(g, p) :: Alias(g, p) == k && ReachableIn(g, refs, p.parent, n - 1))
  }

  /** The alias is a table of a FROM clause or is joined, directly or not, to one. */
  ghost predicate Reachable(g: Graph, refs: set<string>, k: string) {
    exists n: nat :: ReachableIn(g, refs, k, n)
  }

  /**
    * A table named like an earlier table or like a join has no joins of its own, and such a join
    * is written before it.
    */
  ghost predicate ReferencesFit(g: Graph, froms: seq<From>) {
    forall i: nat | i < |froms| :: ReferenceFits(g, References(froms[..i]), froms[i].Reference())
  }

  ghost predicate ReferenceFits(g: Graph, before: set<string>, ref: string) {
    && (ref in before || ref in AllAliases(g) ==> JoinsOf(g, ref) == [])
    && forall p | Registered(g, p) && Alias(g, p) == ref :: Reachable(g, before, p.parent)
  }

  /** The tables of the FROM clauses have names of their own. */
  ghost predicate OwnReferences(g: Graph, froms: seq<From>) {
    && (forall i: nat, j: nat | i < j < |froms| :: froms[i].Reference() != froms[j].Reference())
    && (forall f | f in froms :: f.Reference() !in AllAliases(g))
  }

  // ---------------------------------------------------------------------------------------
  // Success means distinct and reachable
  // ---------------------------------------------------------------------------------------

  lemma {:induction false} OrderIsReachable(g: Graph, refs: set<string>, known: set<string>, order: seq<Placed>, i: nat)
    requires Sound(g, refs, known, order) && i < |order|
    ensures Reachable(g, refs, Alias(g, order[i]))
    decreases i
  {
    assert Registered(g, order[i]);
    if order[i].parent in refs {
      assert ReachableIn(g, refs, order[i].parent, 0);
      assert ReachableIn(g, refs, Alias(g, order[i]), 1);
    } else {
      var j :| 0 <= j < i && Alias(g, order[j]) == order[i].parent;
      OrderIsReachable(g, refs, known, order, j);
      var n: nat :| ReachableIn(g, refs, order[i].parent, n);
      assert ReachableIn(g, refs, Alias(g, order[i]), n + 1);
    }
  }

  lemma KnownIsReachable(g: Graph, refs: set<string>, order: seq<Placed>, k: string)
    requires Sound(g, refs, {}, order) && (k in refs || k in Aliases(g, order))
    ensures Reachable(g, refs, k)
  {
    if k in refs {
      assert ReachableIn(g, refs, k, 0);
    } else {
      var p :| p in order && Alias(g, p) == k;
      var i :| 0 <= i < |order| && order[i] == p;
      OrderIsReachable(g, refs, {}, order, i);
    }
  }

  lemma SuccessMeansReachable(g: Graph, froms: seq<From>)
    requires FromClauses(g, froms).Ok?
    ensures DistinctAliases(g)
    ensures forall k | k in g :: Reachable(g, References(froms), k)
  {
    hide Sound, Complete, InPlace, Aliases, Flatten, EmitFroms, Reachable;
    EveryJoinOnce(g, froms);
    FromsAreGood(g, froms, {});
    var r := EmitFroms(g, froms, {}).value;
    var order := Flatten(r.orders);
    forall p, q | Registered(g, p) && Registered(g, q) && p != q
      ensures Alias(g, p) != Alias(g, q)
    {
      assert p in order && q in order;
    }
    forall k | k in g
      ensures Reachable(g, References(froms), k)
    {
      KnownIsReachable(g, References(froms), order, k);
    }
  }

  // ---------------------------------------------------------------------------------------
  // Distinct and reachable means success
  // ---------------------------------------------------------------------------------------

  /** The aliases of the joins that hang from these parents. */
  ghost function Under(g: Graph, parents: set<string>): set<string> {
    set k, j | k in parents && k in g && j in g[k] :: j.alias
  }

  /**
    * What is known are tables of FROM clauses and the joins of the parents that are done; a join
    * named like one of these tables is among them.
    */
  ghost predicate Known(g: Graph, refs: set<string>, done: set<string>, known: set<string>) {
    && known == refs + Under(g, done) && done <= known
    && forall p | Registered(g, p) && Alias(g, p) in refs :: p.parent in done
  }

  lemma UnderAre(g: Graph, parents: set<string>, p: Placed)
    requires Registered(g, p) && p.parent in parents
    ensures Alias(g, p) in Under(g, parents)
  {
    assert g[p.parent][p.index] in g[p.parent];
  }

  lemma UnderFrom(g: Graph, parents: set<string>, x: string) returns (p: Placed)
    requires x in Under(g, parents)
    ensures Registered(g, p) && p.parent in parents && Alias(g, p) == x
  {
    var k, j :| k in parents && k in g && j in g[k] && j.alias == x;
    var i :| 0 <= i < |g[k]| && g[k][i] == j;
    p := Placed(k, i);
  }

  lemma NotYetKnown(g: Graph, refs: set<string>, done: set<string>, known: set<string>, p: Placed)
    requires DistinctAliases(g) && Known(g, refs, done, known) && Registered(g, p) && p.parent !in done
    ensures Alias(g, p) !in known
  {
    UnderAre(g, {p.parent}, p);
    forall x | x in Under(g, done)
      ensures x != Alias(g, p)
    {
      var q := UnderFrom(g, done, x);
      assert q != p;
    }
  }

  /** The aliases of the first i joins of one parent. */
  function FirstAliases(g: Graph, parent: string, i: nat): set<string>
    requires i <= |JoinsOf(g, parent)|
  {
    set k | 0 <= k < i :: JoinsOf(g, parent)[k].alias
  }

  lemma SiblingsNext(g: Graph, parent: string, i: nat, known: set<string>)
    requires i < |JoinsOf(g, parent)| && JoinsOf(g, parent)[i].alias !in known
    requires EmitSiblings(g, parent, i + 1, known + {JoinsOf(g, parent)[i].alias}).Ok?
    ensures EmitSiblings(g, parent, i, known).Ok?
  {
  }

  lemma NextIsNew(g: Graph, parent: string, i: nat)
    requires DistinctAliases(g) && i < |JoinsOf(g, parent)|
    ensures JoinsOf(g, parent)[i].alias !in FirstAliases(g, parent, i)
    ensures FirstAliases(g, parent, i + 1) == FirstAliases(g, parent, i) + {JoinsOf(g, parent)[i].alias}
  {
    forall k | 0 <= k < i
      ensures JoinsOf(g, parent)[k].alias != JoinsOf(g, parent)[i].alias
    {
      assert Alias(g, Placed(parent, k)) != Alias(g, Placed(parent, i));
    }
  }

  lemma {:induction false} SiblingsSucceed(g: Graph, parent: string, i: nat, refs: set<string>, done: set<string>,
                                           start: set<string>)
    requires DistinctAliases(g) && Known(g, refs, done, start) && parent !in done && i <= |JoinsOf(g, parent)|
    ensures EmitSiblings(g, parent, i, start + FirstAliases(g, parent, i)).Ok?
    decreases |JoinsOf(g, parent)| - i
  {
    if i < |JoinsOf(g, parent)| {
      var known, alias := start + FirstAliases(g, parent, i), JoinsOf(g, parent)[i].alias;
      assert Registered(g, Placed(parent, i)) && Alias(g, Placed(parent, i)) == alias;
      hide DistinctAliases, Known, EmitSiblings, FirstAliases;
      NotYetKnown(g, refs, done, start, Placed(parent, i));
      NextIsNew(g, parent, i);
      SiblingsSucceed(g, parent, i + 1, refs, done, start);
      assert start + FirstAliases(g, parent, i + 1) == known + {alias};
      SiblingsNext(g, parent, i, known);
    }
  }

  /** The parents that an emission is done with. */
  lemma DoneWith(g: Graph, refs: set<string>, done: set<string>, known: set<string>, roots: set<string>, e: Emission)
    requires Known(g, refs, done, known) && roots <= known
    requires Good(g, roots, known, e) && Complete(g, roots, e.order)
    ensures Known(g, refs, done + roots + Aliases(g, e.order), e.known)
  {
    var emitted := Aliases(g, e.order);
    forall x
      ensures x in Under(g, roots + emitted) <==> x in emitted
    {
      if x in Under(g, roots + emitted) {
        var p := UnderFrom(g, roots + emitted, x);
        assert p in e.order;
      }
      if x in emitted {
        var p :| p in e.order && Alias(g, p) == x;
        var i :| 0 <= i < |e.order| && e.order[i] == p;
        if ComesBefore(g, e.order, i) {
          var j :| 0 <= j < i && Alias(g, e.order[j]) == p.parent;
          assert e.order[j] in e.order;
        }
        UnderAre(g, roots + emitted, p);
      }
    }
    hide Good, Complete;
    assert Under(g, done + roots + emitted) == Under(g, done) + Under(g, roots + emitted);
  }

  lemma {:induction false} EmitSucceeds(g: Graph, parent: string, refs: set<string>, done: set<string>,
                                        known: set<string>)
    requires DistinctAliases(g) && Known(g, refs, done, known) && parent in known && parent !in done
    ensures Emit(g, parent, known).Ok?
    ensures Known(g, refs, done + {parent} + Aliases(g, Emit(g, parent, known).value.order),
                  Emit(g, parent, known).value.known)
    decreases |Unused(g, known)|, 0
  {
    SiblingsSucceed(g, parent, 0, refs, done, known);
    assert known + FirstAliases(g, parent, 0) == known;
    SiblingsAreGood(g, parent, 0, known);
    EmitIsGood(g, parent, known);
    var siblings := EmitSiblings(g, parent, 0, known).value;
    if JoinsOf(g, parent) != [] {
      UsedUp(g, known, siblings.known);
      SmallerSet(Unused(g, siblings.known), Unused(g, known));
      SiblingsDone(g, parent, refs, done, known, siblings);
      hide DistinctAliases, Known, Good, Complete, Lists, Unused;
      BelowSucceeds(g, parent, 0, refs, done + {parent}, siblings.known);
    }
    hide DistinctAliases, Known, Good, Complete, Lists, Unused, EmitSiblings, EmitBelow;
    DoneWith(g, refs, done, known, {parent}, Emit(g, parent, known).value);
  }

  /** After the siblings, their parent is done and they are not. */
  lemma SiblingsDone(g: Graph, parent: string, refs: set<string>, done: set<string>, known: set<string>, e: Emission)
    requires DistinctAliases(g) && Known(g, refs, done, known) && parent in known && parent !in done
    requires Good(g, {parent}, known, e) && Lists(g, parent, 0, e.order)
    ensures Known(g, refs, done + {parent}, e.known)
    ensures forall k | 0 <= k < |JoinsOf(g, parent)| :: JoinsOf(g, parent)[k].alias in e.known - (done + {parent})
  {
    forall k | 0 <= k < |JoinsOf(g, parent)|
      ensures JoinsOf(g, parent)[k].alias in e.known - (done + {parent})
      ensures JoinsOf(g, parent)[k].alias in Aliases(g, e.order)
    {
      var p := Placed(parent, k);
      assert Registered(g, p) && p in e.order;
      NotYetKnown(g, refs, done, known, p);
    }
    forall x
      ensures x in Under(g, {parent}) <==> x in Aliases(g, e.order)
    {
      if x in Under(g, {parent}) {
        var p := UnderFrom(g, {parent}, x);
      }
      if x in AliasesFrom(g, parent, 0) {
        var k :| 0 <= k < |JoinsOf(g, parent)| && JoinsOf(g, parent)[k].alias == x;
        UnderAre(g, {parent}, Placed(parent, k));
      }
    }
    assert Under(g, done + {parent}) == Under(g, done) + Under(g, {parent});
  }

  lemma {:induction false} BelowSucceeds(g: Graph, parent: string, i: nat, refs: set<string>, done: set<string>,
                                         known: set<string>)
    requires DistinctAliases(g) && Known(g, refs, done, known) && i <= |JoinsOf(g, parent)|
    requires forall k | i <= k < |JoinsOf(g, parent)| :: JoinsOf(g, parent)[k].alias in known - done
    ensures EmitBelow(g, parent, i, known).Ok?
    decreases |Unused(g, known)|, |JoinsOf(g, parent)| - i + 1
  {
    if i < |JoinsOf(g, parent)| {
      var alias := JoinsOf(g, parent)[i].alias;
      hide DistinctAliases, Known, Good, Complete, Aliases, Under, AllAliases;
      EmitSucceeds(g, alias, refs, done, known);
      EmitIsGood(g, alias, known);
      var first := Emit(g, alias, known).value;
      FewerUnused(g, known, first.known);
      OthersStillOpen(g, parent, i, done, known, first);
      hide Unused, Emit;
      BelowSucceeds(g, parent, i + 1, refs, done + {alias} + Aliases(g, first.order), first.known);
    }
  }

  lemma OthersStillOpen(g: Graph, parent: string, i: nat, done: set<string>, known: set<string>, first: Emission)
    requires DistinctAliases(g) && i < |JoinsOf(g, parent)|
    requires forall k | i <= k < |JoinsOf(g, parent)| :: JoinsOf(g, parent)[k].alias in known - done
    requires Good(g, {JoinsOf(g, parent)[i].alias}, known, first)
    ensures forall k | i + 1 <= k < |JoinsOf(g, parent)| :: JoinsOf(g, parent)[k].alias in
              first.known - (done + {JoinsOf(g, parent)[i].alias} + Aliases(g, first.order))
  {
    forall k | i + 1 <= k < |JoinsOf(g, parent)|
      ensures JoinsOf(g, parent)[k].alias != JoinsOf(g, parent)[i].alias
      ensures JoinsOf(g, parent)[k].alias !in Aliases(g, first.order)
    {
      assert Alias(g, Placed(parent, k)) != Alias(g, Placed(parent, i));
    }
  }

  lemma {:induction false} ReachableIsDone(g: Graph, refs: set<string>, known: set<string>, k: string, n: nat)
    requires refs <= known && Under(g, known) <= known && ReachableIn(g, refs, k, n)
    ensures k in known
    decreases n
  {
    if k !in refs {
      var p :| Registered(g, p) && Alias(g, p) == k && ReachableIn(g, refs, p.parent, n - 1);
      ReachableIsDone(g, refs, known, p.parent, n - 1);
      UnderAre(g, known, p);
    }
  }

  /** The next table is known, and the joins named like it are done. */
  lemma KnownReference(g: Graph, refs: set<string>, known: set<string>, ref: string)
    requires Known(g, refs, known, known) && ReferenceFits(g, refs, ref)
    ensures Known(g, refs + {ref}, known, known + {ref})
    ensures JoinsOf(g, ref) != [] ==> ref !in known
    ensures JoinsOf(g, ref) == [] ==> Known(g, refs + {ref}, known + {ref}, known + {ref})
  {
    forall p | Registered(g, p) && Alias(g, p) == ref
      ensures p.parent in known
    {
      var n: nat :| ReachableIn(g, refs, p.parent, n);
      ReachableIsDone(g, refs, known, p.parent, n);
    }
    UnderAreAliases(g, known);
    if JoinsOf(g, ref) == [] {
      assert Under(g, known + {ref}) == Under(g, known);
    }
  }

  lemma GoodIsKnown(g: Graph, roots: set<string>, known: set<string>, e: Emission)
    requires Good(g, roots, known, e)
    ensures known + Aliases(g, e.order) == e.known
  {
  }

  lemma EmitNothing(g: Graph, parent: string, known: set<string>)
    requires JoinsOf(g, parent) == []
    ensures Emit(g, parent, known) == Ok(Emission([], known))
  {
  }

  lemma FromsNext(g: Graph, from: From, froms: seq<From>, known: set<string>)
    ensures var ref := from.Reference();
            var first := Emit(g, ref, known + {ref});
            EmitFroms(g, [from] + froms, known) ==
            if first.Err? then Err(first.error)
            else
              var rest := EmitFroms(g, froms, first.value.known);
              if rest.Err? then rest else Ok(Clauses([first.value.order] + rest.value.orders, rest.value.known))
  {
    hide Emit;
    assert ([from] + froms)[1..] == froms;
  }

  lemma NextReference(froms: seq<From>, i: nat)
    requires i < |froms|
    ensures froms[i..] == [froms[i]] + froms[i + 1..]
    ensures References(froms[..i + 1]) == References(froms[..i]) + {froms[i].Reference()}
  {
    assert froms[..i + 1] == froms[..i] + [froms[i]];
  }

  lemma {:induction false} FromsSucceed(g: Graph, froms: seq<From>, i: nat, known: set<string>)
    requires DistinctAliases(g) && ReferencesFit(g, froms) && i <= |froms|
    requires Known(g, References(froms[..i]), known, known)
    ensures EmitFroms(g, froms[i..], known).Ok?
    decreases |froms| - i
  {
    if i < |froms| {
      var ref, refs := froms[i].Reference(), References(froms[..i]);
      assert ReferenceFits(g, refs, ref);
      hide Known, Under, ReferencesFit, ReferenceFits, DistinctAliases, References, Emit, EmitFroms, From.Reference,
           Good, Complete;
      NextReference(froms, i);
      KnownReference(g, refs, known, ref);
      FromsNext(g, froms[i], froms[i + 1..], known);
      if JoinsOf(g, ref) == [] {
        EmitNothing(g, ref, known + {ref});
        FromsSucceed(g, froms, i + 1, known + {ref});
      } else {
        EmitSucceeds(g, ref, refs + {ref}, known, known + {ref});
        EmitIsGood(g, ref, known + {ref});
        var first := Emit(g, ref, known + {ref}).value;
        assert known + {ref} + Aliases(g, first.order) == first.known
               by { GoodIsKnown(g, {ref}, known + {ref}, first); }
        FromsSucceed(g, froms, i + 1, first.known);
      }
    }
  }

  lemma UnderAreAliases(g: Graph, done: set<string>)
    ensures Under(g, done) <= AllAliases(g)
  {
  }

  lemma {:induction false} ReachableIsKnown(g: Graph, refs: set<string>, order: seq<Placed>, k: string, n: nat)
    requires Complete(g, refs, order) && ReachableIn(g, refs, k, n)
    ensures k in refs || k in Aliases(g, order)
    decreases n
  {
    if k !in refs {
      var p :| Registered(g, p) && Alias(g, p) == k && ReachableIn(g, refs, p.parent, n - 1);
      ReachableIsKnown(g, refs, order, p.parent, n - 1);
      assert p in order;
    }
  }

  // ---------------------------------------------------------------------------------------
  // Success means that the tables fit
  // ---------------------------------------------------------------------------------------

  /** The clauses of a and then those of b. */
  ghost predicate Splits(g: Graph, a: seq<From>, b: seq<From>, known: set<string>) {
    var head := EmitFroms(g, a, known);
    && head.Ok?
    && var tail := EmitFroms(g, b, head.value.known);
       tail.Ok? && EmitFroms(g, a + b, known) == Ok(Clauses(head.value.orders + tail.value.orders, tail.value.known))
  }

  lemma SplitsNothing(g: Graph, b: seq<From>, known: set<string>)
    requires EmitFroms(g, b, known).Ok?
    ensures Splits(g, [], b, known)
  {
    var all := EmitFroms(g, b, known).value;
    assert [] + b == b;
    assert EmitFroms(g, [], known) == Ok(Clauses([], known));
    hide EmitFroms;
    var none: seq<seq<Placed>> := [];
    assert none + all.orders == all.orders;
  }

  lemma SplitsNext(g: Graph, from: From, a: seq<From>, b: seq<From>, known: set<string>)
    requires var ref := from.Reference(); var first := Emit(g, ref, known + {ref});
             first.Ok? && Splits(g, a, b, first.value.known)
    ensures Splits(g, [from] + a, b, known)
  {
    hide Emit, EmitFroms, From.Reference;
    FromsNext(g, from, a, known);
    FromsNext(g, from, a + b, known);
    assert ([from] + a) + b == [from] + (a + b);
    var ref := from.Reference();
    var first := Emit(g, ref, known + {ref}).value;
    var head := EmitFroms(g, a, first.known).value;
    var tail := EmitFroms(g, b, head.known).value;
    assert [first.order] + (head.orders + tail.orders) == ([first.order] + head.orders) + tail.orders;
  }

  lemma {:induction false} FromsSplit(g: Graph, a: seq<From>, b: seq<From>, known: set<string>)
    requires EmitFroms(g, a + b, known).Ok?
    ensures Splits(g, a, b, known)
    decreases |a|
  {
    if a == [] {
      assert a + b == b;
      SplitsNothing(g, b, known);
    } else {
      hide Emit, EmitFroms, From.Reference, Splits;
      var from, rest := a[0], a[1..];
      assert a == [from] + rest && a + b == [from] + (rest + b);
      FromsNext(g, from, rest + b, known);
      FromsSplit(g, rest, b, Emit(g, from.Reference(), known + {from.Reference()}).value.known);
      SplitsNext(g, from, rest, b, known);
    }
  }

  lemma {:induction false} FlattenAppend(a: seq<seq<Placed>>, b: seq<seq<Placed>>)
    ensures Flatten(a + b) == Flatten(a) + Flatten(b)
  {
    if a == [] {
      assert a + b == b;
    } else {
      assert (a + b)[1..] == a[1..] + b;
      FlattenAppend(a[1..], b);
    }
  }

  lemma ParentIsReachable(g: Graph, refs: set<string>, order: seq<Placed>, i: nat)
    requires Sound(g, refs, {}, order) && i < |order|
    ensures Reachable(g, refs, order[i].parent)
  {
    if order[i].parent in refs {
      assert ReachableIn(g, refs, order[i].parent, 0);
    } else {
      var j :| 0 <= j < i && Alias(g, order[j]) == order[i].parent;
      OrderIsReachable(g, refs, {}, order, j);
    }
  }

  lemma TailIsNew(g: Graph, froms: seq<From>, known: set<string>)
    requires froms != [] && EmitFroms(g, froms, known).Ok?
    ensures var ref := froms[0].Reference();
            && Emit(g, ref, known + {ref}).Ok?
            && forall q | q in Flatten(EmitFroms(g, froms, known).value.orders) :: Alias(g, q) !in known + {ref}
  {
    hide Emit, EmitFroms, Sound, Complete, InPlace, Flatten, References, Aliases, From.Reference;
    var ref := froms[0].Reference();
    assert froms == [froms[0]] + froms[1..];
    FromsNext(g, froms[0], froms[1..], known);
    var first := Emit(g, ref, known + {ref}).value;
    var rest := EmitFroms(g, froms[1..], first.known).value;
    EmitIsGood(g, ref, known + {ref});
    FromsAreGood(g, froms[1..], first.known);
    FlattenTwo(first.order, rest.orders);
    SoundIsNew(g, {ref}, known + {ref}, first.order);
    SoundIsNew(g, References(froms[1..]), first.known, Flatten(rest.orders));
    GoodIsKnown(g, {ref}, known + {ref}, first);
  }

  lemma SoundIsNew(g: Graph, roots: set<string>, known: set<string>, order: seq<Placed>)
    requires Sound(g, roots, known, order)
    ensures forall q | q in order :: Alias(g, q) !in known
  {
  }

  /** Joins that were written cannot be written again. */
  lemma NoneBelow(g: Graph, refs: set<string>, before: seq<Placed>, ref: string, e: Emission)
    requires Complete(g, refs, before) && (ref in refs || ref in Aliases(g, before))
    requires Good(g, {ref}, refs + Aliases(g, before) + {ref}, e) && Complete(g, {ref}, e.order)
    ensures JoinsOf(g, ref) == []
  {
    var q := Placed(ref, 0);
    assert forall p | p in before :: Alias(g, p) in Aliases(g, before);
    assert forall p | p in e.order :: p !in before;
    assert Registered(g, q) ==> q in before && q in e.order;
  }

  /** The joins before a table, its own joins, and all joins from it on. */
  lemma Fits(g: Graph, refs: set<string>, before: seq<Placed>, ref: string, e: Emission, rest: seq<Placed>)
    requires Sound(g, refs, {}, before) && Complete(g, refs, before)
    requires Good(g, {ref}, refs + Aliases(g, before) + {ref}, e) && Complete(g, {ref}, e.order)
    requires forall p | Registered(g, p) :: p in before + rest
    requires forall q | q in rest :: Alias(g, q) != ref
    ensures ReferenceFits(g, refs, ref)
  {
    hide Sound, Complete, Good, Aliases, Reachable;
    forall p | Registered(g, p) && Alias(g, p) == ref
      ensures p in before && Reachable(g, refs, p.parent)
    {
      assert p in before + rest;
      var k :| 0 <= k < |before| && before[k] == p;
      ParentIsReachable(g, refs, before, k);
    }
    if ref in refs || ref in AllAliases(g) {
      if ref !in refs {
        WrittenAlias(g, ref, before);
      }
      NoneBelow(g, refs, before, ref, e);
    }
  }

  lemma FitsAt(g: Graph, froms: seq<From>, i: nat)
    requires FromClauses(g, froms).Ok? && i < |froms|
    ensures ReferenceFits(g, References(froms[..i]), froms[i].Reference())
  {
    EveryJoinOnce(g, froms);
    hide Emit, EmitFroms, Sound, Complete, Good, Flatten, References, Aliases, InPlace, Reachable, From.Reference,
         ReferenceFits, Registered, Alias;
    assert froms[..i] + froms[i..] == froms && froms[i..][0] == froms[i];
    FromsSplit(g, froms[..i], froms[i..], {});
    var head := EmitFroms(g, froms[..i], {}).value;
    var tail := EmitFroms(g, froms[i..], head.known).value;
    var ref, refs, before := froms[i].Reference(), References(froms[..i]), Flatten(head.orders);
    FlattenAppend(head.orders, tail.orders);
    FromsAreGood(g, froms[..i], {});
    TailIsNew(g, froms[i..], head.known);
    EmitIsGood(g, ref, head.known + {ref});
    assert head.known == refs + Aliases(g, before);
    Fits(g, refs, before, ref, Emit(g, ref, head.known + {ref}).value, Flatten(tail.orders));
  }

  lemma WrittenAlias(g: Graph, ref: string, before: seq<Placed>)
    requires ref in AllAliases(g)
    requires forall p | Registered(g, p) && Alias(g, p) == ref :: p in before
    ensures ref in Aliases(g, before)
  {
    var k, j :| k in g && j in g[k] && j.alias == ref;
    var i :| 0 <= i < |g[k]| && g[k][i] == j;
    assert Registered(g, Placed(k, i)) && Alias(g, Placed(k, i)) == ref;
  }

  /**
    * The clauses can be built exactly when the join aliases are distinct, everything that joins
    * hang from can be reached, and a table that repeats a name has no joins and comes late enough.
    */
  lemma SucceedsExactly(g: Graph, froms: seq<From>)
    ensures FromClauses(g, froms).Ok? <==>
              && DistinctAliases(g)
              && (forall k | k in g :: Reachable(g, References(froms), k))
              && ReferencesFit(g, froms)
  {
    hide DistinctAliases, ReferenceFits, Reachable;
    if FromClauses(g, froms).Ok? {
      SuccessMeansReachable(g, froms);
      forall i: nat | i < |froms|
        ensures ReferenceFits(g, References(froms[..i]), froms[i].Reference())
      {
        FitsAt(g, froms, i);
      }
    } else if DistinctAliases(g) && ReferencesFit(g, froms) {
      assert froms[..0] == [] && froms[0..] == froms && References(froms[..0]) == {};
      NothingKnown(g);
      FromsSucceed(g, froms, 0, {});
      var r := EmitFroms(g, froms, {}).value;
      var k :| k in g && k !in r.known;
      if Reachable(g, References(froms), k) {
        ReachedIsKnown(g, froms, k);
      }
    }
  }

  lemma NothingKnown(g: Graph)
    ensures Known(g, {}, {}, {})
  {
  }

  lemma ReachedIsKnown(g: Graph, froms: seq<From>, k: string)
    requires EmitFroms(g, froms, {}).Ok? && Reachable(g, References(froms), k)
    ensures k in EmitFroms(g, froms, {}).value.known
  {
    FromsAreGood(g, froms, {});
    var n: nat :| ReachableIn(g, References(froms), k, n);
    ReachableIsKnown(g, References(froms), Flatten(EmitFroms(g, froms, {}).value.orders), k, n);
  }

  lemma OwnReferencesFit(g: Graph, froms: seq<From>)
    requires OwnReferences(g, froms)
    ensures ReferencesFit(g, froms)
  {
    forall i: nat | i < |froms|
      ensures ReferenceFits(g, References(froms[..i]), froms[i].Reference())
    {
      assert froms[i] in froms;
      forall p | Registered(g, p)
        ensures Alias(g, p) in AllAliases(g)
      {
        assert g[p.parent][p.index] in g[p.parent];
      }
      forall f | f in froms[..i]
        ensures f.Reference() != froms[i].Reference()
      {
        var j: nat :| j < i && froms[j] == f;
      }
    }
  }

  /**
    * When the tables of the FROM clauses have names of their own, the clauses can be built exactly
    * when the join aliases are distinct and everything joins hang from can be reached.
    */
  lemma SucceedsWhenDistinctAndReachable(g: Graph, froms: seq<From>)
    requires OwnReferences(g, froms)
    ensures FromClauses(g, froms).Ok? <==>
              DistinctAliases(g) && forall k | k in g :: Reachable(g, References(froms), k)
  {
    hide DistinctAliases, ReferencesFit, Reachable, OwnReferences;
    OwnReferencesFit(g, froms);
    SucceedsExactly(g, froms);
  }

  /** Every name that is written: the tables, and the joins in their order. */
  function Names(g: Graph, froms: seq<From>, order: seq<Placed>): seq<string> {
    seq(|froms|, i requires 0 <= i < |froms| => froms[i].Reference())
    + seq(|order|, i requires 0 <= i < |order| => Alias(g, order[i]))
  }

  ghost predicate AllDifferent(names: seq<string>) { forall i, j | 0 <= i < j < |names| :: names[i] != names[j] }

  lemma DifferentAreOwn(g: Graph, froms: seq<From>, order: seq<Placed>)
    requires forall p | Registered(g, p) :: p in order
    requires AllDifferent(Names(g, froms, order))
    ensures OwnReferences(g, froms)
  {
    var names := Names(g, froms, order);
    forall i: nat, j: nat | i < j < |froms|
      ensures froms[i].Reference() != froms[j].Reference()
    {
      assert names[i] != names[j];
    }
    forall f | f in froms
      ensures f.Reference() !in AllAliases(g)
    {
      var i: nat :| i < |froms| && froms[i] == f;
      forall p | Registered(g, p)
        ensures Alias(g, p) != f.Reference()
      {
        var k :| 0 <= k < |order| && order[k] == p;
        assert names[i] != names[|froms| + k];
      }
      NoJoinNamed(g, f.Reference());
    }
  }

  lemma NoJoinNamed(g: Graph, name: string)
    requires forall p | Registered(g, p) :: Alias(g, p) != name
    ensures name !in AllAliases(g)
  {
    forall k, j | k in g && j in g[k]
      ensures j.alias != name
    {
      var i :| 0 <= i < |g[k]| && g[k][i] == j;
      assert Registered(g, Placed(k, i)) && Alias(g, Placed(k, i)) == j.alias;
    }
  }

  lemma OwnAreDifferent(g: Graph, froms: seq<From>, order: seq<Placed>)
    requires forall p | p in order :: Registered(g, p)
    requires forall i, j | 0 <= i < j < |order| :: Alias(g, order[i]) != Alias(g, order[j])
    requires OwnReferences(g, froms)
    ensures AllDifferent(Names(g, froms, order))
  {
    var names := Names(g, froms, order);
    forall i, j | 0 <= i < j < |names|
      ensures names[i] != names[j]
    {
      if i < |froms| <= j {
        var p := order[j - |froms|];
        assert p in order && froms[i] in froms;
        assert g[p.parent][p.index] in g[p.parent];
      }
    }
  }

  /** On success all names of the statement differ exactly when the tables have names of their own. */
  lemma NamesDifferExactly(g: Graph, froms: seq<From>)
    requires FromClauses(g, froms).Ok?
    ensures AllDifferent(Names(g, froms, Flatten(FromClauses(g, froms).value))) <==> OwnReferences(g, froms)
  {
    EveryJoinOnce(g, froms);
    hide FromClauses, InPlace, Flatten, AllDifferent, OwnReferences;
    var order := Flatten(FromClauses(g, froms).value);
    if AllDifferent(Names(g, froms, order)) {
      DifferentAreOwn(g, froms, order);
    }
    if OwnReferences(g, froms) {
      OwnAreDifferent(g, froms, order);
    }
  }

  /** A table of a later FROM clause is not compared with the join aliases before it. */
  lemma LaterTableMayRepeatAnAlias(a: string, b: string, join: Join)
    requires a != b && join.alias == b
    ensures var froms := [From(a, None), From(b, None)];
            FromClauses(map[a := [join]], froms) == Ok([[Placed(a, 0)], []])
  {
    var g, f0, f1 := map[a := [join]], From(a, None), From(b, None);
    var known, all, one := {} + {a}, {} + {a} + {b}, [Placed(a, 0)];
    assert JoinsOf(g, a) == [join] && JoinsOf(g, b) == [] && one + [] == one;
    var siblings := Emission(one, all);
    assert EmitSiblings(g, a, 1, all) == Ok(Emission([], all));
    assert EmitSiblings(g, a, 0, known) == Ok(siblings);
    assert Emit(g, b, all) == Ok(Emission([], all));
    assert EmitBelow(g, a, 1, all) == Ok(Emission([], all));
    assert EmitBelow(g, a, 0, all) == Ok(Emission([] + [], all));
    var below := EmitBelow(g, a, 0, all).value;
    assert below.order == [] && one + below.order == one;
    assert Emit(g, a, known) == Ok(Emission(one + below.order, all));
    assert [f0, f1][1..] == [f1] && [f1][1..] == [] && all + {b} == all;
    assert EmitFroms(g, [], all) == Ok(Clauses([], all));
    var last: seq<seq<Placed>> := [[]];
    assert last + [] == last && [one] + last == [one, []];
    assert EmitFroms(g, [f1], all) == Ok(Clauses(last + [], all));
    assert EmitFroms(g, [f0, f1], {}) == Ok(Clauses([one] + last, all));
  }
}
