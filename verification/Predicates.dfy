/**
  * WHERE predicates (src/query/expression/composite-expression.ts) and the calls that build them
  * (src/query/query-builder.ts).
  *
  * Text is a sequence of tokens: whatever binds tighter than AND is one atom.
  */
module Predicates {
  import opened Text

  datatype Token = Atom(name: string) | And | Or | Open | Close

  datatype Type = TypeAnd | TypeOr

  /** A string or a CompositeExpression, whose parts are never empty. */
  datatype Predicate = Leaf(text: seq<Token>) | Composite(kind: Type, parts: seq<Predicate>)

  type Assignment = string -> bool

  // ---------------------------------------------------------------------------------------
  // Reading text: AND binds tighter than OR
  // ---------------------------------------------------------------------------------------

  /** The truth value of what was read, and the text after it. */
  datatype Reading = Reading(value: bool, rest: seq<Token>)

  function ReadOr(ts: seq<Token>, env: Assignment): (r: Option<Reading>)
    ensures r.Some? ==> |r.value.rest| < |ts|
    decreases |ts|, 2
  {
    var first := ReadAnd(ts, env);
    if first.None? || first.value.rest == [] || first.value.rest[0] != Or then first
    else
      var more := ReadOr(first.value.rest[1..], env);
      if more.None? then None else Some(Reading(first.value.value || more.value.value, more.value.rest))
  }

  function ReadAnd(ts: seq<Token>, env: Assignment): (r: Option<Reading>)
    ensures r.Some? ==> |r.value.rest| < |ts|
    decreases |ts|, 1
  {
    var first := ReadFactor(ts, env);
    if first.None? || first.value.rest == [] || first.value.rest[0] != And then first
    else
      var more := ReadAnd(first.value.rest[1..], env);
      if more.None? then None else Some(Reading(first.value.value && more.value.value, more.value.rest))
  }

  function ReadFactor(ts: seq<Token>, env: Assignment): (r: Option<Reading>)
    ensures r.Some? ==> |r.value.rest| < |ts|
    decreases |ts|, 0
  {
    if ts == [] then None
    else if ts[0].Atom? then Some(Reading(env(ts[0].name), ts[1..]))
    else if ts[0] != Open then None
    else
      var inner := ReadOr(ts[1..], env);
      if inner.None? || inner.value.rest == [] || inner.value.rest[0] != Close then None
      else Some(Reading(inner.value.value, inner.value.rest[1..]))
  }

  /** Nothing that a reading of AND or OR would go on with. */
  predicate Ends(ts: seq<Token>) { ts == [] || (ts[0] != And && ts[0] != Or) }

  predicate GoesOn(ts: seq<Token>, t: Token) { ts != [] && ts[0] == t }

  /** More text behind what was read does not change the reading. */
  lemma {:induction false} OrExtends(ts: seq<Token>, more: seq<Token>, env: Assignment)
    requires ReadOr(ts, env).Some? && (ReadOr(ts, env).value.rest != [] || Ends(more))
    ensures ReadOr(ts + more, env) == Some(Reading(ReadOr(ts, env).value.value, ReadOr(ts, env).value.rest + more))
    decreases |ts|, 2
  {
    var first := ReadAnd(ts, env).value;
    AndExtends(ts, more, env);
    if GoesOn(first.rest, Or) {
      assert (first.rest + more)[1..] == first.rest[1..] + more;
      OrExtends(first.rest[1..], more, env);
    }
  }

  lemma {:induction false} AndExtends(ts: seq<Token>, more: seq<Token>, env: Assignment)
    requires ReadAnd(ts, env).Some? && (ReadAnd(ts, env).value.rest != [] || !GoesOn(more, And))
    ensures ReadAnd(ts + more, env) == Some(Reading(ReadAnd(ts, env).value.value, ReadAnd(ts, env).value.rest + more))
    decreases |ts|, 1
  {
    var first := ReadFactor(ts, env).value;
    FactorExtends(ts, more, env);
    if GoesOn(first.rest, And) {
      assert (first.rest + more)[1..] == first.rest[1..] + more;
      AndExtends(first.rest[1..], more, env);
    }
  }

  lemma {:induction false} FactorExtends(ts: seq<Token>, more: seq<Token>, env: Assignment)
    requires ReadFactor(ts, env).Some?
    ensures ReadFactor(ts + more, env)
            == Some(Reading(ReadFactor(ts, env).value.value, ReadFactor(ts, env).value.rest + more))
    decreases |ts|, 0
  {
    assert (ts + more)[0] == ts[0] && (ts + more)[1..] == ts[1..] + more;
    if ts[0] == Open {
      var inner := ReadOr(ts[1..], env).value;
      OrExtends(ts[1..], more, env);
      assert (inner.rest + more)[1..] == inner.rest[1..] + more;
    }
  }

  // ---------------------------------------------------------------------------------------
  // CompositeExpression
  // ---------------------------------------------------------------------------------------

  function Word(kind: Type): Token { if kind == TypeAnd then And else Or }

  /** toString */
  function ToText(p: Predicate): seq<Token>
    decreases p
  {
    match p
    case Leaf(text) => text
    case Composite(kind, parts) => if |parts| == 1 then ToText(parts[0]) else Separated(kind, parts)
  }

  /** The parts, each in parentheses, with the type between them. */
  function Separated(kind: Type, parts: seq<Predicate>): seq<Token>
    decreases parts
  {
    if parts == [] then []
    else if |parts| == 1 then [Open] + ToText(parts[0]) + [Close]
    else [Open] + ToText(parts[0]) + [Close, Word(kind)] + Separated(kind, parts[1..])
  }

  function With(p: Predicate, parts: seq<Predicate>): Predicate
    requires p.Composite?
  {
    Composite(p.kind, p.parts + parts)
  }

  /** Composites have parts, and every leaf is readable to its end. */
  ghost predicate WellFormed(p: Predicate, env: Assignment)
    decreases p
  {
    match p
    case Leaf(text) => ReadOr(text, env).Some? && ReadOr(text, env).value.rest == []
    case Composite(_, parts) => parts != [] && forall i | 0 <= i < |parts| :: WellFormed(parts[i], env)
  }

  /** What a predicate means. */
  ghost predicate Holds(p: Predicate, env: Assignment)
    decreases p
  {
    match p
    case Leaf(text) => ReadOr(text, env).Some? && ReadOr(text, env).value.value
    case Composite(TypeAnd, parts) => forall i | 0 <= i < |parts| :: Holds(parts[i], env)
    case Composite(TypeOr, parts) => exists i | 0 <= i < |parts| :: Holds(parts[i], env)
  }

  /** A parenthesised predicate is one factor. */
  lemma FactorReads(p: Predicate, more: seq<Token>, env: Assignment)
    requires ReadOr(ToText(p), env) == Some(Reading(Holds(p, env), []))
    ensures ReadFactor([Open] + ToText(p) + [Close] + more, env) == Some(Reading(Holds(p, env), more))
  {
    var ts := [Open] + ToText(p) + [Close] + more;
    assert ts[1..] == ToText(p) + ([Close] + more);
    OrExtends(ToText(p), [Close] + more, env);
    assert ([Close] + more)[1..] == more && [] + ([Close] + more) == [Close] + more;
  }

  ghost predicate ReadsBack(p: Predicate, env: Assignment) {
    ReadOr(ToText(p), env) == Some(Reading(Holds(p, env), []))
  }

  lemma {:induction false} AllRead(parts: seq<Predicate>, env: Assignment)
    requires parts != [] && forall i | 0 <= i < |parts| :: ReadsBack(parts[i], env)
    ensures ReadAnd(Separated(TypeAnd, parts), env)
         == Some(Reading(forall i | 0 <= i < |parts| :: Holds(parts[i], env), []))
  {
    if |parts| == 1 {
      FactorReads(parts[0], [], env);
      assert [Open] + ToText(parts[0]) + [Close] + [] == Separated(TypeAnd, parts);
    } else {
      var rest := Separated(TypeAnd, parts[1..]);
      AllRead(parts[1..], env);
      FactorReads(parts[0], [And] + rest, env);
      assert [Open] + ToText(parts[0]) + [Close] + ([And] + rest) == Separated(TypeAnd, parts);
      assert ([And] + rest)[1..] == rest;
      assert (forall i | 0 <= i < |parts| :: Holds(parts[i], env))
          == (Holds(parts[0], env) && forall i | 0 <= i < |parts[1..]| :: Holds(parts[1..][i], env)) by {
        HeadHolds(parts, env);
      }
    }
  }

  lemma HeadHolds(parts: seq<Predicate>, env: Assignment)
    requires parts != []
    ensures (forall i | 0 <= i < |parts| :: Holds(parts[i], env))
         == (Holds(parts[0], env) && forall i | 0 <= i < |parts[1..]| :: Holds(parts[1..][i], env))
    ensures (exists i | 0 <= i < |parts| :: Holds(parts[i], env))
         == (Holds(parts[0], env) || exists i | 0 <= i < |parts[1..]| :: Holds(parts[1..][i], env))
  {
    hide Holds;
    forall i | 0 < i < |parts|
      ensures parts[i] == parts[1..][i - 1]
    {
    }
  }

  lemma {:induction false} AnyRead(parts: seq<Predicate>, env: Assignment)
    requires parts != [] && forall i | 0 <= i < |parts| :: ReadsBack(parts[i], env)
    ensures ReadOr(Separated(TypeOr, parts), env)
         == Some(Reading(exists i | 0 <= i < |parts| :: Holds(parts[i], env), []))
  {
    if |parts| == 1 {
      FactorReads(parts[0], [], env);
      assert [Open] + ToText(parts[0]) + [Close] + [] == Separated(TypeOr, parts);
    } else {
      var rest := Separated(TypeOr, parts[1..]);
      AnyRead(parts[1..], env);
      FactorReads(parts[0], [Or] + rest, env);
      assert [Open] + ToText(parts[0]) + [Close] + ([Or] + rest) == Separated(TypeOr, parts);
      assert ([Or] + rest)[1..] == rest;
      HeadHolds(parts, env);
    }
  }

  /** The text of a predicate has the truth value of the predicate. */
  lemma {:induction false} TextMeansPredicate(p: Predicate, env: Assignment)
    requires WellFormed(p, env)
    ensures ReadsBack(p, env)
    decreases p
  {
    if p.Composite? {
      forall i | 0 <= i < |p.parts|
        ensures ReadsBack(p.parts[i], env)
      {
        TextMeansPredicate(p.parts[i], env);
      }
      if |p.parts| > 1 {
        if p.kind == TypeAnd {
          AllRead(p.parts, env);
        } else {
          AnyRead(p.parts, env);
        }
      }
    }
  }

  // ---------------------------------------------------------------------------------------
  // where, andWhere, orWhere
  // ---------------------------------------------------------------------------------------

  datatype Call =
    | Where(predicates: seq<Predicate>)
    | AndWhere(predicates: seq<Predicate>)
    | OrWhere(predicates: seq<Predicate>)

  /** Calls name at least one predicate. */
  ghost predicate CallWellFormed(c: Call, env: Assignment) {
    c.predicates != [] && forall i | 0 <= i < |c.predicates| :: WellFormed(c.predicates[i], env)
  }

  ghost predicate AllHold(ps: seq<Predicate>, env: Assignment) { forall i | 0 <= i < |ps| :: Holds(ps[i], env) }

  ghost predicate AnyHolds(ps: seq<Predicate>, env: Assignment) { exists i | 0 <= i < |ps| :: Holds(ps[i], env) }

  /** What the calls say, from left to right; None as long as there is no condition. */
  ghost function Folded(before: Option<bool>, calls: seq<Call>, env: Assignment): Option<bool> {
    if calls == [] then before
    else
      var prior, last := Folded(before, calls[..|calls| - 1], env), calls[|calls| - 1];
      match last
      case Where(ps) => Some(AllHold(ps, env))
      case AndWhere(ps) => Some((prior.Some? ==> prior.value) && AllHold(ps, env))
      case OrWhere(ps) => Some((prior.Some? && prior.value) || AnyHolds(ps, env))
  }

  ghost function Condition(where: Option<Predicate>, env: Assignment): Option<bool> {
    if where.None? then None else Some(Holds(where.value, env))
  }

  lemma OneHolds(p: Predicate, env: Assignment)
    ensures AllHold([p], env) == Holds(p, env) && AnyHolds([p], env) == Holds(p, env)
  {
    assert [p][0] == p;
  }

  lemma FoldedNext(before: Option<bool>, calls: seq<Call>, i: nat, env: Assignment)
    requires i < |calls|
    ensures Folded(before, calls[..i + 1], env) == Folded(Folded(before, calls[..i], env), [calls[i]], env)
  {
    hide AllHold, AnyHolds;
    assert calls[..i + 1][..i] == calls[..i] && [calls[i]][..0] == [];
    assert Folded(Folded(before, calls[..i], env), [], env) == Folded(before, calls[..i], env);
  }

  lemma HoldAppend(a: seq<Predicate>, b: seq<Predicate>, env: Assignment)
    ensures AllHold(a + b, env) == (AllHold(a, env) && AllHold(b, env))
    ensures AnyHolds(a + b, env) == (AnyHolds(a, env) || AnyHolds(b, env))
  {
    hide Holds;
    var c := a + b;
    assert forall i | 0 <= i < |a| :: c[i] == a[i];
    assert forall i | 0 <= i < |b| :: c[|a| + i] == b[i];
  }
}
