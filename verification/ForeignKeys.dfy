/** The pairing of foreign keys in Comparator.compareTables (src/schema/comparator.ts). */
module ForeignKeys {
  import opened Text

  /** Names and columns are asset keys; a foreign key without a name has the name "". */
  datatype ForeignKey = ForeignKey(name: string, definition: Definition)

  datatype Definition =
    Definition(localColumns: seq<string>, foreignColumns: seq<string>, foreignTable: string, onUpdate: string,
               onDelete: string)

  /** The comparison of the five parts. */
  predicate DiffForeignKey(a: ForeignKey, b: ForeignKey)
    ensures DiffForeignKey(a, b) <==> a.definition != b.definition
  {
    || a.definition.localColumns != b.definition.localColumns
    || a.definition.foreignColumns != b.definition.foreignColumns
    || a.definition.foreignTable != b.definition.foreignTable
    || a.definition.onUpdate != b.definition.onUpdate
    || a.definition.onDelete != b.definition.onDelete
  }

  /** Kept pairs, replaced pairs, and what is left over on either side. */
  datatype Pairing =
    Pairing(kept: seq<(ForeignKey, ForeignKey)>, replaced: seq<(ForeignKey, ForeignKey)>,
            oldRest: seq<ForeignKey>, newRest: seq<ForeignKey>)
  {
    function Dropped(): seq<ForeignKey> { Firsts(replaced) + oldRest }

    function Added(): seq<ForeignKey> { Seconds(replaced) + newRest }
  }

  function Firsts(pairs: seq<(ForeignKey, ForeignKey)>): (r: seq<ForeignKey>)
    ensures |r| == |pairs|
  {
    seq(|pairs|, i requires 0 <= i < |pairs| => pairs[i].0)
  }

  function Seconds(pairs: seq<(ForeignKey, ForeignKey)>): (r: seq<ForeignKey>)
    ensures |r| == |pairs|
  {
    seq(|pairs|, i requires 0 <= i < |pairs| => pairs[i].1)
  }

  predicate Meets(a: ForeignKey, b: ForeignKey) { !DiffForeignKey(a, b) || a.name == b.name }

  function Remove<T>(s: seq<T>, i: nat): seq<T>
    requires i < |s|
  {
    s[..i] + s[i + 1..]
  }

  /** Each old key in turn takes the first new one that is equal or has its name. */
  function Pair(olds: seq<ForeignKey>, news: seq<ForeignKey>): Pairing {
    if olds == [] then Pairing([], [], [], news)
    else
      var hit := FirstMeeting(olds[0], news);
      if hit.None? then
        var r := Pair(olds[1..], news);
        r.(oldRest := [olds[0]] + r.oldRest)
      else
        var pair := (olds[0], news[hit.value]);
        var r := Pair(olds[1..], Remove(news, hit.value));
        if !DiffForeignKey(pair.0, pair.1) then r.(kept := [pair] + r.kept) else r.(replaced := [pair] + r.replaced)
  }

  function FirstMeeting(a: ForeignKey, news: seq<ForeignKey>): (r: Option<nat>)
    ensures r.Some? ==> r.value < |news| && Meets(a, news[r.value])
    ensures forall i | 0 <= i < (if r.Some? then r.value else |news|) :: !Meets(a, news[i])
  {
    if news == [] then None
    else if Meets(a, news[0]) then Some(0)
    else
      var r := FirstMeeting(a, news[1..]);
      if r.Some? then Some(r.value + 1) else None
  }

  // ---------------------------------------------------------------------------------------
  // The loop
  // ---------------------------------------------------------------------------------------

  /** The pairing of the keys seen so far, followed by that of the others. */
  function Then(a: Pairing, b: Pairing): Pairing {
    Pairing(a.kept + b.kept, a.replaced + b.replaced, a.oldRest + b.oldRest, b.newRest)
  }

  lemma UnfoldNone(olds: seq<ForeignKey>, news: seq<ForeignKey>)
    requires olds != [] && forall j | 0 <= j < |news| :: !Meets(olds[0], news[j])
    ensures var r := Pair(olds[1..], news); Pair(olds, news) == r.(oldRest := [olds[0]] + r.oldRest)
  {
    hide Meets;
    assert FirstMeeting(olds[0], news).None?;
  }

  lemma UnfoldSome(olds: seq<ForeignKey>, news: seq<ForeignKey>, k: nat)
    requires olds != [] && k < |news| && Meets(olds[0], news[k]) && forall j | 0 <= j < k :: !Meets(olds[0], news[j])
    ensures var pair, r := (olds[0], news[k]), Pair(olds[1..], Remove(news, k));
            Pair(olds, news) == if !DiffForeignKey(pair.0, pair.1) then r.(kept := [pair] + r.kept)
                                else r.(replaced := [pair] + r.replaced)
  {
    hide Meets, DiffForeignKey, Remove;
    var hit := FirstMeeting(olds[0], news);
    assert hit.Some? && Meets(olds[0], news[hit.value]);
    assert hit == Some(k);
  }

  lemma PairNone(olds: seq<ForeignKey>, news: seq<ForeignKey>, i: nat, p: Pairing)
    requires i < |olds| && p.oldRest == olds[..i]
    requires forall j | 0 <= j < |news| :: !Meets(olds[i], news[j])
    ensures Then(p.(oldRest := olds[..i + 1]), Pair(olds[i + 1..], news)) == Then(p, Pair(olds[i..], news))
  {
    hide Pair, Meets;
    var seen, rest := olds[..i], Pair(olds[i + 1..], news).oldRest;
    assert seen + [olds[i]] == olds[..i + 1];
    Regroup(seen, olds[i], rest);
    assert olds[i..][1..] == olds[i + 1..];
    UnfoldNone(olds[i..], news);
  }

  lemma Regroup<T>(a: seq<T>, x: T, b: seq<T>)
    ensures a + ([x] + b) == a + [x] + b
  {
  }

  lemma PairSome(olds: seq<ForeignKey>, news: seq<ForeignKey>, i: nat, k: nat, p: Pairing, q: Pairing)
    requires i < |olds| && k < |news| && p.oldRest == olds[..i]
    requires Meets(olds[i], news[k]) && forall j | 0 <= j < k :: !Meets(olds[i], news[j])
    requires q == if !DiffForeignKey(olds[i], news[k]) then p.(kept := p.kept + [(olds[i], news[k])])
                  else p.(replaced := p.replaced + [(olds[i], news[k])])
    ensures Then(q, Pair(Remove(olds, i)[i..], Remove(news, k))) == Then(p, Pair(olds[i..], news))
    ensures Remove(olds, i)[..i] == olds[..i]
  {
    hide Pair, Meets, DiffForeignKey;
    UnfoldSome(olds[i..], news, k);
    assert olds[i..][1..] == olds[i + 1..] && Remove(olds, i)[i..] == olds[i + 1..];
    assert Remove(olds, i)[..i] == olds[..i];
    hide Remove;
    var pair, rest := (olds[i], news[k]), Pair(olds[i + 1..], Remove(news, k));
    Regroup(p.kept, pair, rest.kept);
    Regroup(p.replaced, pair, rest.replaced);
  }

  /** The nested loops, which take keys out of both lists while they run over them. */
  method PairForeignKeys(olds: seq<ForeignKey>, news: seq<ForeignKey>)
    returns (dropped: seq<ForeignKey>, added: seq<ForeignKey>)
    ensures dropped == Pair(olds, news).Dropped() && added == Pair(olds, news).Added()
  {
    var oldKeys, newKeys := olds, news;
    dropped, added := [], [];
    ghost var p := Pairing([], [], [], news);
    var oldIndex := 0;
    while oldIndex < |oldKeys|
      invariant 0 <= oldIndex <= |oldKeys|
      invariant p.oldRest == oldKeys[..oldIndex]
      invariant Then(p, Pair(oldKeys[oldIndex..], newKeys)) == Pair(olds, news)
      invariant dropped == Firsts(p.replaced) && added == Seconds(p.replaced)
      decreases |oldKeys| - oldIndex
    {
      var oldKey, newIndex, taken := oldKeys[oldIndex], 0, false;
      ghost var before, oldsBefore, newsBefore := p, oldKeys, newKeys;
      while newIndex < |newKeys| && !taken
        invariant 0 <= newIndex <= |newKeys|
        invariant forall j | 0 <= j < newIndex :: !taken ==> !Meets(oldKey, newKeys[j])
        invariant !taken ==> p == before && oldKeys == oldsBefore && newKeys == newsBefore
        invariant taken ==> oldKeys == Remove(oldsBefore, oldIndex) && p.oldRest == oldKeys[..oldIndex]
        invariant taken ==>
                    && Then(p, Pair(oldKeys[oldIndex..], newKeys))
                    == Then(before, Pair(oldsBefore[oldIndex..], newsBefore))
        invariant dropped == Firsts(p.replaced) && added == Seconds(p.replaced)
        decreases |newKeys| - newIndex, !taken
      {
        var newKey := newKeys[newIndex];
        if !DiffForeignKey(oldKey, newKey) {
          p := p.(kept := p.kept + [(oldKey, newKey)]);
          PairSome(oldKeys, newKeys, oldIndex, newIndex, before, p);
          oldKeys, newKeys, taken := Remove(oldKeys, oldIndex), Remove(newKeys, newIndex), true;
        } else if oldKey.name == newKey.name {
          p := p.(replaced := p.replaced + [(oldKey, newKey)]);
          PairSome(oldKeys, newKeys, oldIndex, newIndex, before, p);
          dropped, added := dropped + [oldKey], added + [newKey];
          oldKeys, newKeys, taken := Remove(oldKeys, oldIndex), Remove(newKeys, newIndex), true;
        } else {
          newIndex := newIndex + 1;
        }
      }
      if !taken {
        PairNone(oldKeys, newKeys, oldIndex, p);
        p := p.(oldRest := oldKeys[..oldIndex + 1]);
        oldIndex := oldIndex + 1;
      }
    }
    assert oldKeys[..oldIndex] == oldKeys;
    dropped, added := dropped + oldKeys, added + newKeys;
  }

  // ---------------------------------------------------------------------------------------
  // What pairing keeps
  // ---------------------------------------------------------------------------------------

  /** No key is lost or made up on either side. */
  ghost predicate Conserves(olds: seq<ForeignKey>, news: seq<ForeignKey>, p: Pairing) {
    && multiset(p.Dropped()) + multiset(Firsts(p.kept)) == multiset(olds)
    && multiset(p.Added()) + multiset(Seconds(p.kept)) == multiset(news)
  }

  lemma ConservesNone(o: ForeignKey, olds: seq<ForeignKey>, news: seq<ForeignKey>, r: Pairing)
    requires Conserves(olds, news, r)
    ensures Conserves([o] + olds, news, r.(oldRest := [o] + r.oldRest))
  {
    hide Firsts, Seconds;
    assert multiset(Firsts(r.replaced) + ([o] + r.oldRest)) == multiset{o} + multiset(Firsts(r.replaced) + r.oldRest);
  }

  lemma ConservesKept(o: ForeignKey, n: ForeignKey, olds: seq<ForeignKey>, before: seq<ForeignKey>,
                      after: seq<ForeignKey>, r: Pairing)
    requires Conserves(olds, before + after, r)
    ensures Conserves([o] + olds, before + ([n] + after), r.(kept := [(o, n)] + r.kept))
  {
    assert Firsts([(o, n)] + r.kept) == [o] + Firsts(r.kept) && Seconds([(o, n)] + r.kept) == [n] + Seconds(r.kept);
    hide Firsts, Seconds;
    OneMore(o, [], olds);
    OneMore(n, before, after);
    assert [] + ([o] + olds) == [o] + olds && [] + olds == olds;
    OneMore(o, [], Firsts(r.kept));
    OneMore(n, [], Seconds(r.kept));
    assert [] + ([o] + Firsts(r.kept)) == [o] + Firsts(r.kept) && [] + Firsts(r.kept) == Firsts(r.kept);
    assert [] + ([n] + Seconds(r.kept)) == [n] + Seconds(r.kept) && [] + Seconds(r.kept) == Seconds(r.kept);
    OnBothSides(o, multiset(Firsts(r.kept)), multiset(r.Dropped()), multiset(olds));
    OnBothSides(n, multiset(Seconds(r.kept)), multiset(r.Added()), multiset(before + after));
  }

  lemma ConservesReplaced(o: ForeignKey, n: ForeignKey, olds: seq<ForeignKey>, before: seq<ForeignKey>,
                          after: seq<ForeignKey>, r: Pairing)
    requires Conserves(olds, before + after, r)
    ensures Conserves([o] + olds, before + ([n] + after), r.(replaced := [(o, n)] + r.replaced))
  {
    var r' := r.(replaced := [(o, n)] + r.replaced);
    OneReplaced(o, n, r);
    hide Firsts, Seconds, Pairing.Dropped, Pairing.Added;
    OneMore(o, [], olds);
    OneMore(n, before, after);
    assert [] + ([o] + olds) == [o] + olds && [] + olds == olds;
    OnBothSides(o, multiset(r.Dropped()), multiset(Firsts(r.kept)), multiset(olds));
    OnBothSides(n, multiset(r.Added()), multiset(Seconds(r.kept)), multiset(before + after));
  }

  lemma OneReplaced(o: ForeignKey, n: ForeignKey, r: Pairing)
    ensures var r' := r.(replaced := [(o, n)] + r.replaced);
            && multiset(r'.Dropped()) == multiset{o} + multiset(r.Dropped())
            && multiset(r'.Added()) == multiset{n} + multiset(r.Added())
  {
    assert Firsts([(o, n)] + r.replaced) == [o] + Firsts(r.replaced);
    assert Seconds([(o, n)] + r.replaced) == [n] + Seconds(r.replaced);
    hide Firsts, Seconds;
    assert [o] + Firsts(r.replaced) + r.oldRest == [o] + (Firsts(r.replaced) + r.oldRest);
    assert [n] + Seconds(r.replaced) + r.newRest == [n] + (Seconds(r.replaced) + r.newRest);
  }

  lemma OneMore(x: ForeignKey, before: seq<ForeignKey>, after: seq<ForeignKey>)
    ensures multiset(before + ([x] + after)) == multiset{x} + multiset(before + after)
  {
  }

  lemma OnBothSides(x: ForeignKey, a: multiset<ForeignKey>, b: multiset<ForeignKey>, c: multiset<ForeignKey>)
    ensures a + b == c || b + a == c ==>
              (multiset{x} + a) + b == multiset{x} + c && b + (multiset{x} + a) == multiset{x} + c
  {
  }

  lemma {:induction false} PairingConserves(olds: seq<ForeignKey>, news: seq<ForeignKey>)
    ensures Conserves(olds, news, Pair(olds, news))
  {
    if olds == [] {
      assert Firsts([]) == [] && Seconds([]) == [];
    } else {
      var hit := FirstMeeting(olds[0], news);
      assert olds == [olds[0]] + olds[1..];
      if hit.None? {
        PairingConserves(olds[1..], news);
        ConservesNone(olds[0], olds[1..], news, Pair(olds[1..], news));
      } else {
        var before, n, after := news[..hit.value], news[hit.value], news[hit.value + 1..];
        assert news == before + ([n] + after);
        PairingConserves(olds[1..], before + after);
        ConservesKept(olds[0], n, olds[1..], before, after, Pair(olds[1..], before + after));
        ConservesReplaced(olds[0], n, olds[1..], before, after, Pair(olds[1..], before + after));
        hide Conserves;
      }
    }
  }

  /** Kept pairs are equal, replaced ones differ under one name, and no two leftovers are equal or share a name. */
  ghost predicate Settled(p: Pairing) {
    && (forall q | q in p.kept :: q.0.definition == q.1.definition)
    && (forall q | q in p.replaced :: q.0.definition != q.1.definition && q.0.name == q.1.name)
    && (forall a, b | a in p.oldRest && b in p.newRest :: a.definition != b.definition && a.name != b.name)
  }

  lemma SettledUnpaired(o: ForeignKey, news: seq<ForeignKey>, r: Pairing)
    requires Settled(r) && (forall b | b in r.newRest :: b in news) && forall j | 0 <= j < |news| :: !Meets(o, news[j])
    ensures Settled(r.(oldRest := [o] + r.oldRest))
  {
    hide DiffForeignKey;
  }

  lemma SettledPaired(o: ForeignKey, n: ForeignKey, r: Pairing)
    requires Settled(r) && Meets(o, n)
    ensures Settled(if !DiffForeignKey(o, n) then r.(kept := [(o, n)] + r.kept)
                    else r.(replaced := [(o, n)] + r.replaced))
  {
    hide DiffForeignKey;
  }

  lemma {:induction false} PairingIsSettled(olds: seq<ForeignKey>, news: seq<ForeignKey>)
    ensures Settled(Pair(olds, news))
    ensures forall b | b in Pair(olds, news).newRest :: b in news
  {
    if olds != [] {
      hide DiffForeignKey, Settled, Meets, Pair;
      var hit := FirstMeeting(olds[0], news);
      if hit.None? {
        PairingIsSettled(olds[1..], news);
        UnfoldNone(olds, news);
        SettledUnpaired(olds[0], news, Pair(olds[1..], news));
      } else {
        var rest := Remove(news, hit.value);
        PairingIsSettled(olds[1..], rest);
        UnfoldSome(olds, news, hit.value);
        SettledPaired(olds[0], news[hit.value], Pair(olds[1..], rest));
        assert forall b | b in rest :: b in news;
      }
    } else {
      assert Pair([], news) == Pairing([], [], [], news);
    }
  }

  /**
    * Names can get in the way of equality: an unchanged key without a name is dropped and added
    * again when another new key without a name comes first.
    */
  lemma UnnamedKeyIsReplaced(a: ForeignKey, b: ForeignKey)
    requires a.name == "" && b.name == "" && DiffForeignKey(a, b)
    ensures var p := Pair([a], [b, a]);
            p.kept == [] && p.Dropped() == [a] && p.Added() == [b, a]
  {
    assert FirstMeeting(a, [b, a]) == Some(0);
    assert Remove([b, a], 0) == [a] && [a][1..] == [];
    var p := Pair([a], [b, a]);
    assert Pair([], [a]) == Pairing([], [], [], [a]);
    assert p == Pairing([], [(a, b)], [], [a]);
    assert Firsts([(a, b)]) == [a] && Seconds([(a, b)]) == [b];
  }

  // ---------------------------------------------------------------------------------------
  // Unchanged keys
  // ---------------------------------------------------------------------------------------

  /** How many keys are equal to a, whatever their names. */
  function Equals(keys: seq<ForeignKey>, a: ForeignKey): nat {
    if keys == [] then 0 else One(keys[0], a) + Equals(keys[1..], a)
  }

  function One(b: ForeignKey, a: ForeignKey): nat { if DiffForeignKey(a, b) then 0 else 1 }

  lemma {:induction false} EqualsAppend(s: seq<ForeignKey>, t: seq<ForeignKey>, a: ForeignKey)
    ensures Equals(s + t, a) == Equals(s, a) + Equals(t, a)
  {
    if s == [] {
      assert s + t == t;
    } else {
      assert (s + t)[1..] == s[1..] + t;
      EqualsAppend(s[1..], t, a);
    }
  }

  lemma EqualsCons(b: ForeignKey, keys: seq<ForeignKey>, a: ForeignKey)
    ensures Equals([b] + keys, a) == One(b, a) + Equals(keys, a)
  {
    assert ([b] + keys)[1..] == keys;
  }

  lemma EqualsRemove(keys: seq<ForeignKey>, k: nat, a: ForeignKey)
    requires k < |keys|
    ensures Equals(keys, a) == One(keys[k], a) + Equals(Remove(keys, k), a)
  {
    assert keys == keys[..k] + ([keys[k]] + keys[k + 1..]);
    EqualsAppend(keys[..k], [keys[k]] + keys[k + 1..], a);
    EqualsCons(keys[k], keys[k + 1..], a);
    EqualsAppend(keys[..k], keys[k + 1..], a);
  }

  lemma {:induction false} SomeEqual(keys: seq<ForeignKey>, a: ForeignKey)
    ensures Equals(keys, a) > 0 <==> exists b | b in keys :: !DiffForeignKey(a, b)
  {
    if keys != [] {
      SomeEqual(keys[1..], a);
      assert keys == [keys[0]] + keys[1..];
    }
  }

  /** The new keys left after the first old one took what it meets. */
  function RestOf(olds: seq<ForeignKey>, news: seq<ForeignKey>): seq<ForeignKey>
    requires olds != []
  {
    match FirstMeeting(olds[0], news)
    case None => news
    case Some(k) => Remove(news, k)
  }

  /** A step of pairing, in numbers of keys equal to a. */
  lemma UnpairedCounts(olds: seq<ForeignKey>, news: seq<ForeignKey>, a: ForeignKey)
    requires olds != [] && FirstMeeting(olds[0], news).None?
    ensures var p, r := Pair(olds, news), Pair(olds[1..], RestOf(olds, news));
            && Equals(p.Dropped(), a) == One(olds[0], a) + Equals(r.Dropped(), a)
            && Equals(p.Added(), a) == Equals(r.Added(), a)
  {
    var o, r := olds[0], Pair(olds[1..], news);
    hide Meets, Pair, Firsts, One;
    UnfoldNone(olds, news);
    EqualsAppend(Firsts(r.replaced), [o] + r.oldRest, a);
    EqualsCons(o, r.oldRest, a);
    EqualsAppend(Firsts(r.replaced), r.oldRest, a);
  }

  lemma PairedCounts(olds: seq<ForeignKey>, news: seq<ForeignKey>, a: ForeignKey)
    requires olds != [] && FirstMeeting(olds[0], news).Some?
    ensures var o, n := olds[0], news[FirstMeeting(olds[0], news).value];
            var p, r := Pair(olds, news), Pair(olds[1..], RestOf(olds, news));
            && Equals(news, a) == One(n, a) + Equals(RestOf(olds, news), a)
            && (DiffForeignKey(o, n) ==>
                  && Equals(p.Dropped(), a) == One(o, a) + Equals(r.Dropped(), a)
                  && Equals(p.Added(), a) == One(n, a) + Equals(r.Added(), a))
            && (!DiffForeignKey(o, n) ==>
                  && One(o, a) == One(n, a)
                  && Equals(p.Dropped(), a) == Equals(r.Dropped(), a)
                  && Equals(p.Added(), a) == Equals(r.Added(), a))
  {
    var k := FirstMeeting(olds[0], news).value;
    UnfoldSome(olds, news, k);
    EqualsRemove(news, k, a);
    hide Pair, Remove, Meets;
    ReplacedCounts(olds[0], news[k], Pair(olds[1..], RestOf(olds, news)), a);
  }

  lemma ReplacedCounts(o: ForeignKey, n: ForeignKey, r: Pairing, a: ForeignKey)
    ensures var p := r.(replaced := [(o, n)] + r.replaced);
            && Equals(p.Dropped(), a) == One(o, a) + Equals(r.Dropped(), a)
            && Equals(p.Added(), a) == One(n, a) + Equals(r.Added(), a)
  {
    assert Firsts([(o, n)] + r.replaced) == [o] + Firsts(r.replaced);
    assert Seconds([(o, n)] + r.replaced) == [n] + Seconds(r.replaced);
    hide Firsts, Seconds, One;
    assert [o] + Firsts(r.replaced) + r.oldRest == [o] + (Firsts(r.replaced) + r.oldRest);
    assert [n] + Seconds(r.replaced) + r.newRest == [n] + (Seconds(r.replaced) + r.newRest);
    EqualsCons(o, Firsts(r.replaced) + r.oldRest, a);
    EqualsCons(n, Seconds(r.replaced) + r.newRest, a);
  }

  /** Kept keys are equal in pairs, so both sides lose as many keys that are equal to a. */
  lemma {:induction false} EqualsBalance(olds: seq<ForeignKey>, news: seq<ForeignKey>, a: ForeignKey)
    ensures var p := Pair(olds, news);
            && Equals(p.Added(), a) <= Equals(news, a)
            && Equals(olds, a) + Equals(p.Added(), a) == Equals(news, a) + Equals(p.Dropped(), a)
    decreases |olds|
  {
    if olds == [] {
      assert Firsts([]) + [] == [] && Seconds([]) + news == news;
    } else {
      EqualsBalance(olds[1..], RestOf(olds, news), a);
      if FirstMeeting(olds[0], news).None? {
        UnpairedCounts(olds, news, a);
      } else {
        PairedCounts(olds, news, a);
      }
    }
  }

  /** No key is dropped while an equal one is added. */
  ghost predicate KeepsEquals(p: Pairing) {
    forall a :: Equals(p.Dropped(), a) == 0 || Equals(p.Added(), a) == 0
  }

  /**
    * Where an old key meets a different new key of its name first, the keys that are left can pair
    * every new key equal to the old one, and every old key equal to the new one.
    */
  predicate Undisturbed(olds: seq<ForeignKey>, news: seq<ForeignKey>)
    decreases |olds|
  {
    olds == []
    || match FirstMeeting(olds[0], news)
       case None => Undisturbed(olds[1..], news)
       case Some(k) =>
         var o, n, os, ns := olds[0], news[k], olds[1..], Remove(news, k);
         && Undisturbed(os, ns)
         && (DiffForeignKey(o, n) ==> Equals(ns, o) <= Equals(os, o) && Equals(os, n) <= Equals(ns, n))
  }

  lemma {:induction false} SameEquals(keys: seq<ForeignKey>, a: ForeignKey, b: ForeignKey)
    requires !DiffForeignKey(a, b)
    ensures Equals(keys, a) == Equals(keys, b)
  {
    if keys != [] {
      SameEquals(keys[1..], a, b);
    }
  }

  lemma UnpairedStep(olds: seq<ForeignKey>, news: seq<ForeignKey>)
    requires olds != [] && FirstMeeting(olds[0], news).None?
    ensures KeepsEquals(Pair(olds, news)) <==> KeepsEquals(Pair(olds[1..], news))
  {
    var o, p, r := olds[0], Pair(olds, news), Pair(olds[1..], news);
    forall a
      ensures Equals(p.Added(), a) == Equals(r.Added(), a)
      ensures Equals(p.Dropped(), a) == Equals(r.Dropped(), a) || Equals(p.Added(), a) == 0
    {
      UnpairedCounts(olds, news, a);
      EqualsBalance(olds, news, a);
      SomeEqual(news, a);
    }
  }

  lemma EqualStep(olds: seq<ForeignKey>, news: seq<ForeignKey>)
    requires olds != []
    requires var hit := FirstMeeting(olds[0], news); hit.Some? && !DiffForeignKey(olds[0], news[hit.value])
    ensures KeepsEquals(Pair(olds, news)) <==> KeepsEquals(Pair(olds[1..], RestOf(olds, news)))
  {
    var p, r := Pair(olds, news), Pair(olds[1..], RestOf(olds, news));
    forall a
      ensures Equals(p.Added(), a) == Equals(r.Added(), a) && Equals(p.Dropped(), a) == Equals(r.Dropped(), a)
    {
      PairedCounts(olds, news, a);
    }
  }

  lemma DifferentStep(olds: seq<ForeignKey>, news: seq<ForeignKey>)
    requires olds != []
    requires var hit := FirstMeeting(olds[0], news); hit.Some? && DiffForeignKey(olds[0], news[hit.value])
    ensures var o, n := olds[0], news[FirstMeeting(olds[0], news).value];
            var os, ns := olds[1..], RestOf(olds, news);
            KeepsEquals(Pair(olds, news))
            <==> KeepsEquals(Pair(os, ns)) && Equals(ns, o) <= Equals(os, o) && Equals(os, n) <= Equals(ns, n)
  {
    var o, n := olds[0], news[FirstMeeting(olds[0], news).value];
    var os, ns := olds[1..], RestOf(olds, news);
    var p, r := Pair(olds, news), Pair(os, ns);
    hide Pair, RestOf, Meets, FirstMeeting, Pairing.Dropped, Pairing.Added;
    forall a
      ensures Equals(p.Dropped(), a) == One(o, a) + Equals(r.Dropped(), a)
      ensures Equals(p.Added(), a) == One(n, a) + Equals(r.Added(), a)
      ensures One(o, a) == 1 ==> Equals(r.Added(), a) == Equals(r.Added(), o)
      ensures One(n, a) == 1 ==> Equals(r.Dropped(), a) == Equals(r.Dropped(), n)
    {
      PairedCounts(olds, news, a);
      if One(o, a) == 1 {
        SameEquals(r.Added(), a, o);
      }
      if One(n, a) == 1 {
        SameEquals(r.Dropped(), a, n);
      }
    }
    EqualsBalance(os, ns, o);
    EqualsBalance(os, ns, n);
    if KeepsEquals(p) {
      assert Equals(p.Added(), o) == 0 && Equals(p.Dropped(), n) == 0;
    }
  }

  lemma {:induction false} KeptInTurn(olds: seq<ForeignKey>, news: seq<ForeignKey>)
    ensures KeepsEquals(Pair(olds, news)) <==> Undisturbed(olds, news)
    decreases |olds|
  {
    if olds == [] {
      assert Firsts([]) + [] == [];
    } else {
      hide KeepsEquals, Pair, Meets, DiffForeignKey, Remove, Equals;
      var hit := FirstMeeting(olds[0], news);
      KeptInTurn(olds[1..], RestOf(olds, news));
      if hit.None? {
        UnpairedStep(olds, news);
      } else if DiffForeignKey(olds[0], news[hit.value]) {
        DifferentStep(olds, news);
      } else {
        EqualStep(olds, news);
      }
    }
  }

  /**
    * A key is dropped while an equal one is added exactly when some old key, at its turn, meets a
    * different new key of its name first, and one of the two leaves an equal key without a partner.
    */
  lemma KeptExactly(olds: seq<ForeignKey>, news: seq<ForeignKey>)
    ensures var p := Pair(olds, news);
            (exists x, b | x in p.Dropped() && b in p.Added() :: x.definition == b.definition)
            <==> !Undisturbed(olds, news)
  {
    var p := Pair(olds, news);
    KeptInTurn(olds, news);
    hide Pair, Undisturbed, Pairing.Dropped, Pairing.Added;
    if x, b :| x in p.Dropped() && b in p.Added() && !DiffForeignKey(x, b) {
      SomeEqual(p.Dropped(), x);
      SomeEqual(p.Added(), x);
    }
    if !KeepsEquals(p) {
      var a :| Equals(p.Dropped(), a) != 0 && Equals(p.Added(), a) != 0;
      SomeEqual(p.Dropped(), a);
      SomeEqual(p.Added(), a);
    }
  }

  /** A key meets no other than its equals: its name is given to no different new key. */
  predicate OwnName(a: ForeignKey, news: seq<ForeignKey>) {
    forall b | b in news :: a.name == b.name ==> !DiffForeignKey(a, b)
  }

  lemma {:induction false} OwnNamesReplaceNothing(olds: seq<ForeignKey>, news: seq<ForeignKey>)
    requires forall a | a in olds :: OwnName(a, news)
    ensures Pair(olds, news).replaced == []
  {
    if olds != [] {
      var hit := FirstMeeting(olds[0], news);
      var rest := if hit.None? then news else Remove(news, hit.value);
      forall a | a in olds[1..]
        ensures OwnName(a, rest)
      {
        assert OwnName(a, news);
        assert forall b | b in rest :: b in news;
      }
      OwnNamesReplaceNothing(olds[1..], rest);
      assert OwnName(olds[0], news);
    }
  }

  /** Keys are only replaced under a name that two different keys share. */
  lemma OwnNamesAreKept(olds: seq<ForeignKey>, news: seq<ForeignKey>)
    requires forall a | a in olds :: OwnName(a, news)
    ensures Pair(olds, news).replaced == []
    ensures forall a, b | a in Pair(olds, news).Dropped() && b in Pair(olds, news).Added() ::
              a.definition != b.definition
  {
    OwnNamesReplaceNothing(olds, news);
    hide OwnName;
    PairingIsSettled(olds, news);
    var p := Pair(olds, news);
    assert p.replaced == [] && Firsts(p.replaced) == [] && Seconds(p.replaced) == [];
    assert p.Dropped() == p.oldRest && p.Added() == p.newRest;
  }
}
