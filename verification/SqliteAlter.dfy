/**
  * The statements of SQLitePlatform.getAlterTableSQL (src/platforms/sqlite-platform.ts): columns
  * are added one by one where nothing else changes, otherwise the table is rebuilt.
  *
  * The comparison of definitions and the definitions that ADD COLUMN cannot express are parameters.
  */
module SqliteAlter {
  import opened Text
  import opened OrderedMaps
  import opened Comparator
  import opened SqliteDatabase

  datatype TableDefinition = TableDefinition(name: string, columns: seq<Column>)

  datatype TableDiff = TableDiff(oldTable: TableDefinition, newTable: TableDefinition, columns: Changes,
                                 touchesIndexesOrKeys: bool)

  datatype Rules = Rules(sameDefinition: (Column, Column) -> bool, requiresRebuild: Column -> bool)

  function TemporaryName(table: string): string { "__temp__" + table }

  // ---------------------------------------------------------------------------------------
  // ADD COLUMN
  // ---------------------------------------------------------------------------------------

  function AddColumns(table: string, columns: seq<Column>): (r: seq<Statement>)
    ensures |r| == |columns|
  {
    seq(|columns|, i requires 0 <= i < |columns| => AddColumn(table, columns[i]))
  }

  predicate IsSimple(diff: TableDiff, added: seq<Column>, rules: Rules) {
    && diff.columns.changed.keys == [] && diff.columns.dropped.keys == [] && !diff.touchesIndexesOrKeys
    && forall c | c in added :: !rules.requiresRebuild(c) && c.name != ""
  }

  method GetSimpleAlterTable(diff: TableDiff, rules: Rules) returns (r: Option<seq<Statement>>)
    requires diff.columns.added.Valid()
    ensures forall k | k in diff.columns.added.keys :: k in diff.columns.added.at
    ensures r == if IsSimple(diff, diff.columns.added.Values(), rules)
                 then Some(AddColumns(diff.oldTable.name, diff.columns.added.Values())) else None
  {
    if diff.columns.changed.keys != [] || diff.columns.dropped.keys != [] || diff.touchesIndexesOrKeys {
      return None;
    }
    var added, statements := diff.columns.added.Values(), [];
    for i := 0 to |added|
      invariant statements == AddColumns(diff.oldTable.name, added[..i])
      invariant forall c | c in added[..i] :: !rules.requiresRebuild(c) && c.name != ""
    {
      if rules.requiresRebuild(added[i]) || added[i].name == "" {
        return None;
      }
      assert added[..i + 1] == added[..i] + [added[i]];
      statements := statements + [AddColumn(diff.oldTable.name, added[i])];
    }
    assert added[..|added|] == added;
    r := Some(statements);
  }

  // ---------------------------------------------------------------------------------------
  // What is copied
  // ---------------------------------------------------------------------------------------

  function CopySources(columns: seq<Column>, d: Changes): seq<string> {
    if columns == [] then []
    else
      var last := columns[|columns| - 1].name;
      CopySources(columns[..|columns| - 1], d) + if last in d.dropped.at then [] else [last]
  }

  function CopyTarget(d: Changes, name: string): string {
    if name in d.changed.at then d.changed.at[name].newColumn.name else name
  }

  function CopyTargets(d: Changes, sources: seq<string>): (r: seq<string>)
    ensures |r| == |sources|
  {
    seq(|sources|, i requires 0 <= i < |sources| => CopyTarget(d, sources[i]))
  }

  method BuildCopyColumnMap(oldColumns: seq<Column>, d: Changes) returns (sources: seq<string>, targets: seq<string>)
    ensures sources == CopySources(oldColumns, d) && targets == CopyTargets(d, sources)
  {
    sources, targets := [], [];
    for i := 0 to |oldColumns|
      invariant sources == CopySources(oldColumns[..i], d) && targets == CopyTargets(d, sources)
    {
      assert oldColumns[..i + 1][..i] == oldColumns[..i] && oldColumns[..i + 1][i] == oldColumns[i];
      var name := oldColumns[i].name;
      if name in d.dropped.at {
        continue;
      }
      if name in d.changed.at {
        sources, targets := sources + [name], targets + [d.changed.at[name].newColumn.name];
        continue;
      }
      sources, targets := sources + [name], targets + [name];
    }
    assert oldColumns[..|oldColumns|] == oldColumns;
  }

  // ---------------------------------------------------------------------------------------
  // The columns of the rebuilt table
  // ---------------------------------------------------------------------------------------

  /** Dropped columns paired with added columns of the same definition, each at most once. */
  ghost predicate PairsUp(d: Changes, implicit: map<string, Column>, same: (Column, Column) -> bool) {
    && (forall k | k in implicit :: k in d.dropped.at && same(d.dropped.at[k], implicit[k])
                                    && implicit[k].name in d.added.at && d.added.at[implicit[k].name] == implicit[k])
    && (forall j, k | j in implicit && k in implicit && j != k :: implicit[j].name != implicit[k].name)
  }

  function FirstSame(dropped: Column, columns: seq<Column>, same: (Column, Column) -> bool): (r: Option<nat>)
    ensures r.Some? ==> r.value < |columns| && same(dropped, columns[r.value])
    ensures forall i | 0 <= i < (if r.Some? then r.value else |columns|) :: !same(dropped, columns[i])
  {
    if columns == [] then None
    else if same(dropped, columns[0]) then Some(0)
    else
      var r := FirstSame(dropped, columns[1..], same);
      if r.Some? then Some(r.value + 1) else None
  }

  method FindIndex(dropped: Column, columns: seq<Column>, same: (Column, Column) -> bool) returns (r: Option<nat>)
    ensures r == FirstSame(dropped, columns, same)
  {
    for i := 0 to |columns|
      invariant forall j | 0 <= j < i :: !same(dropped, columns[j])
    {
      if same(dropped, columns[i]) {
        return Some(i);
      }
    }
    r := None;
  }

  /** Each dropped column in turn takes the first added one of its definition that is left. */
  function Taken(keys: seq<string>, dropped: seq<Column>, added: seq<Column>, same: (Column, Column) -> bool)
    : map<string, Column>
    requires |keys| == |dropped|
    decreases |keys|
  {
    if keys == [] then map[]
    else
      match FirstSame(dropped[0], added, same)
      case None => Taken(keys[1..], dropped[1..], added, same)
      case Some(i) => Taken(keys[1..], dropped[1..], added[..i] + added[i + 1..], same)[keys[0] := added[i]]
  }

  lemma {:induction false} TakenKeys(keys: seq<string>, dropped: seq<Column>, added: seq<Column>,
                                     same: (Column, Column) -> bool, name: string)
    requires |keys| == |dropped| && name !in keys
    ensures name !in Taken(keys, dropped, added, same)
    decreases |keys|
  {
    if keys != [] {
      assert name != keys[0] && name !in keys[1..];
      match FirstSame(dropped[0], added, same)
      case None => TakenKeys(keys[1..], dropped[1..], added, same, name);
      case Some(i) => TakenKeys(keys[1..], dropped[1..], added[..i] + added[i + 1..], same, name);
    }
  }

  /** No pair is missed: a dropped column without a partner differs from every added column that is left. */
  lemma {:induction false} NoPairIsMissed(keys: seq<string>, dropped: seq<Column>, added: seq<Column>,
                                          same: (Column, Column) -> bool, i: nat, c: Column)
    requires |keys| == |dropped| && Distinct(keys)
    requires i < |keys| && keys[i] !in Taken(keys, dropped, added, same)
    requires c in added && c !in Taken(keys, dropped, added, same).Values
    ensures !same(dropped[i], c)
    decreases |keys|
  {
    var r, taken := FirstSame(dropped[0], added, same), Taken(keys, dropped, added, same);
    assert Distinct(keys[1..]) && keys[0] !in keys[1..];
    if r.None? {
      if i > 0 {
        NoPairIsMissed(keys[1..], dropped[1..], added, same, i - 1, c);
      }
    } else {
      var rest := added[..r.value] + added[r.value + 1..];
      assert taken[keys[0]] in taken.Values;
      StillLeft(added, r.value, c);
      TakenKeys(keys[1..], dropped[1..], rest, same, keys[0]);
      var below := Taken(keys[1..], dropped[1..], rest, same);
      assert forall j | j in below :: j in taken && taken[j] == below[j];
      NoPairIsMissed(keys[1..], dropped[1..], rest, same, i - 1, c);
    }
  }

  lemma StillLeft(added: seq<Column>, i: nat, c: Column)
    requires i < |added| && c in added && c != added[i]
    ensures c in added[..i] + added[i + 1..]
  {
    assert added == added[..i] + [added[i]] + added[i + 1..];
  }

  method ImplicitRenames(d: Changes, rules: Rules) returns (implicit: map<string, Column>)
    requires d.added.Valid() && d.dropped.Valid()
    requires forall k | k in d.added.at :: d.added.at[k].name == k
    ensures PairsUp(d, implicit, rules.sameDefinition)
    ensures (forall k | k in d.added.keys :: k in d.added.at) && forall k | k in d.dropped.keys :: k in d.dropped.at
    ensures implicit == Taken(d.dropped.keys, d.dropped.Values(), d.added.Values(), rules.sameDefinition)
  {
    ValidKeys(d.added);
    ValidKeys(d.dropped);
    TakenPairsUp(d, rules.sameDefinition);
    hide PairsUp, Taken;
    implicit := TakeInTurn(d.dropped.keys, d.dropped.Values(), d.added.Values(), rules.sameDefinition);
  }

  /** The loop over the dropped columns, which takes columns out of the added ones. */
  method TakeInTurn(keys: seq<string>, dropped: seq<Column>, added: seq<Column>, same: (Column, Column) -> bool)
    returns (implicit: map<string, Column>)
    requires |keys| == |dropped| && Distinct(keys)
    ensures implicit == Taken(keys, dropped, added, same)
  {
    implicit := map[];
    var remainingAdded := added;
    ghost var all := Taken(keys, dropped, added, same);
    TakesFirst(keys, dropped, added, same);
    hide Taken, TakesOn, FirstSame, Distinct;
    for i := 0 to |keys|
      invariant TakesOn(keys[i..], dropped[i..], implicit, remainingAdded, all, same)
    {
      assert keys[i..][0] == keys[i] && keys[i..][1..] == keys[i + 1..];
      assert dropped[i..][0] == dropped[i] && dropped[i..][1..] == dropped[i + 1..];
      TakesNext(keys[i..], dropped[i..], implicit, remainingAdded, all, same);
      var matchIndex := FindIndex(dropped[i], remainingAdded, same);
      if matchIndex.Some? {
        var matched := remainingAdded[matchIndex.value];
        remainingAdded := remainingAdded[..matchIndex.value] + remainingAdded[matchIndex.value + 1..];
        implicit := implicit[keys[i] := matched];
      }
    }
    TakesLast(keys[|keys|..], dropped[|keys|..], implicit, remainingAdded, all, same);
  }

  lemma {:induction false} TakenOpen(d: Changes, keys: seq<string>, dropped: seq<Column>, implicit: map<string, Column>,
                                     remaining: seq<Column>, same: (Column, Column) -> bool)
    requires Open(d, implicit, same, remaining) && |keys| == |dropped| && Distinct(keys)
    requires forall i | 0 <= i < |keys| ::
               keys[i] !in implicit && keys[i] in d.dropped.at && d.dropped.at[keys[i]] == dropped[i]
    ensures PairsUp(d, implicit + Taken(keys, dropped, remaining, same), same)
    decreases |keys|
  {
    hide Open, PairsUp;
    if keys == [] {
      OpenPairs(d, implicit, same, remaining);
      assert implicit + map[] == implicit;
    } else {
      var r := FirstSame(dropped[0], remaining, same);
      assert Distinct(keys[1..]) && keys[0] !in keys[1..];
      if r.None? {
        TakenOpen(d, keys[1..], dropped[1..], implicit, remaining, same);
      } else {
        var left := remaining[..r.value] + remaining[r.value + 1..];
        OpenNext(d, implicit, same, remaining, keys[0], r.value);
        TakenKeys(keys[1..], dropped[1..], left, same, keys[0]);
        EnterFirst(implicit, keys[0], remaining[r.value], Taken(keys[1..], dropped[1..], left, same));
        TakenOpen(d, keys[1..], dropped[1..], implicit[keys[0] := remaining[r.value]], left, same);
      }
    }
  }

  lemma TakenPairsUp(d: Changes, same: (Column, Column) -> bool)
    requires d.added.Valid() && d.dropped.Valid()
    requires (forall k | k in d.added.keys :: k in d.added.at) && forall k | k in d.dropped.keys :: k in d.dropped.at
    requires forall k | k in d.added.at :: d.added.at[k].name == k
    ensures PairsUp(d, Taken(d.dropped.keys, d.dropped.Values(), d.added.Values(), same), same)
  {
    OpenFirst(d, same);
    hide Open, PairsUp, Taken;
    TakenOpen(d, d.dropped.keys, d.dropped.Values(), map[], d.added.Values(), same);
    var taken := Taken(d.dropped.keys, d.dropped.Values(), d.added.Values(), same);
    assert map[] + taken == taken;
  }

  /** The pairs so far, with those that the other keys take, are all pairs. */
  ghost predicate TakesOn(keys: seq<string>, dropped: seq<Column>, implicit: map<string, Column>,
                          remaining: seq<Column>, all: map<string, Column>, same: (Column, Column) -> bool)
  {
    && |keys| == |dropped| && Distinct(keys)
    && (forall j | 0 <= j < |keys| :: keys[j] !in implicit)
    && implicit + Taken(keys, dropped, remaining, same) == all
  }

  lemma TakesFirst(keys: seq<string>, dropped: seq<Column>, added: seq<Column>, same: (Column, Column) -> bool)
    requires |keys| == |dropped| && Distinct(keys)
    ensures TakesOn(keys[0..], dropped[0..], map[], added, Taken(keys, dropped, added, same), same)
  {
    hide Taken;
    assert keys[0..] == keys && dropped[0..] == dropped;
    assert map[] + Taken(keys, dropped, added, same) == Taken(keys, dropped, added, same);
  }

  lemma TakesNext(keys: seq<string>, dropped: seq<Column>, implicit: map<string, Column>,
                  remaining: seq<Column>, all: map<string, Column>, same: (Column, Column) -> bool)
    requires keys != [] && TakesOn(keys, dropped, implicit, remaining, all, same)
    ensures keys[0] !in implicit && |keys| == |dropped|
    ensures match FirstSame(dropped[0], remaining, same)
            case None => TakesOn(keys[1..], dropped[1..], implicit, remaining, all, same)
            case Some(j) =>
              TakesOn(keys[1..], dropped[1..], implicit[keys[0] := remaining[j]],
                      remaining[..j] + remaining[j + 1..], all, same)
  {
    var r := FirstSame(dropped[0], remaining, same);
    assert Distinct(keys[1..]) && keys[0] !in keys[1..];
    if r.Some? {
      var j := r.value;
      var left := remaining[..j] + remaining[j + 1..];
      TakenKeys(keys[1..], dropped[1..], left, same, keys[0]);
      EnterFirst(implicit, keys[0], remaining[j], Taken(keys[1..], dropped[1..], left, same));
    }
  }

  lemma TakesLast(keys: seq<string>, dropped: seq<Column>, implicit: map<string, Column>,
                  remaining: seq<Column>, all: map<string, Column>, same: (Column, Column) -> bool)
    requires keys == [] && TakesOn(keys, dropped, implicit, remaining, all, same)
    ensures implicit == all
  {
    assert implicit + map[] == implicit;
  }

  lemma OpenFirst(d: Changes, same: (Column, Column) -> bool)
    requires d.added.Valid() && (forall k | k in d.added.keys :: k in d.added.at)
    requires forall k | k in d.added.at :: d.added.at[k].name == k
    ensures Open(d, map[], same, d.added.Values())
  {
  }

  lemma EnterFirst(m: map<string, Column>, name: string, c: Column, rest: map<string, Column>)
    requires name !in rest
    ensures m[name := c] + rest == m + rest[name := c]
  {
  }

  /** The pairs so far, and the added columns that none of them uses. */
  ghost predicate Open(d: Changes, implicit: map<string, Column>, same: (Column, Column) -> bool,
                       remaining: seq<Column>) {
    && PairsUp(d, implicit, same)
    && IsTable(remaining)
    && (forall c | c in remaining :: c.name in d.added.at && d.added.at[c.name] == c)
    && (forall c, k | c in remaining && k in implicit :: implicit[k].name != c.name)
  }

  lemma OpenPairs(d: Changes, implicit: map<string, Column>, same: (Column, Column) -> bool, remaining: seq<Column>)
    requires Open(d, implicit, same, remaining)
    ensures PairsUp(d, implicit, same)
  {
  }

  lemma OpenNext(d: Changes, implicit: map<string, Column>, same: (Column, Column) -> bool, remaining: seq<Column>,
                 name: string, i: nat)
    requires Open(d, implicit, same, remaining) && i < |remaining|
    requires name in d.dropped.at && name !in implicit && same(d.dropped.at[name], remaining[i])
    ensures Open(d, implicit[name := remaining[i]], same, remaining[..i] + remaining[i + 1..])
  {
    var matched, rest := remaining[i], remaining[..i] + remaining[i + 1..];
    assert matched in remaining;
    assert forall c | c in rest :: c in remaining && c.name != matched.name;
    assert IsTable(rest);
  }

  /** What an old column becomes in the rebuilt table. */
  function Replacement(news: map<string, Column>, d: Changes, implicit: map<string, Column>,
                       name: string): Option<Column> {
    if name in d.dropped.at && name !in implicit then None
    else if name in d.changed.at then Some(d.changed.at[name].newColumn)
    else if name in implicit then Some(implicit[name])
    else if name in news then Some(news[name])
    else None
  }

  function Survivors(columns: seq<Column>, news: map<string, Column>, d: Changes,
                     implicit: map<string, Column>): seq<Column> {
    if columns == [] then []
    else
      var r := Replacement(news, d, implicit, columns[|columns| - 1].name);
      Survivors(columns[..|columns| - 1], news, d, implicit) + if r.Some? then [r.value] else []
  }

  /** The columns of other names. */
  function Rest(columns: seq<Column>, used: map<string, Column>): seq<Column> {
    if columns == [] then []
    else
      var last := columns[|columns| - 1];
      Rest(columns[..|columns| - 1], used) + if last.name in used then [] else [last]
  }

  /** What the old columns become, in their order, and then the other new columns. */
  function Planned(oldColumns: seq<Column>, newColumns: seq<Column>, d: Changes,
                   implicit: map<string, Column>): seq<Column> {
    var survivors := Survivors(oldColumns, ByName(newColumns), d, implicit);
    survivors + Rest(newColumns, ByName(survivors))
  }

  lemma SurvivorsNext(columns: seq<Column>, i: nat, news: map<string, Column>, d: Changes,
                      implicit: map<string, Column>)
    requires i < |columns|
    ensures var r := Replacement(news, d, implicit, columns[i].name);
            Survivors(columns[..i + 1], news, d, implicit)
            == Survivors(columns[..i], news, d, implicit) + if r.Some? then [r.value] else []
  {
    hide Replacement;
    assert columns[..i + 1][..i] == columns[..i];
  }

  method OrderSurvivors(oldColumns: seq<Column>, newByName: map<string, Column>, d: Changes,
                        implicit: map<string, Column>)
    returns (ordered: seq<Column>, usedNames: set<string>)
    ensures ordered == Survivors(oldColumns, newByName, d, implicit) && usedNames == ByName(ordered).Keys
  {
    ordered, usedNames := [], {};
    assert Survivors(oldColumns[..0], newByName, d, implicit) == [];
    hide Survivors, ByName;
    assert ByName(ordered) == map[] by { NoColumns(ordered, map[]); assert ordered[..0] == ordered; }
    for i := 0 to |oldColumns|
      invariant ordered == Survivors(oldColumns[..i], newByName, d, implicit)
      invariant usedNames == ByName(ordered).Keys
    {
      SurvivorsNext(oldColumns, i, newByName, d, implicit);
      var name := oldColumns[i].name;
      if name in d.dropped.at && name !in implicit {
        continue;
      }
      var replacement := Replacement(newByName, d, implicit, name);
      hide Replacement;
      if replacement.Some? {
        ByNameNext(ordered, replacement.value);
        ordered := ordered + [replacement.value];
        usedNames := usedNames + {replacement.value.name};
      }
    }
    assert oldColumns[..|oldColumns|] == oldColumns;
  }

  lemma RestNext(columns: seq<Column>, i: nat, used: map<string, Column>)
    requires IsTable(columns) && i < |columns|
    ensures Rest(columns[..i + 1], used) == Rest(columns[..i], used) + if columns[i].name in used then []
            else [columns[i]]
    ensures ByName(columns[..i + 1]).Keys == ByName(columns[..i]).Keys + {columns[i].name}
    ensures columns[i].name !in ByName(columns[..i])
  {
    hide Rest, NamesNotIn, IsTable, ByName;
    ColumnsNext(columns, i, used);
    RestStep(columns, i, used);
  }

  lemma RestStep(columns: seq<Column>, i: nat, used: map<string, Column>)
    requires i < |columns|
    ensures Rest(columns[..i + 1], used) == Rest(columns[..i], used) + if columns[i].name in used then []
            else [columns[i]]
  {
    var upTo := columns[..i + 1];
    assert upTo[..i] == columns[..i] && upTo[|upTo| - 1] == columns[i];
  }

  method BuildRebuildTable(oldColumns: seq<Column>, newColumns: seq<Column>, d: Changes, implicit: map<string, Column>)
    returns (orderedColumns: seq<Column>)
    requires IsTable(newColumns)
    ensures orderedColumns == Planned(oldColumns, newColumns, d, implicit)
  {
    var survivors, usedNames := OrderSurvivors(oldColumns, ByName(newColumns), d, implicit);
    hide Survivors, ByName, Rest, IsTable;
    ghost var used := ByName(survivors);
    orderedColumns := survivors;
    assert Rest(newColumns[..0], used) == [] && ByName(newColumns[..0]) == map[] by { NoColumns(newColumns, used); }
    for i := 0 to |newColumns|
      invariant orderedColumns == survivors + Rest(newColumns[..i], used)
      invariant usedNames == used.Keys + ByName(newColumns[..i]).Keys
    {
      RestNext(newColumns, i, used);
      var name := newColumns[i].name;
      if name in usedNames {
        continue;
      }
      orderedColumns := orderedColumns + [newColumns[i]];
      usedNames := usedNames + {name};
    }
    assert newColumns[..|newColumns|] == newColumns;
  }

  lemma NoColumns(columns: seq<Column>, used: map<string, Column>)
    ensures Rest(columns[..0], used) == [] && ByName(columns[..0]) == map[]
  {
  }

  lemma ByNameNext(columns: seq<Column>, c: Column)
    ensures ByName(columns + [c]) == ByName(columns)[c.name := c]
  {
    assert (columns + [c])[..|columns|] == columns;
  }

  // ---------------------------------------------------------------------------------------
  // The statements
  // ---------------------------------------------------------------------------------------

  function RebuildPlan(diff: TableDiff, implicit: map<string, Column>): seq<Statement> {
    var oldName, sources := diff.oldTable.name, CopySources(diff.oldTable.columns, diff.columns);
    var targets := CopyTargets(diff.columns, sources);
    var ordered := Planned(diff.oldTable.columns, diff.newTable.columns, diff.columns, implicit);
    (if sources == [] then [] else [CreateTemporaryAs(TemporaryName(oldName), sources, oldName)])
    + [DropTable(oldName), CreateTable(diff.newTable.name, ordered)]
    + if sources == [] then []
      else [InsertSelect(diff.newTable.name, targets, sources, TemporaryName(oldName)),
            DropTable(TemporaryName(oldName))]
  }

  lemma NothingPaired(d: Changes, same: (Column, Column) -> bool)
    ensures PairsUp(d, map[], same)
  {
  }

  /** The statements of the rebuild. */
  method Rebuild(diff: TableDiff, rules: Rules) returns (plan: seq<Statement>, implicit: map<string, Column>)
    requires diff.columns.added.Valid() && diff.columns.dropped.Valid() && IsTable(diff.newTable.columns)
    requires forall k | k in diff.columns.added.at :: diff.columns.added.at[k].name == k
    ensures forall k | k in diff.columns.added.keys :: k in diff.columns.added.at
    ensures forall k | k in diff.columns.dropped.keys :: k in diff.columns.dropped.at
    ensures PairsUp(diff.columns, implicit, rules.sameDefinition)
    ensures implicit == Taken(diff.columns.dropped.keys, diff.columns.dropped.Values(), diff.columns.added.Values(),
                              rules.sameDefinition)
    ensures plan == RebuildPlan(diff, implicit)
  {
    hide OrderedMap.Valid, IsTable, Planned, CopySources, CopyTargets, TemporaryName, Taken, PairsUp;
    implicit := ImplicitRenames(diff.columns, rules);
    var oldTable, newTable, d := diff.oldTable, diff.newTable, diff.columns;
    var temporary := TemporaryName(oldTable.name);
    var sources, targets := BuildCopyColumnMap(oldTable.columns, d);
    plan := [];
    if |sources| > 0 {
      plan := plan + [CreateTemporaryAs(temporary, sources, oldTable.name)];
    }
    var ordered := BuildRebuildTable(oldTable.columns, newTable.columns, d, implicit);
    plan := plan + [DropTable(oldTable.name)];
    plan := plan + [CreateTable(newTable.name, ordered)];
    if |sources| > 0 {
      plan := plan + [InsertSelect(newTable.name, targets, sources, temporary)];
      plan := plan + [DropTable(temporary)];
    }
  }

  method GetAlterTable(diff: TableDiff, rules: Rules) returns (plan: seq<Statement>, implicit: map<string, Column>)
    requires diff.columns.added.Valid() && diff.columns.dropped.Valid() && IsTable(diff.newTable.columns)
    requires forall k | k in diff.columns.added.at :: diff.columns.added.at[k].name == k
    ensures forall k | k in diff.columns.added.keys :: k in diff.columns.added.at
    ensures forall k | k in diff.columns.dropped.keys :: k in diff.columns.dropped.at
    ensures PairsUp(diff.columns, implicit, rules.sameDefinition)
    ensures implicit == if IsSimple(diff, diff.columns.added.Values(), rules) then map[]
                        else Taken(diff.columns.dropped.keys, diff.columns.dropped.Values(),
                                   diff.columns.added.Values(), rules.sameDefinition)
    ensures plan == if IsSimple(diff, diff.columns.added.Values(), rules)
                    then AddColumns(diff.oldTable.name, diff.columns.added.Values())
                    else RebuildPlan(diff, implicit)
  {
    ValidKeys(diff.columns.dropped);
    hide OrderedMap.Valid, IsTable, RebuildPlan, AddColumns, Taken, PairsUp;
    var simple := GetSimpleAlterTable(diff, rules);
    if simple.Some? {
      NothingPaired(diff.columns, rules.sameDefinition);
      return simple.value, map[];
    }
    plan, implicit := Rebuild(diff, rules);
  }
}
