/**
  * The columns of Comparator.compareTables (src/schema/comparator.ts).
  *
  * Columns are named by their asset key (without quotes, in lower case). How columns are compared
  * is a parameter: the results hold for every columnsEqual.
  */
module Comparator {
  import opened OrderedMaps

  /** `definition` is whatever columns are compared by; `initial` is what rows hold by default. */
  datatype Column = Column(name: string, definition: string, initial: string)

  datatype ColumnDiff = ColumnDiff(oldColumn: Column, newColumn: Column)

  datatype Changes = Changes(added: OrderedMap<Column>, changed: OrderedMap<ColumnDiff>, dropped: OrderedMap<Column>)

  datatype Config = Config(columnsEqual: (Column, Column) -> bool, detectRenamedColumns: bool)

  /** The columns of a table. */
  predicate IsTable(columns: seq<Column>) {
    forall i, j | 0 <= i < j < |columns| :: columns[i].name != columns[j].name
  }

  /** The columns by name. */
  function ByName(columns: seq<Column>): (m: map<string, Column>)
    ensures forall i | 0 <= i < |columns| :: columns[i].name in m
    ensures forall k | k in m :: m[k].name == k && m[k] in columns
    ensures IsTable(columns) ==> forall i | 0 <= i < |columns| :: m[columns[i].name] == columns[i]
  {
    if columns == [] then map[]
    else
      var init, last := columns[..|columns| - 1], columns[|columns| - 1];
      assert forall i | 0 <= i < |init| :: columns[i] == init[i];
      ByName(init)[last.name := last]
  }

  /** The column stays as it is. */
  predicate Unchanged(olds: map<string, Column>, news: map<string, Column>, equal: (Column, Column) -> bool,
                      name: string) {
    name in olds && name in news && equal(olds[name], news[name])
  }

  /** The column is what a changed column becomes. */
  ghost predicate NewSide(d: Changes, name: string) {
    exists k | k in d.changed.at :: d.changed.at[k].newColumn.name == name
  }

  predicate ExactlyOne(a: bool, b: bool, c: bool) {
    (a || b || c) && !(a && b) && !(a && c) && !(b && c)
  }

  /** Every column of both tables is accounted for exactly once. */
  ghost predicate Accounts(olds: map<string, Column>, news: map<string, Column>, equal: (Column, Column) -> bool,
                           d: Changes) {
    && WellFormed(olds, news, d)
    && (forall k | k in olds :: ExactlyOne(k in d.dropped.at, k in d.changed.at, Unchanged(olds, news, equal, k)))
    && (forall k | k in news :: ExactlyOne(k in d.added.at, NewSide(d, k), Unchanged(olds, news, equal, k)))
  }

  ghost predicate WellFormed(olds: map<string, Column>, news: map<string, Column>, d: Changes) {
    && d.added.Valid() && d.changed.Valid() && d.dropped.Valid()
    && (forall k | k in d.added.at :: k in news && d.added.at[k] == news[k] && k !in olds)
    && (forall k | k in d.dropped.at :: k in olds && d.dropped.at[k] == olds[k] && k !in news)
    && (forall k | k in d.changed.at ::
          && k in olds && d.changed.at[k].oldColumn == olds[k]
          && d.changed.at[k].newColumn.name in news
          && news[d.changed.at[k].newColumn.name] == d.changed.at[k].newColumn
          && (d.changed.at[k].newColumn.name == k || (k !in news && d.changed.at[k].newColumn.name !in olds)))
    && (forall j, k | j in d.changed.at && k in d.changed.at && j != k ::
          d.changed.at[j].newColumn.name != d.changed.at[k].newColumn.name)
  }

  /** An added and a dropped column become one change. */
  function Renamed(d: Changes, oldName: string, newName: string): Changes
    requires newName in d.added.at && oldName in d.dropped.at
  {
    Changes(d.added.Delete(newName),
            d.changed.Set(oldName, ColumnDiff(d.dropped.at[oldName], d.added.at[newName])),
            d.dropped.Delete(oldName))
  }

  lemma RenamedWellFormed(olds: map<string, Column>, news: map<string, Column>, d: Changes, oldName: string,
                          newName: string)
    requires (forall k | k in news :: news[k].name == k)
    requires WellFormed(olds, news, d) && newName in d.added.at && oldName in d.dropped.at
    requires oldName !in d.changed.at && !NewSide(d, newName)
    ensures WellFormed(olds, news, Renamed(d, oldName, newName))
  {
    hide OrderedMap.Valid, OrderedMap.Set, OrderedMap.Delete;
    var r, change := Renamed(d, oldName, newName), ColumnDiff(olds[oldName], news[newName]);
    assert r.changed.at == d.changed.at[oldName := change];
    assert r.added.at == d.added.at - {newName} && r.dropped.at == d.dropped.at - {oldName};
  }

  lemma RenamedNewSides(d: Changes, oldName: string, newName: string)
    requires newName in d.added.at && oldName in d.dropped.at && oldName !in d.changed.at
    requires d.added.at[newName].name == newName
    ensures forall k :: NewSide(Renamed(d, oldName, newName), k) <==> NewSide(d, k) || k == newName
  {
    var r := Renamed(d, oldName, newName);
    assert r.changed.at[oldName].newColumn.name == newName;
    forall k
      ensures NewSide(r, k) <==> NewSide(d, k) || k == newName
    {
      if NewSide(d, k) {
        var j :| j in d.changed.at && d.changed.at[j].newColumn.name == k;
        assert j in r.changed.at && r.changed.at[j] == d.changed.at[j];
      }
      if NewSide(r, k) && k != newName {
        var j :| j in r.changed.at && r.changed.at[j].newColumn.name == k;
        assert j in d.changed.at && r.changed.at[j] == d.changed.at[j];
      }
    }
  }

  lemma RenamedAccounts(olds: map<string, Column>, news: map<string, Column>, equal: (Column, Column) -> bool,
                        d: Changes, oldName: string, newName: string)
    requires forall k | k in news :: news[k].name == k
    requires Accounts(olds, news, equal, d) && newName in d.added.at && oldName in d.dropped.at
    ensures Accounts(olds, news, equal, Renamed(d, oldName, newName))
  {
    assert newName in news && oldName in olds;
    RenamedWellFormed(olds, news, d, oldName, newName);
    RenamedNewSides(d, oldName, newName);
    hide WellFormed, NewSide;
    var r := Renamed(d, oldName, newName);
    assert r.changed.at == d.changed.at[oldName := ColumnDiff(d.dropped.at[oldName], d.added.at[newName])];
    assert r.added.at == d.added.at - {newName} && r.dropped.at == d.dropped.at - {oldName};
    hide OrderedMap.Set, OrderedMap.Delete;
    forall k | k in olds
      ensures ExactlyOne(k in r.dropped.at, k in r.changed.at, Unchanged(olds, news, equal, k))
    {
    }
    forall k | k in news
      ensures ExactlyOne(k in r.added.at, NewSide(r, k), Unchanged(olds, news, equal, k))
    {
    }
  }

  // ---------------------------------------------------------------------------------------
  // compareTables, the columns
  // ---------------------------------------------------------------------------------------

  /** The names of the columns that are not in m, in order. */
  function NamesNotIn(columns: seq<Column>, m: map<string, Column>): seq<string> {
    if columns == [] then []
    else
      var last := columns[|columns| - 1];
      NamesNotIn(columns[..|columns| - 1], m) + if last.name in m then [] else [last.name]
  }

  /** Of the columns seen: the ones that are not among the old, and the ones that differ. */
  ghost predicate Compared(olds: map<string, Column>, seen: map<string, Column>, equal: (Column, Column) -> bool,
                           added: map<string, Column>, changed: map<string, ColumnDiff>) {
    && (forall k :: k in added <==> k in seen && k !in olds)
    && (forall k | k in added :: added[k] == seen[k])
    && (forall k :: k in changed <==> k in seen && k in olds && !equal(olds[k], seen[k]))
    && (forall k | k in changed :: changed[k] == ColumnDiff(olds[k], seen[k]))
  }

  lemma ComparedNext(olds: map<string, Column>, seen: map<string, Column>, equal: (Column, Column) -> bool,
                     added: map<string, Column>, changed: map<string, ColumnDiff>, c: Column)
    requires Compared(olds, seen, equal, added, changed) && c.name !in seen
    ensures c.name !in olds ==> Compared(olds, seen[c.name := c], equal, added[c.name := c], changed)
    ensures c.name in olds && equal(olds[c.name], c) ==> Compared(olds, seen[c.name := c], equal, added, changed)
    ensures c.name in olds && !equal(olds[c.name], c) ==>
              Compared(olds, seen[c.name := c], equal, added, changed[c.name := ColumnDiff(olds[c.name], c)])
  {
    var seen' := seen[c.name := c];
    assert forall k :: k in seen' <==> k in seen || k == c.name;
  }

  method AddedAndChanged(olds: map<string, Column>, newColumns: seq<Column>, config: Config)
    returns (added: OrderedMap<Column>, changed: OrderedMap<ColumnDiff>)
    requires IsTable(newColumns)
    ensures added.Valid() && changed.Valid()
    ensures added.keys == NamesNotIn(newColumns, olds)
    ensures Compared(olds, ByName(newColumns), config.columnsEqual, added.at, changed.at)
  {
    hide OrderedMap.Valid, ByName, NamesNotIn, Compared, IsTable;
    added, changed := Empty(), Empty();
    NothingCompared(olds, newColumns, config.columnsEqual);
    for i := 0 to |newColumns|
      invariant added.Valid() && changed.Valid()
      invariant added.keys == NamesNotIn(newColumns[..i], olds)
      invariant Compared(olds, ByName(newColumns[..i]), config.columnsEqual, added.at, changed.at)
    {
      var newColumn := newColumns[i];
      ColumnsNext(newColumns, i, olds);
      ComparedNext(olds, ByName(newColumns[..i]), config.columnsEqual, added.at, changed.at, newColumn);
      if newColumn.name !in olds {
        added := added.Set(newColumn.name, newColumn);
      } else if !config.columnsEqual(olds[newColumn.name], newColumn) {
        changed := changed.Set(newColumn.name, ColumnDiff(olds[newColumn.name], newColumn));
      }
    }
    assert newColumns[..|newColumns|] == newColumns;
  }

  lemma NothingCompared(olds: map<string, Column>, columns: seq<Column>, equal: (Column, Column) -> bool)
    ensures NamesNotIn(columns[..0], olds) == [] && Compared(olds, ByName(columns[..0]), equal, map[], map[])
  {
  }

  /** One more column. */
  lemma ColumnsNext(columns: seq<Column>, i: nat, olds: map<string, Column>)
    requires IsTable(columns) && i < |columns|
    ensures columns[i].name !in ByName(columns[..i])
    ensures ByName(columns[..i + 1]) == ByName(columns[..i])[columns[i].name := columns[i]]
    ensures NamesNotIn(columns[..i + 1], olds) == NamesNotIn(columns[..i], olds) + if columns[i].name in olds then []
            else [columns[i].name]
    ensures columns[i].name !in NamesNotIn(columns[..i], olds)
  {
    FreshName(columns, i);
    NamesNotInAre(columns[..i], olds);
    NamesNext(columns, i, olds);
    hide NamesNotIn, IsTable;
    assert columns[..i + 1][..i] == columns[..i];
  }

  lemma NamesNext(columns: seq<Column>, i: nat, olds: map<string, Column>)
    requires i < |columns|
    ensures NamesNotIn(columns[..i + 1], olds) == NamesNotIn(columns[..i], olds) + if columns[i].name in olds then []
            else [columns[i].name]
  {
    assert columns[..i + 1][..i] == columns[..i];
  }

  /** The old columns that are not among the new. */
  method Dropped(oldColumns: seq<Column>, news: map<string, Column>) returns (dropped: OrderedMap<Column>)
    requires IsTable(oldColumns)
    ensures dropped.Valid()
    ensures forall k :: k in dropped.at <==> k in ByName(oldColumns) && k !in news
    ensures forall k | k in dropped.at :: dropped.at[k] == ByName(oldColumns)[k]
  {
    hide OrderedMap.Valid, ByName, NamesNotIn, IsTable;
    dropped := Empty();
    assert ByName(oldColumns[..0]) == map[] by { NoColumns(oldColumns); }
    for i := 0 to |oldColumns|
      invariant dropped.Valid()
      invariant var seen := ByName(oldColumns[..i]);
                && (forall k :: k in dropped.at <==> k in seen && k !in news)
                && (forall k | k in dropped.at :: dropped.at[k] == seen[k])
    {
      var oldColumn := oldColumns[i];
      ColumnsNext(oldColumns, i, news);
      if oldColumn.name !in news {
        dropped := dropped.Set(oldColumn.name, oldColumn);
      }
    }
    assert oldColumns[..|oldColumns|] == oldColumns;
  }

  lemma NoColumns(columns: seq<Column>)
    ensures ByName(columns[..0]) == map[]
  {
  }

  /** The changes that the names alone show. */
  method ChangesByName(oldColumns: seq<Column>, newColumns: seq<Column>, config: Config) returns (d: Changes)
    requires IsTable(oldColumns) && IsTable(newColumns)
    ensures Accounts(ByName(oldColumns), ByName(newColumns), config.columnsEqual, d)
    ensures d.added.keys == NamesNotIn(newColumns, ByName(oldColumns))
    ensures forall k | k in d.changed.at :: d.changed.at[k].newColumn.name == k
  {
    hide WellFormed, OrderedMap.Valid;
    var olds, news := ByName(oldColumns), ByName(newColumns);
    var added, changed := AddedAndChanged(olds, newColumns, config);
    var dropped := Dropped(oldColumns, news);
    d := Changes(added, changed, dropped);
    AccountsByName(olds, news, config.columnsEqual, d);
  }

  lemma FreshName(columns: seq<Column>, i: nat)
    requires IsTable(columns) && i < |columns|
    ensures columns[i].name !in ByName(columns[..i])
  {
  }

  lemma {:induction false} NamesNotInAre(columns: seq<Column>, m: map<string, Column>)
    ensures forall k :: k in NamesNotIn(columns, m) <==> k in ByName(columns) && k !in m
  {
    if columns != [] {
      NamesNotInAre(columns[..|columns| - 1], m);
    }
  }

  lemma AccountsByName(olds: map<string, Column>, news: map<string, Column>, equal: (Column, Column) -> bool,
                       d: Changes)
    requires (forall k | k in olds :: olds[k].name == k) && (forall k | k in news :: news[k].name == k)
    requires d.added.Valid() && d.changed.Valid() && d.dropped.Valid()
    requires Compared(olds, news, equal, d.added.at, d.changed.at)
    requires forall k :: k in d.dropped.at <==> k in olds && k !in news
    requires forall k | k in d.dropped.at :: d.dropped.at[k] == olds[k]
    ensures Accounts(olds, news, equal, d)
  {
    hide OrderedMap.Valid;
    WellFormedByName(olds, news, equal, d);
    hide WellFormed;
    forall k | k in news
      ensures NewSide(d, k) <==> k in d.changed.at
    {
      if k in d.changed.at {
        assert d.changed.at[k].newColumn.name == k;
      }
    }
  }

  lemma WellFormedByName(olds: map<string, Column>, news: map<string, Column>, equal: (Column, Column) -> bool,
                         d: Changes)
    requires (forall k | k in olds :: olds[k].name == k) && (forall k | k in news :: news[k].name == k)
    requires d.added.Valid() && d.changed.Valid() && d.dropped.Valid()
    requires Compared(olds, news, equal, d.added.at, d.changed.at)
    requires forall k :: k in d.dropped.at <==> k in olds && k !in news
    requires forall k | k in d.dropped.at :: d.dropped.at[k] == olds[k]
    ensures WellFormed(olds, news, d)
  {
    hide OrderedMap.Valid;
  }

  /** What later steps keep of earlier changes. */
  ghost predicate Extends(d: Changes, d': Changes) {
    && (forall k | k in d.changed.at :: k in d'.changed.at && d'.changed.at[k] == d.changed.at[k])
    && (forall k | k in d'.added.at :: k in d.added.at && d'.added.at[k] == d.added.at[k])
    && (forall k | k in d'.dropped.at :: k in d.dropped.at && d'.dropped.at[k] == d.dropped.at[k])
    && (d'.changed.at == d.changed.at ==> d' == d)
  }

  /** One rename: accounting stays, earlier changes stay, and nothing but these two names moves. */
  lemma RenamedStep(olds: map<string, Column>, news: map<string, Column>, equal: (Column, Column) -> bool,
                    d0: Changes, d: Changes, oldName: string, newName: string)
    requires forall k | k in news :: news[k].name == k
    requires Accounts(olds, news, equal, d) && Extends(d0, d)
    requires newName in d.added.at && oldName in d.dropped.at
    ensures oldName !in d.changed.at && oldName in olds && newName in news
    ensures var r := Renamed(d, oldName, newName);
            && Accounts(olds, news, equal, r) && Extends(d0, r)
            && r.changed.at == d.changed.at[oldName := ColumnDiff(olds[oldName], news[newName])]
            && news[newName].name == newName
            && r.added.at == d.added.at - {newName} && r.dropped.at == d.dropped.at - {oldName}
  {
    assert newName in news && oldName in olds && d.added.at[newName] == news[newName]
           && d.dropped.at[oldName] == olds[oldName];
    assert oldName !in d.changed.at && oldName !in d0.changed.at;
    RenamedAccounts(olds, news, equal, d, oldName, newName);
  }

  ghost predicate Injective(renamed: OrderedMap<string>) {
    forall j, k | j in renamed.at && k in renamed.at && j != k :: renamed.at[j] != renamed.at[k]
  }

  ghost predicate StillOpen(d0: Changes, d: Changes, n: string, o: string) {
    (n in d0.added.at ==> n in d.added.at) && (o in d0.dropped.at ==> o in d.dropped.at)
  }

  ghost predicate Honoured(d0: Changes, d: Changes, n: string, o: string) {
    n in d0.added.at && o in d0.dropped.at ==> o in d.changed.at && d.changed.at[o].newColumn.name == n
  }

  /** The change is a rename that the new table asks for. */
  ghost predicate IsExplicit(renamed: OrderedMap<string>, d: Changes, o: string)
    requires o in d.changed.at
  {
    var n := d.changed.at[o].newColumn.name;
    n in renamed.at && renamed.at[n] == o
  }

  /** The first i explicit renames are made where they can be, and nothing else has moved. */
  ghost predicate Renaming(renamed: OrderedMap<string>, d0: Changes, d: Changes, i: nat) {
    && i <= |renamed.keys| && (forall k | k in renamed.keys :: k in renamed.at)
    && (forall o | o in d.changed.at && o !in d0.changed.at :: IsExplicit(renamed, d, o))
    && (Injective(renamed) ==>
          && (forall j | i <= j < |renamed.keys| :: StillOpen(d0, d, renamed.keys[j], renamed.at[renamed.keys[j]]))
          && (forall j | 0 <= j < i :: Honoured(d0, d, renamed.keys[j], renamed.at[renamed.keys[j]])))
  }

  lemma RenamingNext(renamed: OrderedMap<string>, d0: Changes, d: Changes, d': Changes, i: nat, change: ColumnDiff)
    requires Renaming(renamed, d0, d, i) && i < |renamed.keys| && Distinct(renamed.keys)
    requires var n, o := renamed.keys[i], renamed.at[renamed.keys[i]];
             && n in d.added.at && o in d.dropped.at && o !in d.changed.at && change.newColumn.name == n
             && d'.changed.at == d.changed.at[o := change]
             && d'.added.at == d.added.at - {n} && d'.dropped.at == d.dropped.at - {o}
    ensures Renaming(renamed, d0, d', i + 1)
  {
    hide OrderedMap.Valid;
    var n, o := renamed.keys[i], renamed.at[renamed.keys[i]];
    forall k | k in d'.changed.at && k !in d0.changed.at
      ensures IsExplicit(renamed, d', k)
    {
      assert k == o || (k in d.changed.at && IsExplicit(renamed, d, k));
    }
  }

  lemma RenamingSkip(renamed: OrderedMap<string>, d0: Changes, d: Changes, i: nat)
    requires Renaming(renamed, d0, d, i) && i < |renamed.keys|
    requires renamed.keys[i] !in d.added.at || renamed.at[renamed.keys[i]] !in d.dropped.at
    ensures Renaming(renamed, d0, d, i + 1)
  {
  }

  lemma RenamingDone(renamed: OrderedMap<string>, d0: Changes, d: Changes)
    requires Renaming(renamed, d0, d, |renamed.keys|) && renamed.Valid()
    ensures Injective(renamed) ==> forall n | n in renamed.at :: Honoured(d0, d, n, renamed.at[n])
  {
    forall n | n in renamed.at && Injective(renamed)
      ensures Honoured(d0, d, n, renamed.at[n])
    {
      var j :| 0 <= j < |renamed.keys| && renamed.keys[j] == n;
    }
  }

  /** The columns that the new table says it has renamed: new name to old name. */
  method ApplyExplicitRenames(d0: Changes, renamed: OrderedMap<string>,
                              ghost olds: map<string, Column>, ghost news: map<string, Column>,
                              ghost equal: (Column, Column) -> bool) returns (d: Changes)
    requires (forall k | k in news :: news[k].name == k) && renamed.Valid()
    requires Accounts(olds, news, equal, d0)
    ensures Accounts(olds, news, equal, d) && Extends(d0, d)
    ensures Injective(renamed) ==> forall n | n in renamed.at :: Honoured(d0, d, n, renamed.at[n])
    ensures forall o | o in d.changed.at && o !in d0.changed.at :: IsExplicit(renamed, d, o)
  {
    hide Accounts, Extends, Injective, Honoured, OrderedMap.Set, OrderedMap.Delete;
    ValidKeys(renamed);
    d := d0;
    ExtendsItself(d0);
    for i := 0 to |renamed.keys|
      invariant Accounts(olds, news, equal, d) && Extends(d0, d)
      invariant Renaming(renamed, d0, d, i)
    {
      hide StillOpen, IsExplicit;
      ghost var before := d;
      var newName, oldName := renamed.keys[i], renamed.at[renamed.keys[i]];
      if newName in d.added.at && oldName in d.dropped.at {
        RenamedStep(olds, news, equal, d0, d, oldName, newName);
        d := Renamed(d, oldName, newName);
        hide Renaming, Renamed;
        RenamingNext(renamed, d0, before, d, i, ColumnDiff(olds[oldName], news[newName]));
      } else {
        hide Renaming;
        RenamingSkip(renamed, d0, d, i);
      }
    }
    RenamingDone(renamed, d0, d);
  }

  lemma ExtendsItself(d: Changes)
    ensures Extends(d, d)
  {
  }

  /** The columns an added one may have been before, in order. */
  function CandidatesOf(added: Column, removed: seq<Column>, equal: (Column, Column) -> bool): seq<Column> {
    if removed == [] then []
    else CandidatesOf(added, removed[..|removed| - 1], equal)
         + if equal(added, removed[|removed| - 1]) then [removed[|removed| - 1]] else []
  }

  lemma {:induction false} CandidatesAre(added: Column, removed: seq<Column>, equal: (Column, Column) -> bool)
    ensures forall r :: r in CandidatesOf(added, removed, equal) <==> r in removed && equal(added, r)
  {
    if removed != [] {
      CandidatesAre(added, removed[..|removed| - 1], equal);
      assert removed == removed[..|removed| - 1] + [removed[|removed| - 1]];
    }
  }

  ghost predicate Listed(candidates: OrderedMap<seq<Column>>, name: string, found: seq<Column>) {
    if name in candidates.at then candidates.at[name] == found && found != [] else found == []
  }

  lemma ListedKept(before: OrderedMap<seq<Column>>, after: OrderedMap<seq<Column>>, name: string, found: seq<Column>)
    requires Listed(before, name, found)
    requires name in after.at <==> name in before.at
    requires name in before.at ==> after.at[name] == before.at[name]
    ensures Listed(after, name, found)
  {
  }

  lemma ValidKeys<V>(m: OrderedMap<V>)
    requires m.Valid()
    ensures Distinct(m.keys) && forall k :: k in m.keys <==> k in m.at
  {
  }

  /** The candidates of one added column are entered under its name. */
  method EnterCandidates(before: OrderedMap<seq<Column>>, added: Column, removed: seq<Column>,
                         equal: (Column, Column) -> bool)
    returns (candidates: OrderedMap<seq<Column>>)
    requires before.Valid() && added.name !in before.at
    ensures candidates.Valid()
    ensures Listed(candidates, added.name, CandidatesOf(added, removed, equal))
    ensures forall n | n != added.name :: n in candidates.at <==> n in before.at
    ensures forall n | n != added.name && n in before.at :: candidates.at[n] == before.at[n]
  {
    hide OrderedMap.Valid;
    candidates := before;
    for j := 0 to |removed|
      invariant candidates.Valid()
      invariant Listed(candidates, added.name, CandidatesOf(added, removed[..j], equal))
      invariant forall n | n != added.name :: n in candidates.at <==> n in before.at
      invariant forall n | n != added.name && n in before.at :: candidates.at[n] == before.at[n]
    {
      assert removed[..j + 1][..j] == removed[..j] && removed[..j + 1][j] == removed[j];
      if equal(added, removed[j]) {
        var found := if added.name in candidates.at then candidates.at[added.name] else [];
        candidates := candidates.Set(added.name, found + [removed[j]]);
      }
    }
    assert removed[..|removed|] == removed;
  }

  /** The candidates of the first n added columns are listed, and no others. */
  ghost predicate ListedUpTo(candidates: OrderedMap<seq<Column>>, added: OrderedMap<Column>, removed: seq<Column>,
                             equal: (Column, Column) -> bool, n: nat) {
    && n <= |added.keys| && candidates.Valid()
    && (forall j | 0 <= j < n ::
          added.keys[j] in added.at
          && Listed(candidates, added.keys[j], CandidatesOf(added.at[added.keys[j]], removed, equal)))
    && (forall j | n <= j < |added.keys| :: added.keys[j] !in candidates.at)
    && (forall k | k in candidates.at :: k in added.at)
  }

  lemma ListedNext(before: OrderedMap<seq<Column>>, after: OrderedMap<seq<Column>>, added: OrderedMap<Column>,
                   removed: seq<Column>, equal: (Column, Column) -> bool, i: nat)
    requires ListedUpTo(before, added, removed, equal, i) && i < |added.keys| && Distinct(added.keys)
    requires added.keys[i] in added.at && after.Valid()
    requires Listed(after, added.keys[i], CandidatesOf(added.at[added.keys[i]], removed, equal))
    requires forall n | n != added.keys[i] :: n in after.at <==> n in before.at
    requires forall n | n != added.keys[i] && n in before.at :: after.at[n] == before.at[n]
    ensures ListedUpTo(after, added, removed, equal, i + 1)
  {
    hide CandidatesOf, Listed, OrderedMap.Valid;
    forall j | 0 <= j < i
      ensures Listed(after, added.keys[j], CandidatesOf(added.at[added.keys[j]], removed, equal))
    {
      ListedKept(before, after, added.keys[j], CandidatesOf(added.at[added.keys[j]], removed, equal));
    }
  }

  lemma AllListed(candidates: OrderedMap<seq<Column>>, added: OrderedMap<Column>, removed: seq<Column>,
                  equal: (Column, Column) -> bool)
    requires ListedUpTo(candidates, added, removed, equal, |added.keys|) && added.Valid()
    ensures candidates.Valid() && forall n | n in candidates.at :: n in added.at
    ensures forall n | n in added.at :: Listed(candidates, n, CandidatesOf(added.at[n], removed, equal))
  {
    hide CandidatesOf, Listed;
    forall n | n in added.at
      ensures Listed(candidates, n, CandidatesOf(added.at[n], removed, equal))
    {
      var j :| 0 <= j < |added.keys| && added.keys[j] == n;
    }
  }

  /** For each added column that has any, the dropped columns it equals. */
  method Candidates(d: Changes, equal: (Column, Column) -> bool) returns (candidates: OrderedMap<seq<Column>>)
    requires d.added.Valid() && d.dropped.Valid()
    requires forall n | n in d.added.at :: d.added.at[n].name == n
    ensures candidates.Valid()
    ensures forall k | k in d.dropped.keys :: k in d.dropped.at
    ensures forall n | n in d.added.at :: Listed(candidates, n, CandidatesOf(d.added.at[n], d.dropped.Values(), equal))
    ensures forall n | n in candidates.at :: n in d.added.at
  {
    ValidKeys(d.added);
    ValidKeys(d.dropped);
    var keys, removed := d.added.keys, d.dropped.Values();
    candidates := Empty();
    assert ListedUpTo(candidates, d.added, removed, equal, 0);
    hide OrderedMap.Valid, CandidatesOf, OrderedMap.Set, OrderedMap.Delete, Listed, Distinct;
    for i := 0 to |keys|
      invariant ListedUpTo(candidates, d.added, removed, equal, i)
    {
      var before := candidates;
      assert keys[i] in d.added.at;
      candidates := EnterCandidates(before, d.added.at[keys[i]], removed, equal);
      hide ListedUpTo;
      ListedNext(before, candidates, d.added, removed, equal, i);
    }
    AllListed(candidates, d.added, removed, equal);
  }

  /** The dropped columns that an added column may have been before. */
  ghost function Sources(d: Changes, equal: (Column, Column) -> bool, name: string): seq<Column>
    requires name in d.added.at && forall k | k in d.dropped.keys :: k in d.dropped.at
  {
    CandidatesOf(d.added.at[name], d.dropped.Values(), equal)
  }

  lemma SourcesAre(d: Changes, equal: (Column, Column) -> bool, name: string, k: string)
    requires d.dropped.Valid() && name in d.added.at
    requires forall k | k in d.dropped.at :: d.dropped.at[k].name == k
    ensures k in d.dropped.at ==>
            (d.dropped.at[k] in Sources(d, equal, name) <==> equal(d.added.at[name], d.dropped.at[k]))
    ensures forall c | c in Sources(d, equal, name) :: c.name in d.dropped.at && d.dropped.at[c.name] == c
  {
    CandidatesAre(d.added.at[name], d.dropped.Values(), equal);
    if k in d.dropped.at {
      var i :| 0 <= i < |d.dropped.keys| && d.dropped.keys[i] == k;
      assert d.dropped.Values()[i] == d.dropped.at[k];
    }
    forall c | c in Sources(d, equal, name)
      ensures c.name in d.dropped.at && d.dropped.at[c.name] == c
    {
      var i :| 0 <= i < |d.dropped.keys| && d.dropped.Values()[i] == c;
      assert d.dropped.keys[i] in d.dropped.keys;
    }
  }

  /** A rename is only detected where the dropped column is the only one that the added one equals. */
  ghost predicate Unambiguous(d0: Changes, d: Changes, equal: (Column, Column) -> bool, o: string)
    requires forall k | k in d0.dropped.keys :: k in d0.dropped.at
    requires o in d.changed.at
  {
    var n := d.changed.at[o].newColumn.name;
    n in d0.added.at && o in d0.dropped.at && Sources(d0, equal, n) == [d0.dropped.at[o]]
  }

  /** An added column with a single source has it, unless another added column took it first. */
  ghost predicate Taken(d0: Changes, d: Changes, equal: (Column, Column) -> bool, n: string)
    requires forall k | k in d0.dropped.keys :: k in d0.dropped.at
    requires n in d0.added.at
  {
    |Sources(d0, equal, n)| == 1 ==> Sources(d0, equal, n)[0].name in d.changed.at
  }

  /** The state of the loop over the candidates, with those of `done` seen. */
  ghost predicate Detecting(d0: Changes, d: Changes, equal: (Column, Column) -> bool, done: seq<string>,
                            todo: seq<string>)
    requires forall k | k in d0.dropped.keys :: k in d0.dropped.at
  {
    && (forall k | k in d0.dropped.at :: k in d.dropped.at || k in d.changed.at)
    && (forall n | n in todo :: n in d.added.at)
    && (forall o | o in d.changed.at && o !in d0.changed.at :: Unambiguous(d0, d, equal, o))
    && (forall n | n in done :: n in d0.added.at && Taken(d0, d, equal, n))
  }

  lemma DetectingNext(d0: Changes, d: Changes, equal: (Column, Column) -> bool, done: seq<string>, todo: seq<string>,
                      found: seq<Column>)
    requires forall k | k in d0.dropped.keys :: k in d0.dropped.at
    requires todo != [] && Detecting(d0, d, equal, done, todo)
    requires todo[0] in d0.added.at && Sources(d0, equal, todo[0]) == found
             && (|found| == 1 ==> found[0].name in d.changed.at)
    ensures Detecting(d0, d, equal, done + [todo[0]], todo[1..])
  {
    assert forall n | n in todo[1..] :: n in todo;
  }

  lemma DetectingRenamed(d0: Changes, d: Changes, d': Changes, equal: (Column, Column) -> bool,
                         done: seq<string>, todo: seq<string>, o: string, change: ColumnDiff)
    requires forall k | k in d0.dropped.keys :: k in d0.dropped.at
    requires todo != [] && Distinct(todo) && Detecting(d0, d, equal, done, todo)
    requires o in d0.dropped.at && o !in d.changed.at && todo[0] in d0.added.at
    requires Sources(d0, equal, todo[0]) == [d0.dropped.at[o]] && d0.dropped.at[o].name == o
    requires d'.changed.at == d.changed.at[o := change] && change.newColumn.name == todo[0]
    requires d'.added.at == d.added.at - {todo[0]} && d'.dropped.at == d.dropped.at - {o}
    ensures Detecting(d0, d', equal, done + [todo[0]], todo[1..])
  {
    hide Sources;
    forall n | n in todo[1..]
      ensures n in d'.added.at
    {
      var j :| 0 <= j < |todo[1..]| && todo[1..][j] == n;
      assert todo[j + 1] == n && todo[0] != todo[j + 1];
    }
  }

  lemma StillDropped(d0: Changes, d: Changes, equal: (Column, Column) -> bool, done: seq<string>, todo: seq<string>,
                     o: string)
    requires forall k | k in d0.dropped.keys :: k in d0.dropped.at
    requires todo != [] && Detecting(d0, d, equal, done, todo) && o in d0.dropped.at && o !in d.changed.at
    ensures o in d.dropped.at && todo[0] in d.added.at
  {
    assert todo[0] in todo;
  }

  lemma Advance(keys: seq<string>, i: nat)
    requires i < |keys|
    ensures keys[..i + 1] == keys[..i] + [keys[i..][0]] && keys[i..][1..] == keys[i + 1..]
    ensures Distinct(keys) ==> Distinct(keys[i..])
  {
  }

  lemma SingleSource(d0: Changes, d: Changes, equal: (Column, Column) -> bool, done: seq<string>, todo: seq<string>,
                     found: Column)
    requires d0.dropped.Valid() && forall k | k in d0.dropped.at :: d0.dropped.at[k].name == k
    requires forall k | k in d0.dropped.keys :: k in d0.dropped.at
    requires todo != [] && Detecting(d0, d, equal, done, todo)
    requires todo[0] in d0.added.at && Sources(d0, equal, todo[0]) == [found] && found.name !in d.changed.at
    ensures found.name in d0.dropped.at && d0.dropped.at[found.name] == found
    ensures found.name in d.dropped.at && todo[0] in d.added.at
  {
    hide OrderedMap.Valid;
    SourcesAre(d0, equal, todo[0], found.name);
    assert found in Sources(d0, equal, todo[0]);
    hide Sources;
    StillDropped(d0, d, equal, done, todo, found.name);
  }

  /** One candidate list: it is a rename when it names one column that nothing else has become. */
  lemma DetectStep(olds: map<string, Column>, news: map<string, Column>, equal: (Column, Column) -> bool,
                   d0: Changes, d: Changes, done: seq<string>, todo: seq<string>, found: Column)
    requires (forall k | k in olds :: olds[k].name == k) && (forall k | k in news :: news[k].name == k)
    requires d0.dropped.Valid() && forall k | k in d0.dropped.at :: d0.dropped.at[k].name == k
    requires Accounts(olds, news, equal, d) && Extends(d0, d)
    requires forall k | k in d0.dropped.keys :: k in d0.dropped.at
    requires todo != [] && Distinct(todo) && Detecting(d0, d, equal, done, todo)
    requires todo[0] in d0.added.at && Sources(d0, equal, todo[0]) == [found] && found.name !in d.changed.at
    ensures todo[0] in d.added.at && found.name in d.dropped.at
    ensures var r := Renamed(d, found.name, todo[0]);
            Accounts(olds, news, equal, r) && Extends(d0, r) && Detecting(d0, r, equal, done + [todo[0]], todo[1..])
  {
    hide Accounts, Extends, Sources, Detecting, Distinct, Renamed, OrderedMap.Valid;
    SingleSource(d0, d, equal, done, todo, found);
    RenamedStep(olds, news, equal, d0, d, found.name, todo[0]);
    DetectingRenamed(d0, d, Renamed(d, found.name, todo[0]), equal, done, todo, found.name,
                     ColumnDiff(olds[found.name], news[todo[0]]));
  }

  /** Before the loop over the candidates. */
  lemma CandidatesListed(d: Changes, equal: (Column, Column) -> bool, candidates: OrderedMap<seq<Column>>)
    requires candidates.Valid() && forall k | k in d.dropped.keys :: k in d.dropped.at
    requires forall n | n in d.added.at :: Listed(candidates, n, CandidatesOf(d.added.at[n], d.dropped.Values(), equal))
    requires forall n | n in candidates.at :: n in d.added.at
    ensures Distinct(candidates.keys) && forall k :: k in candidates.keys <==> k in candidates.at
    ensures forall n | n in d.added.at :: Listed(candidates, n, Sources(d, equal, n))
    ensures forall n | n in candidates.at :: candidates.at[n] == Sources(d, equal, n)
    ensures Detecting(d, d, equal, [], candidates.keys)
  {
    hide Distinct, CandidatesOf;
  }

  method DetectRenamedColumns(d0: Changes, equal: (Column, Column) -> bool,
                              ghost olds: map<string, Column>, ghost news: map<string, Column>) returns (d: Changes)
    requires (forall k | k in olds :: olds[k].name == k) && (forall k | k in news :: news[k].name == k)
    requires Accounts(olds, news, equal, d0)
    ensures Accounts(olds, news, equal, d) && Extends(d0, d)
    ensures forall k | k in d0.dropped.keys :: k in d0.dropped.at
    ensures forall o | o in d.changed.at && o !in d0.changed.at :: Unambiguous(d0, d, equal, o)
    ensures forall n | n in d0.added.at :: Taken(d0, d, equal, n)
  {
    hide Accounts, Extends, OrderedMap.Valid, Sources, Unambiguous, Taken, Renamed, Distinct, Listed;
    PartsOf(olds, news, equal, d0);
    var candidates := Candidates(d0, equal);
    CandidatesListed(d0, equal, candidates);
    ExtendsItself(d0);
    hide Detecting;
    var keys := candidates.keys;
    d := d0;
    assert keys[..0] == [] && keys[0..] == keys;
    for i := 0 to |keys|
      invariant Accounts(olds, news, equal, d) && Extends(d0, d)
      invariant Detecting(d0, d, equal, keys[..i], keys[i..])
    {
      var newName := keys[i];
      var found := candidates.at[newName];
      Advance(keys, i);
      if |found| == 1 && found[0].name !in d.changed.at {
        assert found == [found[0]];
        DetectStep(olds, news, equal, d0, d, keys[..i], keys[i..], found[0]);
        d := Renamed(d, found[0].name, newName);
      } else {
        DetectingNext(d0, d, equal, keys[..i], keys[i..], found);
      }
    }
    assert keys[..|keys|] == keys && keys[|keys|..] == [];
    AllTaken(d0, d, equal, candidates);
  }

  lemma AllTaken(d0: Changes, d: Changes, equal: (Column, Column) -> bool, candidates: OrderedMap<seq<Column>>)
    requires forall k | k in d0.dropped.keys :: k in d0.dropped.at
    requires forall k :: k in candidates.keys <==> k in candidates.at
    requires forall n | n in d0.added.at :: Listed(candidates, n, Sources(d0, equal, n))
    requires Detecting(d0, d, equal, candidates.keys, [])
    ensures forall n | n in d0.added.at :: Taken(d0, d, equal, n)
    ensures forall o | o in d.changed.at && o !in d0.changed.at :: Unambiguous(d0, d, equal, o)
  {
    hide Sources, Unambiguous, Taken;
    forall n | n in d0.added.at
      ensures Taken(d0, d, equal, n)
    {
      if n !in candidates.keys {
        TakenNone(d0, d, equal, n);
      }
    }
  }

  lemma TakenNone(d0: Changes, d: Changes, equal: (Column, Column) -> bool, n: string)
    requires forall k | k in d0.dropped.keys :: k in d0.dropped.at
    requires n in d0.added.at && Sources(d0, equal, n) == []
    ensures Taken(d0, d, equal, n)
  {
  }

  lemma PartsOf(olds: map<string, Column>, news: map<string, Column>, equal: (Column, Column) -> bool, d: Changes)
    requires (forall k | k in olds :: olds[k].name == k) && (forall k | k in news :: news[k].name == k)
    requires Accounts(olds, news, equal, d)
    ensures d.added.Valid() && d.dropped.Valid()
    ensures forall n | n in d.added.at :: d.added.at[n].name == n
    ensures forall n | n in d.dropped.at :: d.dropped.at[n].name == n
  {
  }

  lemma {:induction false} NoCandidate(added: Column, removed: seq<Column>, equal: (Column, Column) -> bool)
    requires forall j | 0 <= j < |removed| :: !equal(added, removed[j])
    ensures CandidatesOf(added, removed, equal) == []
  {
    if removed != [] {
      NoCandidate(added, removed[..|removed| - 1], equal);
    }
  }

  lemma {:induction false} OnlyCandidate(added: Column, removed: seq<Column>, equal: (Column, Column) -> bool, i: nat)
    requires i < |removed| && equal(added, removed[i])
    requires forall j | 0 <= j < |removed| && j != i :: !equal(added, removed[j])
    ensures CandidatesOf(added, removed, equal) == [removed[i]]
  {
    var init := removed[..|removed| - 1];
    if i < |init| {
      OnlyCandidate(added, init, equal, i);
    } else {
      NoCandidate(added, init, equal);
    }
  }

  lemma OnlySource(d: Changes, equal: (Column, Column) -> bool, n: string, o: string)
    requires d.dropped.Valid() && n in d.added.at && o in d.dropped.at && equal(d.added.at[n], d.dropped.at[o])
    requires forall k | k in d.dropped.at && k != o :: !equal(d.added.at[n], d.dropped.at[k])
    ensures Sources(d, equal, n) == [d.dropped.at[o]]
  {
    var i :| 0 <= i < |d.dropped.keys| && d.dropped.keys[i] == o;
    OnlyCandidate(d.added.at[n], d.dropped.Values(), equal, i);
  }

  lemma SourceEquals(d: Changes, equal: (Column, Column) -> bool, n: string, o: string, k: string)
    requires d.dropped.Valid() && n in d.added.at && o in d.dropped.at && k in d.dropped.at
    requires forall j | j in d.dropped.at :: d.dropped.at[j].name == j
    requires Sources(d, equal, n) == [d.dropped.at[o]]
    ensures equal(d.added.at[n], d.dropped.at[k]) <==> k == o
  {
    SourcesAre(d, equal, n, k);
    SourcesAre(d, equal, n, o);
  }

  /** A column of the new table whose rename the diff reports. */
  ghost predicate ReportsRename(d: Changes, oldName: string, newName: string) {
    oldName in d.changed.at && d.changed.at[oldName].newColumn.name == newName
  }

  /** The two columns equal each other and no other column of only one table, and no explicit rename names them. */
  ghost predicate OnlyMatch(olds: map<string, Column>, news: map<string, Column>, equal: (Column, Column) -> bool,
                            renamed: OrderedMap<string>, o: string, n: string) {
    && RenameIsVisible(olds, news, o, n) && equal(news[n], olds[o])
    && (forall k | k in olds && k !in news && k != o :: !equal(news[n], olds[k]))
    && (forall k | k in news && k !in olds && k != n :: !equal(news[k], olds[o]))
    && n !in renamed.at && o !in renamed.at.Values
  }

  /**
    * The column o became n unasked: n equals o and no other old column, but for columns that were
    * renamed explicitly.
    */
  ghost predicate Guessed(olds: map<string, Column>, news: map<string, Column>, equal: (Column, Column) -> bool,
                          renamed: OrderedMap<string>, d: Changes, o: string, n: string) {
    && RenameIsVisible(olds, news, o, n) && equal(news[n], olds[o])
    && forall k | k in olds && k !in news && k != o && equal(news[n], olds[k]) ::
         k in d.changed.at && IsExplicit(renamed, d, k)
  }

  /**
    * Accounts for every column once. An explicit rename is reported exactly when it is visible.
    * Beside explicit renames, renames are reported only when they are to be detected and could not
    * be others; the only match of a column is reported.
    */
  method CompareColumns(oldColumns: seq<Column>, newColumns: seq<Column>, renamed: OrderedMap<string>, config: Config)
    returns (d: Changes)
    requires IsTable(oldColumns) && IsTable(newColumns) && renamed.Valid()
    ensures Accounts(ByName(oldColumns), ByName(newColumns), config.columnsEqual, d)
    ensures d.changed.at == map[] ==> d.added.keys == NamesNotIn(newColumns, ByName(oldColumns))
    ensures Injective(renamed) ==> forall n | n in renamed.at && renamed.at[n] != n ::
              (ReportsRename(d, renamed.at[n], n) <==>
               RenameIsVisible(ByName(oldColumns), ByName(newColumns), renamed.at[n], n))
    ensures config.detectRenamedColumns ==>
              forall o, n | OnlyMatch(ByName(oldColumns), ByName(newColumns), config.columnsEqual, renamed, o, n) ::
                ReportsRename(d, o, n)
    ensures forall o | o in d.changed.at && d.changed.at[o].newColumn.name != o && !IsExplicit(renamed, d, o) ::
              && config.detectRenamedColumns
              && Guessed(ByName(oldColumns), ByName(newColumns), config.columnsEqual, renamed, d, o,
                         d.changed.at[o].newColumn.name)
  {
    ghost var olds, news, equal := ByName(oldColumns), ByName(newColumns), config.columnsEqual;
    var byName := ChangesByName(oldColumns, newColumns, config);
    var explicit := ApplyExplicitRenames(byName, renamed, olds, news, equal);
    d := explicit;
    if config.detectRenamedColumns {
      d := DetectRenamedColumns(explicit, config.columnsEqual, olds, news);
      hide Accounts, Extends, OrderedMap.Valid, Unambiguous, Taken;
      DetectedAre(olds, news, equal, renamed, byName, explicit, d);
    } else {
      ExtendsItself(d);
    }
    ExtendsTwice(byName, explicit, d);
    forall n | Injective(renamed) && n in renamed.at && renamed.at[n] != n
      ensures ReportsRename(d, renamed.at[n], n) <==> RenameIsVisible(olds, news, renamed.at[n], n)
    {
      hide NamesNotIn, ByName, Extends, OrderedMap.Valid;
      RenameIsReported(olds, news, equal, byName, explicit, d, renamed.at[n], n);
    }
  }

  /** What only one of the tables has is still open after the explicit renames, unless one names it. */
  lemma StillOpenAre(olds: map<string, Column>, news: map<string, Column>, equal: (Column, Column) -> bool,
                     renamed: OrderedMap<string>, byName: Changes, explicit: Changes)
    requires Accounts(olds, news, equal, byName) && Accounts(olds, news, equal, explicit)
    requires forall k | k in byName.changed.at :: byName.changed.at[k].newColumn.name == k
    requires forall o | o in explicit.changed.at && o !in byName.changed.at :: IsExplicit(renamed, explicit, o)
    requires Extends(byName, explicit)
    ensures forall o | o in olds && o !in news ::
              o in explicit.dropped.at || (o in explicit.changed.at && IsExplicit(renamed, explicit, o))
    ensures forall n | n in news && n !in olds && n !in renamed.at :: n in explicit.added.at
    ensures forall o | o in explicit.dropped.at :: o in olds && o !in news && explicit.dropped.at[o] == olds[o]
    ensures forall n | n in explicit.added.at :: n in news && n !in olds && explicit.added.at[n] == news[n]
  {
    hide OrderedMap.Valid;
    forall o | o in olds && o !in news && o !in explicit.dropped.at
      ensures o in explicit.changed.at && IsExplicit(renamed, explicit, o)
    {
      assert ExactlyOne(o in explicit.dropped.at, o in explicit.changed.at, Unchanged(olds, news, equal, o));
      assert o !in byName.changed.at;
    }
    forall n | n in news && n !in olds && n !in renamed.at
      ensures n in explicit.added.at
    {
      assert forall k | k in explicit.changed.at && explicit.changed.at[k].newColumn.name == n ::
          k in byName.changed.at;
      assert ExactlyOne(n in explicit.added.at, NewSide(explicit, n), Unchanged(olds, news, equal, n));
    }
  }

  /** The facts about the detection that the two lemmas below share. */
  ghost predicate Detected(olds: map<string, Column>, news: map<string, Column>, equal: (Column, Column) -> bool,
                           renamed: OrderedMap<string>, explicit: Changes, d: Changes) {
    && explicit.dropped.Valid() && (forall k | k in explicit.dropped.keys :: k in explicit.dropped.at)
    && (forall k | k in explicit.dropped.at :: k in olds && k !in news && explicit.dropped.at[k] == olds[k])
    && (forall k | k in explicit.added.at :: k in news && k !in olds && explicit.added.at[k] == news[k])
    && (forall k | k in explicit.changed.at :: k in d.changed.at && d.changed.at[k] == explicit.changed.at[k])
    && (forall k | k in explicit.dropped.at :: k !in explicit.changed.at)
    && (forall k | k in d.changed.at && k !in explicit.changed.at :: Unambiguous(explicit, d, equal, k))
    && (forall k | k in explicit.added.at :: Taken(explicit, d, equal, k))
    && (forall k | k in olds && k !in news ::
          k in explicit.dropped.at || (k in explicit.changed.at && IsExplicit(renamed, explicit, k)))
    && (forall k | k in news && k !in olds && k !in renamed.at :: k in explicit.added.at)
  }

  lemma OnlyMatchIsDetected(olds: map<string, Column>, news: map<string, Column>, equal: (Column, Column) -> bool,
                            renamed: OrderedMap<string>, explicit: Changes, d: Changes, o: string, n: string)
    requires (forall k | k in olds :: olds[k].name == k) && (forall k | k in news :: news[k].name == k)
    requires Detected(olds, news, equal, renamed, explicit, d) && OnlyMatch(olds, news, equal, renamed, o, n)
    ensures ReportsRename(d, o, n)
  {
    hide OrderedMap.Valid, Sources;
    assert o in explicit.dropped.at && n in explicit.added.at;
    OnlySource(explicit, equal, n, o);
    assert Taken(explicit, d, equal, n) && Unambiguous(explicit, d, equal, o);
    SourceEquals(explicit, equal, d.changed.at[o].newColumn.name, o, o);
  }

  lemma DetectedIsGuessed(olds: map<string, Column>, news: map<string, Column>, equal: (Column, Column) -> bool,
                          renamed: OrderedMap<string>, explicit: Changes, d: Changes, o: string)
    requires (forall k | k in olds :: olds[k].name == k) && (forall k | k in news :: news[k].name == k)
    requires Detected(olds, news, equal, renamed, explicit, d) && o in d.changed.at && o !in explicit.changed.at
    ensures Guessed(olds, news, equal, renamed, d, o, d.changed.at[o].newColumn.name)
  {
    hide OrderedMap.Valid, Sources;
    var n := d.changed.at[o].newColumn.name;
    assert Unambiguous(explicit, d, equal, o);
    SourceEquals(explicit, equal, n, o, o);
    forall k | k in olds && k !in news && k != o && equal(news[n], olds[k])
      ensures k in d.changed.at && IsExplicit(renamed, d, k)
    {
      if k in explicit.dropped.at {
        SourceEquals(explicit, equal, n, o, k);
      }
    }
  }

  lemma DetectedAre(olds: map<string, Column>, news: map<string, Column>, equal: (Column, Column) -> bool,
                    renamed: OrderedMap<string>, byName: Changes, explicit: Changes, d: Changes)
    requires (forall k | k in olds :: olds[k].name == k) && (forall k | k in news :: news[k].name == k)
    requires Accounts(olds, news, equal, byName) && Accounts(olds, news, equal, explicit)
    requires forall k | k in byName.changed.at :: byName.changed.at[k].newColumn.name == k
    requires forall o | o in explicit.changed.at && o !in byName.changed.at :: IsExplicit(renamed, explicit, o)
    requires Extends(byName, explicit) && Extends(explicit, d)
    requires forall k | k in explicit.dropped.keys :: k in explicit.dropped.at
    requires forall o | o in d.changed.at && o !in explicit.changed.at :: Unambiguous(explicit, d, equal, o)
    requires forall n | n in explicit.added.at :: Taken(explicit, d, equal, n)
    ensures forall o, n | OnlyMatch(olds, news, equal, renamed, o, n) :: ReportsRename(d, o, n)
    ensures forall o | o in d.changed.at && d.changed.at[o].newColumn.name != o && !IsExplicit(renamed, d, o) ::
              Guessed(olds, news, equal, renamed, d, o, d.changed.at[o].newColumn.name)
  {
    hide Unambiguous, Taken, OrderedMap.Valid;
    StillOpenAre(olds, news, equal, renamed, byName, explicit);
    DetectedParts(olds, news, equal, renamed, explicit, d);
    hide Accounts, Detected, OnlyMatch, Guessed;
    forall o, n | OnlyMatch(olds, news, equal, renamed, o, n)
      ensures ReportsRename(d, o, n)
    {
      OnlyMatchIsDetected(olds, news, equal, renamed, explicit, d, o, n);
    }
    forall o | o in d.changed.at && d.changed.at[o].newColumn.name != o && !IsExplicit(renamed, d, o)
      ensures Guessed(olds, news, equal, renamed, d, o, d.changed.at[o].newColumn.name)
    {
      assert o !in explicit.changed.at;
      DetectedIsGuessed(olds, news, equal, renamed, explicit, d, o);
    }
  }

  lemma DetectedParts(olds: map<string, Column>, news: map<string, Column>, equal: (Column, Column) -> bool,
                      renamed: OrderedMap<string>, explicit: Changes, d: Changes)
    requires Accounts(olds, news, equal, explicit) && Extends(explicit, d)
    requires forall k | k in explicit.dropped.keys :: k in explicit.dropped.at
    requires forall o | o in d.changed.at && o !in explicit.changed.at :: Unambiguous(explicit, d, equal, o)
    requires forall n | n in explicit.added.at :: Taken(explicit, d, equal, n)
    requires forall o | o in olds && o !in news ::
               o in explicit.dropped.at || (o in explicit.changed.at && IsExplicit(renamed, explicit, o))
    requires forall n | n in news && n !in olds && n !in renamed.at :: n in explicit.added.at
    ensures Detected(olds, news, equal, renamed, explicit, d)
  {
    hide Unambiguous, Taken, OrderedMap.Valid;
    forall k | k in explicit.dropped.at
      ensures k in olds && k !in explicit.changed.at
    {
      assert ExactlyOne(k in explicit.dropped.at, k in explicit.changed.at, Unchanged(olds, news, equal, k));
    }
  }

  /** Neither name stands for a column on both sides. */
  predicate RenameIsVisible(olds: map<string, Column>, news: map<string, Column>, oldName: string, newName: string) {
    oldName in olds && oldName !in news && newName in news && newName !in olds
  }

  lemma ExtendsTwice(a: Changes, b: Changes, c: Changes)
    requires Extends(a, b) && Extends(b, c)
    ensures Extends(a, c)
  {
  }

  lemma RenameIsReported(olds: map<string, Column>, news: map<string, Column>, equal: (Column, Column) -> bool,
                         byName: Changes, explicit: Changes, d: Changes, o: string, n: string)
    requires Accounts(olds, news, equal, byName) && Accounts(olds, news, equal, d) && Extends(explicit, d)
    requires forall k | k in byName.changed.at :: byName.changed.at[k].newColumn.name == k
    requires Honoured(byName, explicit, n, o) && o != n
    ensures ReportsRename(d, o, n) <==> RenameIsVisible(olds, news, o, n)
  {
    if RenameIsVisible(olds, news, o, n) {
      assert forall k | k in byName.changed.at :: k in olds && k in news;
      assert !NewSide(byName, n) && o !in byName.changed.at;
    }
  }

  // ---------------------------------------------------------------------------------------
  // What accounting means
  // ---------------------------------------------------------------------------------------

  /** The columns that keep their name and those that a changed column becomes. */
  ghost function Kept(olds: map<string, Column>, d: Changes): map<string, Column> {
    map k | k in olds && k !in d.dropped.at && k !in d.changed.at :: olds[k]
  }

  ghost function Became(olds: map<string, Column>, news: map<string, Column>, d: Changes): map<string, Column>
    requires WellFormed(olds, news, d)
  {
    map k | k in d.changed.at :: d.changed.at[k].newColumn.name := d.changed.at[k].newColumn
  }

  /** The columns of the old table after the diff. */
  ghost function Applied(olds: map<string, Column>, news: map<string, Column>, d: Changes): map<string, Column>
    requires WellFormed(olds, news, d)
  {
    Kept(olds, d) + Became(olds, news, d) + d.added.at
  }

  lemma BecameAre(olds: map<string, Column>, news: map<string, Column>, d: Changes)
    requires WellFormed(olds, news, d)
    ensures forall n :: n in Became(olds, news, d) <==> NewSide(d, n)
    ensures forall n | n in Became(olds, news, d) :: n in news && Became(olds, news, d)[n] == news[n]
  {
  }

  /** The column k after the diff is the new one, but for differences columnsEqual does not see. */
  ghost predicate AppliesTo(olds: map<string, Column>, news: map<string, Column>, equal: (Column, Column) -> bool,
                            applied: map<string, Column>, k: string) {
    && (k in applied <==> k in news)
    && (k in news ==> applied[k] == if Unchanged(olds, news, equal, k) then olds[k] else news[k])
  }

  lemma IsWellFormed(olds: map<string, Column>, news: map<string, Column>, equal: (Column, Column) -> bool, d: Changes)
    requires Accounts(olds, news, equal, d)
    ensures WellFormed(olds, news, d)
  {
  }

  lemma AccountsAt(olds: map<string, Column>, news: map<string, Column>, equal: (Column, Column) -> bool, d: Changes,
                   k: string)
    requires Accounts(olds, news, equal, d)
    ensures k in d.added.at ==> k in news && d.added.at[k] == news[k]
    ensures k in olds ==> ExactlyOne(k in d.dropped.at, k in d.changed.at, Unchanged(olds, news, equal, k))
    ensures k in news ==> ExactlyOne(k in d.added.at, NewSide(d, k), Unchanged(olds, news, equal, k))
  {
  }

  lemma AppliedAt(olds: map<string, Column>, news: map<string, Column>, equal: (Column, Column) -> bool, d: Changes,
                  k: string)
    requires Accounts(olds, news, equal, d)
    ensures AppliesTo(olds, news, equal, Applied(olds, news, d), k)
  {
    hide NewSide, Became, WellFormed, Accounts;
    IsWellFormed(olds, news, equal, d);
    BecameAre(olds, news, d);
    AccountsAt(olds, news, equal, d, k);
  }

  /** The diff turns the old columns into the new ones: no name is missing, none is left over. */
  lemma AppliedDiffIsTheNewTable(olds: map<string, Column>, news: map<string, Column>,
                                 equal: (Column, Column) -> bool, d: Changes)
    requires Accounts(olds, news, equal, d)
    ensures forall k :: AppliesTo(olds, news, equal, Applied(olds, news, d), k)
  {
    hide Accounts, WellFormed, Applied, AppliesTo;
    IsWellFormed(olds, news, equal, d);
    forall k
      ensures AppliesTo(olds, news, equal, Applied(olds, news, d), k)
    {
      AppliedAt(olds, news, equal, d, k);
    }
  }

  /**
    * Renaming b to c and then a to b: neither rename can be reported, since b names a column on
    * both sides. The new b keeps the data of the old b, and where a rename from a to c is
    * detected, c holds the data of a.
    */
  lemma ChainOfRenamesIsLost(olds: map<string, Column>, news: map<string, Column>, equal: (Column, Column) -> bool,
                             d: Changes, a: string, b: string, c: string)
    requires Accounts(olds, news, equal, d) && a != b && b != c && a != c
    requires olds.Keys == {a, b} && news.Keys == {b, c}
    ensures !ReportsRename(d, b, c) && !ReportsRename(d, a, b)
    ensures a in d.dropped.at <==> c in d.added.at
    ensures ReportsRename(d, a, c) <==> c !in d.added.at
  {
    assert ExactlyOne(a in d.dropped.at, a in d.changed.at, Unchanged(olds, news, equal, a));
    assert ExactlyOne(c in d.added.at, NewSide(d, c), Unchanged(olds, news, equal, c));
    if a in d.changed.at {
      assert d.changed.at[a].newColumn.name != a;
      assert d.changed.at[a].newColumn.name == c;
    }
    if NewSide(d, c) {
      var j :| j in d.changed.at && d.changed.at[j].newColumn.name == c;
      assert j == a;
    }
  }
}
