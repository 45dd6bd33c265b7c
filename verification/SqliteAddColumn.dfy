/**
  * ADD COLUMN as the fast form of the rebuild (src/platforms/sqlite-platform.ts), and the whole
  * way from two tables over their diff to the migrated rows.
  */
module SqliteAddColumn {
  import opened Text
  import opened OrderedMaps
  import opened Comparator
  import opened SqliteDatabase
  import opened SqliteAlter
  import opened SqliteMigration

  function Names(columns: seq<Column>): (r: seq<string>)
    ensures |r| == |columns| && forall i | 0 <= i < |r| :: r[i] == columns[i].name
  {
    seq(|columns|, i requires 0 <= i < |columns| => columns[i].name)
  }

  /** The row with the defaults of the columns. */
  function Extended(row: Row, columns: seq<Column>): Row {
    if columns == [] then row
    else Extended(row, columns[..|columns| - 1])[columns[|columns| - 1].name := columns[|columns| - 1].initial]
  }

  function ExtendedRows(rows: seq<Row>, columns: seq<Column>): (r: seq<Row>)
    ensures |r| == |rows| && forall i | 0 <= i < |rows| :: r[i] == Extended(rows[i], columns)
  {
    seq(|rows|, i requires 0 <= i < |rows| => Extended(rows[i], columns))
  }

  lemma {:induction false} ExtendedAt(row: Row, columns: seq<Column>, k: string)
    requires IsTable(columns)
    ensures k in Extended(row, columns) <==> k in row || k in ByName(columns)
    ensures k in ByName(columns) ==> Extended(row, columns)[k] == ByName(columns)[k].initial
    ensures k in row && k !in ByName(columns) ==> Extended(row, columns)[k] == row[k]
  {
    if columns != [] {
      ExtendedAt(row, columns[..|columns| - 1], k);
    }
  }

  lemma ExecAdd(db: Db, table: string, c: Column)
    requires table in db.main && table !in db.temp && c.name !in ByName(db.main[table].columns)
    ensures var r := db.main[table];
            Exec(db, AddColumn(table, c))
            == Some(db.(main := db.main[table := Relation(r.columns + [c], ExtendedRows(r.rows, [c]))]))
  {
    var rows := db.main[table].rows;
    forall i | 0 <= i < |rows|
      ensures ExtendedRows(rows, [c])[i] == rows[i][c.name := c.initial]
    {
      assert [c][..0] == [];
      assert Extended(rows[i], [c]) == Extended(rows[i], [])[c.name := c.initial];
    }
    assert WithColumn(rows, c) == ExtendedRows(rows, [c]);
  }

  lemma ExtendedNext(rows: seq<Row>, columns: seq<Column>, c: Column)
    ensures ExtendedRows(ExtendedRows(rows, columns), [c]) == ExtendedRows(rows, columns + [c])
  {
    assert (columns + [c])[..|columns|] == columns && [c][..0] == [];
    forall row: Row
      ensures Extended(Extended(row, columns), [c]) == Extended(row, columns + [c])
    {
      assert Extended(Extended(row, columns), []) == Extended(row, columns);
    }
  }

  /** The columns are added one after the other; every row gets their defaults. */
  lemma {:induction false} RunAdds(db: Db, table: string, columns: seq<Column>)
    requires table in db.main && table !in db.temp
    requires IsTable(db.main[table].columns + columns)
    ensures var r := db.main[table];
            Run(db, AddColumns(table, columns))
            == Some(db.(main := db.main[table := Relation(r.columns + columns, ExtendedRows(r.rows, columns))]))
  {
    hide Exec, ByName, Extended;
    var r := db.main[table];
    if columns == [] {
      ExtendedByNone(r.rows);
      assert r.columns + [] == r.columns && db.main[table := r] == db.main;
    } else {
      hide ExtendedRows;
      var rest, c := columns[..|columns| - 1], columns[|columns| - 1];
      assert rest + [c] == columns && r.columns + rest + [c] == r.columns + columns;
      assert IsTable(r.columns + rest) && c.name !in ByName(r.columns + rest) by {
        assert (r.columns + columns)[..|r.columns + rest|] == r.columns + rest;
        assert c == (r.columns + columns)[|r.columns + rest|];
        FreshName(r.columns + columns, |r.columns + rest|);
      }
      RunAdds(db, table, rest);
      var next := db.(main := db.main[table := Relation(r.columns + rest, ExtendedRows(r.rows, rest))]);
      ExecAdd(next, table, c);
      ExtendedNext(r.rows, rest, c);
      var last := next.(main := next.main[table := Relation(r.columns + columns, ExtendedRows(r.rows, columns))]);
      RunAppend(db, AddColumns(table, rest), [AddColumn(table, c)]);
      RunOne(next, AddColumn(table, c), [], last);
      assert [AddColumn(table, c)] + [] == [AddColumn(table, c)];
      assert AddColumns(table, rest) + [AddColumn(table, c)] == AddColumns(table, columns);
      assert last.main == db.main[table := Relation(r.columns + columns, ExtendedRows(r.rows, columns))];
    }
  }

  lemma ExtendedByNone(rows: seq<Row>)
    ensures ExtendedRows(rows, []) == rows
  {
  }

  /** Only columns are added: every old column stays, and the added ones are in the order of the new table. */
  ghost predicate OnlyAdds(diff: TableDiff, equal: (Column, Column) -> bool) {
    var olds, news, d := ByName(diff.oldTable.columns), ByName(diff.newTable.columns), diff.columns;
    && IsTable(diff.oldTable.columns) && IsTable(diff.newTable.columns) && diff.oldTable.name == diff.newTable.name
    && Accounts(olds, news, equal, d)
    && d.changed.at == map[] && d.dropped.at == map[]
    && d.added.keys == NamesNotIn(diff.newTable.columns, olds)
    && (forall k | k in d.added.keys :: k in d.added.at)
  }

  /** What OnlyAdds says of single names. */
  lemma AddsAt(diff: TableDiff, equal: (Column, Column) -> bool, k: string)
    requires OnlyAdds(diff, equal)
    ensures var olds, news, d := ByName(diff.oldTable.columns), ByName(diff.newTable.columns), diff.columns;
            && (k in olds ==> k in news)
            && (k in news && k !in olds ==> k in d.added.at && d.added.at[k] == news[k])
            && (k in d.added.at ==> k in news && k !in olds)
            && (forall o :: ComesFrom(olds, d, k, o) <==> k == o && o in olds)
  {
    var olds, news, d := ByName(diff.oldTable.columns), ByName(diff.newTable.columns), diff.columns;
    AccountsAt(olds, news, equal, d, k);
    assert k !in d.dropped.at && k !in d.changed.at && !NewSide(d, k);
  }

  /** The values of a map of columns by name are a table of these names. */
  lemma ValuesAre(m: OrderedMap<Column>)
    requires m.Valid() && forall k | k in m.at :: m.at[k].name == k
    ensures forall k | k in m.keys :: k in m.at
    ensures IsTable(m.Values()) && Names(m.Values()) == m.keys
    ensures ByName(m.Values()) == m.at
  {
    ValidKeys(m);
    var values := m.Values();
    forall i | 0 <= i < |values|
      ensures values[i].name == m.keys[i] && m.keys[i] in m.at
    {
      assert m.keys[i] in m.keys;
    }
    forall k | k in m.at
      ensures m.at[k] in values
    {
      var i :| 0 <= i < |values| && m.keys[i] == k;
      assert values[i] == m.at[k];
    }
    SameColumns(values, m.at);
  }

  lemma AddedAreNew(diff: TableDiff, equal: (Column, Column) -> bool)
    requires OnlyAdds(diff, equal)
    ensures diff.columns.added.Valid() && forall k | k in diff.columns.added.at :: diff.columns.added.at[k].name == k
  {
    PartsOf(ByName(diff.oldTable.columns), ByName(diff.newTable.columns), equal, diff.columns);
  }

  lemma AddedTable(diff: TableDiff, equal: (Column, Column) -> bool)
    requires OnlyAdds(diff, equal)
    ensures IsTable(diff.oldTable.columns + diff.columns.added.Values())
  {
    var a, b := diff.oldTable.columns, diff.columns.added.Values();
    AddedAreNew(diff, equal);
    ValuesAre(diff.columns.added);
    forall x, y | x in a && y in b
      ensures x.name != y.name
    {
      NamesOf(a, x.name);
      NamesOf(b, y.name);
      AddsAt(diff, equal, y.name);
    }
    assert IsTable(a);
    hide OnlyAdds, ByName;
    AppendTables(a, b);
  }

  lemma AppendTables(a: seq<Column>, b: seq<Column>)
    requires IsTable(a) && IsTable(b) && forall x, y | x in a && y in b :: x.name != y.name
    ensures IsTable(a + b)
  {
    assert forall i | 0 <= i < |a| :: (a + b)[i] == a[i] && a[i] in a;
    assert forall i | |a| <= i < |a| + |b| :: (a + b)[i] == b[i - |a|] && b[i - |a|] in b;
  }

  /** A migrated row is the old one with the defaults of the added columns. */
  lemma MigratedIsExtended(diff: TableDiff, equal: (Column, Column) -> bool, row: Row, row': Row)
    requires OnlyAdds(diff, equal) && row.Keys == ByName(diff.oldTable.columns).Keys
    requires Migrated(ByName(diff.oldTable.columns), ByName(diff.newTable.columns), diff.columns, row, row')
    ensures row' == Extended(row, diff.columns.added.Values())
  {
    hide OnlyAdds, Extended, ByName, Migrated;
    AddedAreNew(diff, equal);
    ValuesAre(diff.columns.added);
    var added := diff.columns.added.Values();
    forall k
      ensures k in row' <==> k in Extended(row, added)
      ensures k in row' ==> row'[k] == Extended(row, added)[k]
    {
      ExtendedAt(row, added, k);
      MigratedAt(diff, equal, row, row', k);
    }
  }

  lemma MigratedAt(diff: TableDiff, equal: (Column, Column) -> bool, row: Row, row': Row, k: string)
    requires OnlyAdds(diff, equal) && row.Keys == ByName(diff.oldTable.columns).Keys
    requires Migrated(ByName(diff.oldTable.columns), ByName(diff.newTable.columns), diff.columns, row, row')
    ensures k in row' <==> k in row || k in diff.columns.added.at
    ensures k in row ==> k !in diff.columns.added.at && row'[k] == row[k]
    ensures k in diff.columns.added.at ==> row'[k] == diff.columns.added.at[k].initial
  {
    AddsAt(diff, equal, k);
    hide OnlyAdds, ByName;
    var olds, d := ByName(diff.oldTable.columns), diff.columns;
    if k in olds {
      assert ComesFrom(olds, d, k, k);
    }
  }

  lemma {:induction false} SurvivorNames(columns: seq<Column>, news: map<string, Column>, d: Changes)
    requires d.changed.at == map[] && d.dropped.at == map[]
    requires forall k | k in news :: news[k].name == k
    requires forall c | c in columns :: c.name in news
    ensures Names(Survivors(columns, news, d, map[])) == Names(columns)
  {
    if columns != [] {
      SurvivorNames(columns[..|columns| - 1], news, d);
    }
  }

  lemma {:induction false} RestNames(columns: seq<Column>, used: map<string, Column>)
    ensures Names(Rest(columns, used)) == NamesNotIn(columns, used)
  {
    if columns != [] {
      RestNames(columns[..|columns| - 1], used);
    }
  }

  lemma {:induction false} NamesNotInSame(columns: seq<Column>, a: map<string, Column>, b: map<string, Column>)
    requires a.Keys == b.Keys
    ensures NamesNotIn(columns, a) == NamesNotIn(columns, b)
  {
    if columns != [] {
      NamesNotInSame(columns[..|columns| - 1], a, b);
    }
  }

  lemma SameNames(a: seq<Column>, b: seq<Column>)
    requires Names(a) == Names(b)
    ensures ByName(a).Keys == ByName(b).Keys
  {
    forall k
      ensures k in ByName(a) <==> k in ByName(b)
    {
      if k in ByName(a) {
        var i :| 0 <= i < |a| && a[i] == ByName(a)[k];
        assert Names(a)[i] == b[i].name;
      }
      if k in ByName(b) {
        var i :| 0 <= i < |b| && b[i] == ByName(b)[k];
        assert Names(b)[i] == a[i].name;
      }
    }
  }

  /** The rebuild plans the same columns in the same order. */
  lemma PlannedNames(diff: TableDiff, equal: (Column, Column) -> bool)
    requires OnlyAdds(diff, equal)
    ensures Names(Planned(diff.oldTable.columns, diff.newTable.columns, diff.columns, map[]))
         == Names(diff.oldTable.columns + diff.columns.added.Values())
  {
    var olds, news, d := ByName(diff.oldTable.columns), ByName(diff.newTable.columns), diff.columns;
    forall c | c in diff.oldTable.columns
      ensures c.name in news
    {
      NamesOf(diff.oldTable.columns, c.name);
      AddsAt(diff, equal, c.name);
    }
    AddedAreNew(diff, equal);
    assert d.changed.at == map[] && d.dropped.at == map[] && d.added.keys == NamesNotIn(diff.newTable.columns, olds);
    hide OnlyAdds, ByName, Survivors, Rest, NamesNotIn;
    ValuesAre(d.added);
    SurvivorNames(diff.oldTable.columns, news, d);
    var survivors := Survivors(diff.oldTable.columns, news, d, map[]);
    SameNames(survivors, diff.oldTable.columns);
    RestNames(diff.newTable.columns, ByName(survivors));
    NamesNotInSame(diff.newTable.columns, ByName(survivors), olds);
    NamesOfTwo(survivors, Rest(diff.newTable.columns, ByName(survivors)));
    NamesOfTwo(diff.oldTable.columns, d.added.Values());
  }

  lemma NamesOfTwo(a: seq<Column>, b: seq<Column>)
    ensures Names(a + b) == Names(a) + Names(b)
  {
  }

  /**
    * Adding the columns one by one does what the rebuild does: the same names in the same order
    * and the same rows. Only the declarations of the kept columns, which columnsEqual tells apart
    * from nothing, may still be the old ones.
    */
  lemma AddColumnRefinesRebuild(db: Db, diff: TableDiff, equal: (Column, Column) -> bool)
    requires OnlyAdds(diff, equal) && ReadyFor(db, diff) && diff.oldTable.columns != []
    ensures var t, columns := diff.oldTable.name, diff.oldTable.columns + diff.columns.added.Values();
            var fast, slow := Run(db, AddColumns(t, diff.columns.added.Values())), Run(db, RebuildPlan(diff, map[]));
            && fast.Some? && slow.Some? && t in slow.value.main
            && Names(slow.value.main[t].columns) == Names(columns)
            && fast.value == Db(slow.value.main[t := Relation(columns, slow.value.main[t].rows)], slow.value.temp)
  {
    hide OnlyAdds, Extended, ExtendedRows, ByName, Run, AddColumns, RebuildPlan, Planned, Names, Migrated, IsTable,
         Relation.Valid;
    AddedAreNew(diff, equal);
    ValuesAre(diff.columns.added);
    assert diff.oldTable.name == diff.newTable.name by { SameTableName(diff, equal); }
    AddedTable(diff, equal);
    RunAdds(db, diff.oldTable.name, diff.columns.added.Values());
    AddsKeepData(db, diff, equal);
    PlannedNames(diff, equal);
    RowsAreExtended(db, diff, equal);
  }

  lemma SameTableName(diff: TableDiff, equal: (Column, Column) -> bool)
    requires OnlyAdds(diff, equal)
    ensures diff.oldTable.name == diff.newTable.name
  {
  }

  lemma RowsAreExtended(db: Db, diff: TableDiff, equal: (Column, Column) -> bool)
    requires OnlyAdds(diff, equal) && ReadyFor(db, diff) && diff.oldTable.columns != []
    ensures var slow := Run(db, RebuildPlan(diff, map[]));
            && slow.Some? && diff.newTable.name in slow.value.main
            && slow.value.main[diff.newTable.name].rows
               == ExtendedRows(db.main[diff.oldTable.name].rows, diff.columns.added.Values())
  {
    AddsKeepData(db, diff, equal);
    hide OnlyAdds, Extended, ByName, Run, RebuildPlan, Planned, Migrated, IsTable;
    AddedAreNew(diff, equal);
    ValuesAre(diff.columns.added);
    var rows, rows' := db.main[diff.oldTable.name].rows,
        Run(db, RebuildPlan(diff, map[])).value.main[diff.newTable.name].rows;
    forall i | 0 <= i < |rows|
      ensures rows'[i] == Extended(rows[i], diff.columns.added.Values())
    {
      assert rows[i] in rows;
      MigratedIsExtended(diff, equal, rows[i], rows'[i]);
    }
    assert rows' == ExtendedRows(rows, diff.columns.added.Values());
  }

  lemma AddsKeepData(db: Db, diff: TableDiff, equal: (Column, Column) -> bool)
    requires OnlyAdds(diff, equal) && ReadyFor(db, diff) && diff.oldTable.columns != []
    ensures KeepsData(db, diff, Run(db, RebuildPlan(diff, map[])),
                      Planned(diff.oldTable.columns, diff.newTable.columns, diff.columns, map[]))
  {
    var first := diff.oldTable.columns[0];
    NamesOf(diff.oldTable.columns, first.name);
    AddsAt(diff, equal, first.name);
    assert KeepsAColumn(diff);
    var k := ByName(diff.newTable.columns)[first.name];
    assert k in diff.newTable.columns;
    assert PairsUp(diff.columns, map[], (a, b) => true);
    RebuildKeepsData(db, diff, equal, map[], (a, b) => true);
  }

  /**
    * The statements run, leave no temporary table and, if any column is kept, exactly the new
    * columns with every row migrated.
    */
  ghost predicate Succeeds(db: Db, diff: TableDiff, plan: seq<Statement>)
    requires ReadyFor(db, diff)
  {
    var r, t := Run(db, plan), diff.newTable.name;
    && r.Some? && r.value.temp == db.temp && t in r.value.main
    && IsTable(r.value.main[t].columns)
    && ByName(r.value.main[t].columns).Keys == ByName(diff.newTable.columns).Keys
    && (KeepsAColumn(diff) ==> KeepsData(db, diff, r, r.value.main[t].columns))
  }

  lemma RebuildSucceeds(db: Db, diff: TableDiff, equal: (Column, Column) -> bool,
                        implicit: map<string, Column>, same: (Column, Column) -> bool)
    requires IsTable(diff.oldTable.columns) && IsTable(diff.newTable.columns) && diff.newTable.columns != []
    requires Accounts(ByName(diff.oldTable.columns), ByName(diff.newTable.columns), equal, diff.columns)
    requires PairsUp(diff.columns, implicit, same) && ReadyFor(db, diff)
    ensures Succeeds(db, diff, RebuildPlan(diff, implicit))
  {
    RebuildKeepsData(db, diff, equal, implicit, same);
    hide Accounts, PairsUp, Run, RebuildPlan, Planned, IsTable, ByName, KeepsAColumn, Migrated, Relation.Valid;
  }

  lemma AddColumnsSucceed(db: Db, diff: TableDiff, equal: (Column, Column) -> bool)
    requires OnlyAdds(diff, equal) && ReadyFor(db, diff) && diff.oldTable.columns != []
    ensures Succeeds(db, diff, AddColumns(diff.oldTable.name, diff.columns.added.Values()))
  {
    hide Accounts, OnlyAdds, Run, AddColumns, RebuildPlan, Planned, IsTable, ByName, KeepsAColumn, Migrated, Names,
         Relation.Valid;
    AddedAreNew(diff, equal);
    ValuesAre(diff.columns.added);
    AddColumnRefinesRebuild(db, diff, equal);
    AddsKeepData(db, diff, equal);
    AddedTable(diff, equal);
    AddedNames(diff, equal);
    SameTableName(diff, equal);
  }

  lemma AddedNames(diff: TableDiff, equal: (Column, Column) -> bool)
    requires OnlyAdds(diff, equal)
    ensures ByName(diff.oldTable.columns + diff.columns.added.Values()).Keys == ByName(diff.newTable.columns).Keys
  {
    PlannedNames(diff, equal);
    PairsUpNothing(diff.columns, (a, b) => true);
    PlannedIsTheNewTable(diff.oldTable.columns, diff.newTable.columns, equal, diff.columns, map[], (a, b) => true);
    SameNames(Planned(diff.oldTable.columns, diff.newTable.columns, diff.columns, map[]),
              diff.oldTable.columns + diff.columns.added.Values());
  }

  lemma PairsUpNothing(d: Changes, same: (Column, Column) -> bool)
    ensures PairsUp(d, map[], same)
  {
  }

  /** ADD COLUMN makes no table. */
  lemma {:induction false} AddsMakeNoTable(db: Db, table: string, columns: seq<Column>, other: string)
    requires other !in db.main
    ensures var r := Run(db, AddColumns(table, columns)); r.Some? ==> other !in r.value.main
    decreases |columns|
  {
    if columns != [] {
      var s, rest := AddColumn(table, columns[0]), AddColumns(table, columns[1..]);
      assert AddColumns(table, columns) == [s] + rest && ([s] + rest)[1..] == rest;
      AddMakesNoTable(db, s, other);
      hide Exec, AddColumns;
      if Exec(db, s).Some? {
        AddsMakeNoTable(Exec(db, s).value, table, columns[1..], other);
      }
    }
  }

  lemma AddMakesNoTable(db: Db, s: Statement, other: string)
    requires other !in db.main && s.AddColumn?
    ensures var r := Exec(db, s); r.Some? ==> other !in r.value.main
  {
  }

  /**
    * From the two tables to the statements. They succeed in every ready database, exactly when the
    * table keeps its name or is rebuilt: columns added one by one leave it under its old name.
    */
  method Migrate(oldTable: TableDefinition, newTable: TableDefinition, renamed: OrderedMap<string>, config: Config,
                 rules: Rules, touchesIndexesOrKeys: bool)
    returns (diff: TableDiff, plan: seq<Statement>)
    requires IsTable(oldTable.columns) && IsTable(newTable.columns) && renamed.Valid()
    requires oldTable.columns != [] && newTable.columns != []
    ensures diff == TableDiff(oldTable, newTable, diff.columns, touchesIndexesOrKeys)
    ensures Accounts(ByName(oldTable.columns), ByName(newTable.columns), config.columnsEqual, diff.columns)
    ensures forall db: Db | ReadyFor(db, diff) ::
              Succeeds(db, diff, plan) <==>
                oldTable.name == newTable.name || !IsSimple(diff, diff.columns.added.Values(), rules)
  {
    var d := CompareColumns(oldTable.columns, newTable.columns, renamed, config);
    diff := TableDiff(oldTable, newTable, d, touchesIndexesOrKeys);
    PartsOf(ByName(oldTable.columns), ByName(newTable.columns), config.columnsEqual, d);
    ValidKeys(d.added);
    hide Accounts, OrderedMap.Valid, ByName, IsTable, ReadyFor;
    var implicit;
    plan, implicit := GetAlterTable(diff, rules);
    forall db: Db | ReadyFor(db, diff)
      ensures Succeeds(db, diff, plan) <==>
                oldTable.name == newTable.name || !IsSimple(diff, diff.columns.added.Values(), rules)
    {
      if IsSimple(diff, diff.columns.added.Values(), rules) {
        if oldTable.name == newTable.name {
          SimpleOnlyAdds(diff, config.columnsEqual);
          AddColumnsSucceed(db, diff, config.columnsEqual);
        } else {
          NoNewTable(db, diff);
        }
      } else {
        RebuildSucceeds(db, diff, config.columnsEqual, implicit, rules.sameDefinition);
      }
    }
  }

  lemma NoNewTable(db: Db, diff: TableDiff)
    requires ReadyFor(db, diff) && diff.oldTable.name != diff.newTable.name
    requires forall k | k in diff.columns.added.keys :: k in diff.columns.added.at
    ensures !Succeeds(db, diff, AddColumns(diff.oldTable.name, diff.columns.added.Values()))
  {
    hide Run, AddColumns;
    AddsMakeNoTable(db, diff.oldTable.name, diff.columns.added.Values(), diff.newTable.name);
  }

  lemma SimpleOnlyAdds(diff: TableDiff, equal: (Column, Column) -> bool)
    requires IsTable(diff.oldTable.columns) && IsTable(diff.newTable.columns)
             && diff.oldTable.name == diff.newTable.name
    requires Accounts(ByName(diff.oldTable.columns), ByName(diff.newTable.columns), equal, diff.columns)
    requires diff.columns.changed.keys == [] && diff.columns.dropped.keys == []
    requires diff.columns.changed.at == map[] ==>
               diff.columns.added.keys == NamesNotIn(diff.newTable.columns, ByName(diff.oldTable.columns))
    ensures OnlyAdds(diff, equal)
  {
    ValidKeys(diff.columns.changed);
    ValidKeys(diff.columns.dropped);
    ValidKeys(diff.columns.added);
    NoEntries(diff.columns.changed);
    NoEntries(diff.columns.dropped);
  }

  lemma NoEntries<V>(m: OrderedMap<V>)
    requires m.Valid() && m.keys == []
    ensures m.at == map[]
  {
    assert forall k :: k !in m.at;
  }
}
