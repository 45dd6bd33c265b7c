/**
  * The migration keeps the data: running the statements of module SqliteAlter for a diff of
  * module Comparator against the database of module SqliteDatabase.
  */
module SqliteMigration {
  import opened Text
  import opened OrderedMaps
  import opened Comparator
  import opened SqliteDatabase
  import opened SqliteAlter

  // ---------------------------------------------------------------------------------------
  // The planned columns are the new columns, once each
  // ---------------------------------------------------------------------------------------

  lemma ReplacementIsNew(olds: map<string, Column>, news: map<string, Column>, equal: (Column, Column) -> bool,
                         d: Changes, implicit: map<string, Column>, same: (Column, Column) -> bool, k: string)
    requires Accounts(olds, news, equal, d) && PairsUp(d, implicit, same) && k in olds
    requires forall n | n in news :: news[n].name == n
    ensures var r := Replacement(news, d, implicit, k);
            && (r.None? <==> k in d.dropped.at && k !in implicit)
            && (r.Some? ==> r.value.name in news && news[r.value.name] == r.value)
            && (k !in d.dropped.at ==> r.Some? && r.value.name == CopyTarget(d, k))
            && (k in implicit ==> r == Some(implicit[k]) && implicit[k].name in d.added.at)
  {
  }

  lemma ReplacementsDiffer(olds: map<string, Column>, news: map<string, Column>, equal: (Column, Column) -> bool,
                           d: Changes, implicit: map<string, Column>, same: (Column, Column) -> bool,
                           j: string, k: string)
    requires Accounts(olds, news, equal, d) && PairsUp(d, implicit, same) && j in olds && k in olds && j != k
    requires forall n | n in news :: news[n].name == n
    requires Replacement(news, d, implicit, j).Some? && Replacement(news, d, implicit, k).Some?
    ensures Replacement(news, d, implicit, j).value.name != Replacement(news, d, implicit, k).value.name
  {
    ReplacementIsNew(olds, news, equal, d, implicit, same, j);
    ReplacementIsNew(olds, news, equal, d, implicit, same, k);
    if j in implicit && k in implicit {
    } else if j in implicit {
      TargetIsNotAdded(olds, news, equal, d, k);
    } else if k in implicit {
      TargetIsNotAdded(olds, news, equal, d, j);
    } else {
      TargetsDiffer(olds, news, equal, d, j, k);
    }
  }

  /** What a kept column becomes is a new column, and not one that is added. */
  lemma TargetIsNotAdded(olds: map<string, Column>, news: map<string, Column>, equal: (Column, Column) -> bool,
                         d: Changes, k: string)
    requires Accounts(olds, news, equal, d) && k in olds && k !in d.dropped.at
    ensures CopyTarget(d, k) in news && CopyTarget(d, k) !in d.added.at
  {
    AccountsAt(olds, news, equal, d, k);
    AccountsAt(olds, news, equal, d, CopyTarget(d, k));
    if k in d.changed.at {
      assert NewSide(d, CopyTarget(d, k));
    }
  }

  lemma TargetsDiffer(olds: map<string, Column>, news: map<string, Column>, equal: (Column, Column) -> bool,
                      d: Changes, j: string, k: string)
    requires Accounts(olds, news, equal, d) && j in olds && k in olds && j != k
    requires j !in d.dropped.at && k !in d.dropped.at
    ensures CopyTarget(d, j) != CopyTarget(d, k)
  {
    AccountsAt(olds, news, equal, d, j);
    AccountsAt(olds, news, equal, d, k);
    if j in d.changed.at {
      assert NewSide(d, CopyTarget(d, j));
    }
    if k in d.changed.at {
      assert NewSide(d, CopyTarget(d, k));
    }
  }

  /** These are the replacements of the named columns. */
  ghost predicate Replaces(survivors: seq<Column>, names: map<string, Column>, news: map<string, Column>,
                           d: Changes, implicit: map<string, Column>) {
    && (forall c | c in survivors :: exists k :: k in names && Replacement(news, d, implicit, k) == Some(c))
    && (forall k | k in names && Replacement(news, d, implicit, k).Some? ::
          Replacement(news, d, implicit, k).value in survivors)
  }

  lemma ReplacesNext(survivors: seq<Column>, names: map<string, Column>, news: map<string, Column>,
                     d: Changes, implicit: map<string, Column>, c: Column)
    requires Replaces(survivors, names, news, d, implicit)
    ensures var r := Replacement(news, d, implicit, c.name);
            Replaces(survivors + (if r.Some? then [r.value] else []), names[c.name := c], news, d, implicit)
  {
    hide Replacement;
    var names', r := names[c.name := c], Replacement(news, d, implicit, c.name);
    var survivors' := survivors + if r.Some? then [r.value] else [];
    forall x | x in survivors'
      ensures exists k :: k in names' && Replacement(news, d, implicit, k) == Some(x)
    {
      if x in survivors {
        var k :| k in names && Replacement(news, d, implicit, k) == Some(x);
        assert k in names';
      } else {
        assert c.name in names';
      }
    }
  }

  lemma {:induction false} SurvivorsAre(columns: seq<Column>, olds: map<string, Column>, news: map<string, Column>,
                                        equal: (Column, Column) -> bool, d: Changes,
                                        implicit: map<string, Column>, same: (Column, Column) -> bool)
    requires Accounts(olds, news, equal, d) && PairsUp(d, implicit, same)
    requires forall n | n in news :: news[n].name == n
    requires IsTable(columns) && forall k | k in ByName(columns) :: k in olds
    ensures IsTable(Survivors(columns, news, d, implicit))
    ensures Replaces(Survivors(columns, news, d, implicit), ByName(columns), news, d, implicit)
  {
    if columns != [] {
      var rest, last := columns[..|columns| - 1], columns[|columns| - 1];
      FreshName(columns, |columns| - 1);
      SurvivorsAre(rest, olds, news, equal, d, implicit, same);
      var before := Survivors(rest, news, d, implicit);
      hide Accounts, PairsUp, Replacement;
      ReplacesNext(before, ByName(rest), news, d, implicit, last);
      NextDiffers(before, rest, last, olds, news, equal, d, implicit, same);
    }
  }

  /** The replacement of the next column has a name of its own. */
  lemma NextDiffers(before: seq<Column>, rest: seq<Column>, last: Column,
                    olds: map<string, Column>, news: map<string, Column>, equal: (Column, Column) -> bool,
                    d: Changes, implicit: map<string, Column>, same: (Column, Column) -> bool)
    requires Accounts(olds, news, equal, d) && PairsUp(d, implicit, same)
    requires forall n | n in news :: news[n].name == n
    requires last.name in olds && last.name !in ByName(rest) && forall k | k in ByName(rest) :: k in olds
    requires IsTable(before) && Replaces(before, ByName(rest), news, d, implicit)
    ensures var r := Replacement(news, d, implicit, last.name);
            IsTable(before + if r.Some? then [r.value] else [])
  {
    hide Accounts, PairsUp, Replacement, ByName;
    var r := Replacement(news, d, implicit, last.name);
    if r.Some? {
      forall c | c in before
        ensures c.name != r.value.name
      {
        var k :| k in ByName(rest) && Replacement(news, d, implicit, k) == Some(c);
        ReplacementsDiffer(olds, news, equal, d, implicit, same, k, last.name);
      }
    }
  }

  lemma {:induction false} RestAre(columns: seq<Column>, used: map<string, Column>)
    requires IsTable(columns)
    ensures IsTable(Rest(columns, used))
    ensures forall c :: c in Rest(columns, used) <==> c in columns && c.name !in used
  {
    if columns != [] {
      var rest := columns[..|columns| - 1];
      assert columns == rest + [columns[|columns| - 1]];
      RestAre(rest, used);
      assert forall c | c in rest :: c.name != columns[|columns| - 1].name;
    }
  }

  lemma NamesOf(columns: seq<Column>, k: string)
    requires IsTable(columns)
    ensures k in ByName(columns) <==> exists c :: c in columns && c.name == k
    ensures forall c | c in columns :: c.name in ByName(columns) && ByName(columns)[c.name] == c
  {
  }

  lemma SameColumns(columns: seq<Column>, news: map<string, Column>)
    requires IsTable(columns)
    requires forall c | c in columns :: c.name in news && news[c.name] == c
    requires forall k | k in news :: news[k] in columns && news[k].name == k
    ensures ByName(columns) == news
  {
    forall k
      ensures k in ByName(columns) <==> k in news
    {
      NamesOf(columns, k);
    }
  }

  lemma SurvivorsAreNew(survivors: seq<Column>, olds: map<string, Column>, news: map<string, Column>,
                        equal: (Column, Column) -> bool, d: Changes, implicit: map<string, Column>,
                        same: (Column, Column) -> bool)
    requires Accounts(olds, news, equal, d) && PairsUp(d, implicit, same)
    requires forall n | n in news :: news[n].name == n
    requires Replaces(survivors, olds, news, d, implicit)
    ensures forall c | c in survivors :: c.name in news && news[c.name] == c
  {
    hide Accounts, PairsUp, Replacement;
    forall c | c in survivors
      ensures c.name in news && news[c.name] == c
    {
      var k :| k in olds && Replacement(news, d, implicit, k) == Some(c);
      ReplacementIsNew(olds, news, equal, d, implicit, same, k);
    }
  }

  /** Some of the new columns and then the others are the new table. */
  lemma SurvivorsAndRest(survivors: seq<Column>, newColumns: seq<Column>)
    requires IsTable(survivors) && IsTable(newColumns)
    requires forall c | c in survivors :: c.name in ByName(newColumns) && ByName(newColumns)[c.name] == c
    ensures var all := survivors + Rest(newColumns, ByName(survivors));
            IsTable(all) && ByName(all) == ByName(newColumns)
  {
    var news, used := ByName(newColumns), ByName(survivors);
    RestAre(newColumns, used);
    hide Rest;
    var rest := Rest(newColumns, used);
    forall c | c in survivors
      ensures c.name in used
    {
      NamesOf(survivors, c.name);
    }
    assert forall c | c in newColumns :: c.name in news && news[c.name] == c;
    assert IsTable(survivors + rest);
    forall k | k in news
      ensures news[k] in survivors + rest
    {
      if k in used {
        assert used[k] in survivors;
      }
    }
    SameColumns(survivors + rest, news);
  }

  /** Every new column is planned exactly once, and nothing else is. */
  lemma PlannedIsTheNewTable(oldColumns: seq<Column>, newColumns: seq<Column>, equal: (Column, Column) -> bool,
                             d: Changes, implicit: map<string, Column>, same: (Column, Column) -> bool)
    requires IsTable(oldColumns) && IsTable(newColumns)
    requires Accounts(ByName(oldColumns), ByName(newColumns), equal, d) && PairsUp(d, implicit, same)
    ensures IsTable(Planned(oldColumns, newColumns, d, implicit))
    ensures ByName(Planned(oldColumns, newColumns, d, implicit)) == ByName(newColumns)
  {
    var news := ByName(newColumns);
    SurvivorsAre(oldColumns, ByName(oldColumns), news, equal, d, implicit, same);
    var survivors := Survivors(oldColumns, news, d, implicit);
    SurvivorsAreNew(survivors, ByName(oldColumns), news, equal, d, implicit, same);
    hide Accounts, PairsUp, Survivors, Rest, Replaces, ByName;
    SurvivorsAndRest(survivors, newColumns);
  }

  // ---------------------------------------------------------------------------------------
  // What happens to the rows
  // ---------------------------------------------------------------------------------------

  /** The new column holds what the old one held: it keeps its name, or the diff renames it. */
  ghost predicate ComesFrom(olds: map<string, Column>, d: Changes, newName: string, oldName: string) {
    oldName in olds && oldName !in d.dropped.at && CopyTarget(d, oldName) == newName
  }

  /** Every kept or renamed column holds its old value, every other one its default. */
  ghost predicate Migrated(olds: map<string, Column>, news: map<string, Column>, d: Changes, row: Row, row': Row)
    requires olds.Keys <= row.Keys
  {
    && row'.Keys == news.Keys
    && (forall k, o | k in news && ComesFrom(olds, d, k, o) :: row'[k] == row[o])
    && (forall k | k in news && !(exists o :: ComesFrom(olds, d, k, o)) :: row'[k] == news[k].initial)
  }

  lemma {:induction false} CopySourcesAre(columns: seq<Column>, d: Changes)
    requires IsTable(columns)
    ensures forall k :: k in CopySources(columns, d) <==> k in ByName(columns) && k !in d.dropped.at
    ensures DistinctNames(CopySources(columns, d))
  {
    if columns != [] {
      FreshName(columns, |columns| - 1);
      CopySourcesAre(columns[..|columns| - 1], d);
    }
  }

  lemma CopyTargetsAre(olds: map<string, Column>, news: map<string, Column>, equal: (Column, Column) -> bool,
                       d: Changes, sources: seq<string>)
    requires Accounts(olds, news, equal, d) && DistinctNames(sources)
    requires forall k | k in sources :: k in olds && k !in d.dropped.at
    ensures var targets := CopyTargets(d, sources);
            && DistinctNames(targets) && (forall t | t in targets :: t in news)
            && (forall i | 0 <= i < |sources| :: targets[i] == CopyTarget(d, sources[i]))
  {
    hide Accounts, CopyTarget;
    var targets := CopyTargets(d, sources);
    assert forall i | 0 <= i < |sources| :: sources[i] in sources;
    forall t | t in targets
      ensures t in news
    {
      var i :| 0 <= i < |targets| && targets[i] == t;
      TargetIsNotAdded(olds, news, equal, d, sources[i]);
    }
    forall i, j | 0 <= i < j < |targets|
      ensures targets[i] != targets[j]
    {
      TargetsDiffer(olds, news, equal, d, sources[i], sources[j]);
    }
  }

  /** A row that goes through the temporary table and the INSERT is migrated. */
  lemma RowIsMigrated(olds: map<string, Column>, news: map<string, Column>, d: Changes, planned: seq<Column>,
                      sources: seq<string>, row: Row)
    requires ByName(planned) == news && row.Keys == olds.Keys
    requires forall k :: k in sources <==> k in olds && k !in d.dropped.at
    requires DistinctNames(CopyTargets(d, sources))
    ensures Migrated(olds, news, d, row, NewRow(planned, CopyTargets(d, sources), sources, Project(row, sources)))
  {
    hide ByName;
    var targets := CopyTargets(d, sources);
    var row' := NewRow(planned, targets, sources, Project(row, sources));
    forall k, o | k in news && ComesFrom(olds, d, k, o)
      ensures row'[k] == row[o]
    {
      var i :| 0 <= i < |sources| && sources[i] == o;
      assert targets[i] == k;
      assert IndexOf(targets, k) == i;
    }
    forall k | k in targets
      ensures exists o :: ComesFrom(olds, d, k, o)
    {
      var i := IndexOf(targets, k);
      assert sources[i] in sources;
      assert ComesFrom(olds, d, k, sources[i]);
    }
  }

  /**
    * A dropped column that the rebuild pairs with an added one of its definition hands over its
    * place, but not its data: the new column holds its default in every row.
    */
  lemma ImplicitRenameLosesData(olds: map<string, Column>, news: map<string, Column>, equal: (Column, Column) -> bool,
                                d: Changes, implicit: map<string, Column>, same: (Column, Column) -> bool,
                                row: Row, row': Row, k: string)
    requires Accounts(olds, news, equal, d) && PairsUp(d, implicit, same) && k in implicit
    requires olds.Keys <= row.Keys && Migrated(olds, news, d, row, row')
    ensures Replacement(news, d, implicit, k) == Some(implicit[k])
    ensures implicit[k].name in row' && row'[implicit[k].name] == implicit[k].initial
  {
    var name := implicit[k].name;
    assert name in news && news[name] == implicit[k];
    forall o | o in olds && o !in d.dropped.at
      ensures !ComesFrom(olds, d, name, o)
    {
      TargetIsNotAdded(olds, news, equal, d, o);
    }
    assert ExactlyOne(k in d.dropped.at, k in d.changed.at, Unchanged(olds, news, equal, k));
  }

  // ---------------------------------------------------------------------------------------
  // Running the statements
  // ---------------------------------------------------------------------------------------

  /** The database has the old table, and no table is in the way of the statements. */
  ghost predicate ReadyFor(db: Db, diff: TableDiff) {
    var oldName, newName := diff.oldTable.name, diff.newTable.name;
    && db.Valid()
    && oldName in db.main && db.main[oldName].columns == diff.oldTable.columns
    && (newName == oldName || newName !in db.main)
    && newName != TemporaryName(oldName)
    && oldName !in db.temp && newName !in db.temp && TemporaryName(oldName) !in db.temp
  }

  /** The new table took the place of the old one; no other table and no temporary one changed. */
  ghost predicate Replaced(db: Db, diff: TableDiff, db': Db, r: Relation) {
    db' == Db((db.main - {diff.oldTable.name})[diff.newTable.name := r], db.temp)
  }

  lemma TemporaryNameDiffers(name: string)
    ensures TemporaryName(name) != name
  {
    assert |TemporaryName(name)| == 8 + |name|;
  }

  /** Without a column to copy, the rows are gone. */
  lemma RunWithoutCopies(db: Db, diff: TableDiff, planned: seq<Column>)
    requires ReadyFor(db, diff) && planned != [] && IsTable(planned)
    ensures var r := Run(db, [DropTable(diff.oldTable.name), CreateTable(diff.newTable.name, planned)]);
            r.Some? && Replaced(db, diff, r.value, Relation(planned, []))
  {
    var drop, create := DropTable(diff.oldTable.name), CreateTable(diff.newTable.name, planned);
    var db1 := Exec(db, drop).value;
    assert [drop, create][1..] == [create];
    assert Run(db1, [create]) == Run(Exec(db1, create).value, []);
  }

  lemma SelectedHas(columns: seq<Column>, names: seq<string>)
    requires AllIn(names, columns)
    ensures AllIn(names, Selected(columns, names))
  {
    var selected := Selected(columns, names);
    forall k | k in names
      ensures k in ByName(selected)
    {
      var i :| 0 <= i < |names| && names[i] == k;
      assert selected[i].name == k;
    }
  }

  /** CREATE TEMPORARY TABLE ... AS SELECT. */
  lemma ExecTemporary(db: Db, from: string, temporary: string, names: seq<string>)
    requires from in db.main && from !in db.temp && temporary !in db.temp
    requires names != [] && DistinctNames(names) && AllIn(names, db.main[from].columns)
    ensures var source := db.main[from];
            var copy := Relation(Selected(source.columns, names), Projected(source.rows, names));
            && Exec(db, CreateTemporaryAs(temporary, names, from)) == Some(db.(temp := db.temp[temporary := copy]))
            && AllIn(names, Selected(source.columns, names))
  {
    SelectedHas(db.main[from].columns, names);
    hide ByName, Selected, Projected, AllIn;
  }

  /** INSERT INTO ... SELECT from the temporary table into an empty one. */
  lemma ExecInsert(db: Db, into: string, planned: seq<Column>, targets: seq<string>, sources: seq<string>,
                   temporary: string)
    requires into in db.main && into !in db.temp && db.main[into] == Relation(planned, [])
    requires temporary in db.temp && AllIn(sources, db.temp[temporary].columns)
    requires |targets| == |sources| && DistinctNames(targets) && AllIn(targets, planned)
    ensures Exec(db, InsertSelect(into, targets, sources, temporary))
         == Some(db.(main := db.main[into := Relation(planned,
                                                      NewRows(db.temp[temporary].rows, planned, targets, sources))]))
  {
    hide ByName, AllIn, NewRows;
    var rows := NewRows(db.temp[temporary].rows, planned, targets, sources);
    assert [] + rows == rows;
  }

  lemma RunOne(db: Db, s: Statement, rest: seq<Statement>, next: Db)
    requires Exec(db, s) == Some(next)
    ensures Run(db, [s] + rest) == Run(next, rest)
  {
    hide Exec;
    assert ([s] + rest)[1..] == rest;
  }

  lemma RunFive(db: Db, db0: Db, db1: Db, db2: Db, db3: Db, db4: Db,
                s0: Statement, s1: Statement, s2: Statement, s3: Statement, s4: Statement)
    requires Exec(db, s0) == Some(db0) && Exec(db0, s1) == Some(db1) && Exec(db1, s2) == Some(db2)
    requires Exec(db2, s3) == Some(db3) && Exec(db3, s4) == Some(db4)
    ensures Run(db, [s0, s1, s2, s3, s4]) == Some(db4)
  {
    hide Exec;
    RunOne(db, s0, [s1, s2, s3, s4], db0);
    RunOne(db0, s1, [s2, s3, s4], db1);
    RunOne(db1, s2, [s3, s4], db2);
    RunOne(db2, s3, [s4], db3);
    RunOne(db3, s4, [], db4);
    hide Run;
    assert [s0] + [s1, s2, s3, s4] == [s0, s1, s2, s3, s4] && [s1] + [s2, s3, s4] == [s1, s2, s3, s4];
    assert [s2] + [s3, s4] == [s2, s3, s4] && [s3] + [s4] == [s3, s4] && [s4] + [] == [s4];
    assert Run(db4, []) == Some(db4) by { RunNone(db4); }
  }

  lemma RunNone(db: Db)
    ensures Run(db, []) == Some(db)
  {
  }

  lemma RunCopies(db: Db, diff: TableDiff, planned: seq<Column>, sources: seq<string>, targets: seq<string>)
    requires ReadyFor(db, diff) && planned != [] && IsTable(planned)
    requires sources != [] && DistinctNames(sources) && AllIn(sources, diff.oldTable.columns)
    requires |targets| == |sources| && DistinctNames(targets) && AllIn(targets, planned)
    ensures var oldName, newName, temporary := diff.oldTable.name, diff.newTable.name,
            TemporaryName(diff.oldTable.name);
            var r := Run(db, [CreateTemporaryAs(temporary, sources, oldName), DropTable(oldName),
                              CreateTable(newName, planned),
                              InsertSelect(newName, targets, sources, temporary), DropTable(temporary)]);
            r.Some? && Replaced(db, diff, r.value,
                                Relation(planned,
                                         NewRows(Projected(db.main[oldName].rows, sources), planned, targets, sources)))
  {
    hide Projected, NewRows, Selected, ByName, Relation.Valid, AllIn, Run, TemporaryName, DistinctNames;
    var oldName, newName, temporary := diff.oldTable.name, diff.newTable.name, TemporaryName(diff.oldTable.name);
    TemporaryNameDiffers(oldName);
    var rows := db.main[oldName].rows;
    var projected := Projected(rows, sources);
    var copied := NewRows(projected, planned, targets, sources);
    ExecTemporary(db, oldName, temporary, sources);
    var db0 := db.(temp := db.temp[temporary := Relation(Selected(db.main[oldName].columns, sources), projected)]);
    var db1 := db0.(main := db.main - {oldName});
    ExecDrop(db0, oldName);
    var db2 := db1.(main := db1.main[newName := Relation(planned, [])]);
    ExecCreate(db1, newName, planned);
    var db3 := db2.(main := db2.main[newName := Relation(planned, copied)]);
    ExecInsert(db2, newName, planned, targets, sources, temporary);
    var db4 := db3.(temp := db.temp);
    assert db3.temp - {temporary} == db.temp;
    ExecDrop(db3, temporary);
    hide Exec;
    RunFive(db, db0, db1, db2, db3, db4, CreateTemporaryAs(temporary, sources, oldName), DropTable(oldName),
            CreateTable(newName, planned), InsertSelect(newName, targets, sources, temporary), DropTable(temporary));
  }

  lemma ExecDrop(db: Db, table: string)
    requires db.Has(table)
    ensures Exec(db, DropTable(table))
         == Some(if table in db.temp then db.(temp := db.temp - {table}) else db.(main := db.main - {table}))
  {
  }

  lemma ExecCreate(db: Db, name: string, columns: seq<Column>)
    requires name !in db.main && columns != [] && IsTable(columns)
    ensures Exec(db, CreateTable(name, columns)) == Some(db.(main := db.main[name := Relation(columns, [])]))
  {
  }

  // ---------------------------------------------------------------------------------------
  // The rebuild keeps the data
  // ---------------------------------------------------------------------------------------

  /** The statements left the new table, with these columns and every row of the old one migrated. */
  ghost predicate KeepsData(db: Db, diff: TableDiff, db': Option<Db>, columns: seq<Column>)
    requires ReadyFor(db, diff)
  {
    && db'.Some? && diff.newTable.name in db'.value.main
    && var r, r' := db.main[diff.oldTable.name], db'.value.main[diff.newTable.name];
       && Replaced(db, diff, db'.value, r') && r'.columns == columns && |r'.rows| == |r.rows|
       && forall i | 0 <= i < |r.rows| ::
            assert r.rows[i] in r.rows;
            Migrated(ByName(diff.oldTable.columns), ByName(diff.newTable.columns), diff.columns, r.rows[i], r'.rows[i])
  }

  ghost predicate KeepsAColumn(diff: TableDiff) {
    exists c | c in diff.oldTable.columns :: c.name !in diff.columns.dropped.at
  }

  lemma SourcesExist(diff: TableDiff)
    requires IsTable(diff.oldTable.columns)
    ensures KeepsAColumn(diff) <==> CopySources(diff.oldTable.columns, diff.columns) != []
  {
    var columns, d := diff.oldTable.columns, diff.columns;
    CopySourcesAre(columns, d);
    if KeepsAColumn(diff) {
      var c :| c in columns && c.name !in d.dropped.at;
      NamesOf(columns, c.name);
      assert c.name in CopySources(columns, d);
    }
    if CopySources(columns, d) != [] {
      var k := CopySources(columns, d)[0];
      assert k in CopySources(columns, d);
      assert ByName(columns)[k] in columns && ByName(columns)[k].name == k;
    }
  }

  lemma PlannedNotEmpty(planned: seq<Column>, newColumns: seq<Column>)
    requires ByName(planned) == ByName(newColumns) && newColumns != []
    ensures planned != []
  {
    assert newColumns[0].name in ByName(newColumns);
  }

  /**
    * Rebuilding the table yields exactly the new columns, once each and in the planned order, and
    * no temporary table is left. The rows are kept exactly when some column is.
    */
  lemma RebuildKeepsData(db: Db, diff: TableDiff, equal: (Column, Column) -> bool,
                         implicit: map<string, Column>, same: (Column, Column) -> bool)
    requires IsTable(diff.oldTable.columns) && IsTable(diff.newTable.columns) && diff.newTable.columns != []
    requires Accounts(ByName(diff.oldTable.columns), ByName(diff.newTable.columns), equal, diff.columns)
    requires PairsUp(diff.columns, implicit, same) && ReadyFor(db, diff)
    ensures var planned := Planned(diff.oldTable.columns, diff.newTable.columns, diff.columns, implicit);
            var r := Run(db, RebuildPlan(diff, implicit));
            && IsTable(planned) && ByName(planned) == ByName(diff.newTable.columns)
            && (KeepsData(db, diff, r, planned) <==> KeepsAColumn(diff) || db.main[diff.oldTable.name].rows == [])
            && (!KeepsAColumn(diff) ==> r.Some? && Replaced(db, diff, r.value, Relation(planned, [])))
  {
    hide Accounts, PairsUp, Planned, ByName, IsTable, Relation.Valid, Migrated, CopySources, Run, RebuildPlan,
         KeepsAColumn;
    var planned := Planned(diff.oldTable.columns, diff.newTable.columns, diff.columns, implicit);
    PlannedIsTheNewTable(diff.oldTable.columns, diff.newTable.columns, equal, diff.columns, implicit, same);
    PlannedNotEmpty(planned, diff.newTable.columns);
    SourcesExist(diff);
    if KeepsAColumn(diff) {
      RebuildCopies(db, diff, equal, implicit, planned);
    } else {
      RunWithoutCopies(db, diff, planned);
      NoCopiesPlan(diff, implicit);
    }
  }

  lemma NoCopiesPlan(diff: TableDiff, implicit: map<string, Column>)
    requires CopySources(diff.oldTable.columns, diff.columns) == []
    ensures var planned := Planned(diff.oldTable.columns, diff.newTable.columns, diff.columns, implicit);
            RebuildPlan(diff, implicit) == [DropTable(diff.oldTable.name), CreateTable(diff.newTable.name, planned)]
  {
  }

  lemma CopiesPlan(diff: TableDiff, implicit: map<string, Column>)
    requires CopySources(diff.oldTable.columns, diff.columns) != []
    ensures var planned := Planned(diff.oldTable.columns, diff.newTable.columns, diff.columns, implicit);
            var oldName, newName, temporary := diff.oldTable.name, diff.newTable.name,
                TemporaryName(diff.oldTable.name);
            var sources := CopySources(diff.oldTable.columns, diff.columns);
            RebuildPlan(diff, implicit)
            == [CreateTemporaryAs(temporary, sources, oldName), DropTable(oldName), CreateTable(newName, planned),
                InsertSelect(newName, CopyTargets(diff.columns, sources), sources, temporary), DropTable(temporary)]
  {
    hide Planned, CopySources, CopyTargets, TemporaryName;
  }

  lemma RowsAreMigrated(db: Db, diff: TableDiff, planned: seq<Column>, sources: seq<string>, i: nat)
    requires ReadyFor(db, diff) && i < |db.main[diff.oldTable.name].rows|
    requires ByName(planned) == ByName(diff.newTable.columns)
    requires forall k :: k in sources <==> k in ByName(diff.oldTable.columns) && k !in diff.columns.dropped.at
    requires DistinctNames(CopyTargets(diff.columns, sources))
    ensures var row := db.main[diff.oldTable.name].rows[i];
            var row' := NewRows(Projected(db.main[diff.oldTable.name].rows, sources), planned,
                                CopyTargets(diff.columns, sources), sources)[i];
            && ByName(diff.oldTable.columns).Keys <= row.Keys
            && Migrated(ByName(diff.oldTable.columns), ByName(diff.newTable.columns), diff.columns, row, row')
  {
    hide Migrated, CopyTargets, DistinctNames, ByName, IsTable, Project, NewRow;
    var rows := db.main[diff.oldTable.name].rows;
    assert rows[i] in rows;
    RowIsMigrated(ByName(diff.oldTable.columns), ByName(diff.newTable.columns), diff.columns, planned, sources,
                  rows[i]);
  }

  lemma RebuildCopies(db: Db, diff: TableDiff, equal: (Column, Column) -> bool, implicit: map<string, Column>,
                      planned: seq<Column>)
    requires IsTable(diff.oldTable.columns) && ReadyFor(db, diff)
    requires planned == Planned(diff.oldTable.columns, diff.newTable.columns, diff.columns, implicit)
    requires planned != [] && IsTable(planned) && ByName(planned) == ByName(diff.newTable.columns)
    requires Accounts(ByName(diff.oldTable.columns), ByName(diff.newTable.columns), equal, diff.columns)
    requires CopySources(diff.oldTable.columns, diff.columns) != []
    ensures KeepsData(db, diff, Run(db, RebuildPlan(diff, implicit)), planned)
  {
    hide Accounts, Planned, CopySources, CopyTargets, Run, RebuildPlan, ByName, IsTable, DistinctNames, Relation.Valid,
         Migrated, NewRows, Projected;
    var olds, news, d := ByName(diff.oldTable.columns), ByName(diff.newTable.columns), diff.columns;
    var sources := CopySources(diff.oldTable.columns, d);
    var targets := CopyTargets(d, sources);
    CopySourcesAre(diff.oldTable.columns, d);
    CopyTargetsAre(olds, news, equal, d, sources);
    RunCopies(db, diff, planned, sources, targets);
    CopiesPlan(diff, implicit);
    hide AllIn;
    forall i: nat | i < |db.main[diff.oldTable.name].rows|
      ensures var row := db.main[diff.oldTable.name].rows[i];
              var row' := NewRows(Projected(db.main[diff.oldTable.name].rows, sources), planned, targets, sources)[i];
              olds.Keys <= row.Keys && Migrated(olds, news, d, row, row')
    {
      RowsAreMigrated(db, diff, planned, sources, i);
    }
  }
}
