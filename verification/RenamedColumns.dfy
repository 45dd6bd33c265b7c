/**
  * Table.renameColumn (src/schema/table.ts): the record of renamed columns and the cascades into
  * indexes, foreign keys and unique constraints. Names are asset keys.
  */
module RenamedColumns {

  datatype Outcome = Done | SameName | ColumnDoesNotExist | ColumnAlreadyExists

  /** Column lists of indexes, foreign keys or unique constraints, by storage key. */
  type Lists = map<string, seq<string>>

  function RenamedIn(names: seq<string>, oldName: string, newName: string): (r: seq<string>)
    ensures |r| == |names|
  {
    seq(|names|, i requires 0 <= i < |names| => if names[i] == oldName then newName else names[i])
  }

  function RenamedLists(lists: Lists, oldName: string, newName: string): Lists {
    map k | k in lists :: RenamedIn(lists[k], oldName, newName)
  }

  /** Each current column with the column of the fresh table that it is. */
  type Origins = map<string, string>

  ghost predicate IsBijection(origins: Origins, fresh': set<string>) {
    && origins.Values == fresh'
    && forall j, k | j in origins && k in origins && j != k :: origins[j] != origins[k]
  }

  /** The renames that a caller sees: what is no longer called as it was. */
  ghost function Moved(origins: Origins): map<string, string> {
    map k | k in origins && origins[k] != k :: origins[k]
  }

  /** The lists name the same columns as on the fresh table. */
  ghost predicate Follows(lists: Lists, freshLists: Lists, origins: Origins) {
    && lists.Keys == freshLists.Keys
    && forall k | k in lists ::
         && |lists[k]| == |freshLists[k]|
         && forall i | 0 <= i < |lists[k]| :: lists[k][i] in origins && origins[lists[k][i]] == freshLists[k][i]
  }

  ghost function AfterRename(origins: Origins, oldName: string, newName: string): Origins
    requires oldName in origins
  {
    (origins - {oldName})[newName := origins[oldName]]
  }

  lemma BijectionAfterRename(origins: Origins, fresh': set<string>, oldName: string, newName: string)
    requires IsBijection(origins, fresh') && oldName in origins && newName !in origins
    ensures IsBijection(AfterRename(origins, oldName, newName), fresh')
  {
    var after := AfterRename(origins, oldName, newName);
    forall x
      ensures x in after.Values <==> x in origins.Values
    {
      if x in origins.Values {
        var k :| k in origins && origins[k] == x;
        assert after[if k == oldName then newName else k] == x;
      }
      if x in after.Values {
        var k :| k in after && after[k] == x;
        assert origins[if k == newName then oldName else k] == x;
      }
    }
  }

  lemma FollowsAfterRename(lists: Lists, freshLists: Lists, origins: Origins, oldName: string, newName: string)
    requires Follows(lists, freshLists, origins) && oldName in origins && newName !in origins
    ensures Follows(RenamedLists(lists, oldName, newName), freshLists, AfterRename(origins, oldName, newName))
  {
  }

  /** The record after a rename: through chains, back to the first name, over a freed name. */
  lemma MovedAfterRename(origins: Origins, oldName: string, newName: string)
    requires oldName in origins && newName !in origins
    ensures var before, o := Moved(origins), origins[oldName];
            Moved(AfterRename(origins, oldName, newName))
            == if oldName !in before then before[newName := oldName]
               else if o != newName then (before - {oldName})[newName := o] else before - {oldName}
  {
  }

  /** The lists name columns of the table. */
  ghost predicate Within(lists: Lists, columns: set<string>) {
    forall k | k in lists :: forall i | 0 <= i < |lists[k]| :: lists[k][i] in columns
  }

  ghost function Itself(columns: set<string>): Origins { map k | k in columns :: k }

  lemma FreshTable(columns: set<string>, lists: Lists)
    ensures IsBijection(Itself(columns), columns) && Moved(Itself(columns)) == map[]
    ensures Within(lists, columns) ==> Follows(lists, lists, Itself(columns))
  {
    var o := Itself(columns);
    forall k | k in columns
      ensures o[k] == k && k in o.Values
    {
      assert k in o && o[k] == k;
    }
  }

  /** The columns are the fresh ones under their current names. */
  ghost predicate SameColumns(columns: map<string, string>, freshColumns: map<string, string>, origins: Origins) {
    && columns.Keys == origins.Keys
    && forall k | k in columns :: origins[k] in freshColumns && columns[k] == freshColumns[origins[k]]
  }

  lemma SameColumnsAfterRename(columns: map<string, string>, freshColumns: map<string, string>, origins: Origins,
                               oldName: string, newName: string)
    requires SameColumns(columns, freshColumns, origins) && oldName in columns && newName !in columns
    ensures SameColumns((columns - {oldName})[newName := columns[oldName]], freshColumns,
                        AfterRename(origins, oldName, newName))
  {
  }

  class Table {
    var columns: map<string, string>
    var indexes: Lists
    var foreignKeys: Lists
    var uniqueConstraints: Lists
    var renamedColumns: map<string, string>

    // The fresh table, and which of its columns each current one is.
    ghost const freshColumns: map<string, string>
    ghost const freshIndexes: Lists
    ghost const freshForeignKeys: Lists
    ghost const freshUniqueConstraints: Lists
    ghost var origins: Origins

    constructor (columns: map<string, string>, indexes: Lists, foreignKeys: Lists, uniqueConstraints: Lists)
      requires Within(indexes, columns.Keys) && Within(foreignKeys, columns.Keys)
               && Within(uniqueConstraints, columns.Keys)
      ensures Valid() && origins == Itself(columns.Keys) && renamedColumns == map[]
      ensures freshColumns == this.columns == columns && freshIndexes == this.indexes == indexes
      ensures freshForeignKeys == this.foreignKeys == foreignKeys
      ensures freshUniqueConstraints == this.uniqueConstraints == uniqueConstraints
    {
      this.columns, this.indexes, this.foreignKeys := columns, indexes, foreignKeys;
      this.uniqueConstraints, renamedColumns := uniqueConstraints, map[];
      freshColumns, freshIndexes, freshForeignKeys := columns, indexes, foreignKeys;
      freshUniqueConstraints, origins := uniqueConstraints, Itself(columns.Keys);
      FreshTable(columns.Keys, indexes);
      FreshTable(columns.Keys, foreignKeys);
      FreshTable(columns.Keys, uniqueConstraints);
    }

    /**
      * The current columns are the fresh ones under other names, the record of renames is exactly
      * where the names differ, and every list names the columns it named at first.
      */
    ghost predicate Valid()
      reads this
    {
      && IsBijection(origins, freshColumns.Keys)
      && SameColumns(columns, freshColumns, origins)
      && renamedColumns == Moved(origins)
      && Follows(indexes, freshIndexes, origins)
      && Follows(foreignKeys, freshForeignKeys, origins)
      && Follows(uniqueConstraints, freshUniqueConstraints, origins)
    }

    /** The cascade into one kind of lists. */
    method RenameColumnIn(lists: Lists, oldName: string, newName: string) returns (r: Lists)
      ensures r == RenamedLists(lists, oldName, newName)
    {
      r := lists;
      var todo := lists.Keys;
      while todo != {}
        invariant todo <= lists.Keys && r.Keys == lists.Keys
        invariant forall k | k in lists :: r[k] == if k in todo then lists[k] else RenamedIn(lists[k], oldName, newName)
        decreases |todo|
      {
        var key :| key in todo;
        todo := todo - {key};
        var names := RenamedIn(lists[key], oldName, newName);
        if forall i | 0 <= i < |names| :: names[i] == lists[key][i] {
          assert names == lists[key];
          continue;
        }
        r := r[key := names];
      }
    }

    /** What a successful rename has to produce. */
    lemma RenameKeeps(oldName: string, newName: string)
      requires Valid() && oldName in columns && newName !in columns
      ensures oldName in origins
      ensures var after := AfterRename(origins, oldName, newName);
              && IsBijection(after, freshColumns.Keys)
              && SameColumns((columns - {oldName})[newName := columns[oldName]], freshColumns, after)
              && Follows(RenamedLists(indexes, oldName, newName), freshIndexes, after)
              && Follows(RenamedLists(foreignKeys, oldName, newName), freshForeignKeys, after)
              && Follows(RenamedLists(uniqueConstraints, oldName, newName), freshUniqueConstraints, after)
              && Moved(after) ==
                 if oldName !in renamedColumns then renamedColumns[newName := oldName]
                 else if renamedColumns[oldName] != newName
                 then (renamedColumns - {oldName})[newName := renamedColumns[oldName]]
                 else renamedColumns - {oldName}
    {
      assert oldName in origins && newName !in origins;
      assert oldName in Moved(origins) ==> Moved(origins)[oldName] == origins[oldName];
      hide Follows, IsBijection, Moved, AfterRename, RenamedLists;
      SameColumnsAfterRename(columns, freshColumns, origins, oldName, newName);
      hide SameColumns;
      BijectionAfterRename(origins, freshColumns.Keys, oldName, newName);
      MovedAfterRename(origins, oldName, newName);
      FollowsAfterRename(indexes, freshIndexes, origins, oldName, newName);
      FollowsAfterRename(foreignKeys, freshForeignKeys, origins, oldName, newName);
      FollowsAfterRename(uniqueConstraints, freshUniqueConstraints, origins, oldName, newName);
    }

    method RenameColumn(oldName: string, newName: string) returns (r: Outcome)
      requires Valid()
      modifies this
      ensures oldName == newName ==> r == SameName && unchanged(this)
      ensures oldName != newName && oldName !in old(columns) ==> r == ColumnDoesNotExist && unchanged(this)
      ensures oldName != newName && oldName in old(columns) && newName in old(columns) ==>
                r == ColumnAlreadyExists && columns == old(columns) - {oldName} && renamedColumns == old(renamedColumns)
      ensures oldName != newName && oldName in old(columns) && newName !in old(columns) ==>
                r == Done && Valid() && origins == AfterRename(old(origins), oldName, newName)
    {
      hide Follows, IsBijection, Moved, AfterRename, RenamedLists;
      if oldName in columns && newName !in columns {
        assert oldName in origins && newName !in origins;
        RenameKeeps(oldName, newName);
      }
      hide SameColumns;
      if oldName == newName {
        return SameName;
      }
      if oldName !in columns {
        return ColumnDoesNotExist;
      }
      var column := columns[oldName];
      columns := columns - {oldName};
      if newName in columns {
        return ColumnAlreadyExists;
      }
      columns := columns[newName := column];
      indexes := RenameColumnIn(indexes, oldName, newName);
      foreignKeys := RenameColumnIn(foreignKeys, oldName, newName);
      uniqueConstraints := RenameColumnIn(uniqueConstraints, oldName, newName);
      if oldName in renamedColumns {
        var original := renamedColumns[oldName];
        renamedColumns := renamedColumns - {oldName};
        if original != newName {
          renamedColumns := renamedColumns[newName := original];
        }
      } else {
        renamedColumns := renamedColumns[newName := oldName];
      }
      origins := AfterRename(origins, oldName, newName);
      r := Done;
    }
  }

  // ---------------------------------------------------------------------------------------
  // Whole sequences of renames
  // ---------------------------------------------------------------------------------------

  /** Every rename of the sequence succeeds. */
  predicate AllSucceed(current: set<string>, renames: seq<(string, string)>)
    decreases |renames|
  {
    renames == []
    || (&& renames[0].0 in current && renames[0].1 !in current
        && AllSucceed(current - {renames[0].0} + {renames[0].1}, renames[1..]))
  }

  /** Where a name of the fresh table has gone after the renames, one after the other. */
  function Traced(name: string, renames: seq<(string, string)>): string
    decreases |renames|
  {
    if renames == [] then name
    else Traced(if name == renames[0].0 then renames[0].1 else name, renames[1..])
  }

  ghost function AfterRenames(origins: Origins, renames: seq<(string, string)>): Origins
    requires AllSucceed(origins.Keys, renames)
    decreases |renames|
  {
    if renames == [] then origins
    else
      var next := AfterRename(origins, renames[0].0, renames[0].1);
      assert next.Keys == origins.Keys - {renames[0].0} + {renames[0].1};
      AfterRenames(next, renames[1..])
  }

  /** Following one column through the renames finds it under its current name. */
  lemma {:induction false} EveryColumnIsTraced(origins: Origins, renames: seq<(string, string)>, k: string)
    requires AllSucceed(origins.Keys, renames) && k in origins
    ensures Traced(k, renames) in AfterRenames(origins, renames)
    ensures AfterRenames(origins, renames)[Traced(k, renames)] == origins[k]
    decreases |renames|
  {
    if renames != [] {
      var next := AfterRename(origins, renames[0].0, renames[0].1);
      assert next.Keys == origins.Keys - {renames[0].0} + {renames[0].1};
      EveryColumnIsTraced(next, renames[1..], if k == renames[0].0 then renames[0].1 else k);
    }
  }

  /** The columns under the names the renames give them, one after the other. */
  lemma OriginsAreTraced(origins: Origins, renames: seq<(string, string)>)
    requires AllSucceed(origins.Keys, renames)
    ensures forall k | k in origins ::
              && Traced(k, renames) in AfterRenames(origins, renames)
              && AfterRenames(origins, renames)[Traced(k, renames)] == origins[k]
  {
    forall k | k in origins
      ensures Traced(k, renames) in AfterRenames(origins, renames)
      ensures AfterRenames(origins, renames)[Traced(k, renames)] == origins[k]
    {
      EveryColumnIsTraced(origins, renames, k);
    }
  }

  lemma {:induction false} StillABijection(origins: Origins, fresh': set<string>, renames: seq<(string, string)>)
    requires AllSucceed(origins.Keys, renames) && IsBijection(origins, fresh')
    ensures IsBijection(AfterRenames(origins, renames), fresh')
    decreases |renames|
  {
    if renames != [] {
      var next := AfterRename(origins, renames[0].0, renames[0].1);
      assert next.Keys == origins.Keys - {renames[0].0} + {renames[0].1};
      BijectionAfterRename(origins, fresh', renames[0].0, renames[0].1);
      StillABijection(next, fresh', renames[1..]);
    }
  }

  /**
    * The record of a fresh table after any successful renames: exactly the columns that ended
    * under another name, whatever names they had in between.
    */
  lemma RecordIsExact(columns: set<string>, renames: seq<(string, string)>)
    requires AllSucceed(columns, renames)
    ensures Itself(columns).Keys == columns
    ensures var record := Moved(AfterRenames(Itself(columns), renames));
            && (forall c | c in columns && Traced(c, renames) != c ::
                  Traced(c, renames) in record && record[Traced(c, renames)] == c)
            && (forall k | k in record :: record[k] in columns && record[k] != k && Traced(record[k], renames) == k)
  {
    var start := Itself(columns);
    assert start.Keys == columns;
    FreshTable(columns, map[]);
    StillABijection(start, columns, renames);
    OriginsAreTraced(start, renames);
    var after := AfterRenames(start, renames);
    forall k | k in Moved(after)
      ensures after[k] in columns && Traced(after[k], renames) == k
    {
      assert after[k] in after.Values;
    }
  }

  method RenameColumns(table: Table, renames: seq<(string, string)>)
    requires table.Valid() && AllSucceed(table.origins.Keys, renames)
    modifies table
    ensures table.Valid() && table.origins == AfterRenames(old(table.origins), renames)
    decreases |renames|
  {
    if renames == [] {
      return;
    }
    hide IsBijection, Follows, Moved;
    assert AfterRename(table.origins, renames[0].0, renames[0].1).Keys
        == table.origins.Keys - {renames[0].0} + {renames[0].1};
    hide AfterRename;
    var r := table.RenameColumn(renames[0].0, renames[0].1);
    RenameColumns(table, renames[1..]);
  }
}
