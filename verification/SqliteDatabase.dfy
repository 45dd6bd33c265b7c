/**
  * The part of SQLite that the statements of SQLitePlatform.getAlterTableSQL use
  * (src/platforms/sqlite-platform.ts): tables as column lists with rows, where a temporary table
  * hides a table of the same name. Statements that SQLite refuses give no database.
  */
module SqliteDatabase {
  import opened Text
  import opened OrderedMaps
  import opened Comparator

  type Row = map<string, string>

  datatype Relation = Relation(columns: seq<Column>, rows: seq<Row>) {

    ghost predicate Valid() {
      IsTable(columns) && forall r | r in rows :: r.Keys == ByName(columns).Keys
    }
  }

  datatype Db = Db(main: map<string, Relation>, temp: map<string, Relation>) {

    ghost predicate Valid() {
      && (forall t | t in main :: main[t].Valid())
      && (forall t | t in temp :: temp[t].Valid())
    }

    predicate Has(table: string) { table in main || table in temp }

    function Get(table: string): Relation
      requires Has(table)
    {
      if table in temp then temp[table] else main[table]
    }

    function Put(table: string, r: Relation): Db
      requires Has(table)
    {
      if table in temp then Db(main, temp[table := r]) else Db(main[table := r], temp)
    }
  }

  datatype Statement =
    | CreateTemporaryAs(name: string, names: seq<string>, from: string)
    | DropTable(table: string)
    | CreateTable(name: string, columns: seq<Column>)
    | InsertSelect(into: string, targets: seq<string>, sources: seq<string>, from: string)
    | AddColumn(table: string, column: Column)

  predicate DistinctNames(names: seq<string>) {
    forall i, j | 0 <= i < j < |names| :: names[i] != names[j]
  }

  predicate AllIn(names: seq<string>, columns: seq<Column>) {
    forall k | k in names :: k in ByName(columns)
  }

  function Project(row: Row, names: seq<string>): Row {
    map k | k in names && k in row :: row[k]
  }

  function Selected(columns: seq<Column>, names: seq<string>): (r: seq<Column>)
    requires AllIn(names, columns)
    ensures |r| == |names| && forall i | 0 <= i < |names| :: r[i].name == names[i]
  {
    assert forall i | 0 <= i < |names| :: names[i] in names;
    seq(|names|, i requires 0 <= i < |names| => ByName(columns)[names[i]])
  }

  /** The last position of the name. */
  function IndexOf(names: seq<string>, name: string): (i: nat)
    requires name in names
    ensures i < |names| && names[i] == name
  {
    if names[|names| - 1] == name then |names| - 1 else IndexOf(names[..|names| - 1], name)
  }

  /** A new row: the selected values under the target names, and what the other columns hold by default. */
  function NewRow(columns: seq<Column>, targets: seq<string>, sources: seq<string>, row: Row): Row
    requires |targets| == |sources|
  {
    map k | k in ByName(columns) ::
      if k in targets && sources[IndexOf(targets, k)] in row then row[sources[IndexOf(targets, k)]]
      else ByName(columns)[k].initial
  }

  function Projected(rows: seq<Row>, names: seq<string>): (r: seq<Row>)
    ensures |r| == |rows|
  {
    seq(|rows|, i requires 0 <= i < |rows| => Project(rows[i], names))
  }

  function NewRows(rows: seq<Row>, columns: seq<Column>, targets: seq<string>, sources: seq<string>): (r: seq<Row>)
    requires |targets| == |sources|
    ensures |r| == |rows|
  {
    seq(|rows|, i requires 0 <= i < |rows| => NewRow(columns, targets, sources, rows[i]))
  }

  function WithColumn(rows: seq<Row>, c: Column): (r: seq<Row>)
    ensures |r| == |rows| && forall i | 0 <= i < |rows| :: r[i] == rows[i][c.name := c.initial]
  {
    seq(|rows|, i requires 0 <= i < |rows| => rows[i][c.name := c.initial])
  }

  function Exec(db: Db, s: Statement): Option<Db> {
    match s
    case CreateTemporaryAs(name, names, from) =>
      if name in db.temp || !db.Has(from) || names == [] || !DistinctNames(names) || !AllIn(names, db.Get(from).columns)
      then None
      else
        var source := db.Get(from);
        Some(db.(temp := db.temp[name := Relation(Selected(source.columns, names), Projected(source.rows, names))]))
    case DropTable(table) =>
      if table in db.temp then Some(db.(temp := db.temp - {table}))
      else if table in db.main then Some(db.(main := db.main - {table}))
      else None
    case CreateTable(name, columns) =>
      if name in db.main || columns == [] || !IsTable(columns) then None
      else Some(db.(main := db.main[name := Relation(columns, [])]))
    case InsertSelect(into, targets, sources, from) =>
      if || !db.Has(into) || !db.Has(from) || |targets| != |sources| || !DistinctNames(targets)
         || !AllIn(targets, db.Get(into).columns) || !AllIn(sources, db.Get(from).columns)
      then None
      else
        var t := db.Get(into);
        Some(db.Put(into, t.(rows := t.rows + NewRows(db.Get(from).rows, t.columns, targets, sources))))
    case AddColumn(table, column) =>
      if !db.Has(table) || column.name in ByName(db.Get(table).columns) then None
      else
        var t := db.Get(table);
        Some(db.Put(table, Relation(t.columns + [column], WithColumn(t.rows, column))))
  }

  function Run(db: Db, statements: seq<Statement>): Option<Db>
    decreases |statements|
  {
    if statements == [] then Some(db)
    else
      var next := Exec(db, statements[0]);
      if next.None? then None else Run(next.value, statements[1..])
  }

  lemma {:induction false} RunAppend(db: Db, a: seq<Statement>, b: seq<Statement>)
    ensures Run(db, a + b) == if Run(db, a).None? then None else Run(Run(db, a).value, b)
    decreases |a|
  {
    if a == [] {
      assert a + b == b;
    } else {
      assert (a + b)[0] == a[0] && (a + b)[1..] == a[1..] + b;
      if Exec(db, a[0]).Some? {
        RunAppend(Exec(db, a[0]).value, a[1..], b);
      }
    }
  }
}
