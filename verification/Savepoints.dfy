/**
  * Nested transactions by savepoints (src/connection.ts): the machine that Connection runs
  * against a database, and why it means nested transactions.
  */
module Savepoints {
  import opened Text

  type Data = map<string, string>

  datatype Save = Save(name: string, data: Data)

  datatype Transaction = Transaction(start: Data, saves: seq<Save>)

  /** How a database treats a savepoint name that is already there, and one it rolled back to. */
  datatype Dialect = Dialect(replacesDuplicate: bool, dropsOnRollback: bool)

  /** The statements that executeStatement sends. */
  datatype Command =
    | CreateSavepoint(name: string) | ReleaseSavepoint(name: string) | RollbackSavepoint(name: string)
    | ChangeData(after: Data)

  /** One session of a database; every statement may be refused. */
  datatype Db = Db(data: Data, tx: Option<Transaction>) {

    function Begin(): Option<Db> {
      if tx.Some? then None else Some(Db(data, Some(Transaction(data, []))))
    }

    function Commit(): Option<Db> {
      if tx.None? then None else Some(Db(data, None))
    }

    function RollBack(): Option<Db> {
      if tx.None? then None else Some(Db(tx.value.start, None))
    }

    function Savepoint(name: string, dialect: Dialect): Option<Db> {
      if tx.None? then None
      else
        var kept := if dialect.replacesDuplicate then Without(tx.value.saves, name) else tx.value.saves;
        Some(Db(data, Some(tx.value.(saves := kept + [Save(name, data)]))))
    }

    /** Back to the last savepoint of that name. */
    function RollBackTo(name: string, dialect: Dialect): Option<Db> {
      if tx.None? || FindLast(tx.value.saves, name).None? then None
      else
        var i := FindLast(tx.value.saves, name).value;
        var saves := tx.value.saves[..if dialect.dropsOnRollback then i else i + 1];
        Some(Db(tx.value.saves[i].data, Some(tx.value.(saves := saves))))
    }

    function Release(name: string): Option<Db> {
      if tx.None? || FindLast(tx.value.saves, name).None? then None
      else Some(Db(data, Some(tx.value.(saves := tx.value.saves[..FindLast(tx.value.saves, name).value]))))
    }

    function Write(d: Data): Db { Db(d, tx) }

    function Execute(c: Command, dialect: Dialect): (r: Option<Db>)
      ensures r.Some? ==> (r.value.tx.Some? <==> tx.Some?)
    {
      match c
      case CreateSavepoint(name) => Savepoint(name, dialect)
      case ReleaseSavepoint(name) => Release(name)
      case RollbackSavepoint(name) => RollBackTo(name, dialect)
      case ChangeData(d) => Some(Write(d))
    }
  }

  function Without(saves: seq<Save>, name: string): seq<Save> {
    if saves == [] then []
    else Without(saves[..|saves| - 1], name)
         + if saves[|saves| - 1].name == name then [] else [saves[|saves| - 1]]
  }

  /** The position of the last savepoint of that name. */
  function FindLast(saves: seq<Save>, name: string): (r: Option<nat>)
    ensures r.Some? ==> r.value < |saves| && saves[r.value].name == name
    ensures forall i | (if r.Some? then r.value + 1 else 0) <= i < |saves| :: saves[i].name != name
  {
    if saves == [] then None
    else if saves[|saves| - 1].name == name then Some(|saves| - 1)
    else FindLast(saves[..|saves| - 1], name)
  }

  datatype Platform = Platform(supportsSavepoints: bool, supportsReleaseSavepoints: bool, dialect: Dialect)

  /** getNestedTransactionSavePointName */
  function SavepointName(level: nat): string { "DATAZEN_" + Decimal(level) }

  lemma SavepointNameInjective(j: nat, k: nat)
    requires SavepointName(j) == SavepointName(k)
    ensures j == k
  {
    assert SavepointName(j)[8..] == Decimal(j) && SavepointName(k)[8..] == Decimal(k);
    DecimalInjective(j, k);
  }

  // ---------------------------------------------------------------------------------------
  // What Connection does when the database refuses nothing
  // ---------------------------------------------------------------------------------------

  datatype Op =
    | Begin | Commit | RollBack | Write(after: Data)
    | SetRollbackOnly | SetAutoCommit(flag: bool) | Connect

  datatype Machine = Machine(autoCommit: bool, rollbackOnly: bool, connected: bool, level: nat, db: Db) {

    /** beginTransaction once connected; below the first level the platform must have savepoints. */
    function Begun(p: Platform): Option<Machine> {
      var db' := if level == 0 then db.Begin()
                 else if p.supportsSavepoints then db.Savepoint(SavepointName(level + 1), p.dialect)
                 else None;
      if db'.None? then None else Some(this.(level := level + 1, db := db'.value))
    }

    /** connect: without auto-commit a new connection starts a transaction. */
    function Connected(p: Platform): Option<Machine> {
      if connected then Some(this)
      else if autoCommit then Some(this.(connected := true))
      else this.(connected := true).Begun(p)
    }

    /** executeStatement: connect comes first. */
    function Execute(c: Command, p: Platform): Option<Machine> {
      var m := Connected(p);
      if m.None? then None
      else
        var db' := m.value.db.Execute(c, p.dialect);
        if db'.None? then None else Some(m.value.(db := db'.value))
    }

    function Begin(p: Platform): Option<Machine> {
      var m := Connected(p);
      if m.None? then None else m.value.Begun(p)
    }

    /** The statement of a commit: COMMIT at level one, a release below. */
    function LevelEnded(p: Platform): Option<Db> {
      if level == 1 then db.Commit()
      else if !p.supportsSavepoints then None
      else if p.supportsReleaseSavepoints then db.Release(SavepointName(level))
      else Some(db)
    }

    function Commit(p: Platform): Option<Machine> {
      if level == 0 || rollbackOnly then Some(this)
      else
        var db' := LevelEnded(p);
        if db'.None? then None
        else
          var m := this.(level := level - 1, db := db'.value);
          if autoCommit || level != 1 then Some(m) else m.(rollbackOnly := false).Begun(p)
    }

    function RollBack(p: Platform): Option<Machine> {
      if level == 0 then Some(this)
      else
        var db' := if level == 1 then db.RollBack()
                   else if p.supportsSavepoints then db.RollBackTo(SavepointName(level), p.dialect)
                   else None;
        if db'.None? then None
        else if level > 1 then Some(this.(level := level - 1, db := db'.value))
        else
          var m := this.(level := 0, rollbackOnly := false, db := db'.value);
          if autoCommit then Some(m) else m.Begun(p)
    }

    /** releaseSavepoint, which has nothing to send where the platform releases by itself. */
    function Released(name: string, p: Platform): Option<Machine> {
      if p.supportsReleaseSavepoints then Execute(ReleaseSavepoint(name), p) else Connected(p)
    }

    /** commitAll: commits every level, down to a fresh transaction when auto-commit is off. */
    function CommitAll(p: Platform): Option<Machine>
      decreases level
    {
      if level == 0 || rollbackOnly then Some(this)
      else if level == 1 then Commit(p)
      else
        var m := Commit(p);
        if m.None? then None else m.value.CommitAll(p)
    }

    function Step(op: Op, p: Platform): Option<Machine> {
      match op
      case Begin => Begin(p)
      case Commit => Commit(p)
      case RollBack => RollBack(p)
      case Write(d) => Execute(ChangeData(d), p)
      case SetRollbackOnly => Some(if level == 0 then this else this.(rollbackOnly := true))
      case SetAutoCommit(flag) =>
        if flag == autoCommit then Some(this)
        else if !connected || level == 0 then Some(this.(autoCommit := flag))
        else this.(autoCommit := flag).CommitAll(p)
      case Connect => Connected(p)
    }

    function Run(ops: seq<Op>, p: Platform): Option<Machine>
      decreases |ops|
    {
      if ops == [] then Some(this)
      else var m := Step(ops[0], p); if m.None? then None else m.value.Run(ops[1..], p)
    }
  }

  // ---------------------------------------------------------------------------------------
  // Nested transactions proper: a stack of snapshots
  // ---------------------------------------------------------------------------------------

  datatype Nested = Nested(autoCommit: bool, rollbackOnly: bool, connected: bool, stack: seq<Data>, data: Data) {

    function Pushed(): Nested { this.(stack := stack + [data]) }

    function Connected(): Nested {
      if connected then this
      else if autoCommit then this.(connected := true)
      else this.(connected := true).Pushed()
    }

    function Commit(): Nested {
      if stack == [] || rollbackOnly then this
      else
        var n := this.(stack := stack[..|stack| - 1]);
        if autoCommit || |stack| != 1 then n else n.(rollbackOnly := false).Pushed()
    }

    function RollBack(): Nested {
      if stack == [] then this
      else
        var n := this.(stack := stack[..|stack| - 1], data := stack[|stack| - 1]);
        if |stack| > 1 then n
        else if autoCommit then n.(rollbackOnly := false)
        else n.(rollbackOnly := false).Pushed()
    }

    /** All levels committed at once. */
    function CommitAll(): Nested {
      if stack == [] || rollbackOnly then this
      else if autoCommit then this.(stack := [])
      else this.(stack := [data])
    }

    function Step(op: Op): Nested {
      match op
      case Begin => Connected().Pushed()
      case Commit => Commit()
      case RollBack => RollBack()
      case Write(d) => Connected().(data := d)
      case SetRollbackOnly => if stack == [] then this else this.(rollbackOnly := true)
      case SetAutoCommit(flag) =>
        if flag == autoCommit then this
        else if !connected then this.(autoCommit := flag)
        else this.(autoCommit := flag).CommitAll()
      case Connect => Connected()
    }

    function Run(ops: seq<Op>): Nested
      decreases |ops|
    {
      if ops == [] then this else Step(ops[0]).Run(ops[1..])
    }
  }

  // ---------------------------------------------------------------------------------------
  // The invariant: the live savepoints, last to first
  // ---------------------------------------------------------------------------------------

  /** No savepoint of the levels 2 to k. */
  ghost predicate NoneOf(saves: seq<Save>, k: nat) {
    forall i, j: nat | 0 <= i < |saves| && 2 <= j <= k :: saves[i].name != SavepointName(j)
  }

  /**
    * The savepoints of the levels 2 to k are on the stack in order, each the last of its name,
    * whatever stale names lie between, below or above them.
    */
  ghost predicate Live(saves: seq<Save>, k: nat, stack: seq<Data>)
    requires k <= |stack|
    decreases k
  {
    k < 2
    || exists i {:trigger saves[..i]} | 0 <= i < |saves| ::
         && saves[i] == Save(SavepointName(k), stack[k - 1])
         && NoneOf(saves[i + 1..], k)
         && Live(saves[..i], k - 1, stack)
  }

  ghost predicate Simulates(m: Machine, n: Nested) {
    && m.autoCommit == n.autoCommit && m.rollbackOnly == n.rollbackOnly && m.connected == n.connected
    && m.level == |n.stack| && m.db.data == n.data
    && (m.level > 0 ==> m.connected)
    && (m.level == 0 <==> m.db.tx.None?)
    && (m.level > 0 ==> m.db.tx.value.start == n.stack[0] && Live(m.db.tx.value.saves, m.level, n.stack))
  }

  lemma LiveAppend(saves: seq<Save>, e: Save, k: nat, stack: seq<Data>)
    requires k <= |stack| && Live(saves, k, stack) && NoneOf([e], k)
    ensures Live(saves + [e], k, stack)
  {
    if k >= 2 {
      var i :| 0 <= i < |saves| && saves[i] == Save(SavepointName(k), stack[k - 1])
               && NoneOf(saves[i + 1..], k) && Live(saves[..i], k - 1, stack);
      var all := saves + [e];
      assert all[..i] == saves[..i] && all[i + 1..] == saves[i + 1..] + [e];
      assert [e][0] == e;
      assert NoneOf(all[i + 1..], k);
    }
  }

  lemma {:induction false} LiveAppendAll(saves: seq<Save>, es: seq<Save>, k: nat, stack: seq<Data>)
    requires k <= |stack| && Live(saves, k, stack) && NoneOf(es, k)
    ensures Live(saves + es, k, stack)
    decreases |es|
  {
    if es == [] {
      assert saves + es == saves;
    } else {
      assert NoneOf([es[0]], k) && NoneOf(es[1..], k);
      LiveAppend(saves, es[0], k, stack);
      LiveAppendAll(saves + [es[0]], es[1..], k, stack);
      assert saves + [es[0]] + es[1..] == saves + es;
    }
  }

  lemma OtherNames(k: nat)
    ensures forall j: nat | j < k :: SavepointName(j) != SavepointName(k)
  {
    hide SavepointName;
    forall j: nat | j < k
      ensures SavepointName(j) != SavepointName(k)
    {
      if SavepointName(j) == SavepointName(k) {
        SavepointNameInjective(j, k);
      }
    }
  }

  lemma FindLastAt(saves: seq<Save>, i: nat, k: nat)
    requires 2 <= k && i < |saves| && saves[i].name == SavepointName(k) && NoneOf(saves[i + 1..], k)
    ensures FindLast(saves, SavepointName(k)) == Some(i)
  {
    hide SavepointName;
    assert forall j | i < j < |saves| :: saves[j] == saves[i + 1..][j - i - 1];
  }

  lemma OtherIsNone(e: Save, k: nat)
    requires 2 <= k && e.name == SavepointName(k)
    ensures NoneOf([e], k - 1)
  {
    hide SavepointName;
    OtherNames(k);
  }

  lemma LiveIndex(saves: seq<Save>, k: nat, stack: seq<Data>) returns (i: nat)
    requires 2 <= k <= |stack| && Live(saves, k, stack)
    ensures i < |saves| && saves[i] == Save(SavepointName(k), stack[k - 1])
    ensures NoneOf(saves[i + 1..], k) && NoneOf(saves[i + 1..], k - 1) && Live(saves[..i], k - 1, stack)
  {
    hide SavepointName;
    i :| i < |saves| && saves[i] == Save(SavepointName(k), stack[k - 1])
         && NoneOf(saves[i + 1..], k) && Live(saves[..i], k - 1, stack);
  }

  /** The last savepoint of the innermost level, and what lies below it. */
  lemma LiveTop(saves: seq<Save>, k: nat, stack: seq<Data>)
    requires 2 <= k <= |stack| && Live(saves, k, stack)
    ensures var r := FindLast(saves, SavepointName(k));
            && r.Some?
            && saves[r.value].data == stack[k - 1]
            && Live(saves[..r.value], k - 1, stack)
            && Live(saves[..r.value + 1], k - 1, stack)
            && Live(saves, k - 1, stack)
  {
    hide Live, SavepointName, FindLast, NoneOf;
    var i := LiveIndex(saves, k, stack);
    FindLastAt(saves, i, k);
    OtherNames(k);
    assert saves[..i + 1] == saves[..i] + [saves[i]];
    OtherIsNone(saves[i], k);
    LiveAppend(saves[..i], saves[i], k - 1, stack);
    assert saves == saves[..i + 1] + saves[i + 1..];
    LiveAppendAll(saves[..i + 1], saves[i + 1..], k - 1, stack);
  }

  lemma {:induction false} LiveStack(saves: seq<Save>, k: nat, stack: seq<Data>, stack': seq<Data>)
    requires k <= |stack| && k <= |stack'| && stack[..k] == stack'[..k] && Live(saves, k, stack)
    ensures Live(saves, k, stack')
    decreases k
  {
    if k >= 2 {
      var i :| 0 <= i < |saves| && saves[i] == Save(SavepointName(k), stack[k - 1])
               && NoneOf(saves[i + 1..], k) && Live(saves[..i], k - 1, stack);
      assert stack[..k][k - 1] == stack'[..k][k - 1];
      assert stack[..k - 1] == stack[..k][..k - 1] && stack'[..k - 1] == stack'[..k][..k - 1];
      LiveStack(saves[..i], k - 1, stack, stack');
    }
  }

  lemma {:induction false} WithoutAppend(a: seq<Save>, b: seq<Save>, name: string)
    ensures Without(a + b, name) == Without(a, name) + Without(b, name)
    decreases |b|
  {
    if b == [] {
      assert a + b == a;
    } else {
      var s := a + b;
      assert s[|s| - 1] == b[|b| - 1] && s[..|s| - 1] == a + b[..|b| - 1];
      WithoutAppend(a, b[..|b| - 1], name);
    }
  }

  lemma {:induction false} WithoutNoneOf(saves: seq<Save>, name: string, k: nat)
    requires NoneOf(saves, k)
    ensures NoneOf(Without(saves, name), k)
  {
    if saves != [] {
      var e := saves[|saves| - 1];
      assert forall i | 0 <= i < |saves| - 1 :: saves[..|saves| - 1][i] == saves[i];
      WithoutNoneOf(saves[..|saves| - 1], name, k);
      NoneOfAppend(Without(saves[..|saves| - 1], name), e, k);
    }
  }

  lemma NoneOfAppend(saves: seq<Save>, e: Save, k: nat)
    requires NoneOf(saves, k) && forall j: nat | 2 <= j <= k :: e.name != SavepointName(j)
    ensures NoneOf(saves + [e], k) && NoneOf(saves + [], k)
  {
    assert saves + [] == saves;
  }

  /** A database that forgets the old savepoint of a name outside the live ones forgets no live one. */
  lemma {:induction false} LiveWithout(saves: seq<Save>, name: string, k: nat, stack: seq<Data>)
    requires k <= |stack| && Live(saves, k, stack)
    requires forall j: nat | 2 <= j <= k :: SavepointName(j) != name
    ensures Live(Without(saves, name), k, stack)
    decreases k
  {
    if k >= 2 {
      var a, e, b := LiveSplit(saves, k, stack);
      WithoutAppend(a, [e] + b, name);
      WithoutAppend([e], b, name);
      WithoutOne(e, name);
      LiveWithout(a, name, k - 1, stack);
      WithoutNoneOf(b, name, k);
      LiveJoin(Without(a, name), e, Without(b, name), k, stack);
    }
  }

  lemma WithoutOne(e: Save, name: string)
    requires e.name != name
    ensures Without([e], name) == [e]
  {
    assert [e][..0] == [];
  }

  lemma LiveSplit(saves: seq<Save>, k: nat, stack: seq<Data>) returns (a: seq<Save>, e: Save, b: seq<Save>)
    requires 2 <= k <= |stack| && Live(saves, k, stack)
    ensures saves == a + ([e] + b) && e == Save(SavepointName(k), stack[k - 1])
    ensures NoneOf(b, k) && Live(a, k - 1, stack)
  {
    var i :| 0 <= i < |saves| && saves[i] == Save(SavepointName(k), stack[k - 1])
             && NoneOf(saves[i + 1..], k) && Live(saves[..i], k - 1, stack);
    a, e, b := saves[..i], saves[i], saves[i + 1..];
  }

  lemma LiveJoin(a: seq<Save>, e: Save, b: seq<Save>, k: nat, stack: seq<Data>)
    requires 2 <= k <= |stack| && e == Save(SavepointName(k), stack[k - 1])
    requires NoneOf(b, k) && Live(a, k - 1, stack)
    ensures Live(a + ([e] + b), k, stack)
  {
    var all := a + ([e] + b);
    assert all[..|a|] == a && all[|a|] == e && all[|a| + 1..] == b;
  }

  // ---------------------------------------------------------------------------------------
  // The machine simulates nested transactions; no statement is ever refused
  // ---------------------------------------------------------------------------------------

  /** m takes its step and still simulates n. */
  ghost predicate Matches(m: Option<Machine>, n: Nested) {
    m.Some? && Simulates(m.value, n)
  }

  /** Every level but the first needs savepoints. */
  predicate Allows(p: Platform, level: nat) { p.supportsSavepoints || level == 0 }

  lemma SimulatesPush(m: Machine, n: Nested, p: Platform)
    requires Simulates(m, n) && m.connected && Allows(p, m.level)
    ensures Matches(m.Begun(p), n.Pushed())
  {
    hide SavepointName, Without;
    var k := m.level + 1;
    var stack := n.stack + [n.data];
    assert stack[..m.level] == n.stack[..m.level];
    if m.level > 0 {
      var saves := m.db.tx.value.saves;
      LiveStack(saves, m.level, n.stack, stack);
      hide Live;
      var name := SavepointName(k);
      OtherNames(k);
      LiveWithout(saves, name, m.level, stack);
      var kept := if p.dialect.replacesDuplicate then Without(saves, name) else saves;
      LiveOnTop(kept, k, stack);
    }
  }

  lemma LiveOnTop(saves: seq<Save>, k: nat, stack: seq<Data>)
    requires 2 <= k <= |stack| && Live(saves, k - 1, stack)
    ensures Live(saves + [Save(SavepointName(k), stack[k - 1])], k, stack)
  {
    var all := saves + [Save(SavepointName(k), stack[k - 1])];
    assert all[..|saves|] == saves && all[|saves| + 1..] == [];
  }

  lemma SimulatesConnected(m: Machine, n: Nested, p: Platform)
    requires Simulates(m, n)
    ensures Matches(m.Connected(p), n.Connected())
  {
    if !m.connected && !m.autoCommit {
      SimulatesPush(m.(connected := true), n.(connected := true), p);
    }
  }

  /** The database transaction of level k, one level down. */
  lemma SimulatesPop(m: Machine, n: Nested, db: Db)
    requires Simulates(m, n) && m.level > 1 && db.tx.Some? && db.tx.value.start == n.stack[0]
    requires Live(db.tx.value.saves, m.level - 1, n.stack)
    ensures Simulates(m.(level := m.level - 1, db := db), n.(stack := n.stack[..m.level - 1], data := db.data))
  {
    LiveStack(db.tx.value.saves, m.level - 1, n.stack, n.stack[..m.level - 1]);
  }

  lemma SimulatesCommit(m: Machine, n: Nested, p: Platform)
    requires Simulates(m, n) && (m.level > 0 ==> Allows(p, m.level - 1))
    ensures Matches(m.Commit(p), n.Commit())
  {
    hide SavepointName, FindLast, Live;
    if m.level > 1 && !m.rollbackOnly {
      LiveTop(m.db.tx.value.saves, m.level, n.stack);
      var db' := if p.supportsReleaseSavepoints then m.db.Release(SavepointName(m.level)) else Some(m.db);
      SimulatesPop(m, n, db'.value);
    } else if m.level == 1 && !m.rollbackOnly && !m.autoCommit {
      var db' := m.db.Commit().value;
      SimulatesPush(m.(level := 0, db := db'), n.(stack := []), p);
    }
  }

  lemma SimulatesRollBack(m: Machine, n: Nested, p: Platform)
    requires Simulates(m, n) && (m.level > 0 ==> Allows(p, m.level - 1))
    ensures Matches(m.RollBack(p), n.RollBack())
  {
    hide SavepointName, FindLast, Live;
    if m.level > 1 {
      LiveTop(m.db.tx.value.saves, m.level, n.stack);
      SimulatesPop(m, n, m.db.RollBackTo(SavepointName(m.level), p.dialect).value);
    } else if m.level == 1 && !m.autoCommit {
      var db' := m.db.RollBack().value;
      SimulatesPush(m.(level := 0, rollbackOnly := false, db := db'),
                    n.(stack := [], data := n.stack[0], rollbackOnly := false), p);
    }
  }

  lemma {:induction false} SimulatesCommitAll(m: Machine, n: Nested, p: Platform)
    requires Simulates(m, n) && (m.level > 0 ==> Allows(p, m.level - 1))
    ensures Matches(m.CommitAll(p), n.CommitAll())
    decreases m.level
  {
    if m.level >= 1 && !m.rollbackOnly {
      SimulatesCommit(m, n, p);
      if m.level > 1 {
        SimulatesCommitAll(m.Commit(p).value, n.Commit(), p);
      }
    }
  }

  /** The next operation begins no transaction inside another one. */
  predicate StepIsFlat(n: Nested, op: Op) { op.Begin? ==> n.Connected().stack == [] }

  lemma SimulatesStep(m: Machine, n: Nested, op: Op, p: Platform)
    requires Simulates(m, n) && (p.supportsSavepoints || (m.level <= 1 && StepIsFlat(n, op)))
    ensures Matches(m.Step(op, p), n.Step(op))
    ensures !p.supportsSavepoints ==> |n.Step(op).stack| <= 1
  {
    match op
    case Begin =>
      SimulatesConnected(m, n, p);
      SimulatesPush(m.Connected(p).value, n.Connected(), p);
    case Commit => SimulatesCommit(m, n, p);
    case RollBack => SimulatesRollBack(m, n, p);
    case Write(_) => SimulatesConnected(m, n, p);
    case SetRollbackOnly =>
    case SetAutoCommit(flag) =>
      if flag != m.autoCommit && m.connected && m.level > 0 {
        SimulatesCommitAll(m.(autoCommit := flag), n.(autoCommit := flag), p);
      }
    case Connect => SimulatesConnected(m, n, p);
  }

  /** No operation of the run begins a transaction inside another one. */
  predicate IsFlat(n: Nested, ops: seq<Op>)
    decreases |ops|
  {
    ops == [] || (StepIsFlat(n, ops[0]) && IsFlat(n.Step(ops[0]), ops[1..]))
  }

  /** Without savepoints a nested begin is refused. */
  lemma NestedBeginIsRefused(m: Machine, n: Nested, p: Platform)
    requires Simulates(m, n) && m.level <= 1 && !p.supportsSavepoints && !StepIsFlat(n, Begin)
    ensures m.Step(Begin, p).None?
  {
    SimulatesConnected(m, n, p);
  }

  /**
    * Every run: no statement is refused and the machine stays a stack of snapshots, exactly when
    * the platform has savepoints or no transaction is begun inside another one.
    */
  lemma {:induction false} EveryRunIsNested(m: Machine, n: Nested, ops: seq<Op>, p: Platform)
    requires Simulates(m, n) && (p.supportsSavepoints || m.level <= 1)
    ensures if p.supportsSavepoints || IsFlat(n, ops) then Matches(m.Run(ops, p), n.Run(ops)) else m.Run(ops, p).None?
    decreases |ops|
  {
    if ops != [] {
      if p.supportsSavepoints || StepIsFlat(n, ops[0]) {
        SimulatesStep(m, n, ops[0], p);
        EveryRunIsNested(m.Step(ops[0], p).value, n.Step(ops[0]), ops[1..], p);
      } else {
        NestedBeginIsRefused(m, n, p);
      }
    }
  }

  // ---------------------------------------------------------------------------------------
  // What nesting means
  // ---------------------------------------------------------------------------------------

  /** The operations that stay inside the transactions opened since `base` levels were open. */
  predicate StaysInside(n: Nested, base: nat, ops: seq<Op>)
    decreases |ops|
  {
    ops == []
    || (&& (ops[0].Commit? || ops[0].RollBack? ==> |n.stack| > base)
        && (ops[0].SetAutoCommit? ==> ops[0].flag == n.autoCommit)
        && StaysInside(n.Step(ops[0]), base, ops[1..]))
  }

  lemma {:induction false} OuterLevelsStay(n: Nested, base: nat, ops: seq<Op>)
    requires 0 < base <= |n.stack| && n.connected && StaysInside(n, base, ops)
    ensures var r := n.Run(ops); |r.stack| >= base && r.stack[..base] == n.stack[..base] && r.autoCommit == n.autoCommit
    decreases |ops|
  {
    if ops != [] {
      var r := n.Step(ops[0]);
      assert r.stack[..base] == n.stack[..base];
      OuterLevelsStay(r, base, ops[1..]);
    }
  }

  /**
    * Rolling back a level restores the data of the matching begin and leaves the levels around
    * it as they were, on every platform: whether savepoints are released or not, whether a
    * duplicate name shadows or replaces the old one. The body may begin, commit, roll back and
    * write at will as long as it ends where it began.
    */
  lemma RollBackUndoesItsLevel(m: Machine, n: Nested, body: seq<Op>, p: Platform)
    requires Simulates(m, n) && m.connected
    requires p.supportsSavepoints || (n.stack == [] && IsFlat(n.Step(Begin), body))
    requires var inner := n.Step(Begin);
             StaysInside(inner, |inner.stack|, body) && |inner.Run(body).stack| == |inner.stack|
    ensures var inner := m.Step(Begin, p);
            inner.Some? && inner.value.level == m.level + 1
    ensures var last := m.Step(Begin, p).value.Run(body, p);
            && last.Some?
            && var back := last.value.Step(RollBack, p);
               && back.Some? && back.value.db.data == m.db.data
               && back.value.level == (if m.level == 0 && !m.autoCommit then 1 else m.level)
               && (m.level > 0 ==> Simulates(back.value, n.(rollbackOnly := back.value.rollbackOnly)))
  {
    var inner := n.Step(Begin);
    SimulatesStep(m, n, Begin, p);
    var mi := m.Step(Begin, p).value;
    EveryRunIsNested(mi, inner, body, p);
    OuterLevelsStay(inner, |inner.stack|, body);
    var last := inner.Run(body);
    assert last.stack[..|inner.stack|] == last.stack && inner.stack[..|inner.stack|] == inner.stack;
    SimulatesStep(mi.Run(body, p).value, last, RollBack, p);
    assert inner.stack[..|n.stack|] == n.stack;
    RunKeepsConnected(inner, body);
  }

  lemma {:induction false} RunKeepsConnected(n: Nested, ops: seq<Op>)
    requires n.connected
    ensures n.Run(ops).connected
    decreases |ops|
  {
    if ops != [] {
      RunKeepsConnected(n.Step(ops[0]), ops[1..]);
    }
  }

  /** Committing the outermost level makes its data the data of the database; a later rollback keeps it. */
  lemma OutermostCommitIsDurable(m: Machine, n: Nested, p: Platform)
    requires Simulates(m, n) && m.level == 1 && !m.rollbackOnly
    ensures var c := m.Step(Commit, p);
            && c.Some? && c.value.db.data == m.db.data
            && c.value.level == (if m.autoCommit then 0 else 1)
            && var back := c.value.Step(RollBack, p);
               back.Some? && back.value.db.data == m.db.data
  {
    SimulatesStep(m, n, Commit, p);
    SimulatesStep(m.Step(Commit, p).value, n.Step(Commit), RollBack, p);
  }
}
