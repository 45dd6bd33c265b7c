/**
  * Connection over the pg driver (src/connection.ts, src/driver/pg/connection.ts) when any
  * statement, any acquisition of a pooled client and any connection attempt may fail.
  *
  * Each public method is one sequential step. The server is part of the objects: `db` is the
  * database as the session sees it, and `clean` holds as long as nothing has failed. The pool is
  * the one of the connection parameters: successive driver connections take clients out of it.
  */
module Connections {
  import opened Text
  import opened Savepoints

  /** The base client or pool, or a client taken out of the pool. */
  datatype Handle = Base | Client(id: nat)

  datatype Statement = BeginSql | CommitSql | RollbackSql | CommandSql(command: Command)

  datatype Sent = Sent(handle: Handle, statement: Statement, ok: bool)

  /** What an observer of the statements knows about the transaction of the connection. */
  datatype Watch = Idle | Inside(handle: Handle) | Broken

  function Observe(w: Watch, s: Sent): Watch {
    match w
    case Broken => Broken
    case Idle => if s.statement == BeginSql && s.ok then Inside(s.handle) else Idle
    case Inside(h) =>
      if s.handle != h || s.statement == BeginSql then Broken
      else if s.statement == CommitSql || s.statement == RollbackSql then Idle
      else w
  }

  /** Broken: a transaction was begun inside a transaction, or ran on two clients. */
  function Watched(trace: seq<Sent>): Watch {
    if trace == [] then Idle else Observe(Watched(trace[..|trace| - 1]), trace[|trace| - 1])
  }

  lemma WatchedNext(trace: seq<Sent>, s: Sent)
    ensures Watched(trace + [s]) == Observe(Watched(trace), s)
  {
    assert (trace + [s])[..|trace|] == trace;
  }

  /** What Connection asks of a driver, and whether it succeeded. */
  datatype DriverCall = ToConnect | ToResolve | ToBegin | ToCommit | ToRollBack | ToExecute(command: Command) | ToClose

  datatype Answered = Answered(call: DriverCall, ok: bool)

  /** The calls are those of the plan in order, up to the first that fails; ok when none does. */
  predicate Ran(plan: seq<DriverCall>, calls: seq<Answered>, ok: bool) {
    if plan == [] then calls == [] && ok
    else
      && calls != [] && calls[0].call == plan[0]
      && if calls[0].ok then Ran(plan[1..], calls[1..], ok) else |calls| == 1 && !ok
  }

  predicate AllOk(calls: seq<Answered>) { forall i | 0 <= i < |calls| :: calls[i].ok }

  lemma AllOkAppend(a: seq<Answered>, b: seq<Answered>)
    ensures AllOk(a + b) <==> AllOk(a) && AllOk(b)
  {
    var c := a + b;
    assert forall i | 0 <= i < |a| :: a[i] == c[i];
    assert forall i | 0 <= i < |b| :: b[i] == c[|a| + i];
  }

  lemma {:induction false} RanThen(p: seq<DriverCall>, q: seq<DriverCall>, a: seq<Answered>, b: seq<Answered>, ok: bool)
    requires Ran(p, a, true) && Ran(q, b, ok)
    ensures Ran(p + q, a + b, ok)
    decreases |p|
  {
    if p == [] {
      assert p + q == q && a + b == b;
    } else {
      RanThen(p[1..], q, a[1..], b, ok);
      assert (p + q)[0] == p[0] && (p + q)[1..] == p[1..] + q;
      assert (a + b)[0] == a[0] && (a + b)[1..] == a[1..] + b;
    }
  }

  lemma {:induction false} RanShort(p: seq<DriverCall>, q: seq<DriverCall>, a: seq<Answered>)
    requires Ran(p, a, false)
    ensures Ran(p + q, a, false)
    decreases |p|
  {
    assert p != [];
    if a[0].ok {
      RanShort(p[1..], q, a[1..]);
    }
    assert (p + q)[0] == p[0] && (p + q)[1..] == p[1..] + q;
  }

  lemma RanOne(call: DriverCall, ok: bool)
    ensures Ran([call], [Answered(call, ok)], ok)
  {
    assert [call][1..] == [] && [Answered(call, ok)][1..] == [];
  }

  lemma {:induction false} RanAllOk(plan: seq<DriverCall>, calls: seq<Answered>, ok: bool)
    requires Ran(plan, calls, ok)
    ensures ok <==> AllOk(calls)
    decreases |plan|
  {
    if plan != [] && calls[0].ok {
      RanAllOk(plan[1..], calls[1..], ok);
      assert forall i | 0 < i < |calls| :: calls[i] == calls[1..][i - 1];
    }
  }

  /** The pool of clients, which nobody else uses, and the record of all calls of the drivers. */
  class Pool {
    var acquired: nat
    var released: nat
    var calls: seq<Answered>

    constructor ()
      ensures acquired == released == 0 && calls == []
    {
      acquired, released, calls := 0, 0, [];
    }
  }

  class PgConnection {
    const pool: Pool
    const pooled: bool
    // Nothing fails by itself: only wrong statements are refused.
    const reliable: bool
    var transactionClient: Option<nat>
    var inTransaction: bool

    // The server and an observer.
    var trace: seq<Sent>
    var db: Db
    var clean: bool
    var beganTwice: bool

    constructor (pool: Pool, pooled: bool, reliable: bool, data: Data)
      ensures Valid() && this.pool == pool && this.pooled == pooled && this.reliable == reliable
      ensures transactionClient.None? && !inTransaction && clean && !beganTwice
      ensures db == Db(data, None) && trace == []
    {
      this.pool, this.pooled, this.reliable := pool, pooled, reliable;
      transactionClient, inTransaction, trace := None, false, [];
      db, clean, beganTwice := Db(data, None), true, false;
    }

    /** Clients out of the pool beside the one held here. */
    function Elsewhere(): int
      reads this, pool
    {
      pool.acquired - pool.released - (if transactionClient.Some? then 1 else 0)
    }

    /** getQueryable */
    function Queryable(): Handle
      reads this
    {
      match transactionClient case None => Base case Some(c) => Client(c)
    }

    ghost predicate Valid()
      reads this
    {
      && (!pooled ==> transactionClient.None?)
      && (pooled && inTransaction ==> transactionClient.Some?)
      && Watched(trace) == (if inTransaction then Inside(Queryable()) else Idle)
      && (clean ==> (inTransaction <==> db.tx.Some?))
    }

    /** One round trip; `next` is the database after success, None when the statement is wrong. */
    method Send(statement: Statement, next: Option<Db>, answered: bool) returns (ok: bool)
      modifies this`trace, this`db, this`clean
      ensures !answered && !reliable ==> !ok
      ensures trace == old(trace) + [Sent(Queryable(), statement, ok)]
      ensures Watched(trace) == Observe(Watched(old(trace)), Sent(Queryable(), statement, ok))
      ensures clean ==> old(clean) && ok && Some(db) == next
      ensures reliable && old(clean) && next.Some? ==> clean
    {
      hide Watched, Observe;
      WatchedNext(trace, Sent(Queryable(), statement, true));
      WatchedNext(trace, Sent(Queryable(), statement, false));
      ok := answered || reliable;
      if clean && next.None? {
        ok := false;
      }
      trace := trace + [Sent(Queryable(), statement, ok)];
      if ok && clean {
        db := next.value;
      } else {
        clean := false;
      }
    }

    method BeginTransaction(acquired: bool, answered: bool) returns (ok: bool)
      requires Valid()
      modifies this, pool
      ensures Valid() && Elsewhere() == old(Elsewhere())
      ensures old(transactionClient).None? && old(!inTransaction) && pooled && acquired && !answered && !reliable ==>
                && !ok && transactionClient == Some(old(pool.acquired))
                && pool.acquired == old(pool.acquired) + 1 && pool.released == old(pool.released)
      ensures old(transactionClient).Some? ==> transactionClient == old(transactionClient)
      ensures ok && pooled ==> transactionClient.Some?
      ensures beganTwice == (old(beganTwice) || old(inTransaction))
      ensures inTransaction == (old(inTransaction) || ok)
      ensures clean ==> old(clean) && ok && Some(db) == old(db).Begin()
      ensures reliable && old(clean) && old(db).Begin().Some? ==> clean
      ensures pool.calls == old(pool.calls) + [Answered(ToBegin, ok)]
      ensures ok ==> !old(inTransaction)
      ensures trace == old(trace) + if old(inTransaction) || (pooled && transactionClient.None?) then []
                                    else [Sent(Queryable(), BeginSql, ok)]
    {
      hide Watched;
      if inTransaction {
        beganTwice, clean, ok := true, false, false;
      } else if transactionClient.None? && pooled && !acquired && !reliable {
        clean, ok := false, false;
      } else {
        if transactionClient.None? && pooled {
          Acquire();
        }
        ok := Send(BeginSql, db.Begin(), answered);
        inTransaction := ok;
      }
      pool.calls := pool.calls + [Answered(ToBegin, ok)];
    }

    /** The pool hands out a client. */
    method Acquire()
      requires transactionClient.None?
      modifies this`transactionClient, pool`acquired
      ensures transactionClient == Some(old(pool.acquired)) && pool.acquired == old(pool.acquired) + 1
    {
      transactionClient := Some(pool.acquired);
      pool.acquired := pool.acquired + 1;
    }

    method ReleaseTransactionClient()
      modifies this`transactionClient, pool`released
      ensures transactionClient.None?
      ensures pool.released == old(pool.released) + (if old(transactionClient).Some? then 1 else 0)
    {
      if transactionClient.Some? {
        pool.released := pool.released + 1;
      }
      transactionClient := None;
    }

    /** commit and rollBack: whatever the statement does, the transaction and its client are gone. */
    method End(statement: Statement, next: Option<Db>) returns (ok: bool)
      requires Valid() && (statement == CommitSql || statement == RollbackSql)
      requires next.Some? ==> next.value.tx.None?
      modifies this, pool`released
      ensures Valid() && !inTransaction && beganTwice == old(beganTwice) && Elsewhere() == old(Elsewhere())
      ensures old(inTransaction) ==> transactionClient.None?
      ensures ok ==> old(inTransaction)
      ensures trace == old(trace) + if old(inTransaction) then [Sent(old(Queryable()), statement, ok)] else []
      ensures clean ==> old(clean) && ok && Some(db) == next
      ensures reliable && old(clean) && old(inTransaction) && next.Some? ==> clean
    {
      hide Watched;
      if !inTransaction {
        clean := false;
        return false;
      }
      var answered: bool := *;
      ok := Send(statement, next, answered);
      inTransaction := false;
      ReleaseTransactionClient();
    }

    method Commit() returns (ok: bool)
      requires Valid()
      modifies this, pool`released, pool`calls
      ensures Valid() && !inTransaction && beganTwice == old(beganTwice) && Elsewhere() == old(Elsewhere())
      ensures old(inTransaction) ==> transactionClient.None?
      ensures clean ==> old(clean) && ok && Some(db) == old(db).Commit()
      ensures reliable && old(clean) && old(db).Commit().Some? ==> clean
      ensures pool.calls == old(pool.calls) + [Answered(ToCommit, ok)]
      ensures ok ==> old(inTransaction)
      ensures trace == old(trace) + if old(inTransaction) then [Sent(old(Queryable()), CommitSql, ok)] else []
    {
      hide Watched;
      ok := End(CommitSql, db.Commit());
      pool.calls := pool.calls + [Answered(ToCommit, ok)];
    }

    method RollBack() returns (ok: bool)
      requires Valid()
      modifies this, pool`released, pool`calls
      ensures Valid() && !inTransaction && beganTwice == old(beganTwice) && Elsewhere() == old(Elsewhere())
      ensures old(inTransaction) ==> transactionClient.None?
      ensures clean ==> old(clean) && ok && Some(db) == old(db).RollBack()
      ensures reliable && old(clean) && old(db).RollBack().Some? ==> clean
      ensures pool.calls == old(pool.calls) + [Answered(ToRollBack, ok)]
      ensures ok ==> old(inTransaction)
      ensures trace == old(trace) + if old(inTransaction) then [Sent(old(Queryable()), RollbackSql, ok)] else []
    {
      hide Watched;
      ok := End(RollbackSql, db.RollBack());
      pool.calls := pool.calls + [Answered(ToRollBack, ok)];
    }

    /** exec: savepoint statements and writes. */
    method Exec(command: Command, dialect: Dialect) returns (ok: bool)
      requires Valid()
      modifies this`trace, this`db, this`clean, pool`calls
      ensures Valid() && Elsewhere() == old(Elsewhere())
      ensures clean ==> old(clean) && ok && Some(db) == old(db).Execute(command, dialect)
      ensures reliable && old(clean) && old(db).Execute(command, dialect).Some? ==> clean
      ensures pool.calls == old(pool.calls) + [Answered(ToExecute(command), ok)]
      ensures trace == old(trace) + [Sent(Queryable(), CommandSql(command), ok)]
    {
      hide Watched, Db.Execute;
      var answered: bool := *;
      ok := Send(CommandSql(command), db.Execute(command, dialect), answered);
      pool.calls := pool.calls + [Answered(ToExecute(command), ok)];
    }

    method Close() returns (ok: bool)
      requires Valid()
      modifies this, pool
      ensures Valid() && !inTransaction && beganTwice == old(beganTwice)
      ensures transactionClient.None? && Elsewhere() == old(Elsewhere())
      ensures clean ==> old(clean) && ok
      ensures clean ==> db == if old(inTransaction) then old(db).RollBack().value else old(db)
      ensures reliable && old(clean) ==> clean
      ensures pool.calls == old(pool.calls) + [Answered(ToClose, ok)]
      ensures old(trace) <= trace && |trace| == |old(trace)| + if old(inTransaction) then 1 else 0
      ensures old(inTransaction) ==> trace[|trace| - 1].handle == old(Queryable())
                                     && trace[|trace| - 1].statement == RollbackSql
    {
      hide Watched;
      if inTransaction {
        var answered: bool := *;
        var done := Send(RollbackSql, db.RollBack(), answered);
        inTransaction := false;
      }
      ReleaseTransactionClient();
      ok := *;
      ok := ok || reliable;
      if !ok {
        clean := false;
      }
      pool.calls := pool.calls + [Answered(ToClose, ok)];
    }
  }

  /** How the outside answers a begin: is a client acquired, does BEGIN succeed, is the connection lost? */
  datatype BeginAnswers = BeginAnswers(acquired: bool, began: bool, lost: bool)

  /** How a call of Connection ends; exceptions of the library pass convertException unchanged. */
  datatype Outcome = Done | LibraryError | ConvertedError

  /** Done: every call was answered. A converted error: one was not. */
  predicate Honest(r: Outcome, calls: seq<Answered>) {
    (r == Done ==> AllOk(calls)) && (r == ConvertedError ==> !AllOk(calls))
  }

  lemma HonestThen(first: seq<Answered>, r: Outcome, calls: seq<Answered>)
    requires Honest(Done, first) && Honest(r, calls)
    ensures Honest(r, first + calls)
  {
    AllOkAppend(first, calls);
  }

  /** How many of the driver connections that were dropped held a client. */
  function Lost(dropped: seq<Option<nat>>): nat {
    if dropped == [] then 0 else Lost(dropped[..|dropped| - 1]) + if dropped[|dropped| - 1].Some? then 1 else 0
  }

  lemma LostNext(dropped: seq<Option<nat>>, held: Option<nat>)
    ensures Lost(dropped + [held]) == Lost(dropped) + if held.Some? then 1 else 0
  {
    assert (dropped + [held])[..|dropped|] == dropped;
  }

  predicate NoneHeld(dropped: seq<Option<nat>>) { forall i | 0 <= i < |dropped| :: dropped[i].None? }

  lemma {:induction false} NothingLost(dropped: seq<Option<nat>>)
    ensures Lost(dropped) == 0 <==> NoneHeld(dropped)
  {
    if dropped != [] {
      var rest := dropped[..|dropped| - 1];
      NothingLost(rest);
      assert NoneHeld(dropped) <==> NoneHeld(rest) && dropped[|dropped| - 1].None? by {
        assert forall i | 0 <= i < |rest| :: rest[i] == dropped[i];
      }
    }
  }

  function OpeningPlan(autoCommit: bool): seq<DriverCall> {
    [ToConnect, ToResolve] + if autoCommit then [] else [ToBegin]
  }

  lemma OpeningPlans()
    ensures OpeningPlan(true) == [ToConnect, ToResolve]
    ensures OpeningPlan(false) == [ToConnect, ToResolve, ToBegin]
  {
  }

  /** What beginTransaction asks of an open connection at the level. */
  function BeginPlan(level: nat, p: Platform): seq<DriverCall> {
    if level == 0 then [ToBegin]
    else if p.supportsSavepoints then [ToExecute(Command.CreateSavepoint(SavepointName(level + 1)))]
    else []
  }

  /** Nothing more is asked, or the second plan runs too. */
  lemma RanAfter(p: seq<DriverCall>, q: seq<DriverCall>, a: seq<Answered>, b: seq<Answered>, ok: bool)
    requires Ran(p, a, true)
    ensures Ran(q, b, ok) ==> Ran(p + q, a + b, ok)
    ensures b == [] ==> Ran(p, a + b, true)
  {
    if Ran(q, b, ok) {
      RanThen(p, q, a, b, ok);
    }
    assert b == [] ==> a + b == a;
  }

  lemma RanNothing()
    ensures Ran([], [], true) && Honest(Done, [])
  {
  }

  /** A connection that was opened, or not, and the begin of its transaction. */
  lemma RanOpenedThenBegun(calls: seq<Answered>, connected: bool, more: seq<Answered>, r: Outcome)
    requires Ran([ToConnect, ToResolve], calls, connected)
    requires connected ==> Honest(Done, calls) && Ran([ToBegin], more, r == Done) && Honest(r, more)
    ensures !connected ==> Ran([ToConnect, ToResolve, ToBegin], calls, false)
    ensures connected ==> Ran([ToConnect, ToResolve, ToBegin], calls + more, r == Done) && Honest(r, calls + more)
  {
    hide Ran;
    assert [ToConnect, ToResolve] + [ToBegin] == [ToConnect, ToResolve, ToBegin];
    if connected {
      RanThen([ToConnect, ToResolve], [ToBegin], calls, more, r == Done);
      HonestThen(calls, r, more);
    } else {
      RanShort([ToConnect, ToResolve], [ToBegin], calls);
    }
  }

  lemma RanOpening(connected: bool, resolved: bool)
    ensures var plan := [ToConnect, ToResolve];
            && Ran(plan, [Answered(ToConnect, true), Answered(ToResolve, resolved)], resolved)
            && (!connected ==> Ran(plan, [Answered(ToConnect, false)], false))
  {
    hide Ran;
    RanOne(ToConnect, connected);
    RanOne(ToConnect, true);
    RanOne(ToResolve, resolved);
    RanThen([ToConnect], [ToResolve], [Answered(ToConnect, true)], [Answered(ToResolve, resolved)], resolved);
    assert [ToConnect] + [ToResolve] == [ToConnect, ToResolve];
    assert [Answered(ToConnect, true)] + [Answered(ToResolve, resolved)]
           == [Answered(ToConnect, true), Answered(ToResolve, resolved)];
    if !connected {
      RanShort([ToConnect], [ToResolve], [Answered(ToConnect, false)]);
    }
  }

  /** The begin that follows where auto-commit is off; a lost connection is opened anew and begins twice. */
  ghost predicate Restarted(connected: bool, p: Platform, calls: seq<Answered>, ok: bool) {
    if connected then Ran([ToBegin], calls, ok)
    else if p.supportsSavepoints then Ran(OpeningPlan(false) + BeginPlan(1, p), calls, ok)
    else !ok && exists all :: Ran(OpeningPlan(false), calls, all)
  }

  /** One call, then a begin where one follows; a failed call is never answered as done. */
  ghost predicate CommitRan(call: DriverCall, begins: bool, calls: seq<Answered>, done: bool) {
    && calls != [] && calls[0].call == call
    && if !calls[0].ok then !done else if begins then Ran([ToBegin], calls[1..], done) else |calls| == 1 && done
  }

  /** A rollback is done when it is answered, and so is the begin that follows without auto-commit. */
  predicate RollBackRan(autoCommit: bool, calls: seq<Answered>, done: bool) {
    && |calls| == (if autoCommit then 1 else 2)
    && calls[0].call == ToRollBack && (!autoCommit ==> calls[1].call == ToBegin)
    && (done <==> AllOk(calls))
  }

  lemma RanEmpty(calls: seq<Answered>, ok: bool)
    ensures Ran([], calls, ok) ==> calls == [] && ok
  {
  }

  lemma RanSingle(call: DriverCall, calls: seq<Answered>, ok: bool)
    ensures Ran([call], calls, ok) ==> calls == [Answered(call, ok)]
  {
    assert [call][1..] == [];
    if Ran([call], calls, ok) && calls[0].ok {
      RanEmpty(calls[1..], ok);
    }
  }

  /** One statement on an open connection. */
  lemma StatementRan(command: Command, calls: seq<Answered>, ok: bool)
    ensures Ran([] + [ToExecute(command)], calls, ok) ==> calls == [Answered(ToExecute(command), ok)]
  {
    assert [] + [ToExecute(command)] == [ToExecute(command)];
    RanSingle(ToExecute(command), calls, ok);
  }

  lemma RestartedFirst(connected: bool, p: Platform, calls: seq<Answered>, ok: bool)
    requires Restarted(connected, p, calls, ok)
    ensures calls != [] && calls[0].call == if connected then ToBegin else ToConnect
    ensures connected ==> Ran([ToBegin], calls, ok)
  {
    assert (OpeningPlan(false) + BeginPlan(1, p))[0] == ToConnect;
  }

  class Connection {
    const platform: Platform
    const pool: Pool
    const pooled: bool
    const reliable: bool
    var autoCommit: bool
    var rollbackOnly: bool
    var transactionNestingLevel: nat
    var driverConnection: PgConnection?

    // The database while no connection is open, whether nothing has failed so far, and the client
    // that each driver connection held when it was dropped.
    var data: Data
    var clean: bool
    var dropped: seq<Option<nat>>

    constructor (platform: Platform, pool: Pool, pooled: bool, reliable: bool, autoCommit: bool, data: Data)
      requires pool.acquired == pool.released
      ensures Valid() && Clean()
      ensures State() == Machine(autoCommit, false, false, 0, Db(data, None))
      ensures this.platform == platform && this.pool == pool && this.pooled == pooled && this.reliable == reliable
      ensures dropped == []
    {
      this.platform, this.pool, this.pooled, this.reliable := platform, pool, pooled, reliable;
      this.autoCommit, this.data := autoCommit, data;
      rollbackOnly, transactionNestingLevel, driverConnection, clean, dropped := false, 0, null, true, [];
    }

    /** The pooled client of the driver connection. */
    function Held(): Option<nat>
      reads this, driverConnection
    {
      if driverConnection == null then None else driverConnection.transactionClient
    }

    /** Every client ever acquired is released or held. */
    predicate Balanced()
      reads this, driverConnection, pool
    {
      pool.acquired == pool.released + if Held().Some? then 1 else 0
    }

    /** The pool is balanced exactly when no connection was lost while its driver held a client. */
    lemma BalancedUnlessLost()
      requires Valid()
      ensures Balanced() <==> NoneHeld(dropped)
    {
      NothingLost(dropped);
    }

    ghost predicate Clean()
      reads this, driverConnection
    {
      clean && (driverConnection != null ==> driverConnection.clean)
    }

    /** Connection as a machine of module Savepoints. */
    ghost function State(): Machine
      reads this, driverConnection
    {
      Machine(autoCommit, rollbackOnly, driverConnection != null, transactionNestingLevel,
              if driverConnection != null then driverConnection.db else Db(data, None))
    }

    /** What connect asks of the driver. */
    function ConnectPlan(): seq<DriverCall>
      reads this
    {
      if driverConnection != null then [] else OpeningPlan(autoCommit)
    }

    /** What a statement asks of the driver. */
    function ExecutePlan(command: Command): seq<DriverCall>
      reads this
    {
      ConnectPlan() + [ToExecute(command)]
    }

    /** The level once there is a connection: without auto-commit a new one begins. */
    function ConnectedLevel(): nat
      reads this
    {
      if driverConnection != null then transactionNestingLevel else if autoCommit then 0 else 1
    }

    /** Everything but the link between the levels and the driver's transaction in clean runs. */
    ghost predicate Sound()
      reads this, driverConnection, pool
    {
      && pool.acquired == pool.released + Lost(dropped) + (if Held().Some? then 1 else 0)
      && (clean ==> Lost(dropped) == 0 && (platform.supportsSavepoints || transactionNestingLevel <= 1))
      && (transactionNestingLevel > 0 ==> driverConnection != null)
      && (rollbackOnly ==> transactionNestingLevel > 0)
      && (driverConnection != null ==>
            && driverConnection.Valid()
            && driverConnection.pool == pool && driverConnection.pooled == pooled
            && driverConnection.reliable == reliable
            && !driverConnection.beganTwice
            && (driverConnection.inTransaction ==> transactionNestingLevel > 0))
    }

    /** A driver in a transaction means a level of at least one, and no second begin was ever sent. */
    ghost predicate Valid()
      reads this, driverConnection, pool
    {
      && Sound()
      && (driverConnection != null && Clean() ==> (driverConnection.inTransaction <==> transactionNestingLevel > 0))
    }

    /** Either the connection is lost or the level and the flag are these. */
    ghost predicate LevelKept(level: nat, flag: bool)
      reads this
    {
      if driverConnection == null then transactionNestingLevel == 0
      else transactionNestingLevel == level && rollbackOnly == flag
    }

    /** Drops the driver connection, with the client it may hold. */
    method ResetConnectionState()
      modifies this`driverConnection, this`transactionNestingLevel, this`rollbackOnly, this`dropped
      ensures driverConnection == null && transactionNestingLevel == 0 && !rollbackOnly
      ensures dropped == old(dropped) + [old(Held())]
      ensures Lost(dropped) == old(Lost(dropped)) + if old(Held()).Some? then 1 else 0
    {
      hide Lost;
      ghost var held := Held();
      LostNext(dropped, held);
      dropped := dropped + [Held()];
      driverConnection, transactionNestingLevel, rollbackOnly := null, 0, false;
    }

    /** convertException of a driver error: a lost connection resets the state. */
    method ConvertException(lost: bool)
      requires Valid()
      modifies this
      ensures Valid() && !clean && autoCommit == old(autoCommit)
      ensures driverConnection == null || driverConnection == old(driverConnection)
      ensures LevelKept(old(transactionNestingLevel), old(rollbackOnly))
      ensures if lost then driverConnection == null && dropped == old(dropped) + [old(Held())]
              else driverConnection == old(driverConnection) && dropped == old(dropped)
    {
      clean := false;
      if lost {
        ResetConnectionState();
      }
    }

    /** performConnect and resolveDatabasePlatform. */
    method Open() returns (r: Outcome, ghost calls: seq<Answered>)
      requires Valid() && driverConnection == null
      modifies this, pool`calls
      ensures Valid() && autoCommit == old(autoCommit) && old(dropped) <= dropped
      ensures driverConnection == null || fresh(driverConnection)
      ensures r == Done ==> driverConnection != null && driverConnection.transactionClient.None?
      ensures transactionNestingLevel == 0 && !rollbackOnly
      ensures Clean() ==> old(Clean()) && r == Done && State() == old(State()).(connected := true)
      ensures reliable && old(Clean()) ==> Clean()
      ensures pool.calls == old(pool.calls) + calls && Honest(r, calls)
      ensures Ran([ToConnect, ToResolve], calls, r == Done) && r != LibraryError
    {
      hide Watched, Lost, Ran;
      var connected: bool := *;
      connected := connected || reliable;
      calls := [Answered(ToConnect, connected)];
      pool.calls := pool.calls + [Answered(ToConnect, connected)];
      if !connected {
        var lost: bool := *;
        ConvertException(lost);
        RanOpening(false, true);
        assert !calls[0].ok;
        return ConvertedError, calls;
      }
      driverConnection := new PgConnection(pool, pooled, reliable, data);
      var resolved: bool := *;
      resolved := resolved || reliable;
      calls := [Answered(ToConnect, true), Answered(ToResolve, resolved)];
      pool.calls := pool.calls + [Answered(ToResolve, resolved)];
      RanOpening(true, resolved);
      if !resolved {
        var lost: bool := *;
        ConvertException(lost);
        assert !calls[1].ok;
        return ConvertedError, calls;
      }
      r := Done;
    }

    method Connect() returns (r: Outcome, ghost calls: seq<Answered>)
      requires Valid()
      modifies this, driverConnection, pool
      ensures Valid() && autoCommit == old(autoCommit) && old(dropped) <= dropped
      ensures driverConnection == null || driverConnection == old(driverConnection) || fresh(driverConnection)
      ensures r == Done ==> driverConnection != null
      ensures old(driverConnection) != null ==> r == Done && old(State()) == State() && clean == old(clean)
      ensures old(driverConnection) != null ==> unchanged(this) && unchanged(driverConnection) && unchanged(pool)
      ensures autoCommit && old(driverConnection) == null ==> transactionNestingLevel == 0
      ensures !autoCommit && old(driverConnection) == null && r == Done ==> transactionNestingLevel == 1
      ensures old(driverConnection) == null ==> !rollbackOnly
      ensures Clean() ==> old(Clean()) && r == Done && Some(State()) == old(State()).Connected(platform)
      ensures reliable && old(Clean()) && old(State()).Connected(platform).Some? ==> Clean()
      ensures pool.calls == old(pool.calls) + calls && Honest(r, calls)
      ensures Ran(old(ConnectPlan()), calls, r == Done) && r != LibraryError
      decreases if driverConnection == null then 5 else 0
    {
      hide Watched, Lost, Ran, Honest, Machine.Begun, Db.Begin, Db.Savepoint;
      if driverConnection != null {
        RanNothing();
        return Done, [];
      }
      OpeningPlans();
      hide OpeningPlan;
      ghost var plan := ConnectPlan();
      r, calls := Open();
      if autoCommit {
        return;
      }
      if r != Done {
        RanOpenedThenBegun(calls, false, [], r);
        return;
      }
      var answers: BeginAnswers := *;
      ghost var more;
      r, more := BeginTransaction(answers);
      assert [] + [ToBegin] == [ToBegin];
      RanOpenedThenBegun(calls, true, more, r);
      calls := calls + more;
    }

    method BeginTransaction(answers: BeginAnswers) returns (r: Outcome, ghost calls: seq<Answered>)
      requires Valid()
      modifies this, driverConnection, pool
      ensures Valid() && autoCommit == old(autoCommit) && old(dropped) <= dropped
      ensures driverConnection == null || driverConnection == old(driverConnection) || fresh(driverConnection)
      ensures r == Done ==> driverConnection != null
      ensures old(driverConnection) != null ==> LevelKept(old(transactionNestingLevel) + 1, old(rollbackOnly))
      ensures old(driverConnection) != null && r == Done ==> driverConnection == old(driverConnection)
      ensures old(driverConnection) == null ==> !rollbackOnly
      ensures !platform.supportsSavepoints && old(transactionNestingLevel) > 0 ==>
                r == LibraryError && transactionNestingLevel == old(transactionNestingLevel) + 1
                    && driverConnection == old(driverConnection)
      ensures Clean() ==> old(Clean()) && r == Done && Some(State()) == old(State()).Begin(platform)
      ensures reliable && old(Clean()) && old(State()).Begin(platform).Some? ==> Clean()
      ensures old(driverConnection != null && transactionNestingLevel == 0 && Held().None?) && pooled && !reliable
              && answers == BeginAnswers(true, false, true) ==>
                && driverConnection == null && dropped == old(dropped) + [Some(old(pool.acquired))]
                && pool.acquired == old(pool.acquired) + 1 && pool.released == old(pool.released)
      ensures pool.calls == old(pool.calls) + calls && Honest(r, calls)
      ensures if old(ConnectedLevel()) == 0 || platform.supportsSavepoints
              then Ran(old(ConnectPlan()) + BeginPlan(old(ConnectedLevel()), platform), calls, r == Done)
                   && r != LibraryError
              else Ran(old(ConnectPlan()), calls, r == LibraryError) && r != Done
      decreases if driverConnection == null then 8 else 4
    {
      hide Watched, Lost, FindLast, Without, SavepointName, Db.Savepoint, Db.Begin, Machine.Begun, Ran, AllOk;
      ghost var plan := ConnectPlan();
      ghost var level := ConnectedLevel();
      r, calls := Connect();
      if r != Done {
        RanShort(plan, BeginPlan(level, platform), calls);
        return;
      }
      ghost var more;
      r, more := BeginConnected(answers);
      RanAfter(plan, BeginPlan(level, platform), calls, more, r == Done);
      AllOkAppend(calls, more);
      calls := calls + more;
    }

    /** beginTransaction on an open connection. */
    method BeginConnected(answers: BeginAnswers) returns (r: Outcome, ghost calls: seq<Answered>)
      requires Valid() && driverConnection != null
      modifies this, driverConnection, pool
      ensures Valid() && autoCommit == old(autoCommit) && old(dropped) <= dropped
      ensures driverConnection == null || driverConnection == old(driverConnection)
      ensures r == Done ==> driverConnection != null
      ensures LevelKept(old(transactionNestingLevel) + 1, old(rollbackOnly))
      ensures driverConnection == null ==> !rollbackOnly
      ensures !platform.supportsSavepoints && old(transactionNestingLevel) > 0 ==>
                r == LibraryError && transactionNestingLevel == old(transactionNestingLevel) + 1
                    && driverConnection != null
      ensures Clean() ==> old(Clean()) && r == Done && Some(State()) == old(State()).Begun(platform)
      ensures reliable && old(Clean()) && old(State()).Begun(platform).Some? ==> Clean()
      ensures old(transactionNestingLevel == 0 && Held().None?) && pooled && !reliable
              && answers == BeginAnswers(true, false, true) ==>
                && driverConnection == null && dropped == old(dropped) + [Some(old(pool.acquired))]
                && pool.acquired == old(pool.acquired) + 1 && pool.released == old(pool.released)
      ensures pool.calls == old(pool.calls) + calls && Honest(r, calls)
      ensures if old(transactionNestingLevel) == 0 || platform.supportsSavepoints
              then Ran(BeginPlan(old(transactionNestingLevel), platform), calls, r == Done) && r != LibraryError
              else calls == [] && r == LibraryError
      decreases 3
    {
      hide Watched, Lost, FindLast, Without, SavepointName, Db.Savepoint, Db.Begin, Ran;
      transactionNestingLevel := transactionNestingLevel + 1;
      if transactionNestingLevel == 1 {
        var ok := driverConnection.BeginTransaction(answers.acquired, answers.began);
        calls := [Answered(ToBegin, ok)];
        RanOne(ToBegin, ok);
        if !ok {
          ConvertException(answers.lost);
          return ConvertedError, calls;
        }
        return Done, calls;
      }
      clean := clean && platform.supportsSavepoints;
      r, calls := CreateSavepoint(SavepointName(transactionNestingLevel));
      RanEmpty(calls, r == LibraryError);
      ghost var plan := BeginPlan(old(transactionNestingLevel), platform);
      assert [] + plan == plan;
    }

    /** executeStatement: connect comes first. */
    method ExecuteStatement(command: Command) returns (r: Outcome, ghost calls: seq<Answered>)
      requires Valid()
      modifies this, driverConnection, pool
      ensures Valid() && autoCommit == old(autoCommit) && old(dropped) <= dropped
      ensures driverConnection == null || driverConnection == old(driverConnection) || fresh(driverConnection)
      ensures r == Done ==> driverConnection != null
      ensures old(driverConnection) != null ==>
                && LevelKept(old(transactionNestingLevel), old(rollbackOnly))
                && (driverConnection == null || driverConnection == old(driverConnection))
      ensures old(driverConnection) == null ==>
                !rollbackOnly && (r == Done ==> transactionNestingLevel == if autoCommit then 0 else 1)
      ensures Clean() ==> old(Clean()) && r == Done && Some(State()) == old(State()).Execute(command, platform)
      ensures reliable && old(Clean()) && old(State()).Execute(command, platform).Some? ==> Clean()
      ensures pool.calls == old(pool.calls) + calls && Honest(r, calls)
      ensures Ran(old(ExecutePlan(command)), calls, r == Done) && r != LibraryError
      decreases if driverConnection == null then 6 else 1
    {
      hide Watched, Lost, Db.Execute, Ran;
      ghost var plan := ConnectPlan();
      r, calls := Connect();
      if r != Done {
        RanShort(plan, [ToExecute(command)], calls);
        return;
      }
      var ok := driverConnection.Exec(command, platform.dialect);
      RanOne(ToExecute(command), ok);
      RanThen(plan, [ToExecute(command)], calls, [Answered(ToExecute(command), ok)], ok);
      AllOkAppend(calls, [Answered(ToExecute(command), ok)]);
      calls := calls + [Answered(ToExecute(command), ok)];
      assert [Answered(ToExecute(command), ok)][0].ok == ok;
      if !ok {
        var lost: bool := *;
        ConvertException(lost);
        r := ConvertedError;
      }
    }

    method CreateSavepoint(savepoint: string) returns (r: Outcome, ghost calls: seq<Answered>)
      requires Valid()
      modifies this, driverConnection, pool
      ensures Valid() && autoCommit == old(autoCommit) && old(dropped) <= dropped
      ensures driverConnection == null || driverConnection == old(driverConnection) || fresh(driverConnection)
      ensures r == Done ==> driverConnection != null
      ensures old(driverConnection) != null ==>
                && LevelKept(old(transactionNestingLevel), old(rollbackOnly))
                && (driverConnection == null || driverConnection == old(driverConnection))
      ensures old(driverConnection) == null ==>
                !rollbackOnly && (r == Done ==> transactionNestingLevel == if autoCommit then 0 else 1)
      ensures !platform.supportsSavepoints ==> r != Done
      ensures old(driverConnection) != null && !platform.supportsSavepoints ==>
                r == LibraryError && unchanged(this) && unchanged(driverConnection) && unchanged(pool)
      ensures Clean() && platform.supportsSavepoints ==>
                old(Clean()) && r == Done
                    && Some(State()) == old(State()).Execute(Command.CreateSavepoint(savepoint), platform)
      ensures reliable && old(Clean()) && platform.supportsSavepoints ==>
                (old(State()).Execute(Command.CreateSavepoint(savepoint), platform).Some? ==> Clean())
      ensures pool.calls == old(pool.calls) + calls && Honest(r, calls)
      ensures if !platform.supportsSavepoints then Ran(old(ConnectPlan()), calls, r == LibraryError) && r != Done
              else Ran(old(ExecutePlan(Command.CreateSavepoint(savepoint))), calls, r == Done) && r != LibraryError
      decreases if driverConnection == null then 7 else 2
    {
      hide Watched, Lost, Db.Execute, Ran, AllOk;
      ghost var plan, statement := ConnectPlan(), [ToExecute(Command.CreateSavepoint(savepoint))];
      r, calls := Connect();
      if r != Done {
        RanShort(plan, statement, calls);
        return;
      }
      if !platform.supportsSavepoints {
        return LibraryError, calls;
      }
      ghost var more;
      r, more := ExecuteStatement(Command.CreateSavepoint(savepoint));
      assert [] + statement == statement;
      RanAfter(plan, statement, calls, more, r == Done);
      AllOkAppend(calls, more);
      calls := calls + more;
    }

    method ReleaseSavepoint(savepoint: string) returns (r: Outcome, ghost calls: seq<Answered>)
      requires Valid()
      modifies this, driverConnection, pool
      ensures Valid() && autoCommit == old(autoCommit) && old(dropped) <= dropped
      ensures driverConnection == null || driverConnection == old(driverConnection) || fresh(driverConnection)
      ensures r == Done ==> driverConnection != null
      ensures old(driverConnection) != null ==>
                && LevelKept(old(transactionNestingLevel), old(rollbackOnly))
                && (driverConnection == null || driverConnection == old(driverConnection))
      ensures old(driverConnection) == null ==>
                !rollbackOnly && (r == Done ==> transactionNestingLevel == if autoCommit then 0 else 1)
      ensures !platform.supportsSavepoints ==> r != Done
      ensures old(driverConnection) != null && !platform.supportsSavepoints ==>
                r == LibraryError && unchanged(this) && unchanged(driverConnection) && unchanged(pool)
      ensures old(driverConnection) != null && platform.supportsSavepoints && !platform.supportsReleaseSavepoints ==>
                r == Done && unchanged(this) && unchanged(driverConnection) && unchanged(pool)
      ensures Clean() && platform.supportsSavepoints ==>
                old(Clean()) && r == Done && Some(State()) == old(State()).Released(savepoint, platform)
      ensures reliable && old(Clean()) && platform.supportsSavepoints ==>
                (old(State()).Released(savepoint, platform).Some? ==> Clean())
      ensures pool.calls == old(pool.calls) + calls && Honest(r, calls)
      ensures if !platform.supportsSavepoints then Ran(old(ConnectPlan()), calls, r == LibraryError) && r != Done
              else if !platform.supportsReleaseSavepoints
              then Ran(old(ConnectPlan()), calls, r == Done) && r != LibraryError
              else Ran(old(ExecutePlan(Command.ReleaseSavepoint(savepoint))), calls, r == Done) && r != LibraryError
    {
      hide Watched, Lost, Db.Execute, Ran, AllOk;
      ghost var plan, statement := ConnectPlan(), [ToExecute(Command.ReleaseSavepoint(savepoint))];
      r, calls := Connect();
      if r != Done {
        RanShort(plan, statement, calls);
        return;
      }
      if !platform.supportsSavepoints {
        return LibraryError, calls;
      }
      if !platform.supportsReleaseSavepoints {
        return Done, calls;
      }
      ghost var more;
      r, more := ExecuteStatement(Command.ReleaseSavepoint(savepoint));
      assert [] + statement == statement;
      RanAfter(plan, statement, calls, more, r == Done);
      AllOkAppend(calls, more);
      calls := calls + more;
    }

    method RollbackSavepoint(savepoint: string) returns (r: Outcome, ghost calls: seq<Answered>)
      requires Valid()
      modifies this, driverConnection, pool
      ensures Valid() && autoCommit == old(autoCommit) && old(dropped) <= dropped
      ensures driverConnection == null || driverConnection == old(driverConnection) || fresh(driverConnection)
      ensures r == Done ==> driverConnection != null
      ensures old(driverConnection) != null ==>
                && LevelKept(old(transactionNestingLevel), old(rollbackOnly))
                && (driverConnection == null || driverConnection == old(driverConnection))
      ensures old(driverConnection) == null ==>
                !rollbackOnly && (r == Done ==> transactionNestingLevel == if autoCommit then 0 else 1)
      ensures !platform.supportsSavepoints ==> r != Done
      ensures old(driverConnection) != null && !platform.supportsSavepoints ==>
                r == LibraryError && unchanged(this) && unchanged(driverConnection) && unchanged(pool)
      ensures Clean() && platform.supportsSavepoints ==>
                old(Clean()) && r == Done
                    && Some(State()) == old(State()).Execute(Command.RollbackSavepoint(savepoint), platform)
      ensures reliable && old(Clean()) && platform.supportsSavepoints ==>
                (old(State()).Execute(Command.RollbackSavepoint(savepoint), platform).Some? ==> Clean())
      ensures pool.calls == old(pool.calls) + calls && Honest(r, calls)
      ensures if !platform.supportsSavepoints then Ran(old(ConnectPlan()), calls, r == LibraryError) && r != Done
              else Ran(old(ExecutePlan(Command.RollbackSavepoint(savepoint))), calls, r == Done) && r != LibraryError
    {
      hide Watched, Lost, Db.Execute, Ran, AllOk;
      ghost var plan, statement := ConnectPlan(), [ToExecute(Command.RollbackSavepoint(savepoint))];
      r, calls := Connect();
      if r != Done {
        RanShort(plan, statement, calls);
        return;
      }
      if !platform.supportsSavepoints {
        return LibraryError, calls;
      }
      ghost var more;
      r, more := ExecuteStatement(Command.RollbackSavepoint(savepoint));
      assert [] + statement == statement;
      RanAfter(plan, statement, calls, more, r == Done);
      AllOkAppend(calls, more);
      calls := calls + more;
    }

    /** The state a finished commit leaves: one level down, and a new transaction without auto-commit. */
    method UpdateTransactionStateAfterCommit() returns (r: Outcome, ghost calls: seq<Answered>)
      requires Sound() && !rollbackOnly
      requires (driverConnection != null && transactionNestingLevel <= 1 ==> !driverConnection.inTransaction)
      requires driverConnection != null && Clean() ==> (driverConnection.inTransaction <==> transactionNestingLevel > 1)
      modifies this, driverConnection, pool
      ensures Valid() && autoCommit == old(autoCommit) && old(dropped) <= dropped
      ensures driverConnection == null || driverConnection == old(driverConnection) || fresh(driverConnection)
      ensures var left := if old(transactionNestingLevel) == 0 then 0 else old(transactionNestingLevel) - 1;
              if autoCommit || left != 0
              then r == Done && transactionNestingLevel == left && rollbackOnly == old(rollbackOnly)
                   && driverConnection == old(driverConnection)
              else r == Done ==> driverConnection != null && !rollbackOnly
                                 && (old(driverConnection) != null ==> transactionNestingLevel == 1)
      ensures Clean() ==> old(Clean()) && r == Done
      ensures Clean() && old(transactionNestingLevel) > 0 ==>
                var m := old(State()).(level := old(transactionNestingLevel) - 1);
                Some(State()) == if autoCommit || m.level != 0 then Some(m)
                    else m.(rollbackOnly := false).Begun(platform)
      ensures reliable && old(Clean()) && old(transactionNestingLevel) > 0 ==>
                var m := old(State()).(level := old(transactionNestingLevel) - 1);
                autoCommit || m.level != 0 || m.(rollbackOnly := false).Begun(platform).Some? ==> Clean()
      ensures pool.calls == old(pool.calls) + calls && Honest(r, calls)
      ensures autoCommit || old(transactionNestingLevel) > 1 ==> calls == []
      ensures !autoCommit && old(transactionNestingLevel) <= 1 ==>
                Restarted(old(driverConnection) != null, platform, calls, r == Done)
    {
      hide Ran;
      if transactionNestingLevel != 0 {
        transactionNestingLevel := transactionNestingLevel - 1;
      }
      if autoCommit || transactionNestingLevel != 0 {
        return Done, [];
      }
      rollbackOnly := false;
      var answers: BeginAnswers := *;
      r, calls := BeginTransaction(answers);
      assert [] + [ToBegin] == [ToBegin];
    }

    /** The statement of a commit: COMMIT at level one, a release below. */
    method EndLevel() returns (r: Outcome, ghost calls: seq<Answered>)
      requires Valid() && transactionNestingLevel > 0 && !rollbackOnly
      modifies this, driverConnection, pool
      ensures Sound() && !rollbackOnly && autoCommit == old(autoCommit) && old(dropped) <= dropped
      ensures driverConnection == null || driverConnection == old(driverConnection)
      ensures LevelKept(old(transactionNestingLevel), false)
      ensures driverConnection != null && transactionNestingLevel <= 1 ==> !driverConnection.inTransaction
      ensures driverConnection != null && Clean() ==>
                (driverConnection.inTransaction <==> transactionNestingLevel > 1)
      ensures Clean() ==>
                && old(Clean()) && r == Done && old(State()).LevelEnded(platform).Some?
                && State() == old(State()).(db := old(State()).LevelEnded(platform).value)
      ensures reliable && old(Clean()) && old(State()).LevelEnded(platform).Some? ==> Clean()
      ensures pool.calls == old(pool.calls) + calls && Honest(r, calls)
      ensures r == Done ==> driverConnection != null
      ensures old(transactionNestingLevel) == 1 ==> calls == [Answered(ToCommit, r == Done)] && r != LibraryError
      ensures old(transactionNestingLevel) > 1 && !platform.supportsSavepoints ==>
                r == LibraryError && calls == [] && driverConnection == old(driverConnection)
      ensures old(transactionNestingLevel) > 1 && platform.supportsSavepoints ==>
                && r != LibraryError
                && var release := Command.ReleaseSavepoint(SavepointName(old(transactionNestingLevel)));
                   if !platform.supportsReleaseSavepoints then r == Done && calls == []
                   else calls == [Answered(ToExecute(release), r == Done)]
    {
      hide Watched, Lost, FindLast, Without, SavepointName, Ran, Db.Release, Db.Savepoint, Db.RollBackTo;
      r, calls := Connect();
      if transactionNestingLevel == 1 {
        var ok := driverConnection.Commit();
        calls := [Answered(ToCommit, ok)];
        assert calls[0].ok == ok;
        RanEmpty([], true);
        if !ok {
          var lost: bool := *;
          ConvertException(lost);
          r := ConvertedError;
        }
      } else {
        RanEmpty(calls, r == Done);
        r, calls := ReleaseSavepoint(SavepointName(transactionNestingLevel));
        StatementRan(Command.ReleaseSavepoint(SavepointName(old(transactionNestingLevel))), calls, r == Done);
        RanEmpty(calls, r == LibraryError);
        RanEmpty(calls, r == Done);
      }
    }

    method Commit() returns (r: Outcome, ghost calls: seq<Answered>)
      requires Valid()
      modifies this, driverConnection, pool
      ensures Valid() && autoCommit == old(autoCommit) && old(dropped) <= dropped
      ensures driverConnection == null || driverConnection == old(driverConnection) || fresh(driverConnection)
      ensures old(transactionNestingLevel == 0 || rollbackOnly) ==> r == LibraryError && unchanged(this)
      ensures old(transactionNestingLevel == 0 || rollbackOnly) && driverConnection != null ==>
              unchanged(driverConnection)
      ensures old(transactionNestingLevel > 0 && !rollbackOnly)
              && (autoCommit || (old(transactionNestingLevel) > 1
                                 && (r == Done || driverConnection == old(driverConnection)))) ==>
                LevelKept(old(transactionNestingLevel) - 1, false)
      ensures r == Done ==>
                transactionNestingLevel == if autoCommit || old(transactionNestingLevel) > 1
                                           then old(transactionNestingLevel) - 1 else 1
      ensures !platform.supportsSavepoints && old(transactionNestingLevel > 1 && !rollbackOnly) ==>
                r == LibraryError && transactionNestingLevel == old(transactionNestingLevel) - 1
                    && driverConnection == old(driverConnection)
      ensures Clean() ==> old(Clean()) && Some(State()) == old(State()).Commit(platform)
      ensures reliable && old(Clean()) && old(State()).Commit(platform).Some? ==> Clean()
      ensures Clean() && old(transactionNestingLevel > 0 && !rollbackOnly) ==> r == Done
      ensures pool.calls == old(pool.calls) + calls && Honest(r, calls)
      ensures old(transactionNestingLevel == 0 || rollbackOnly) ==> calls == []
      ensures old(transactionNestingLevel == 1 && !rollbackOnly) ==> CommitRan(ToCommit, !autoCommit, calls, r == Done)
      ensures old(transactionNestingLevel == 1 && !rollbackOnly) && !autoCommit ==>
                |calls| > 1 && (calls[1].call == ToBegin || calls[1].call == ToConnect)
      ensures old(transactionNestingLevel > 1 && !rollbackOnly) && platform.supportsSavepoints ==>
                if !platform.supportsReleaseSavepoints then calls == [] && r == Done
                else CommitRan(ToExecute(Command.ReleaseSavepoint(SavepointName(old(transactionNestingLevel)))), false,
                               calls, r == Done)
      ensures autoCommit ==> |calls| <= 1
      ensures autoCommit && r == LibraryError ==> calls == []
    {
      hide Watched, Lost, FindLast, Without, SavepointName, Ran, Restarted;
      if transactionNestingLevel == 0 || rollbackOnly {
        return LibraryError, [];
      }
      r, calls := EndLevel();
      ghost var first, connected := calls, driverConnection != null;
      var updated;
      ghost var more;
      updated, more := UpdateTransactionStateAfterCommit();
      AllOkAppend(first, more);
      calls := first + more;
      assert more == [] ==> calls == first;
      assert |first| == 1 ==> calls[1..] == more;
      if Restarted(connected, platform, more, updated == Done) {
        RestartedFirst(connected, platform, more, updated == Done);
        assert |first| == 1 ==> calls[1] == more[0];
      }
      if updated != Done {
        r := updated;
      }
    }

    /** rollBack at level one. */
    method RollBackOutermost() returns (r: Outcome, ghost calls: seq<Answered>)
      requires Valid() && driverConnection != null && transactionNestingLevel == 1
      modifies this, driverConnection, pool
      ensures Valid() && autoCommit == old(autoCommit) && old(dropped) <= dropped
      ensures driverConnection == null || driverConnection == old(driverConnection) || fresh(driverConnection)
      ensures autoCommit ==> transactionNestingLevel == 0 && !rollbackOnly
      ensures Clean() ==> old(Clean()) && r == Done && Some(State()) == old(State()).RollBack(platform)
      ensures reliable && old(Clean()) && old(State()).RollBack(platform).Some? ==> Clean()
      ensures pool.calls == old(pool.calls) + calls && Honest(r, calls)
      ensures RollBackRan(autoCommit, calls, r == Done) && r != LibraryError
    {
      hide Watched, Lost, FindLast, Without, SavepointName, Db.Begin, Ran;
      transactionNestingLevel := 0;
      var ok := driverConnection.RollBack();
      rollbackOnly := false;
      r, calls := Done, [Answered(ToRollBack, ok)];
      if !autoCommit {
        var answers: BeginAnswers := *;
        ghost var more;
        r, more := BeginTransaction(answers);
        assert [] + [ToBegin] == [ToBegin];
        RanSingle(ToBegin, more, r == Done);
        AllOkAppend(calls, more);
        calls := calls + more;
      }
      assert calls[0].ok == ok;
      if !ok && r == Done {
        var lost: bool := *;
        ConvertException(lost);
        r := ConvertedError;
      }
    }

    method RollBack() returns (r: Outcome, ghost calls: seq<Answered>)
      requires Valid()
      modifies this, driverConnection, pool
      ensures Valid() && autoCommit == old(autoCommit) && old(dropped) <= dropped
      ensures driverConnection == null || driverConnection == old(driverConnection) || fresh(driverConnection)
      ensures old(transactionNestingLevel == 0) ==> r == LibraryError && unchanged(this)
      ensures old(transactionNestingLevel == 0) && driverConnection != null ==> unchanged(driverConnection)
      ensures old(transactionNestingLevel == 1) && autoCommit ==> transactionNestingLevel == 0 && !rollbackOnly
      ensures old(transactionNestingLevel) > 1 ==>
                LevelKept(old(transactionNestingLevel) - (if r == Done then 1 else 0), old(rollbackOnly))
      ensures !platform.supportsSavepoints && old(transactionNestingLevel) > 1 ==>
                r == LibraryError && unchanged(this) && unchanged(driverConnection) && unchanged(pool)
      ensures Clean() ==> old(Clean()) && Some(State()) == old(State()).RollBack(platform)
      ensures reliable && old(Clean()) && old(State()).RollBack(platform).Some? ==> Clean()
      ensures Clean() && old(transactionNestingLevel > 0) ==> r == Done
      ensures pool.calls == old(pool.calls) + calls && Honest(r, calls)
      ensures old(transactionNestingLevel == 0) ==> calls == []
      ensures old(transactionNestingLevel == 1) ==> RollBackRan(autoCommit, calls, r == Done) && r != LibraryError
      ensures old(transactionNestingLevel) > 1 && !platform.supportsSavepoints ==> calls == []
      ensures old(transactionNestingLevel) > 1 && platform.supportsSavepoints ==>
                && r != LibraryError
                && calls == [Answered(ToExecute(Command.RollbackSavepoint(SavepointName(old(transactionNestingLevel)))),
                                      r == Done)]
    {
      hide Watched, Lost, FindLast, Without, SavepointName, Ran;
      calls := [];
      if transactionNestingLevel == 0 {
        return LibraryError, calls;
      }
      r, calls := Connect();
      RanEmpty(calls, r == Done);
      if transactionNestingLevel == 1 {
        r, calls := RollBackOutermost();
        return;
      }
      r, calls := RollbackSavepoint(SavepointName(transactionNestingLevel));
      StatementRan(Command.RollbackSavepoint(SavepointName(old(transactionNestingLevel))), calls, r == Done);
      RanEmpty(calls, r == LibraryError);
      if r == Done {
        transactionNestingLevel := transactionNestingLevel - 1;
      }
    }

    method SetRollbackOnly() returns (r: Outcome)
      requires Valid()
      modifies this
      ensures Valid() && clean == old(clean) && driverConnection == old(driverConnection) && dropped == old(dropped)
      ensures r == if old(transactionNestingLevel == 0) then LibraryError else Done
      ensures Some(State()) == old(State()).Step(Op.SetRollbackOnly, platform)
    {
      if transactionNestingLevel == 0 {
        return LibraryError;
      }
      rollbackOnly := true;
      r := Done;
    }

    /** Stops at the first commit that fails, and at a fresh transaction when auto-commit is off. */
    method CommitAll() returns (r: Outcome, ghost calls: seq<Answered>)
      requires Valid()
      modifies this, driverConnection, pool
      ensures Valid() && autoCommit == old(autoCommit) && old(dropped) <= dropped
      ensures driverConnection == null || driverConnection == old(driverConnection) || fresh(driverConnection)
      ensures r == Done && autoCommit ==> transactionNestingLevel == 0
      ensures r == Done && !autoCommit && old(transactionNestingLevel) > 0 ==> transactionNestingLevel == 1
      ensures Clean() ==> old(Clean()) && Some(State()) == old(State()).CommitAll(platform)
      ensures reliable && old(Clean()) && old(State()).CommitAll(platform).Some? ==> Clean()
      ensures pool.calls == old(pool.calls) + calls && Honest(r, calls)
    {
      hide Watched, Lost, Ran;
      r, calls := Done, [];
      ghost var start := State();
      while transactionNestingLevel != 0
        invariant Valid() && autoCommit == old(autoCommit) && old(dropped) <= dropped
        invariant driverConnection == null || driverConnection == old(driverConnection) || fresh(driverConnection)
        invariant Clean() ==> old(Clean()) && State().CommitAll(platform) == start.CommitAll(platform)
        invariant reliable && old(Clean()) && start.CommitAll(platform).Some? ==> Clean()
        invariant r == Done && (!autoCommit && old(transactionNestingLevel) > 0 ==> transactionNestingLevel > 0)
        invariant pool.calls == old(pool.calls) + calls && AllOk(calls)
        decreases transactionNestingLevel
      {
        if !autoCommit && transactionNestingLevel == 1 {
          ghost var last;
          r, last := Commit();
          AllOkAppend(calls, last);
          calls := calls + last;
          return;
        }
        ghost var more;
        r, more := Commit();
        AllOkAppend(calls, more);
        calls := calls + more;
        if r != Done {
          return;
        }
      }
    }

    method SetAutoCommit(flag: bool) returns (r: Outcome, ghost calls: seq<Answered>)
      requires Valid()
      modifies this, driverConnection, pool
      ensures Valid() && autoCommit == flag && old(dropped) <= dropped
      ensures flag == old(autoCommit) ==> r == Done && unchanged(this)
      ensures driverConnection == null || driverConnection == old(driverConnection) || fresh(driverConnection)
      ensures Clean() ==> old(Clean()) && Some(State()) == old(State()).Step(Op.SetAutoCommit(flag), platform)
      ensures reliable && old(Clean()) && old(State()).Step(Op.SetAutoCommit(flag), platform).Some? ==> Clean()
      ensures pool.calls == old(pool.calls) + calls && Honest(r, calls)
      ensures flag == old(autoCommit) || old(transactionNestingLevel) == 0 ==> r == Done && calls == []
    {
      if flag == autoCommit {
        return Done, [];
      }
      autoCommit := flag;
      if driverConnection == null || transactionNestingLevel == 0 {
        return Done, [];
      }
      r, calls := CommitAll();
    }

    /** close: what was not committed is gone. */
    method Close() returns (r: Outcome, ghost calls: seq<Answered>)
      requires Valid()
      modifies this, driverConnection, pool
      ensures Valid() && autoCommit == old(autoCommit) && old(dropped) <= dropped
      ensures r == Done ==> driverConnection == null && transactionNestingLevel == 0 && !rollbackOnly
      ensures old(driverConnection) != null ==>
                old(driverConnection).transactionClient.None? && !old(driverConnection).inTransaction
      ensures pool.acquired == pool.released + Lost(dropped) && Lost(dropped) == old(Lost(dropped))
      ensures Clean() ==> old(Clean()) && r == Done
      ensures Clean() && old(driverConnection) != null ==>
                data == if old(transactionNestingLevel) > 0 then old(State()).db.tx.value.start
                    else old(State()).db.data
      ensures pool.calls == old(pool.calls) + calls && Honest(r, calls)
      ensures calls == if old(driverConnection) == null then [] else [Answered(ToClose, r == Done)]
      ensures r != LibraryError && (old(driverConnection) == null ==> r == Done)
    {
      hide Watched, Lost;
      if driverConnection == null {
        return Done, [];
      }
      var ok := driverConnection.Close();
      calls := [Answered(ToClose, ok)];
      if !ok {
        var lost: bool := *;
        ConvertException(lost);
        assert !calls[0].ok;
        return ConvertedError, calls;
      }
      data := driverConnection.db.data;
      clean := clean && driverConnection.clean;
      ResetConnectionState();
      r := Done;
    }

    /** This connection is the stack of snapshots n. */
    ghost predicate Models(n: Nested)
      reads this, driverConnection, pool
    {
      reliable && Valid() && Clean() && Simulates(State(), n)
    }

    method Perform(op: Op) returns (r: Outcome, ghost calls: seq<Answered>)
      requires Valid()
      modifies this, driverConnection, pool
      ensures Valid() && old(dropped) <= dropped
      ensures driverConnection == null || driverConnection == old(driverConnection) || fresh(driverConnection)
      ensures Clean() ==> old(Clean()) && Some(State()) == old(State()).Step(op, platform)
      ensures reliable && old(Clean()) && old(State()).Step(op, platform).Some? ==> Clean()
      ensures pool.calls == old(pool.calls) + calls && Honest(r, calls)
    {
      match op
      case Begin =>
        var answers: BeginAnswers := *;
        r, calls := BeginTransaction(answers);
      case Commit => r, calls := Commit();
      case RollBack => r, calls := RollBack();
      case Write(d) => r, calls := ExecuteStatement(ChangeData(d));
      case SetRollbackOnly =>
        r := SetRollbackOnly();
        calls := [];
      case SetAutoCommit(flag) => r, calls := SetAutoCommit(flag);
      case Connect => r, calls := Connect();
    }

    /**
      * Any run: whatever fails, the driver is never asked to begin twice and keeps to one client,
      * and the pool is balanced unless a connection was lost while its driver held a client. As
      * long as nothing fails the connection is the machine; where nothing can fail it is a stack of
      * snapshots, on platforms without savepoints for runs that do not nest.
      */
    method Run(ops: seq<Op>)
      requires Valid()
      modifies this, driverConnection, pool
      ensures Valid() && old(dropped) <= dropped
      ensures Balanced() <==> NoneHeld(dropped)
      ensures Clean() ==> old(Clean()) && Some(State()) == old(State()).Run(ops, platform)
      ensures forall n: Nested | old(Models(n)) && (platform.supportsSavepoints || IsFlat(n, ops)) :: Models(n.Run(ops))
      decreases |ops|
    {
      BalancedUnlessLost();
      if ops == [] {
        return;
      }
      var r;
      ghost var calls;
      r, calls := Perform(ops[0]);
      forall n: Nested | old(Models(n)) && (platform.supportsSavepoints || IsFlat(n, ops))
        ensures Models(n.Step(ops[0]))
      {
        SimulatesStep(old(State()), n, ops[0], platform);
      }
      Run(ops[1..]);
    }

    /** The begin on which the pool is lost a client: the client is acquired and BEGIN loses the connection. */
    method LoseClient()
      requires Valid() && pooled && !reliable && Balanced()
      requires driverConnection != null && transactionNestingLevel == 0 && Held().None?
      modifies this, driverConnection, pool
      ensures Valid() && driverConnection == null && !Balanced()
      ensures dropped == old(dropped) + [Some(old(pool.acquired))]
    {
      BalancedUnlessLost();
      NothingLost(dropped);
      var r;
      ghost var calls;
      r, calls := BeginTransaction(BeginAnswers(true, false, true));
      BalancedUnlessLost();
      assert dropped[|dropped| - 1].Some?;
    }
  }
}
