/**
  * Replica routing (src/connections/primary-read-replica-connection.ts over src/connection.ts)
  * when any connection attempt and any statement may fail and any failure may lose the connection.
  *
  * Driver connections are numbered in the order they are opened; `openedAs` says with whose
  * parameters each one was opened, `trace` what was sent to which of them, `failures` how often the
  * outside refused something, and `closed` what was closed.
  */
module Replicas {
  import opened Text
  import Savepoints

  datatype Name = Primary | Replica

  datatype Statement =
    | Query | Write | Begin | Commit | RollBack
    | CreateSavepoint(name: string) | ReleaseSavepoint(name: string) | RollbackSavepoint(name: string)

  /** A statement, the connection it ran on, whether it was answered, and what was known when it was sent. */
  datatype Sent = Sent(handle: nat, statement: Statement, ok: bool, level: nat, primary: Option<nat>)

  /** How a call ends; closing the other connections lets the driver's error through. */
  datatype Outcome = Done | LibraryError | ConvertedError | DriverError

  class PrimaryReadReplicaConnection {
    const keepReplica: bool
    const supportsSavepoints: bool
    const supportsReleaseSavepoints: bool
    var primary: Option<nat>
    var replica: Option<nat>
    var current: Option<nat>
    var level: nat
    var rollbackOnly: bool
    var autoCommit: bool

    var openedAs: seq<Name>
    var trace: seq<Sent>
    var failures: nat
    var closed: seq<nat>

    constructor (keepReplica: bool, savepoints: bool, releases: bool, autoCommit: bool)
      ensures Valid() && this.keepReplica == keepReplica && this.autoCommit == autoCommit
      ensures supportsSavepoints == savepoints && supportsReleaseSavepoints == releases
      ensures primary.None? && replica.None? && current.None? && level == 0 && trace == [] && failures == 0
    {
      this.keepReplica, supportsSavepoints, supportsReleaseSavepoints := keepReplica, savepoints, releases;
      primary, replica, current, level, rollbackOnly := None, None, None, 0, false;
      this.autoCommit, openedAs, trace, failures, closed := autoCommit, [], [], 0, [];
    }

    /** The connection was opened and, for the primary, with the parameters of the primary. */
    ghost predicate Opened(handle: Option<nat>, asPrimary: bool)
      reads this`openedAs
    {
      handle.Some? ==> handle.value < |openedAs| && (asPrimary ==> openedAs[handle.value] == Primary)
    }

    /** All but reads and everything inside a transaction reach the primary; so do reads once it is open. */
    ghost predicate Routed(s: Sent)
      reads this`openedAs
    {
      && s.handle < |openedAs|
      && (s.statement != Query || s.level > 0 ==> openedAs[s.handle] == Primary)
      && (!keepReplica && s.primary.Some? ==> s.handle == s.primary.value)
    }

    ghost predicate Valid()
      reads this
    {
      && Opened(primary, true) && Opened(replica, false) && Opened(current, false)
      && (current.Some? ==> current == primary || current == replica)
      && (level > 0 ==> current.Some? && current == primary)
      && (rollbackOnly ==> level > 0)
      && (!keepReplica && primary.Some? ==> replica == primary && (current.Some? ==> current == primary))
      && forall s | s in trace :: Routed(s)
    }

    /** What every method but close keeps: the primary once open, the connections and what was sent. */
    twostate predicate Grows()
      reads this
    {
      && autoCommit == old(autoCommit)
      && (old(primary).Some? ==> primary == old(primary))
      && old(openedAs) <= openedAs && closed == old(closed)
      && old(trace) <= trace
    }

    /** Done: the outside refused nothing. A converted error: it did. */
    twostate predicate Honest(r: Outcome)
      reads this
    {
      && old(failures) <= failures
      && (r == Done ==> failures == old(failures))
      && (r == ConvertedError || r == DriverError ==> failures > old(failures))
    }

    /** The level and the flag are as they were, unless the connection was lost. */
    twostate predicate Kept()
      reads this
    {
      LostOr(old(level), old(rollbackOnly))
    }

    predicate LostOr(expected: nat, flag: bool)
      reads this
    {
      (current.None? && level == 0 && !rollbackOnly) || (level == expected && rollbackOnly == flag)
    }

    /** What is sent to the primary once it is open. */
    predicate SentToPrimary(before: seq<Sent>, statement: Statement, ok: bool, at: nat)
      reads this
    {
      if primary.None? then trace == before && !ok
      else trace == before + [Sent(primary.value, statement, ok, at, primary)]
    }

    twostate lemma GrowsKeepsRouted(s: Sent)
      requires old(openedAs) <= openedAs && old(Routed(s))
      ensures Routed(s)
    {
      assert openedAs[s.handle] == old(openedAs)[s.handle];
    }

    /** The outside answers or refuses. */
    method Ask() returns (ok: bool)
      modifies this`failures
      ensures failures == old(failures) + if ok then 0 else 1
    {
      ok := *;
      if !ok {
        failures := failures + 1;
      }
    }

    method ResetConnectionState()
      requires Valid()
      modifies this`current, this`level, this`rollbackOnly
      ensures Valid() && Grows() && current.None? && level == 0 && !rollbackOnly
    {
      current, level, rollbackOnly := None, 0, false;
    }

    method ConvertException(lost: bool)
      requires Valid()
      modifies this`current, this`level, this`rollbackOnly
      ensures Valid() && Grows()
      ensures if lost then current.None? && level == 0 && !rollbackOnly
              else current == old(current) && level == old(level) && rollbackOnly == old(rollbackOnly)
    {
      if lost {
        ResetConnectionState();
      }
    }

    method ConnectTo(name: Name) returns (r: Option<nat>)
      requires Valid()
      modifies this`openedAs, this`current, this`level, this`rollbackOnly, this`failures
      ensures Valid() && Grows() && Kept()
      ensures failures == old(failures) + if r.Some? then 0 else 1
      ensures r.Some? ==> r.value == |old(openedAs)| && openedAs == old(openedAs) + [name]
      ensures r.Some? ==> current == old(current) && level == old(level) && rollbackOnly == old(rollbackOnly)
      ensures r.None? ==> openedAs == old(openedAs) && (current.None? || current == old(current))
    {
      var ok := Ask();
      if !ok {
        var lost: bool := *;
        ConvertException(lost);
        return None;
      }
      r := Some(|openedAs|);
      openedAs := openedAs + [name];
      forall s | s in trace ensures Routed(s) {
        GrowsKeepsRouted(s);
      }
    }

    /** Inside a transaction the primary is selected, whatever is asked for. */
    function Selected(name: Option<Name>): Name
      reads this
    {
      if name == Some(Primary) || level > 0 then Primary else Replica
    }

    function Existing(name: Name): Option<nat>
      reads this
    {
      match name case Primary => primary case Replica => replica
    }

    /** The current connection, the one that is selected and open, or a new one. */
    method PerformConnect(name: Option<Name>) returns (r: Option<nat>)
      requires Valid()
      modifies this`openedAs, this`primary, this`replica, this`current, this`level, this`rollbackOnly, this`failures
      ensures Valid() && Grows() && Kept()
      ensures failures == old(failures) + if r.Some? then 0 else 1
      ensures r.Some? ==> current == r && level == old(level) && rollbackOnly == old(rollbackOnly)
      ensures name.None? && old(current).Some? ==> r == old(current) && unchanged(this)
      ensures var selected, existing := old(Selected(name)), old(Existing(Selected(name)));
              name.Some? || old(current).None? ==>
                && (existing.Some? ==> r == existing && openedAs == old(openedAs))
                && (existing.None? && r.Some? ==>
                      r.value == |old(openedAs)| && openedAs == old(openedAs) + [selected])
                && (r.None? ==> existing.None? && openedAs == old(openedAs))
                && primary == (if selected == Primary && r.Some? then r else old(primary))
                && replica == (if r.Some? && (selected == Replica || !keepReplica) then r else old(replica))
    {
      if current.Some? && name.None? {
        return current;
      }
      var selected := if name == Some(Primary) || level > 0 then Primary else Replica;
      var forcePrimaryAsReplica := level > 0;
      var existing := if selected == Primary then primary else replica;
      if existing.Some? {
        current := existing;
        if forcePrimaryAsReplica && !keepReplica {
          replica := existing;
        }
        return existing;
      }
      r := ConnectTo(selected);
      if r.None? {
        return;
      }
      current := r;
      if selected == Primary {
        primary := r;
        if !keepReplica {
          replica := r;
        }
      } else {
        replica := r;
      }
    }

    /**
      * connect: a connection name is refused; otherwise the current connection, or a replica.
      * Without auto-commit the first connection begins a transaction, on the primary.
      */
    method Connect(name: Option<string>) returns (r: Outcome)
      requires Valid()
      modifies this
      ensures Valid() && Grows() && Honest(r)
      ensures name.Some? ==> r == LibraryError && unchanged(this)
      ensures name.None? ==> r == Done || r == ConvertedError
      ensures name.None? && old(current).Some? ==> r == Done && unchanged(this)
      ensures old(current).None? && autoCommit ==> trace == old(trace) && level == 0 && (primary == old(primary))
      ensures r == Done ==> current.Some?
      ensures r == Done && old(current).None? && autoCommit ==>
                current == replica && (old(replica).Some? ==> current == old(replica))
      ensures r == Done && old(current).None? && !autoCommit ==>
                && current == primary && level == 1 && !rollbackOnly
                && trace == old(trace) + [Sent(primary.value, Begin, true, 1, primary)]
      decreases if current.None? then 3 else 0
    {
      if name.Some? {
        return LibraryError;
      }
      if current.Some? {
        return Done;
      }
      var connection := PerformConnect(None);
      if connection.None? {
        return ConvertedError;
      }
      var resolved := Ask();
      if !resolved {
        var lost: bool := *;
        ConvertException(lost);
        return ConvertedError;
      }
      if !autoCommit {
        r := BeginTransaction();
        if r != Done {
          return;
        }
      }
      r := Done;
    }

    method EnsureConnectedToPrimary() returns (r: Outcome)
      requires Valid()
      modifies this`openedAs, this`primary, this`replica, this`current, this`level, this`rollbackOnly, this`failures
      ensures Valid() && Grows() && Kept() && Honest(r)
      ensures r == if primary.Some? then Done else ConvertedError
      ensures r == Done ==>
                current.Some? && current == primary && level == old(level) && rollbackOnly == old(rollbackOnly)
    {
      var connection := PerformConnect(Some(Primary));
      r := if connection.Some? then Done else ConvertedError;
    }

    /** Outside a transaction the replica may be used, unless the primary has taken its place. */
    method EnsureConnectedToReplica() returns (r: Outcome)
      requires Valid()
      modifies this`openedAs, this`primary, this`replica, this`current, this`level, this`rollbackOnly, this`failures
      ensures Valid() && Grows() && Kept() && Honest(r)
      ensures r == Done || r == ConvertedError
      ensures r == Done ==> current.Some? && level == old(level) && rollbackOnly == old(rollbackOnly)
      ensures r == Done ==> current == (if level > 0 then primary else replica)
      ensures r == Done && level == 0 && old(replica).Some? ==> current == old(replica)
      ensures r == Done && !keepReplica && primary.Some? ==> current == primary
      ensures r == Done && level == 0 && old(replica).None? ==> openedAs[current.value] == Replica
    {
      var connection := PerformConnect(Some(Replica));
      r := if connection.Some? then Done else ConvertedError;
    }

    /** One round trip on the current connection. */
    method Send(statement: Statement) returns (ok: bool)
      requires Valid() && current.Some? && (statement != Query ==> current == primary)
      modifies this`trace, this`failures
      ensures Valid() && Grows() && failures == old(failures) + if ok then 0 else 1
      ensures trace == old(trace) + [Sent(current.value, statement, ok, level, primary)]
    {
      ok := Ask();
      trace := trace + [Sent(current.value, statement, ok, level, primary)];
    }

    /** executeQuery: reads use whatever connection is current. */
    method ExecuteQuery() returns (r: Outcome)
      requires Valid()
      modifies this
      ensures Valid() && Grows() && Honest(r)
      ensures r == Done || r == ConvertedError
      ensures old(current).Some? ==>
                && Kept() && primary == old(primary)
                && trace == old(trace) + [Sent(old(current).value, Query, r == Done, old(level), old(primary))]
      ensures old(current).None? && autoCommit && r == Done ==>
                && current.Some? && current == replica && level == 0
                && trace == old(trace) + [Sent(replica.value, Query, true, 0, primary)]
      ensures old(current).None? && !autoCommit && r == Done ==>
                && current.Some? && current == primary && level == 1
                && trace == old(trace) + [Sent(primary.value, Begin, true, 1, primary),
                                          Sent(primary.value, Query, true, 1, primary)]
    {
      r := Connect(None);
      if r != Done {
        return;
      }
      var ok := Send(Query);
      if !ok {
        var lost: bool := *;
        ConvertException(lost);
        return ConvertedError;
      }
    }

    /**
      * executeStatement, and prepare but for the statement it returns. The statement runs inside a
      * transaction only where one was open before, with or without auto-commit: the primary is
      * connected directly, after which connect has no transaction to begin.
      */
    method ExecuteStatement(statement: Statement) returns (r: Outcome)
      requires Valid() && statement != Query
      modifies this
      ensures Valid() && Grows() && Honest(r) && Kept()
      ensures r == Done || r == ConvertedError
      ensures r == Done ==>
                current.Some? && current == primary && level == old(level) && rollbackOnly == old(rollbackOnly)
      ensures SentToPrimary(old(trace), statement, r == Done, old(level))
      decreases 1, 0
    {
      r := EnsureConnectedToPrimary();
      if r != Done {
        return;
      }
      r := Connect(None);
      var ok := Send(statement);
      if !ok {
        var lost: bool := *;
        ConvertException(lost);
        return ConvertedError;
      }
    }

    method BeginTransaction() returns (r: Outcome)
      requires Valid()
      modifies this
      ensures Valid() && Grows() && Honest(r)
      ensures r == Done ==>
                current.Some? && current == primary && level == old(level) + 1 && rollbackOnly == old(rollbackOnly)
      ensures primary.None? ==> Kept() && r == ConvertedError
      ensures primary.Some? ==> LostOr(old(level) + 1, old(rollbackOnly))
      ensures r == LibraryError <==> primary.Some? && old(level) > 0 && !supportsSavepoints
      ensures r != DriverError
      ensures if old(level) == 0 then SentToPrimary(old(trace), Begin, r == Done, 1)
              else if !supportsSavepoints then trace == old(trace)
              else SentToPrimary(old(trace), CreateSavepoint(Savepoints.SavepointName(old(level) + 1)), r == Done,
                                 old(level) + 1)
      decreases 2
    {
      r := EnsureConnectedToPrimary();
      if r != Done {
        return;
      }
      r := Connect(None);
      level := level + 1;
      if level == 1 {
        var ok := Send(Begin);
        if !ok {
          var lost: bool := *;
          ConvertException(lost);
          return ConvertedError;
        }
        return Done;
      }
      r := SavepointStatement(Some(CreateSavepoint(Savepoints.SavepointName(level))));
    }

    /** createSavepoint, releaseSavepoint and rollbackSavepoint; the second may have nothing to send. */
    method SavepointStatement(statement: Option<Statement>) returns (r: Outcome)
      requires Valid() && (statement.Some? ==> statement.value != Query)
      modifies this
      ensures Valid() && Grows() && Honest(r) && Kept()
      ensures r == Done ==>
                current.Some? && current == primary && level == old(level) && rollbackOnly == old(rollbackOnly)
      ensures primary.None? ==> r == ConvertedError
      ensures r == LibraryError <==> primary.Some? && !supportsSavepoints
      ensures r == LibraryError ==> level == old(level) && rollbackOnly == old(rollbackOnly) && current == primary
      ensures r != DriverError
      ensures if !supportsSavepoints || statement.None?
              then trace == old(trace) && (primary.Some? ==> r != ConvertedError)
              else SentToPrimary(old(trace), statement.value, r == Done, old(level))
      decreases 1, 1
    {
      r := EnsureConnectedToPrimary();
      if r != Done {
        return;
      }
      r := Connect(None);
      if !supportsSavepoints {
        return LibraryError;
      }
      if statement.Some? {
        r := ExecuteStatement(statement.value);
      }
    }

    /** What was sent since: one statement, and a begin where auto-commit is off. */
    predicate Ended(before: seq<Sent>, statement: Statement, at: nat, ok: bool)
      reads this
    {
      var n := |before|;
      && primary.Some? && before <= trace && |trace| == n + (if autoCommit then 1 else 2)
      && trace[n] == Sent(primary.value, statement, trace[n].ok, at, primary)
      && (!autoCommit ==> trace[n + 1] == Sent(primary.value, Begin, trace[n + 1].ok, 1, primary))
      && (ok <==> trace[n].ok && (autoCommit || trace[n + 1].ok))
    }

    /** The statement of a commit: COMMIT at level one, a release below. */
    method EndLevel() returns (r: Outcome)
      requires Valid() && level > 0 && !rollbackOnly
      modifies this
      ensures Valid() && Grows() && Honest(r) && Kept() && primary == old(primary) && r != DriverError
      ensures r == Done ==> level == old(level)
      ensures old(level) == 1 ==>
                && r != LibraryError
                && trace == old(trace) + [Sent(old(primary).value, Statement.Commit, r == Done, 1, old(primary))]
      ensures old(level) > 1 && !supportsSavepoints ==>
                r == LibraryError && trace == old(trace) && level == old(level)
      ensures old(level) > 1 && supportsSavepoints && !supportsReleaseSavepoints ==> r == Done && trace == old(trace)
      ensures old(level) > 1 && supportsSavepoints && supportsReleaseSavepoints ==>
                && r != LibraryError
                && var release := ReleaseSavepoint(Savepoints.SavepointName(old(level)));
                   trace == old(trace) + [Sent(old(primary).value, release, r == Done, old(level), old(primary))]
    {
      hide Routed;
      r := Connect(None);
      if level == 1 {
        var ok := Send(Statement.Commit);
        if !ok {
          var lost: bool := *;
          ConvertException(lost);
          r := ConvertedError;
        }
      } else {
        var release := ReleaseSavepoint(Savepoints.SavepointName(level));
        r := SavepointStatement(if supportsReleaseSavepoints then Some(release) else None);
      }
    }

    /** Even without a transaction, the primary is connected first. */
    method Commit() returns (r: Outcome)
      requires Valid()
      modifies this
      ensures Valid() && Grows() && Honest(r)
      ensures primary.None? ==> r == ConvertedError && trace == old(trace) && Kept()
      ensures primary.Some? && old(level == 0 || rollbackOnly) ==>
                r == LibraryError && trace == old(trace) && current == primary
                && level == old(level) && rollbackOnly == old(rollbackOnly)
      ensures old(level == 1 && !rollbackOnly) ==>
                && r != LibraryError && Ended(old(trace), Statement.Commit, 1, r == Done)
                && (autoCommit ==> level == 0)
      ensures old(level > 1 && !rollbackOnly) && !supportsSavepoints ==>
                r == LibraryError && trace == old(trace) && level == old(level) - 1
      ensures old(level > 1 && !rollbackOnly) && supportsSavepoints ==>
                && (r == Done ==> level == old(level) - 1)
                && if !supportsReleaseSavepoints then r == Done && trace == old(trace)
                   else
                     && primary.Some? && |trace| > |old(trace)|
                     && trace[|old(trace)|]
                        == Sent(primary.value, ReleaseSavepoint(Savepoints.SavepointName(old(level))), r == Done,
                                old(level), primary)
                     && (r == Done ==> |trace| == |old(trace)| + 1)
      ensures r == Done ==> !rollbackOnly && level == if autoCommit || old(level) > 1 then old(level) - 1 else 1
    {
      hide Routed;
      r := EnsureConnectedToPrimary();
      if r != Done {
        return;
      }
      if level == 0 || rollbackOnly {
        return LibraryError;
      }
      r := EndLevel();
      if level != 0 {
        level := level - 1;
      }
      if !autoCommit && level == 0 {
        rollbackOnly := false;
        var begun := BeginTransaction();
        if begun != Done {
          r := begun;
        }
      }
    }

    /** rollBack at level one. */
    method RollBackOutermost() returns (r: Outcome)
      requires Valid() && level == 1
      modifies this
      ensures Valid() && Grows() && Honest(r) && r != LibraryError && r != DriverError
      ensures Ended(old(trace), Statement.RollBack, 0, r == Done)
      ensures !rollbackOnly && (autoCommit ==> level == 0) && (!autoCommit && r == Done ==> level == 1)
    {
      hide Routed;
      r := Done;
      level := 0;
      rollbackOnly := false;
      var ok := Send(Statement.RollBack);
      if !autoCommit {
        r := BeginTransaction();
      }
      if !ok && r == Done {
        var lost: bool := *;
        ConvertException(lost);
        r := ConvertedError;
      }
    }

    method RollBack() returns (r: Outcome)
      requires Valid()
      modifies this
      ensures Valid() && Grows() && Honest(r)
      ensures primary.None? ==> r == ConvertedError && trace == old(trace) && Kept()
      ensures primary.Some? && old(level) == 0 ==>
                r == LibraryError && trace == old(trace) && current == primary && level == 0
      ensures old(level) == 1 ==>
                && r != LibraryError && Ended(old(trace), Statement.RollBack, 0, r == Done)
                && !rollbackOnly && (autoCommit ==> level == 0) && (!autoCommit && r == Done ==> level == 1)
      ensures old(level) > 1 && !supportsSavepoints ==>
                r == LibraryError && trace == old(trace) && level == old(level) && rollbackOnly == old(rollbackOnly)
      ensures old(level) > 1 && supportsSavepoints ==>
                && r != LibraryError
                && LostOr(if r == Done then old(level) - 1 else old(level), old(rollbackOnly))
                && (r == Done ==> level == old(level) - 1)
                && SentToPrimary(old(trace), RollbackSavepoint(Savepoints.SavepointName(old(level))), r == Done,
                                 old(level))
    {
      hide Routed;
      r := EnsureConnectedToPrimary();
      if r != Done {
        return;
      }
      if level == 0 {
        return LibraryError;
      }
      r := Connect(None);
      if level == 1 {
        r := RollBackOutermost();
        return;
      }
      r := SavepointStatement(Some(RollbackSavepoint(Savepoints.SavepointName(level))));
      if r == Done {
        level := level - 1;
      }
    }

    /** Stops at the first commit that fails, and at a fresh transaction when auto-commit is off. */
    method CommitAll() returns (r: Outcome)
      requires Valid()
      modifies this
      ensures Valid() && Grows() && Honest(r)
      ensures r == Done && autoCommit ==> level == 0
      ensures r == Done && !autoCommit && old(level) > 0 ==> level == 1
      ensures old(level) == 0 ==> r == Done && unchanged(this)
      ensures old(level) > 0 && rollbackOnly ==> r != Done
    {
      hide Routed;
      r := Done;
      while level != 0
        invariant Valid() && Grows() && Honest(Done) && r == Done
        invariant !autoCommit && old(level) > 0 ==> level > 0
        invariant old(level) == 0 ==> unchanged(this)
        invariant old(level) > 0 ==> level <= old(level) && (rollbackOnly ==> level == old(level))
        decreases level
      {
        if !autoCommit && level == 1 {
          r := Commit();
          return;
        }
        r := Commit();
        if r != Done {
          return;
        }
      }
    }

    /** setAutoCommit commits what is open; no transaction is begun where none was. */
    method SetAutoCommit(flag: bool) returns (r: Outcome)
      requires Valid()
      modifies this
      ensures Valid() && autoCommit == flag && Honest(r)
      ensures old(primary).Some? ==> primary == old(primary)
      ensures old(openedAs) <= openedAs && old(trace) <= trace
      ensures flag == old(autoCommit) ==> r == Done && unchanged(this)
      ensures old(level) == 0 ==> r == Done && level == 0 && trace == old(trace) && current == old(current)
      ensures flag != old(autoCommit) && old(level) > 0 && r == Done ==> level == if flag then 0 else 1
    {
      if flag == autoCommit {
        return Done;
      }
      autoCommit := flag;
      if current.None? || level == 0 {
        return Done;
      }
      label Committing:
      r := CommitAll();
      assert Grows@Committing() && Honest@Committing(r);
    }

    method SetRollbackOnly() returns (r: Outcome)
      requires Valid()
      modifies this`rollbackOnly
      ensures Valid() && Grows() && Honest(r)
      ensures r == if level == 0 then LibraryError else Done
      ensures rollbackOnly == (old(rollbackOnly) || level > 0)
    {
      if level == 0 {
        return LibraryError;
      }
      rollbackOnly := true;
      r := Done;
    }

    method CloseOne(handle: nat) returns (ok: bool)
      modifies this`closed, this`failures
      ensures failures == old(failures) + if ok then 0 else 1
      ensures closed == if ok then old(closed) + [handle] else old(closed)
    {
      ok := Ask();
      if ok {
        closed := closed + [handle];
      }
    }

    /** The loop of close, which ends where a connection does not close. */
    method CloseAll(connections: seq<nat>) returns (ok: bool)
      modifies this`closed, this`failures
      ensures failures == old(failures) + if ok then 0 else 1
      ensures old(closed) <= closed <= old(closed) + connections
      ensures ok ==> closed == old(closed) + connections
    {
      for i := 0 to |connections|
        invariant failures == old(failures) && closed == old(closed) + connections[..i]
      {
        ok := CloseOne(connections[i]);
        if !ok {
          return;
        }
        assert connections[..i + 1] == connections[..i] + [connections[i]];
      }
      assert connections[..|connections|] == connections;
      ok := true;
    }

    /** The connections that are open, the current one first. */
    function OpenConnections(): (r: seq<nat>)
      reads this
      ensures forall h :: h in r <==> Some(h) == current || Some(h) == primary || Some(h) == replica
      ensures forall i, j | 0 <= i < j < |r| :: r[i] != r[j]
      ensures current.Some? ==> r != [] && r[0] == current.value
    {
      (if current.Some? then [current.value] else [])
      + (if primary.Some? && primary != current then [primary.value] else [])
      + (if replica.Some? && replica != current && replica != primary then [replica.value] else [])
    }

    /** close: only when every connection closed are they forgotten. */
    method Close() returns (r: Outcome)
      requires Valid()
      modifies this`primary, this`replica, this`current, this`level, this`rollbackOnly, this`closed, this`failures
      ensures Valid() && autoCommit == old(autoCommit) && openedAs == old(openedAs) && trace == old(trace)
      ensures Honest(r) && r != LibraryError
      ensures old(closed) <= closed <= old(closed) + old(OpenConnections())
      ensures r == Done ==> closed == old(closed) + old(OpenConnections())
      ensures r == Done ==> primary.None? && replica.None? && current.None? && level == 0 && !rollbackOnly
      ensures r != Done ==> primary == old(primary) && replica == old(replica)
      ensures r == ConvertedError ==> closed == old(closed) && Kept()
      ensures r == DriverError ==> current.None? && level == 0 && !rollbackOnly
    {
      hide Routed, Opened;
      var connections := OpenConnections();
      if current.Some? {
        assert connections == [current.value] + connections[1..];
        var ok := CloseOne(current.value);
        if !ok {
          var lost: bool := *;
          ConvertException(lost);
          return ConvertedError;
        }
        ResetConnectionState();
        connections := connections[1..];
      }
      var closedAll := CloseAll(connections);
      if !closedAll {
        return DriverError;
      }
      primary, replica := None, None;
      ResetConnectionState();
      r := Done;
    }
  }
}
