/**
  * runSerial of the mssql connection (src/driver/mssql/connection.ts) as promise steps, in every
  * interleaving: reactions fire at any time after their promise has settled, works settle at any
  * time after they have started, and calls come at any time.
  */
module SerialQueue {
  import opened Text

  datatype Promise = Pending | Fulfilled | Rejected

  /** The two kinds of callbacks; both are registered for fulfilment and for rejection. */
  datatype Handler = StartWork(call: nat) | ReturnUndefined

  datatype Reaction = Reaction(source: nat, handler: Handler, target: nat, fired: bool)

  datatype Work = Waiting | Running | Settled(ok: bool)

  datatype Event = Started(call: nat) | Ended(call: nat, ok: bool)

  datatype State = State(promises: seq<Promise>, reactions: seq<Reaction>, works: seq<Work>, serialQueue: nat,
                         log: seq<Event>) {

    /** source.then(handler, handler) */
    function Then(source: nat, handler: Handler): State {
      State(promises + [Pending], reactions + [Reaction(source, handler, |promises|, false)], works, serialQueue, log)
    }

    /** The body of runSerial; the promise before the last is what the caller gets. */
    function RunSerial(): State {
      var call := |works|;
      var current := |promises|;
      var s := Then(serialQueue, StartWork(call)).(works := works + [Waiting]);
      var tail := |s.promises|;
      s.Then(current, ReturnUndefined).(serialQueue := tail)
    }
  }

  datatype Step =
    | Call                      // some caller calls runSerial
    | Fire(reaction: nat)       // the callback of a settled promise runs
    | Finish(call: nat, ok: bool) // a running work settles
    | Adopt(reaction: nat)      // the promise of a work's callback settles like the work

  function Apply(s: State, step: Step): Option<State> {
    match step
    case Call => Some(s.RunSerial())
    case Fire(k) =>
      if k >= |s.reactions| || s.reactions[k].fired then None
      else
        var r := s.reactions[k];
        if r.source >= |s.promises| || r.target >= |s.promises| || s.promises[r.source] == Pending then None
        else
          var reactions := s.reactions[k := r.(fired := true)];
          match r.handler {
            case StartWork(i) =>
              if i >= |s.works| then None
              else Some(s.(reactions := reactions, works := s.works[i := Running], log := s.log + [Started(i)]))
            case ReturnUndefined =>
              Some(s.(reactions := reactions, promises := s.promises[r.target := Fulfilled]))
          }
    case Finish(i, ok) =>
      if i >= |s.works| || s.works[i] != Running then None
      else Some(s.(works := s.works[i := Settled(ok)], log := s.log + [Ended(i, ok)]))
    case Adopt(k) =>
      if k >= |s.reactions| || !s.reactions[k].fired || !s.reactions[k].handler.StartWork? then None
      else
        var i, target := s.reactions[k].handler.call, s.reactions[k].target;
        if i >= |s.works| || target >= |s.promises| || !s.works[i].Settled? || s.promises[target] != Pending then None
        else Some(s.(promises := s.promises[target := if s.works[i].ok then Fulfilled else Rejected]))
  }

  function Initial(): State { State([Fulfilled], [], [], 0, []) }

  function Run(s: State, steps: seq<Step>): Option<State>
    decreases |steps|
  {
    if steps == [] then Some(s)
    else
      var next := Apply(s, steps[0]);
      if next.None? then None else Run(next.value, steps[1..])
  }

  // ---------------------------------------------------------------------------------------
  // The invariant
  // ---------------------------------------------------------------------------------------

  /** Call i waits on promise 2i, settles promise 2i + 1, and its tail is promise 2i + 2. */
  ghost predicate Linked(s: State, i: nat)
    requires i < |s.works| && |s.promises| == 2 * |s.works| + 1 && |s.reactions| == 2 * |s.works|
  {
    && s.reactions[2 * i] == Reaction(2 * i, StartWork(i), 2 * i + 1, s.works[i] != Waiting)
    && s.reactions[2 * i + 1] == Reaction(2 * i + 1, ReturnUndefined, 2 * i + 2, s.promises[2 * i + 2] != Pending)
    && (s.works[i] != Waiting ==> s.promises[2 * i] != Pending)
    && (s.promises[2 * i + 1] != Pending ==>
          s.works[i].Settled? && (s.promises[2 * i + 1] == Fulfilled) == s.works[i].ok)
    && (s.promises[2 * i + 2] != Pending ==> s.promises[2 * i + 1] != Pending && s.promises[2 * i + 2] == Fulfilled)
  }

  ghost predicate Valid(s: State) {
    && |s.promises| == 2 * |s.works| + 1 && |s.reactions| == 2 * |s.works|
    && s.serialQueue == 2 * |s.works| && s.promises[0] == Fulfilled
    && (forall i: nat | i < |s.works| :: Linked(s, i))
    && s.log == SerialLog(s.works)
  }

  /** One work after the other, in the order of the calls. */
  function SerialLog(works: seq<Work>): seq<Event> {
    if works == [] then []
    else
      var i, last := |works| - 1, works[|works| - 1];
      SerialLog(works[..i]) + match last
                              case Waiting => []
                              case Running => [Started(i)]
                              case Settled(ok) => [Started(i), Ended(i, ok)]
  }

  /** A work that has started has all earlier works behind it. */
  lemma {:induction false} EarlierAreSettled(s: State, i: nat, j: nat)
    requires Valid(s) && j < i < |s.works| && s.works[i] != Waiting
    ensures s.works[j].Settled? && s.promises[2 * j + 2] != Pending
    decreases i
  {
    assert Linked(s, i) && Linked(s, i - 1);
    if j < i - 1 {
      EarlierAreSettled(s, i - 1, j);
    }
  }

  /** The log when a work changes and all later ones are waiting. */
  lemma {:induction false} LogOfUpdate(works: seq<Work>, i: nat, w: Work)
    requires i < |works| && forall j | i < j < |works| :: works[j] == Waiting
    ensures SerialLog(works[i := w]) == SerialLog(works[..i] + [w])
    decreases |works|
  {
    var last := |works| - 1;
    if i == last {
      assert works[i := w] == works[..i] + [w];
    } else {
      LogOfUpdate(works[..last], i, w);
      assert works[i := w][..last] == works[..last][i := w] && works[..last][..i] == works[..i];
    }
  }

  lemma LogOfPrefix(works: seq<Work>, i: nat, w: Work)
    ensures i <= |works| ==>
              SerialLog(works[..i] + [w]) == SerialLog(works[..i]) + match w
                                                                     case Waiting => []
                                                                     case Running => [Started(i)]
                                                                     case Settled(ok) => [Started(i), Ended(i, ok)]
  {
    if i <= |works| {
      assert (works[..i] + [w])[..i] == works[..i];
    }
  }

  /** The log, with call i the last to have started or about to start. */
  lemma LogAt(s: State, i: nat)
    requires Valid(s) && i < |s.works| && forall j | i < j < |s.works| :: s.works[j] == Waiting
    ensures s.log == SerialLog(s.works[..i] + [s.works[i]])
  {
    LogOfUpdate(s.works, i, s.works[i]);
    assert s.works[i := s.works[i]] == s.works;
  }

  lemma LaterAreWaiting(s: State, i: nat)
    requires Valid(s) && i < |s.works| && s.promises[2 * i + 2] == Pending
    ensures forall j | i < j < |s.works| :: s.works[j] == Waiting
  {
    forall j | i < j < |s.works|
      ensures s.works[j] == Waiting
    {
      if s.works[j] != Waiting {
        EarlierAreSettled(s, j, i);
      }
    }
  }

  lemma CallKeepsValid(s: State)
    requires Valid(s)
    ensures Valid(s.RunSerial())
  {
    var t, n := s.RunSerial(), |s.works|;
    forall i: nat | i <= n
      ensures Linked(t, i)
    {
      if i < n {
        assert Linked(s, i);
      }
    }
    assert t.works[..n] == s.works;
  }

  /** A waiting work starts. */
  lemma StartKeepsValid(s: State, i: nat)
    requires Valid(s) && i < |s.works| && Apply(s, Fire(2 * i)).Some?
    ensures Valid(Apply(s, Fire(2 * i)).value)
  {
    var t := Apply(s, Fire(2 * i)).value;
    assert Linked(s, i);
    StartLogs(s, i);
    hide SerialLog;
    forall j: nat | j < |t.works|
      ensures Linked(t, j)
    {
      assert Linked(s, j);
    }
  }

  lemma StartLogs(s: State, i: nat)
    requires Valid(s) && i < |s.works| && s.works[i] == Waiting
    ensures s.log + [Started(i)] == SerialLog(s.works[i := Running])
  {
    assert Linked(s, i);
    hide Linked;
    LaterAreWaiting(s, i);
    LogAt(s, i);
    LogOfPrefix(s.works, i, Waiting);
    LogOfUpdate(s.works, i, Running);
    LogOfPrefix(s.works, i, Running);
  }

  /** The tail of a call settles. */
  lemma TailKeepsValid(s: State, i: nat)
    requires Valid(s) && i < |s.works| && Apply(s, Fire(2 * i + 1)).Some?
    ensures Valid(Apply(s, Fire(2 * i + 1)).value)
  {
    var t := Apply(s, Fire(2 * i + 1)).value;
    assert Linked(s, i);
    hide SerialLog;
    forall j: nat | j < |t.works|
      ensures Linked(t, j)
    {
      assert Linked(s, j);
    }
  }

  lemma FireKeepsValid(s: State, k: nat)
    requires Valid(s) && Apply(s, Fire(k)).Some?
    ensures Valid(Apply(s, Fire(k)).value)
  {
    assert Linked(s, k / 2);
    if k % 2 == 0 {
      StartKeepsValid(s, k / 2);
    } else {
      TailKeepsValid(s, k / 2);
    }
  }

  lemma FinishKeepsValid(s: State, i: nat, ok: bool)
    requires Valid(s) && Apply(s, Finish(i, ok)).Some?
    ensures Valid(Apply(s, Finish(i, ok)).value)
  {
    var t := Apply(s, Finish(i, ok)).value;
    assert Linked(s, i);
    LaterAreWaiting(s, i);
    LogAt(s, i);
    LogOfPrefix(s.works, i, Running);
    LogOfUpdate(s.works, i, Settled(ok));
    LogOfPrefix(s.works, i, Settled(ok));
    forall j: nat | j < |t.works|
      ensures Linked(t, j)
    {
      assert Linked(s, j);
    }
    assert SerialLog(s.works[..i]) + [Started(i)] + [Ended(i, ok)]
           == SerialLog(s.works[..i]) + [Started(i), Ended(i, ok)];
  }

  lemma AdoptKeepsValid(s: State, k: nat)
    requires Valid(s) && Apply(s, Adopt(k)).Some?
    ensures Valid(Apply(s, Adopt(k)).value)
  {
    var t, i := Apply(s, Adopt(k)).value, k / 2;
    assert Linked(s, i);
    forall j: nat | j < |t.works|
      ensures Linked(t, j)
    {
      assert Linked(s, j);
    }
  }

  lemma {:induction false} RunIsSerial(s: State, steps: seq<Step>)
    requires Valid(s) && Run(s, steps).Some?
    ensures var t := Run(s, steps).value;
            && Valid(t) && t.log == SerialLog(t.works)
            && (forall i, j | 0 <= i < j < |t.works| && t.works[j] != Waiting :: t.works[i].Settled?)
    decreases |steps|
  {
    if steps == [] {
      forall i: nat, j: nat | i < j < |s.works| && s.works[j] != Waiting
        ensures s.works[i].Settled?
      {
        EarlierAreSettled(s, j, i);
      }
    } else {
      match steps[0] {
        case Call => CallKeepsValid(s);
        case Fire(k) => FireKeepsValid(s, k);
        case Finish(i, ok) => FinishKeepsValid(s, i, ok);
        case Adopt(k) => AdoptKeepsValid(s, k);
      }
      RunIsSerial(Apply(s, steps[0]).value, steps[1..]);
    }
  }

  /**
    * Every run from an empty queue, whatever the interleaving: the works run one after the other
    * in the order of the calls, each after all earlier ones have settled, rejected or not.
    */
  lemma EveryRunIsSerial(steps: seq<Step>)
    requires Run(Initial(), steps).Some?
    ensures var t := Run(Initial(), steps).value;
            && Valid(t) && t.log == SerialLog(t.works)
            && (forall i, j | 0 <= i < j < |t.works| && t.works[j] != Waiting :: t.works[i].Settled?)
  {
    RunIsSerial(Initial(), steps);
  }

  // ---------------------------------------------------------------------------------------
  // No work is ever blocked
  // ---------------------------------------------------------------------------------------

  /** What is left to do for a call. */
  function Left(s: State, i: nat): nat
    requires i < |s.works| && |s.promises| == 2 * |s.works| + 1
  {
    (match s.works[i] case Waiting => 2 case Running => 1 case Settled(_) => 0)
    + (if s.promises[2 * i + 1] == Pending then 1 else 0) + (if s.promises[2 * i + 2] == Pending then 1 else 0)
  }

  function LeftUpTo(s: State, n: nat): nat
    requires n <= |s.works| && |s.promises| == 2 * |s.works| + 1
  {
    if n == 0 then 0 else LeftUpTo(s, n - 1) + Left(s, n - 1)
  }

  lemma {:induction false} LeftOfOne(s: State, t: State, i: nat, n: nat)
    requires |s.promises| == 2 * |s.works| + 1 && |t.promises| == 2 * |t.works| + 1 && |s.works| == |t.works|
    requires i < |s.works| && n <= |s.works| && Left(t, i) == Left(s, i) - 1
    requires forall j | 0 <= j < |s.works| && j != i :: Left(t, j) == Left(s, j)
    ensures LeftUpTo(t, n) == LeftUpTo(s, n) - if i < n then 1 else 0
  {
    if n > 0 {
      LeftOfOne(s, t, i, n - 1);
    }
  }

  /** Every step but a new call brings the end nearer by one. */
  lemma StepsComeToAnEnd(s: State, step: Step)
    requires Valid(s) && !step.Call? && Apply(s, step).Some?
    ensures var t := Apply(s, step).value;
            |t.works| == |s.works| && |t.promises| == |s.promises|
                && LeftUpTo(t, |t.works|) == LeftUpTo(s, |s.works|) - 1
  {
    var t := Apply(s, step).value;
    var i := match step case Fire(k) => k / 2 case Adopt(k) => k / 2 case Finish(c, _) => c case Call => 0;
    assert Linked(s, i);
    LeftOfOne(s, t, i, |s.works|);
  }

  /** The first step that the rest is waiting for. */
  lemma {:induction false} SomeStepIsPossible(s: State, i: nat) returns (step: Step)
    requires Valid(s) && i < |s.works| && Left(s, i) > 0
    ensures !step.Call? && Apply(s, step).Some?
    decreases i
  {
    assert Linked(s, i);
    match s.works[i]
    case Waiting =>
      if s.promises[2 * i] != Pending {
        return Fire(2 * i);
      }
      step := SomeStepIsPossible(s, i - 1);
    case Running => step := Finish(i, true);
    case Settled(_) => step := if s.promises[2 * i + 1] == Pending then Adopt(2 * i) else Fire(2 * i + 1);
  }

  /**
    * However the works end, a state in which nothing can happen but new calls has run them all:
    * with the bound above, no work waits forever behind a rejected one.
    */
  lemma NothingIsLeftWaiting(s: State)
    requires Valid(s) && forall step: Step | !step.Call? :: Apply(s, step).None?
    ensures forall w | w in s.works :: w.Settled?
  {
    forall i: nat | i < |s.works|
      ensures s.works[i].Settled?
    {
      if Left(s, i) > 0 {
        var step := SomeStepIsPossible(s, i);
      }
    }
  }

  /** A run that has come to its end has settled every work. */
  lemma EveryRunSettles(steps: seq<Step>)
    requires Run(Initial(), steps).Some?
    requires forall step: Step | !step.Call? :: Apply(Run(Initial(), steps).value, step).None?
    ensures forall w | w in Run(Initial(), steps).value.works :: w.Settled?
  {
    EveryRunIsSerial(steps);
    NothingIsLeftWaiting(Run(Initial(), steps).value);
  }
}
