/** Overlapping transactions on the one SQLite connection (src/db/sqlite-driver.ts): every call
    waits for the promise that was the tail of the queue when it was made. */
module SqliteQueue {
  import opened Options

  /** A callback is the statements it awaits one by one and the local variables it starts with. A
      statement reads and changes the database and the locals; `None` is one that fails. */
  datatype Body<!D, !L> = Body(locals: L, statements: seq<(D, L) -> Option<(D, L)>>)

  datatype Phase<L> = Waiting | Running(done: nat, locals: L) | Settled(ok: bool)

  /** `after` is the queue's tail at the call: the promise whose settling starts this one. */
  datatype Call<!D, !L> = Call(body: Body<D, L>, after: Option<nat>, phase: Phase<L>)

  /** `db` is what the connection sees; `begun` is what an open transaction rolls back to. */
  datatype State<!D, !L> = State(calls: seq<Call<D, L>>, txQueue: Option<nat>, db: D, begun: D, open: bool)

  datatype Event<!D, !L> =
    | Transaction(body: Body<D, L>)
    | Start(call: nat, busy: bool)
    | Execute(call: nat)
    | Throw(call: nat)
    | Commit(call: nat, fails: bool)

  function Initial<D, L>(db: D): State<D, L> {
    State([], None, db, db, false)
  }

  predicate IsSettled<D, L>(s: State<D, L>, after: Option<nat>) {
    after.None? || (after.value < |s.calls| && s.calls[after.value].phase.Settled?)
  }

  predicate IsRunning<D, L>(s: State<D, L>, i: nat) {
    i < |s.calls| && s.calls[i].phase.Running?
  }

  predicate Enabled<D, L>(s: State<D, L>, e: Event<D, L>) {
    match e
    case Transaction(_) => true
    case Start(i, _) => i < |s.calls| && s.calls[i].phase.Waiting? && IsSettled(s, s.calls[i].after)
    case Execute(i) => IsRunning(s, i) && s.calls[i].phase.done < |s.calls[i].body.statements|
    case Throw(i) => IsRunning(s, i)
    case Commit(i, _) => IsRunning(s, i) && s.calls[i].phase.done == |s.calls[i].body.statements|
  }

  function SetPhase<D, L>(s: State<D, L>, i: nat, phase: Phase<L>): State<D, L>
    requires i < |s.calls|
  {
    s.(calls := s.calls[i := s.calls[i].(phase := phase)])
  }

  function RolledBack<D, L>(s: State<D, L>, i: nat): State<D, L>
    requires i < |s.calls|
  {
    SetPhase(s, i, Settled(false)).(db := s.begun, open := false)
  }

  /** BEGIN fails when the file is busy, and also inside an open transaction; a failed BEGIN
      settles the call with no ROLLBACK. */
  function Next<D, L>(s: State<D, L>, e: Event<D, L>): State<D, L>
    requires Enabled(s, e)
  {
    match e
    case Transaction(body) =>
      s.(calls := s.calls + [Call(body, s.txQueue, Waiting)], txQueue := Some(|s.calls|))
    case Start(i, busy) =>
      if busy || s.open then SetPhase(s, i, Settled(false))
      else SetPhase(s, i, Running(0, s.calls[i].body.locals)).(begun := s.db, open := true)
    case Execute(i) =>
      var n := s.calls[i].phase.done;
      var result := s.calls[i].body.statements[n](s.db, s.calls[i].phase.locals);
      if result.Some? then SetPhase(s, i, Running(n + 1, result.value.1)).(db := result.value.0)
      else RolledBack(s, i)
    case Throw(i) => RolledBack(s, i)
    case Commit(i, fails) =>
      if fails then RolledBack(s, i) else SetPhase(s, i, Settled(true)).(open := false)
  }

  predicate CanRun<D, L>(s: State<D, L>, events: seq<Event<D, L>>)
    decreases events
  {
    events == [] || (Enabled(s, events[0]) && CanRun(Next(s, events[0]), events[1..]))
  }

  function After<D, L>(s: State<D, L>, events: seq<Event<D, L>>): State<D, L>
    requires CanRun(s, events)
    decreases events
  {
    if events == [] then s else After(Next(s, events[0]), events[1..])
  }

  // ----- The serial application -----

  /** The first n statements of a callback, run with nothing in between. */
  function Apply<D, L>(db: D, body: Body<D, L>, n: nat): Option<(D, L)>
    requires n <= |body.statements|
  {
    if n == 0 then Some((db, body.locals))
    else
      var before := Apply(db, body, n - 1);
      if before.None? then None else body.statements[n - 1](before.value.0, before.value.1)
  }

  function ApplyAll<D, L>(db: D, body: Body<D, L>): Option<(D, L)> {
    Apply(db, body, |body.statements|)
  }

  /** The successful calls applied whole, one after another, in call order. */
  function Serial<D, L>(db: D, calls: seq<Call<D, L>>): D
    decreases |calls|
  {
    if calls == [] then db
    else
      var before, last := Serial(db, calls[..|calls| - 1]), calls[|calls| - 1];
      if last.phase != Settled(true) then before
      else
        var result := ApplyAll(before, last.body);
        if result.Some? then result.value.0 else before
  }

  // ----- The invariant -----

  function Tail(n: nat): Option<nat> {
    if n == 0 then None else Some(n - 1)
  }

  /** Every call waits for the one made just before it, so the calls settle in call order. */
  ghost predicate Ordered<D, L>(s: State<D, L>) {
    && s.txQueue == Tail(|s.calls|)
    && forall i: nat | i < |s.calls| ::
         && s.calls[i].after == Tail(i)
         && (!s.calls[i].phase.Waiting? && i > 0 ==> s.calls[i - 1].phase.Settled?)
  }

  /** What is settled has been applied whole or not at all; what is running has been applied up
      to the statement it has reached. */
  ghost predicate CallGood<D, L>(s: State<D, L>, init: D, i: nat)
    requires i < |s.calls|
  {
    match s.calls[i].phase
    case Waiting => true
    case Running(n, locals) =>
      && n <= |s.calls[i].body.statements| && s.open
      && s.begun == Serial(init, s.calls[..i])
      && Apply(s.begun, s.calls[i].body, n) == Some((s.db, locals))
    case Settled(ok) => ok ==> ApplyAll(Serial(init, s.calls[..i]), s.calls[i].body).Some?
  }

  ghost predicate Inv<D, L>(s: State<D, L>, init: D) {
    && Ordered(s)
    && (forall i: nat | i < |s.calls| :: CallGood(s, init, i))
    && ((forall i: nat | i < |s.calls| :: !IsRunning(s, i)) ==> !s.open && s.db == Serial(init, s.calls))
  }

  lemma {:induction false} SettledPrefix<D, L>(s: State<D, L>, i: nat, j: nat)
    requires Ordered(s) && j < i < |s.calls| && !s.calls[i].phase.Waiting?
    ensures s.calls[j].phase.Settled?
  {
    if j < i - 1 {
      SettledPrefix(s, i - 1, j);
    }
  }

  /** A call that is running or may start has only settled calls before it and only waiting ones
      after it. */
  lemma FrontCall<D, L>(s: State<D, L>, i: nat)
    requires Ordered(s) && i < |s.calls| && !s.calls[i].phase.Settled? && IsSettled(s, s.calls[i].after)
    ensures forall j: nat | j < i :: s.calls[j].phase.Settled?
    ensures forall j: nat | i < j < |s.calls| :: s.calls[j].phase.Waiting?
  {
    forall j: nat | j < i ensures s.calls[j].phase.Settled? {
      if j < i - 1 {
        SettledPrefix(s, i - 1, j);
      }
    }
    forall j: nat | i < j < |s.calls| ensures s.calls[j].phase.Waiting? {
      if !s.calls[j].phase.Waiting? {
        SettledPrefix(s, j, i);
      }
    }
  }

  lemma {:induction false} SerialWaiting<D, L>(init: D, calls: seq<Call<D, L>>, n: nat)
    requires n <= |calls| && forall j: nat | n <= j < |calls| :: calls[j].phase != Settled(true)
    ensures Serial(init, calls) == Serial(init, calls[..n])
    decreases |calls|
  {
    if n == |calls| {
      assert calls[..n] == calls;
    } else {
      SerialWaiting(init, calls[..|calls| - 1], n);
      assert calls[..|calls| - 1][..n] == calls[..n];
    }
  }

  /** The front call moves to another phase and everyone else stays: what is left to show is
      what it reached. */
  lemma FrontMoves<D, L>(s: State<D, L>, t: State<D, L>, init: D, i: nat, phase: Phase<L>)
    requires Inv(s, init) && i < |s.calls| && !s.calls[i].phase.Settled? && IsSettled(s, s.calls[i].after)
    requires t.calls == SetPhase(s, i, phase).calls && t.txQueue == s.txQueue && !phase.Waiting?
    requires CallGood(t, init, i)
    requires phase.Settled? ==> !t.open && t.db == Serial(init, t.calls[..i + 1])
    ensures Inv(t, init)
  {
    hide Apply, ApplyAll, Serial;
    FrontCall(s, i);
    forall j: nat | j < |t.calls| ensures CallGood(t, init, j) {
      assert CallGood(s, init, j);
      if j < i {
        assert t.calls[..j] == s.calls[..j];
      }
    }
    if phase.Settled? {
      SerialWaiting(init, t.calls, i + 1);
    } else {
      assert IsRunning(t, i);
    }
  }

  lemma SerialNext<D, L>(init: D, calls: seq<Call<D, L>>, i: nat)
    requires i < |calls|
    ensures calls[i].phase != Settled(true) ==> Serial(init, calls[..i + 1]) == Serial(init, calls[..i])
    ensures calls[i].phase == Settled(true) && ApplyAll(Serial(init, calls[..i]), calls[i].body).Some? ==>
              Serial(init, calls[..i + 1]) == ApplyAll(Serial(init, calls[..i]), calls[i].body).value.0
  {
    assert calls[..i + 1][..i] == calls[..i];
  }

  /** Nothing runs before the front call starts, so the connection sees the serial state. */
  lemma AtStart<D, L>(s: State<D, L>, init: D, i: nat)
    requires Inv(s, init) && i < |s.calls| && s.calls[i].phase.Waiting? && IsSettled(s, s.calls[i].after)
    ensures !s.open && s.db == Serial(init, s.calls[..i])
  {
    hide Serial, CallGood;
    FrontCall(s, i);
    SerialWaiting(init, s.calls, i);
  }

  lemma StartKeepsInv<D, L>(s: State<D, L>, init: D, i: nat, busy: bool)
    requires Inv(s, init) && Enabled(s, Start(i, busy))
    ensures Inv(Next(s, Start(i, busy)), init)
  {
    AtStart(s, init, i);
    hide Inv, Ordered, Serial;
    var t := Next(s, Start(i, busy));
    assert t.calls[..i] == s.calls[..i];
    SerialNext(init, t.calls, i);
    FrontMoves(s, t, init, i, t.calls[i].phase);
  }

  lemma RunningIsFront<D, L>(s: State<D, L>, init: D, i: nat)
    requires Inv(s, init) && IsRunning(s, i)
    ensures IsSettled(s, s.calls[i].after) && CallGood(s, init, i)
  {
  }

  lemma RollbackKeepsInv<D, L>(s: State<D, L>, init: D, i: nat)
    requires Inv(s, init) && IsRunning(s, i)
    ensures Inv(RolledBack(s, i), init)
  {
    RunningIsFront(s, init, i);
    hide Inv, Ordered, Serial;
    var t := RolledBack(s, i);
    assert t.calls[..i] == s.calls[..i];
    SerialNext(init, t.calls, i);
    FrontMoves(s, t, init, i, Settled(false));
  }

  lemma ExecuteKeepsInv<D, L>(s: State<D, L>, init: D, i: nat)
    requires Inv(s, init) && Enabled(s, Execute(i))
    ensures Inv(Next(s, Execute(i)), init)
  {
    RunningIsFront(s, init, i);
    RollbackKeepsInv(s, init, i);
    hide Inv, Ordered, Serial;
    var n := s.calls[i].phase.done;
    var t := Next(s, Execute(i));
    if s.calls[i].body.statements[n](s.db, s.calls[i].phase.locals).Some? {
      assert t.calls[..i] == s.calls[..i];
      FrontMoves(s, t, init, i, t.calls[i].phase);
    }
  }

  lemma CommitKeepsInv<D, L>(s: State<D, L>, init: D, i: nat, fails: bool)
    requires Inv(s, init) && Enabled(s, Commit(i, fails))
    ensures Inv(Next(s, Commit(i, fails)), init)
  {
    RunningIsFront(s, init, i);
    RollbackKeepsInv(s, init, i);
    hide Inv, Ordered, Serial, Apply;
    if !fails {
      var t := Next(s, Commit(i, fails));
      assert t.calls[..i] == s.calls[..i];
      SerialNext(init, t.calls, i);
      FrontMoves(s, t, init, i, Settled(true));
    }
  }

  lemma TransactionKeepsInv<D, L>(s: State<D, L>, init: D, body: Body<D, L>)
    requires Inv(s, init)
    ensures Inv(Next(s, Transaction(body)), init)
  {
    hide Serial, Apply;
    var t := Next(s, Transaction(body));
    forall j: nat | j < |t.calls| ensures CallGood(t, init, j) {
      if j < |s.calls| {
        assert CallGood(s, init, j) && t.calls[..j] == s.calls[..j];
      }
    }
    if forall j: nat | j < |t.calls| :: !IsRunning(t, j) {
      assert forall j: nat | j < |s.calls| :: IsRunning(s, j) ==> IsRunning(t, j);
      SerialWaiting(init, t.calls, |s.calls|);
      assert t.calls[..|s.calls|] == s.calls;
    }
  }

  lemma StepKeepsInv<D, L>(s: State<D, L>, e: Event<D, L>, init: D)
    requires Inv(s, init) && Enabled(s, e)
    ensures Inv(Next(s, e), init)
  {
    hide Inv;
    match e
    case Transaction(body) => TransactionKeepsInv(s, init, body);
    case Start(i, busy) => StartKeepsInv(s, init, i, busy);
    case Execute(i) => ExecuteKeepsInv(s, init, i);
    case Throw(i) => RollbackKeepsInv(s, init, i);
    case Commit(i, fails) => CommitKeepsInv(s, init, i, fails);
  }

  lemma {:induction false} RunKeepsInv<D, L>(s: State<D, L>, events: seq<Event<D, L>>, init: D)
    requires Inv(s, init) && CanRun(s, events)
    ensures Inv(After(s, events), init)
    decreases events
  {
    hide Inv, Enabled, Next;
    if events != [] {
      StepKeepsInv(s, events[0], init);
      RunKeepsInv(Next(s, events[0]), events[1..], init);
    }
  }

  // ----- What every run guarantees -----

  /** At most one callback is between BEGIN and COMMIT or ROLLBACK; calls before it have
      settled and calls after it have not begun; BEGIN never meets an open transaction. */
  lemma OneAtATimeInOrder<D, L>(init: D, events: seq<Event<D, L>>, i: nat, j: nat)
    requires CanRun(Initial(init), events)
    requires var s := After(Initial(init), events); i < j < |s.calls| && !s.calls[j].phase.Waiting?
    ensures After(Initial(init), events).calls[i].phase.Settled?
  {
    RunKeepsInv(Initial(init), events, init);
    SettledPrefix(After(Initial(init), events), j, i);
  }

  lemma BeginNeverNested<D, L>(init: D, events: seq<Event<D, L>>, i: nat)
    requires CanRun(Initial(init), events) && Enabled(After(Initial(init), events), Start(i, false))
    ensures IsRunning(Next(After(Initial(init), events), Start(i, false)), i)
  {
    RunKeepsInv(Initial(init), events, init);
    AtStart(After(Initial(init), events), init, i);
  }

  /** Whenever no callback is running, the database is the serial application of the successful
      calls in call order; while one is, that is what it would roll back to. */
  lemma DatabaseIsSerial<D, L>(init: D, events: seq<Event<D, L>>)
    requires CanRun(Initial(init), events)
    ensures var s := After(Initial(init), events);
            (if s.open then s.begun else s.db) == Serial(init, s.calls)
  {
    RunKeepsInv(Initial(init), events, init);
    var s := After(Initial(init), events);
    if i: nat :| IsRunning(s, i) {
      RunningIsFront(s, init, i);
      FrontCall(s, i);
      SerialWaiting(init, s.calls, i);
    }
  }

  // ----- Which calls succeed -----

  lemma {:induction false} RunPrefix<D, L>(s: State<D, L>, events: seq<Event<D, L>>, k: nat)
    requires CanRun(s, events) && k <= |events|
    ensures CanRun(s, events[..k])
    decreases events
  {
    hide Enabled, Next;
    if k > 0 {
      assert events[..k][0] == events[0] && events[..k][1..] == events[1..][..k - 1];
      RunPrefix(Next(s, events[0]), events[1..], k - 1);
    }
  }

  /** The last event of a run happens in the state that the others lead to. */
  lemma {:induction false} RunLast<D, L>(s: State<D, L>, events: seq<Event<D, L>>)
    requires CanRun(s, events) && events != []
    ensures var n := |events| - 1;
            && CanRun(s, events[..n]) && Enabled(After(s, events[..n]), events[n])
            && After(s, events) == Next(After(s, events[..n]), events[n])
    decreases events
  {
    hide Enabled, Next;
    var n := |events| - 1;
    RunPrefix(s, events, n);
    if n > 0 {
      assert events[..n][0] == events[0] && events[..n][1..] == events[1..][..n - 1];
      RunLast(Next(s, events[0]), events[1..]);
    } else {
      assert events[1..] == [] && events[..0] == [];
    }
  }

  /** What the next statement of a running call gives. */
  function Gives<D, L>(s: State<D, L>, i: nat): Option<(D, L)>
    requires Enabled(s, Execute(i))
  {
    s.calls[i].body.statements[s.calls[i].phase.done](s.db, s.calls[i].phase.locals)
  }

  ghost predicate SomeStatementFails<D, L>(init: D, events: seq<Event<D, L>>, i: nat)
    requires CanRun(Initial(init), events)
    decreases |events|
  {
    events != [] &&
    (RunLast(Initial(init), events);
     var before, e := events[..|events| - 1], events[|events| - 1];
     SomeStatementFails(init, before, i) || (e == Execute(i) && Gives(After(Initial(init), before), i).None?))
  }

  /** Something goes wrong with a call: BEGIN meets a busy file, the callback throws, one of its
      statements fails, or COMMIT does. */
  ghost predicate Fails<D, L>(init: D, events: seq<Event<D, L>>, i: nat)
    requires CanRun(Initial(init), events)
  {
    Start(i, true) in events || Throw(i) in events || Commit(i, true) in events || SomeStatementFails(init, events, i)
  }

  /** How many of its statements have been executed. */
  ghost function Executions<D, L>(events: seq<Event<D, L>>, i: nat): nat {
    if events == [] then 0
    else Executions(events[..|events| - 1], i) + (if events[|events| - 1] == Execute(i) then 1 else 0)
  }

  ghost predicate Untouched<D, L>(events: seq<Event<D, L>>, i: nat) {
    forall e | e in events && !e.Transaction? :: e.call != i
  }

  /** A call's phase and what has happened to it go together. */
  ghost predicate PhaseFits<D, L>(s: State<D, L>, i: nat, untouched: bool, started: bool, committed: bool, fails: bool,
                                  executions: nat) {
    if untouched then !started && !committed && !fails && executions == 0
        && (i < |s.calls| ==> s.calls[i].phase.Waiting?)
    else
      && i < |s.calls| && !s.calls[i].phase.Waiting?
      && (s.calls[i].phase.Running? ==> started && !committed && !fails && executions == s.calls[i].phase.done)
      && (s.calls[i].phase == Settled(true) ==>
            started && committed && !fails && executions == |s.calls[i].body.statements|)
      && (s.calls[i].phase == Settled(false) ==> fails && !committed)
  }

  /** The event is one that makes the call fail. */
  ghost predicate FailsAt<D, L>(s: State<D, L>, e: Event<D, L>, i: nat)
    requires Enabled(s, e)
  {
    e == Start(i, true) || e == Throw(i) || e == Commit(i, true) || (e == Execute(i) && Gives(s, i).None?)
  }

  lemma PhaseStep<D, L>(s: State<D, L>, e: Event<D, L>, init: D, i: nat, untouched: bool, started: bool,
                        committed: bool,
                        fails: bool, executions: nat)
    requires Inv(s, init) && Enabled(s, e) && PhaseFits(s, i, untouched, started, committed, fails, executions)
    ensures PhaseFits(Next(s, e), i, untouched && (e.Transaction? || e.call != i), started || e == Start(i, false),
                      committed || e == Commit(i, false), fails || FailsAt(s, e, i),
                      executions + if e == Execute(i) then 1 else 0)
  {
    if e.Start? {
      AtStart(s, init, e.call);
    }
    hide Inv, Serial;
  }

  /** The facts about one call, after a whole run. */
  ghost predicate Told<D, L>(init: D, events: seq<Event<D, L>>, i: nat)
    requires CanRun(Initial(init), events)
  {
    PhaseFits(After(Initial(init), events), i, Untouched(events, i), Start(i, false) in events,
              Commit(i, false) in events,
              Fails(init, events, i), Executions(events, i))
  }

  lemma FactsNext<D, L>(init: D, events: seq<Event<D, L>>, i: nat)
    requires CanRun(Initial(init), events) && events != [] && CanRun(Initial(init), events[..|events| - 1])
    requires Enabled(After(Initial(init), events[..|events| - 1]), events[|events| - 1])
    ensures var before, e := events[..|events| - 1], events[|events| - 1];
            && (Untouched(events, i) <==> Untouched(before, i) && (e.Transaction? || e.call != i))
            && (Start(i, false) in events <==> Start(i, false) in before || e == Start(i, false))
            && (Commit(i, false) in events <==> Commit(i, false) in before || e == Commit(i, false))
            && (Fails(init, events, i) <==> Fails(init, before, i) || FailsAt(After(Initial(init), before), e, i))
            && Executions(events, i) == Executions(before, i) + if e == Execute(i) then 1 else 0
  {
    hide After, CanRun, Enabled;
    assert events == events[..|events| - 1] + [events[|events| - 1]];
  }

  lemma {:induction false} AllTold<D, L>(init: D, events: seq<Event<D, L>>, i: nat)
    requires CanRun(Initial(init), events)
    ensures Told(init, events, i)
    decreases |events|
  {
    hide Inv, Enabled, Next, CanRun, Untouched, Fails, FailsAt, Executions;
    if events != [] {
      var before, e := events[..|events| - 1], events[|events| - 1];
      RunLast(Initial(init), events);
      AllTold(init, before, i);
      InitialInv<D, L>(init);
      RunKeepsInv(Initial(init), before, init);
      FactsNext(init, events, i);
      hide PhaseFits, After;
      PhaseStep(After(Initial(init), before), e, init, i, Untouched(before, i), Start(i, false) in before,
                Commit(i, false) in before, Fails(init, before, i), Executions(before, i));
    } else {
      NothingTold(init, events, i);
    }
  }

  lemma InitialInv<D, L>(init: D)
    ensures Inv(Initial<D, L>(init), init)
  {
  }

  lemma NothingTold<D, L>(init: D, events: seq<Event<D, L>>, i: nat)
    requires events == [] && CanRun(Initial(init), events)
    ensures Told(init, events, i)
  {
  }

  /** A call succeeds exactly when its BEGIN and its COMMIT work, its callback does not throw, and
      every statement works; all of them have then been executed. */
  lemma SucceedsIff<D, L>(init: D, events: seq<Event<D, L>>, i: nat)
    requires CanRun(Initial(init), events) && i < |After(Initial(init), events).calls|
    ensures var call := After(Initial(init), events).calls[i];
            && (call.phase == Settled(true) <==>
                Start(i, false) in events && Commit(i, false) in events && !Fails(init, events, i))
            && (call.phase == Settled(true) ==> Executions(events, i) == |call.body.statements|)
  {
    hide After, CanRun, Fails, Executions, Untouched;
    AllTold(init, events, i);
  }

  /** It fails exactly when something goes wrong with it. */
  lemma FailsIff<D, L>(init: D, events: seq<Event<D, L>>, i: nat)
    requires CanRun(Initial(init), events) && i < |After(Initial(init), events).calls|
    ensures After(Initial(init), events).calls[i].phase == Settled(false) <==> Fails(init, events, i)
  {
    hide After, CanRun, Fails, Executions, Untouched;
    AllTold(init, events, i);
  }

  /** A call begins on the database that the successful calls before it have left. */
  lemma BeginSees<D, L>(init: D, events: seq<Event<D, L>>, i: nat)
    requires CanRun(Initial(init), events) && Enabled(After(Initial(init), events), Start(i, false))
    ensures var s := After(Initial(init), events);
            var t := Next(s, Start(i, false));
            IsRunning(t, i) && t.begun == t.db == s.db == Serial(init, s.calls[..i])
  {
    RunKeepsInv(Initial(init), events, init);
    AtStart(After(Initial(init), events), init, i);
  }

  /** A COMMIT that works makes the call succeed, and leaves what its whole callback makes of the
      database it began with. */
  lemma CommitAppliesWhole<D, L>(init: D, events: seq<Event<D, L>>, i: nat)
    requires CanRun(Initial(init), events) && Enabled(After(Initial(init), events), Commit(i, false))
    ensures var s := After(Initial(init), events);
            var t := Next(s, Commit(i, false));
            var whole := ApplyAll(Serial(init, s.calls[..i]), s.calls[i].body);
            && t.calls[i].phase == Settled(true) && !t.open && s.begun == Serial(init, s.calls[..i])
            && whole.Some? && t.db == whole.value.0
  {
    RunKeepsInv(Initial(init), events, init);
    RunningIsFront(After(Initial(init), events), init, i);
    hide After, CanRun, Serial, Inv;
  }

  /** Whatever else ends a call puts the database back to what it began with. */
  lemma FailureRestores<D, L>(init: D, events: seq<Event<D, L>>, e: Event<D, L>)
    requires CanRun(Initial(init), events) && Enabled(After(Initial(init), events), e)
    requires !e.Transaction? && Next(After(Initial(init), events), e).calls[e.call].phase == Settled(false)
    ensures var s := After(Initial(init), events);
            var t := Next(s, e);
            t.db == Serial(init, s.calls[..e.call]) && !t.open
  {
    var s := After(Initial(init), events);
    RunKeepsInv(Initial(init), events, init);
    if e.Start? {
      AtStart(s, init, e.call);
    } else {
      RunningIsFront(s, init, e.call);
    }
    hide After, CanRun, Serial, Inv;
  }

  ghost function BodiesOf<D, L>(events: seq<Event<D, L>>): seq<Body<D, L>> {
    if events == [] then []
    else
      var before, e := BodiesOf(events[..|events| - 1]), events[|events| - 1];
      if e.Transaction? then before + [e.body] else before
  }

  lemma StepKeepsBodies<D, L>(s: State<D, L>, e: Event<D, L>)
    requires Enabled(s, e)
    ensures var calls := Next(s, e).calls;
            && |calls| == |s.calls| + (if e.Transaction? then 1 else 0)
            && (forall i | 0 <= i < |s.calls| :: calls[i].body == s.calls[i].body)
            && (e.Transaction? ==> calls[|s.calls|].body == e.body)
  {
  }

  /** The calls are the transactions asked for, in order, each with its own callback. */
  lemma {:induction false} CallsAreTransactions<D, L>(init: D, events: seq<Event<D, L>>)
    requires CanRun(Initial(init), events)
    ensures var calls := After(Initial(init), events).calls;
            |calls| == |BodiesOf(events)| && forall i | 0 <= i < |calls| :: calls[i].body == BodiesOf(events)[i]
    decreases |events|
  {
    if events != [] {
      var before, e := events[..|events| - 1], events[|events| - 1];
      RunLast(Initial(init), events);
      CallsAreTransactions(init, before);
      hide After, CanRun, Enabled, Next;
      StepKeepsBodies(After(Initial(init), before), e);
    }
  }

  // ----- No call is ever stuck -----

  function Work<D, L>(c: Call<D, L>): nat {
    match c.phase
    case Waiting => |c.body.statements| + 2
    case Running(n, _) => if n <= |c.body.statements| then |c.body.statements| + 1 - n else 1
    case Settled(_) => 0
  }

  function Remaining<D, L>(calls: seq<Call<D, L>>): nat
    decreases |calls|
  {
    if calls == [] then 0 else Remaining(calls[..|calls| - 1]) + Work(calls[|calls| - 1])
  }

  lemma {:induction false} RemainingUpdate<D, L>(calls: seq<Call<D, L>>, i: nat, c: Call<D, L>)
    requires i < |calls|
    ensures Remaining(calls[i := c]) == Remaining(calls) - Work(calls[i]) + Work(c)
    decreases |calls|
  {
    hide Work;
    var n := |calls| - 1;
    if i == n {
      assert calls[i := c][..n] == calls[..n];
    } else {
      assert calls[i := c][..n] == calls[..n][i := c];
      RemainingUpdate(calls[..n], i, c);
    }
  }

  /** Every step of a call leaves less to do, whether it succeeds or fails. */
  lemma StepsProgress<D, L>(s: State<D, L>, e: Event<D, L>)
    requires Enabled(s, e) && !e.Transaction?
    ensures Remaining(Next(s, e).calls) < Remaining(s.calls)
  {
    var t := Next(s, e);
    assert t.calls == s.calls[e.call := t.calls[e.call]];
    RemainingUpdate(s.calls, e.call, t.calls[e.call]);
  }

  /** While any call is unsettled some step is enabled, so a failed one never blocks the rest. */
  lemma NeverStuck<D, L>(init: D, events: seq<Event<D, L>>, i: nat) returns (e: Event<D, L>)
    requires CanRun(Initial(init), events)
    requires var s := After(Initial(init), events); i < |s.calls| && !s.calls[i].phase.Settled?
    ensures Enabled(After(Initial(init), events), e) && !e.Transaction? && e.call <= i
  {
    RunKeepsInv(Initial(init), events, init);
    var s := After(Initial(init), events);
    e := FrontStep(s, init, i);
  }

  lemma {:induction false} FrontStep<D, L>(s: State<D, L>, init: D, i: nat) returns (e: Event<D, L>)
    requires Inv(s, init) && i < |s.calls| && !s.calls[i].phase.Settled?
    ensures Enabled(s, e) && !e.Transaction? && e.call <= i
  {
    hide Serial, Apply;
    if IsSettled(s, s.calls[i].after) {
      assert CallGood(s, init, i);
      match s.calls[i].phase {
        case Waiting => e := Start(i, false);
        case Running(n, _) => e := if n < |s.calls[i].body.statements| then Execute(i) else Commit(i, false);
      }
    } else {
      e := FrontStep(s, init, i - 1);
    }
  }

  /** Without new calls a run has a bounded length; run on for as long as anything is enabled,
      and every call has settled. */
  lemma {:induction false} EverythingSettles<D, L>(s: State<D, L>, events: seq<Event<D, L>>)
    requires CanRun(s, events) && forall e | e in events :: !e.Transaction?
    ensures |events| <= Remaining(s.calls)
    decreases events
  {
    hide Enabled, Next;
    if events != [] {
      StepsProgress(s, events[0]);
      EverythingSettles(Next(s, events[0]), events[1..]);
    }
  }

  // ----- The driver object -----

  /** The connection and the queue, changed in place; each method is what happens between two
      awaits. */
  class SqliteDriver<!D, !L> {
    var calls: seq<Call<D, L>>
    var txQueue: Option<nat>
    var db: D
    var begun: D
    var open: bool
    ghost const init: D

    ghost function Now(): State<D, L>
      reads this
    {
      State(calls, txQueue, db, begun, open)
    }

    ghost predicate Valid()
      reads this
    {
      Inv(Now(), init)
    }

    constructor (db: D)
      ensures Valid() && Now() == Initial(db)
    {
      calls, txQueue, this.db, begun, open, init := [], None, db, db, false, db;
    }

    method Settle(i: nat, phase: Phase<L>)
      requires i < |calls|
      modifies `calls
      ensures calls == old(calls)[i := old(calls)[i].(phase := phase)]
    {
      calls := calls[i := calls[i].(phase := phase)];
    }

    /** The caller's part: chain onto the tail and become the tail. */
    method Transaction(body: Body<D, L>) returns (call: nat)
      requires Valid()
      modifies this
      ensures Valid() && Now() == Next(old(Now()), Event.Transaction(body))
      ensures call == old(|calls|) && txQueue == Some(call)
    {
      TransactionKeepsInv(Now(), init, body);
      call := |calls|;
      calls := calls + [Call(body, txQueue, Waiting)];
      txQueue := Some(call);
    }

    /** `BEGIN IMMEDIATE`, outside the `try`. */
    method Begin(call: nat, busy: bool) returns (began: bool)
      requires Valid() && Enabled(Now(), Start(call, busy))
      modifies this
      ensures Valid() && Now() == Next(old(Now()), Start(call, busy))
      ensures began == !busy
    {
      StartKeepsInv(Now(), init, call, busy);
      AtStart(Now(), init, call);
      hide Inv, Serial;
      began := !busy && !open;
      if began {
        begun, open := db, true;
        Settle(call, Running(0, calls[call].body.locals));
      } else {
        Settle(call, Settled(false));
      }
    }

    method Rollback(call: nat)
      requires call < |calls|
      modifies this
      ensures Now() == RolledBack(old(Now()), call)
    {
      db, open := begun, false;
      Settle(call, Settled(false));
    }

    /** One awaited statement of the callback. */
    method Execute(call: nat) returns (ok: bool)
      requires Valid() && Enabled(Now(), Event.Execute(call))
      modifies this
      ensures Valid() && Now() == Next(old(Now()), Event.Execute(call))
      ensures ok == IsRunning(Now(), call)
    {
      hide Inv;
      ExecuteKeepsInv(Now(), init, call);
      var n := calls[call].phase.done;
      var result := calls[call].body.statements[n](db, calls[call].phase.locals);
      ok := result.Some?;
      if ok {
        db := result.value.0;
        Settle(call, Running(n + 1, result.value.1));
      } else {
        Rollback(call);
      }
    }

    method Finish(call: nat, fails: bool)
      requires Valid() && Enabled(Now(), Commit(call, fails))
      modifies this
      ensures Valid() && Now() == Next(old(Now()), Commit(call, fails))
    {
      CommitKeepsInv(Now(), init, call, fails);
      hide Inv;
      if fails {
        Rollback(call);
      } else {
        open := false;
        Settle(call, Settled(true));
      }
    }
  }
}
