/** Graceful shutdown against deadlines (src/shutdown.ts), under an ideal clock: sleeping takes
    exactly the time asked for and everything else takes none. Times are whole milliseconds;
    settings may also be NaN or infinite. */
module Shutdown {
  import opened Options

  /** A JavaScript number used as a time. */
  datatype Number = NaN | Infinite(negative: bool) | Finite(ms: int)

  const DEFAULT_CLEANUP_RESERVE_MS := 2000
  const DEFAULT_PRE_STOP_DELAY_MS := 0
  const POLL_INTERVAL_MS := 25
  const SERVER_CLOSE_GRACE_MS := 250

  function Min(a: int, b: int): int {
    if a < b then a else b
  }

  function Max(a: int, b: int): int {
    if a < b then b else a
  }

  // ----- Arithmetic with NaN and infinities -----

  /** `a < b`: false as soon as one side is NaN. */
  predicate Below(a: Number, b: Number) {
    match (a, b)
    case (Finite(x), Finite(y)) => x < y
    case (Finite(_), Infinite(negative)) => !negative
    case (Infinite(negative), Finite(_)) => negative
    case (Infinite(m), Infinite(n)) => m && !n
    case _ => false
  }

  /** Math.min. */
  function Least(a: Number, b: Number): Number {
    if a.NaN? || b.NaN? then NaN else if Below(b, a) then b else a
  }

  /** Math.max. */
  function Greatest(a: Number, b: Number): Number {
    if a.NaN? || b.NaN? then NaN else if Below(a, b) then b else a
  }

  function Negated(a: Number): Number {
    match a
    case NaN => NaN
    case Infinite(negative) => Infinite(!negative)
    case Finite(ms) => Finite(-ms)
  }

  function Plus(a: Number, b: Number): Number {
    match (a, b)
    case (Finite(x), Finite(y)) => Finite(x + y)
    case (Infinite(m), Infinite(n)) => if m == n then a else NaN
    case (Infinite(_), Finite(_)) => a
    case (Finite(_), Infinite(_)) => b
    case _ => NaN
  }

  function Minus(a: Number, b: Number): Number {
    Plus(a, Negated(b))
  }

  /** Math.floor(a * tenths / 10). */
  function Share(a: Number, tenths: nat): Number {
    match a
    case Finite(ms) => Finite(ms * tenths / 10)
    case _ => a
  }

  /** How long a timer runs: one that is asked for NaN or infinity fires after 1 ms. */
  function TimerMs(asked: Number): (ms: nat)
    ensures asked.Finite? ==> ms == Max(0, asked.ms)
  {
    match asked
    case Finite(ms) => Max(0, ms)
    case _ => 1
  }

  function Clamp(value: Number, min: Number, max: Number): (r: Number)
    ensures min.Finite? && max.Finite? && min.ms <= max.ms ==> r.Finite? && min.ms <= r.ms <= max.ms
    ensures value.Finite? && min.Finite? && max.Finite? && min.ms <= value.ms <= max.ms ==> r == value
    ensures !value.Finite? ==> r == min
    ensures value.Finite? && min.Finite? && max.Finite? && value.ms < min.ms <= max.ms ==> r == min
    ensures value.Finite? && min.Finite? && max.Finite? && min.ms <= max.ms < value.ms ==> r == max
  {
    if !value.Finite? then min else Least(Greatest(value, min), max)
  }

  datatype Config = Config(
    timeoutMs: Number,
    preStopDelayMs: Option<Number>,
    requestDrainMs: Option<Number>,
    jobDrainMs: Option<Number>,
    cleanupReserveMs: Option<Number>)

  /** The slices of the budget, once clamped. */
  datatype Slices = Slices(budget: Number, reserve: Number, preStop: Number, requests: Number, jobs: Number)

  function Setting(given: Option<Number>, default: Number): Number {
    match given
    case None => default
    case Some(n) => n
  }

  predicate IsZeroOrNaN(n: Number) {
    n.NaN? || n == Finite(0)
  }

  predicate IsTime(n: Number) {
    n.Finite? && n.ms >= 0
  }

  /** A budget: not below 0. */
  predicate IsBudget(n: Number) {
    n != Infinite(true) && (n.Finite? ==> n.ms >= 0)
  }

  /** A misconfigured slice never reaches past the cleanup reserve of a finite budget. Without a
      deadline the slices are still finite, and with one that is not a number they are nothing. */
  predicate SlicesFit(s: Slices) {
    && IsBudget(s.budget)
    && (!s.budget.NaN? ==> IsTime(s.reserve)) && (s.budget.Finite? ==> s.reserve.ms <= s.budget.ms / 2)
    && SliceFits(s, s.preStop) && SliceFits(s, s.requests) && SliceFits(s, s.jobs)
  }

  predicate SliceFits(s: Slices, slice: Number) {
    if s.budget.NaN? then IsZeroOrNaN(slice)
    else IsTime(slice) && (s.budget.Finite? && s.reserve.Finite? ==> slice.ms <= s.budget.ms - s.reserve.ms)
  }

  /** A misconfigured slice never reaches past the cleanup reserve. */
  function SlicesOf(c: Config): (s: Slices)
    ensures SlicesFit(s)
  {
    SlicesAreFit(c);
    Clamped(c)
  }

  function Clamped(c: Config): Slices {
    var budget := Greatest(Finite(0), c.timeoutMs);
    var reserve := Clamp(Setting(c.cleanupReserveMs, Finite(DEFAULT_CLEANUP_RESERVE_MS)), Finite(0), Share(budget, 5));
    var most := Greatest(Finite(0), Minus(budget, reserve));
    Slices(budget, reserve,
           Clamp(Setting(c.preStopDelayMs, Finite(DEFAULT_PRE_STOP_DELAY_MS)), Finite(0), most),
           Clamp(Setting(c.requestDrainMs, Share(budget, 5)), Finite(0), most),
           Clamp(Setting(c.jobDrainMs, Share(budget, 3)), Finite(0), most))
  }

  lemma ClampFits(value: Number, most: Number)
    requires IsBudget(most)
    ensures var slice := Clamp(value, Finite(0), most);
            if most.NaN? then IsZeroOrNaN(slice) else IsTime(slice) && (most.Finite? ==> slice.ms <= most.ms)
  {
  }

  lemma HalfFits(timeout: Number)
    ensures var budget := Greatest(Finite(0), timeout);
            var half := Share(budget, 5);
            && IsBudget(budget) && IsBudget(half) && half.NaN? == budget.NaN?
            && (budget.Finite? ==> half == Finite(budget.ms / 2))
  {
  }

  lemma RoomFits(budget: Number, reserve: Number)
    requires IsBudget(budget) && (if budget.NaN? then IsZeroOrNaN(reserve) else IsTime(reserve))
    requires budget.Finite? ==> reserve.ms <= budget.ms / 2
    ensures var most := Greatest(Finite(0), Minus(budget, reserve));
            && IsBudget(most) && most.NaN? == budget.NaN?
            && (budget.Finite? ==> most == Finite(budget.ms - reserve.ms))
  {
  }

  /** The slices fit, whatever the configuration. */
  lemma SlicesAreFit(c: Config)
    ensures SlicesFit(Clamped(c))
  {
    hide Clamp, IsZeroOrNaN, Greatest, Share, Minus, Setting;
    var budget, reserve := Clamped(c).budget, Clamped(c).reserve;
    HalfFits(c.timeoutMs);
    ClampFits(Setting(c.cleanupReserveMs, Finite(DEFAULT_CLEANUP_RESERVE_MS)), Share(budget, 5));
    RoomFits(budget, reserve);
    var most := Greatest(Finite(0), Minus(budget, reserve));
    ClampFits(Setting(c.preStopDelayMs, Finite(DEFAULT_PRE_STOP_DELAY_MS)), most);
    ClampFits(Setting(c.requestDrainMs, Share(budget, 5)), most);
    ClampFits(Setting(c.jobDrainMs, Share(budget, 3)), most);
  }

  /** What the budget comes to: NaN and infinity stay, and nothing is below 0. */
  lemma BudgetIs(c: Config)
    ensures SlicesOf(c).budget ==
              match c.timeoutMs
              case NaN => NaN
              case Infinite(negative) => if negative then Finite(0) else Infinite(false)
              case Finite(ms) => Finite(if ms < 0 then 0 else ms)
  {
  }

  /** Arithmetic and comparison with NaN and infinities, as in IEEE 754. */
  lemma SpecialNumbers(a: Number, x: int)
    ensures Least(NaN, a) == Least(a, NaN) == Greatest(NaN, a) == Greatest(a, NaN) == NaN
    ensures Plus(NaN, a) == Plus(a, NaN) == Minus(NaN, a) == Minus(a, NaN) == NaN
    ensures !Below(NaN, a) && !Below(a, NaN) && !Below(a, a)
    ensures forall negative ::
              Plus(Infinite(negative), Finite(x)) == Plus(Finite(x), Infinite(negative)) == Infinite(negative)
    ensures forall negative :: Plus(Infinite(negative), Infinite(negative)) == Infinite(negative)
    ensures forall negative :: Minus(Infinite(negative), Infinite(negative)) == NaN
    ensures Below(Infinite(true), Finite(x)) && Below(Finite(x), Infinite(false))
            && Below(Infinite(true), Infinite(false))
    ensures !Below(Infinite(false), Finite(x)) && !Below(Finite(x), Infinite(true))
            && !Below(Infinite(false), Infinite(true))
  {
  }

  /** What a slice comes to that is asked for as `given`, with so much at most. */
  ghost predicate IsSlice(slice: Number, given: Number, most: int) {
    match given
    case Finite(ms) => slice == Finite(if ms < 0 then 0 else if ms > most then most else ms)
    case _ => slice == Finite(0)
  }

  /** A setting is kept as far as there is room for it: up to half the budget for the reserve, up to
      what that leaves for each of the others. Unset, the reserve is two seconds, there is no
      pre-stop delay, requests get half the budget and jobs three tenths. */
  lemma SlicesKeepSettings(c: Config)
    requires c.timeoutMs.Finite? && c.timeoutMs.ms >= 0
    ensures var s, budget := SlicesOf(c), c.timeoutMs.ms;
            && s.budget == Finite(budget) && s.reserve.Finite?
            && IsSlice(s.reserve, match c.cleanupReserveMs case None => Finite(2000) case Some(n) => n, budget / 2)
            && var most := budget - s.reserve.ms;
            && IsSlice(s.preStop, match c.preStopDelayMs case None => Finite(0) case Some(n) => n, most)
            && IsSlice(s.requests, match c.requestDrainMs case None => Finite(budget / 2) case Some(n) => n, most)
            && IsSlice(s.jobs, match c.jobDrainMs case None => Finite(budget * 3 / 10) case Some(n) => n, most)
  {
    var s, budget := SlicesOf(c), c.timeoutMs.ms;
    hide Clamp, Greatest, Least, Minus, Share, Plus, SlicesFit;
    SlicesTimed(c);
    FiniteBudget(budget);
    ClampIsSlice(Setting(c.cleanupReserveMs, Finite(2000)), budget / 2);
    FiniteRoom(budget, s.reserve.ms);
    ClampIsSlice(Setting(c.preStopDelayMs, Finite(0)), budget - s.reserve.ms);
    ClampIsSlice(Setting(c.requestDrainMs, Finite(budget / 2)), budget - s.reserve.ms);
    ClampIsSlice(Setting(c.jobDrainMs, Finite(budget * 3 / 10)), budget - s.reserve.ms);
  }

  lemma SlicesTimed(c: Config)
    requires c.timeoutMs.Finite? && c.timeoutMs.ms >= 0
    ensures SlicesOf(c).budget == c.timeoutMs && IsTime(SlicesOf(c).reserve)
            && SlicesOf(c).reserve.ms <= c.timeoutMs.ms / 2
  {
    hide SlicesOf, Clamped, SliceFits;
    BudgetIs(c);
  }

  lemma ClampIsSlice(value: Number, most: int)
    requires most >= 0
    ensures IsSlice(Clamp(value, Finite(0), Finite(most)), value, most)
  {
  }

  lemma FiniteBudget(budget: nat)
    ensures Greatest(Finite(0), Finite(budget)) == Finite(budget)
    ensures Share(Finite(budget), 5) == Finite(budget / 2) && Share(Finite(budget), 3) == Finite(budget * 3 / 10)
  {
  }

  lemma FiniteRoom(budget: nat, reserve: nat)
    requires reserve <= budget
    ensures Greatest(Finite(0), Minus(Finite(budget), Finite(reserve))) == Finite(budget - reserve)
  {
  }

  // ----- Waiting -----

  /** Polls until `done` or the deadline, whichever is first, never sleeping past the deadline; a
      deadline that is not a number has always passed. A condition that holds from `settled` on
      is noticed less than one interval late. */
  method WaitFor(done: int -> bool, deadline: Number, start: int, ghost settled: int) returns (now: int)
    requires !deadline.Infinite?
    ensures start <= now && (deadline.Finite? ==> now <= Max(start, deadline.ms)) && (deadline.NaN? ==> now == start)
    ensures done(now) || !Below(Finite(now), deadline)
    ensures (forall t | t >= settled :: done(t)) ==> now < Max(start + 1, settled + POLL_INTERVAL_MS)
    ensures done(start) ==> now == start
  {
    now := start;
    while !done(now) && Below(Finite(now), deadline)
      invariant start <= now && (deadline.Finite? ==> now <= Max(start, deadline.ms))
              && (deadline.NaN? ==> now == start)
      invariant (forall t | t >= settled :: done(t)) ==> now < Max(start + 1, settled + POLL_INTERVAL_MS)
      invariant done(start) ==> now == start
      decreases if deadline.Finite? then deadline.ms - now else 0
    {
      var remaining := Minus(deadline, Finite(now));
      now := now + TimerMs(Least(Finite(POLL_INTERVAL_MS), remaining));
    }
  }

  // ----- Cleanup steps -----

  /** How a cleanup task's promise behaves: when it settles, if ever, whether it rejects, and
      which side of the race wins a tie with the timer. */
  datatype Task = Task(settlesAfter: Option<nat>, rejects: bool, timerWinsTie: bool)

  datatype Step = Step(name: string, task: Task)

  datatype Status = Ok | Timeout | Failed

  predicate SettlesWithin(step: Step, limit: nat) {
    var t := step.task;
    t.settlesAfter.Some? &&
    (t.settlesAfter.value < limit || (t.settlesAfter.value == limit && !t.timerWinsTie))
  }

  /** How long a step is given when this much is left. */
  function LimitOf(remainingMs: Number): (limit: nat)
    ensures limit >= 1 && (remainingMs.Finite? ==> limit == Max(1, remainingMs.ms))
            && (!remainingMs.Finite? ==> limit == 1)
  {
    TimerMs(Greatest(Finite(1), remainingMs))
  }

  /** The race between the step and its timer. */
  method RunCleanupStep(step: Step, remainingMs: Number, start: int) returns (now: int, status: Status)
    ensures start <= now <= start + LimitOf(remainingMs)
    ensures var settles, limit := step.task.settlesAfter, LimitOf(remainingMs);
            status.Timeout? <==>
                settles.None? || settles.value > limit || (settles.value == limit && step.task.timerWinsTie)
    ensures status.Timeout? ==> now == start + LimitOf(remainingMs)
    ensures !status.Timeout? ==> now == start + step.task.settlesAfter.value && (status.Failed? <==> step.task.rejects)
  {
    var limit := TimerMs(Greatest(Finite(1), remainingMs));
    if SettlesWithin(step, limit) {
      now := start + step.task.settlesAfter.value;
      status := if step.task.rejects then Failed else Ok;
    } else {
      now := start + limit;
      status := Timeout;
    }
  }

  /** One attempted step: when it started and how it ended. */
  datatype Attempt = Attempt(name: string, started: int, status: Status)

  /** The names of the attempts that did not end well, in order. */
  function FailedNames(attempts: seq<Attempt>): seq<string> {
    if attempts == [] then []
    else
      var last := attempts[|attempts| - 1];
      FailedNames(attempts[..|attempts| - 1]) + (if last.status.Ok? then [] else [last.name])
  }

  /** The attempt gave the step what was left until the deadline, and at least 1 ms. */
  ghost predicate Allowed(step: Step, attempt: Attempt, hardDeadline: Number) {
    && attempt.name == step.name
    && (var settles, limit := step.task.settlesAfter, LimitOf(Minus(hardDeadline, Finite(attempt.started)));
        attempt.status.Timeout? <==>
            settles.None? || settles.value > limit || (settles.value == limit && step.task.timerWinsTie))
    && (attempt.status.Failed? ==> step.task.rejects)
  }

  /** The attempts are the supplied steps, in order, each given its due time. */
  ghost predicate AllAttempted(steps: seq<Step>, attempts: seq<Attempt>, hardDeadline: Number) {
    |attempts| == |steps| && forall i | 0 <= i < |steps| :: Allowed(steps[i], attempts[i], hardDeadline)
  }

  lemma Failures(attempts: seq<Attempt>, attempt: Attempt)
    ensures attempt.status.Ok? ==> FailedNames(attempts + [attempt]) == FailedNames(attempts)
    ensures !attempt.status.Ok? ==> FailedNames(attempts + [attempt]) == FailedNames(attempts) + [attempt.name]
  {
    assert (attempts + [attempt])[..|attempts|] == attempts;
  }

  /** The latest a cleanup that starts at `start` can end: past the deadline, or without one, each
      step gets 1 ms. */
  function LatestEnd(start: int, hardDeadline: Number, steps: nat): int {
    (if hardDeadline.Finite? then Max(start, hardDeadline.ms) else start) + steps
  }

  /** Every supplied step is attempted, in order. */
  method RunCleanup(steps: seq<Step>, hardDeadline: Number, start: int)
    returns (now: int, failures: seq<string>, attempts: seq<Attempt>)
    ensures start <= now <= LatestEnd(start, hardDeadline, |steps|)
    ensures AllAttempted(steps, attempts, hardDeadline) && failures == FailedNames(attempts)
    ensures attempts != [] ==> attempts[0].started == start
  {
    hide LimitOf, SettlesWithin;
    now, failures, attempts := start, [], [];
    for i := 0 to |steps|
      invariant start <= now <= LatestEnd(start, hardDeadline, i)
      invariant |attempts| == i && failures == FailedNames(attempts)
      invariant if attempts == [] then now == start else attempts[0].started == start
      invariant forall j | 0 <= j < i :: Allowed(steps[j], attempts[j], hardDeadline)
    {
      var remainingMs := Minus(hardDeadline, Finite(now));
      var ended, status := RunCleanupStep(steps[i], Greatest(Finite(1), remainingMs), now);
      SameLimit(remainingMs);
      var attempt := Attempt(steps[i].name, now, status);
      Failures(attempts, attempt);
      now := ended;
      attempts := attempts + [attempt];
      if status != Ok {
        failures := failures + [steps[i].name];
      }
    }
  }

  lemma SameLimit(remainingMs: Number)
    ensures LimitOf(Greatest(Finite(1), remainingMs)) == LimitOf(remainingMs)
  {
  }

  // ----- The sequence -----

  /** What the process does meanwhile, as functions of time: running jobs, open requests,
      whether the close callback has fired by itself, and how long after a forced close it
      fires, if it does. */
  datatype Behaviour = Behaviour(
    jobs: int -> nat,
    requests: int -> nat,
    closed: int -> bool,
    closesAfterForce: Option<nat>,
    closeRedis: Option<Task>,
    closeDb: Option<Task>,
    shutdownTracing: Option<Task>)

  function StepOf(name: string, task: Option<Task>): seq<Step> {
    match task
    case None => []
    case Some(t) => [Step(name, t)]
  }

  /** The supplied cleanup steps, in the order they run. */
  function StepsOf(world: Behaviour): (steps: seq<Step>)
    ensures |steps| <= 3
  {
    StepOf("redis", world.closeRedis) + StepOf("database", world.closeDb) + StepOf("tracing", world.shutdownTracing)
  }

  /** Every task that is supplied is a step, Redis before the database before tracing, and there are
      no others. */
  lemma StepsAreSupplied(world: Behaviour)
    ensures var tasks := [("redis", world.closeRedis), ("database", world.closeDb), ("tracing", world.shutdownTracing)];
            && (forall k | 0 <= k < 3 && tasks[k].1.Some? :: Step(tasks[k].0, tasks[k].1.value) in StepsOf(world))
            && (forall step | step in StepsOf(world) :: exists k ::
                0 <= k < 3 && tasks[k] == (step.name, Some(step.task)))
            && (forall i, j | 0 <= i < j < |StepsOf(world)| ::
                  StepsOf(world)[i].name == "redis" || StepsOf(world)[j].name == "tracing")
  {
    var tasks := [("redis", world.closeRedis), ("database", world.closeDb), ("tracing", world.shutdownTracing)];
    var steps := StepsOf(world);
    forall step | step in steps ensures exists k :: 0 <= k < 3 && tasks[k] == (step.name, Some(step.task)) {
      assert tasks[0] == (step.name, Some(step.task)) || tasks[1] == (step.name, Some(step.task))
          || tasks[2] == (step.name, Some(step.task));
    }
  }

  datatype Report = Report(
    exitCode: int,
    durationMs: int,
    forceClosedConnections: bool,
    cleanupFailures: seq<string>,
    jobsWaitedUntil: int,
    requestsWaitedUntil: int,
    cleanupStarted: int,
    attempts: seq<Attempt>)

  /** When the two waits must be over, as the code computes it. */
  function CleanupDeadline(s: Slices, start: int): Number {
    Minus(Plus(Finite(start), s.budget), s.reserve)
  }

  function HardDeadline(s: Slices, start: int): Number {
    Plus(Finite(start), s.budget)
  }

  /** When a wait that starts at `now` with this slice must be over. */
  function WaitDeadline(s: Slices, slice: Number, start: int, now: int): Number {
    Least(Plus(Finite(now), slice), CleanupDeadline(s, start))
  }

  lemma WaitDeadlineIs(s: Slices, slice: Number, start: int, now: int)
    requires SlicesFit(s) && SliceFits(s, slice)
    ensures var deadline := WaitDeadline(s, slice, start, now);
            match s.budget
            case Finite(budget) => deadline == Finite(Min(now + slice.ms, start + budget - s.reserve.ms))
            case Infinite(_) => deadline == Finite(now + slice.ms)
            case NaN => deadline == NaN
  {
  }

  /** Steps 2 to 7: the pre-stop delay, then the waits for jobs and for requests. */
  method Drain(s: Slices, world: Behaviour, start: int) returns (jobsUntil: int, requestsUntil: int)
    requires SlicesFit(s)
    ensures start <= jobsUntil <= requestsUntil
    ensures s.budget.Finite? ==> requestsUntil <= start + s.budget.ms - s.reserve.ms
    ensures !s.budget.NaN? ==>
              jobsUntil <= start + s.preStop.ms + s.jobs.ms && requestsUntil <= jobsUntil + s.requests.ms
    ensures s.budget.NaN? ==> jobsUntil == requestsUntil == start
    ensures !s.budget.NaN? ==>
              && jobsUntil >= start + s.preStop.ms
              && (world.jobs(start + s.preStop.ms) == 0 ==> jobsUntil == start + s.preStop.ms)
    ensures world.requests(jobsUntil) == 0 || world.closed(jobsUntil) ==> requestsUntil == jobsUntil
    ensures world.jobs(jobsUntil) == 0 || s.budget.NaN?
            || !Below(Finite(jobsUntil), WaitDeadline(s, s.jobs, start, start + s.preStop.ms))
    ensures world.requests(requestsUntil) == 0 || world.closed(requestsUntil)
            || !Below(Finite(requestsUntil), WaitDeadline(s, s.requests, start, jobsUntil))
  {
    hide WaitDeadline, Greatest, Plus, Minus;
    var now := start;
    if Below(Finite(0), s.preStop) {
      now := now + TimerMs(s.preStop);
    }
    if world.jobs(now) > 0 {
      var deadline := WaitDeadline(s, s.jobs, start, now);
      WaitDeadlineIs(s, s.jobs, start, now);
      now := WaitFor(t => world.jobs(t) == 0, deadline, now, now);
    }
    jobsUntil := now;
    var deadline := WaitDeadline(s, s.requests, start, now);
    WaitDeadlineIs(s, s.requests, start, now);
    requestsUntil := WaitFor(t => world.requests(t) == 0 || world.closed(t), deadline, now, now);
  }

  /** How long a forced close is waited for: until its callback, but at most 250 ms and until the
      hard deadline. */
  function GraceUsed(world: Behaviour, hardDeadline: Number, start: int): int {
    var most := match hardDeadline
                case Finite(ms) => Max(0, Min(250, ms - start))
                case Infinite(negative) => if negative then 0 else 250
                case NaN => 1;
    match world.closesAfterForce
    case None => most
    case Some(ms) => Min(ms, most)
  }

  /** Step 8: force what is still connected and wait a moment for the close callback. */
  method ForceClose(world: Behaviour, hardDeadline: Number, start: int) returns (now: int, forced: bool)
    requires hardDeadline != Infinite(true)
    ensures forced <==> !world.closed(start)
    ensures start <= now <= start + SERVER_CLOSE_GRACE_MS
    ensures hardDeadline.Finite? && start <= hardDeadline.ms ==> now <= hardDeadline.ms
    ensures hardDeadline.NaN? ==> now <= start + 1
    ensures !forced ==> now == start
    ensures forced ==> now == start + GraceUsed(world, hardDeadline, start)
  {
    now := start;
    forced := !world.closed(start);
    if forced {
      var grace := TimerMs(Greatest(Finite(0),
                                    Least(Finite(SERVER_CLOSE_GRACE_MS),
                                          Greatest(Finite(0), Minus(hardDeadline, Finite(now))))));
      now := now + (if world.closesAfterForce.Some? then Min(world.closesAfterForce.value, grace) else grace);
    }
  }

  /** The bounds a run keeps when its budget is finite. */
  ghost predicate WithinBudget(s: Slices, world: Behaviour, start: int, r: Report)
    requires s.budget.Finite? && s.reserve.Finite?
  {
    var cleanupDeadline, hardDeadline := start + s.budget.ms - s.reserve.ms, start + s.budget.ms;
    && r.requestsWaitedUntil <= cleanupDeadline && r.cleanupStarted <= hardDeadline
    && r.durationMs <= s.budget.ms + |StepsOf(world)|
  }

  /** The whole sequence, whatever the configuration and whatever jobs, requests, the server and
      the cleanup steps do. A budget that is not a number skips the waits; an infinite one keeps
      their slices and gives each cleanup step 1 ms. */
  method RunShutdown(config: Config, world: Behaviour, start: int) returns (r: Report)
    ensures var s := SlicesOf(config);
            && start <= r.jobsWaitedUntil <= r.requestsWaitedUntil
            && r.requestsWaitedUntil <= r.cleanupStarted <= r.requestsWaitedUntil + SERVER_CLOSE_GRACE_MS
            && 0 <= r.durationMs
            && (s.budget.Finite? ==> WithinBudget(s, world, start, r))
            && (!s.budget.NaN? ==> r.jobsWaitedUntil <= start + s.preStop.ms + s.jobs.ms
                                   && r.requestsWaitedUntil <= r.jobsWaitedUntil + s.requests.ms)
            && (!s.budget.NaN? ==> r.jobsWaitedUntil >= start + s.preStop.ms)
            && (s.budget.NaN? ==> r.requestsWaitedUntil == start && r.cleanupStarted <= start + 1)
            && (!s.budget.Finite? ==> r.durationMs <= r.cleanupStarted - start + |StepsOf(world)|)
    ensures AllAttempted(StepsOf(world), r.attempts, HardDeadline(SlicesOf(config), start))
    ensures r.cleanupFailures == FailedNames(r.attempts)
    ensures r.attempts != [] ==> r.attempts[0].started == r.cleanupStarted
    ensures r.exitCode == if r.cleanupFailures == [] then 0 else 1
    ensures r.forceClosedConnections <==> !world.closed(r.requestsWaitedUntil)
    ensures var s := SlicesOf(config);
            || world.jobs(r.jobsWaitedUntil) == 0 || s.budget.NaN?
            || !Below(Finite(r.jobsWaitedUntil), WaitDeadline(s, s.jobs, start, start + s.preStop.ms))
    ensures var s := SlicesOf(config);
            || world.requests(r.requestsWaitedUntil) == 0 || world.closed(r.requestsWaitedUntil)
            || !Below(Finite(r.requestsWaitedUntil), WaitDeadline(s, s.requests, start, r.jobsWaitedUntil))
  {
    hide SlicesOf, WaitDeadline, Least, Greatest, AllAttempted, FailedNames, StepsOf;
    var s := SlicesOf(config);
    var hardDeadline := HardDeadline(s, start);
    var jobsUntil, requestsUntil := Drain(s, world, start);
    var cleanupStarted, forced := ForceClose(world, hardDeadline, requestsUntil);
    var now, failures, attempts := RunCleanup(StepsOf(world), hardDeadline, cleanupStarted);
    r := Report(if failures == [] then 0 else 1, now - start, forced, failures,
                jobsUntil, requestsUntil, cleanupStarted, attempts);
  }

  // ----- The in-flight counter -----

  /** Requests are counted in when tracked and out at the first of finish and close. */
  class RequestCounter {
    var inFlight: int
    ghost var open: set<nat>
    var settled: set<nat>
    ghost var tracked: set<nat>

    /** The counter is the number of tracked requests that have not ended. */
    ghost predicate Valid()
      reads this
    {
      inFlight == |open| && open == tracked - settled && settled <= tracked
    }

    constructor ()
      ensures Valid() && open == {} && inFlight == 0
    {
      inFlight, open, settled, tracked := 0, {}, {}, {};
    }

    method Track(request: nat)
      requires Valid() && request !in tracked
      modifies this
      ensures Valid() && open == old(open) + {request} && inFlight == old(inFlight) + 1
    {
      inFlight := inFlight + 1;
      open, tracked := open + {request}, tracked + {request};
    }

    /** The handler of both events; the second one changes nothing. */
    method Release(request: nat)
      requires Valid() && request in tracked
      modifies this
      ensures Valid() && open == old(open) - {request}
      ensures request !in old(open) ==> inFlight == old(inFlight)
    {
      if request in settled {
        return;
      }
      settled := settled + {request};
      inFlight := Max(0, inFlight - 1);
      open := open - {request};
    }
  }
}
