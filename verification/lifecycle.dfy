/** The gRPC process: RunLifecycle's two goroutines, the reporter, and the order in which App.Shutdown closes things. */
module Lifecycle {
  import opened Wrappers
  import R = HealthReporter

  /** The goroutine that runs Start, calls stop, waits and returns the exit code. */
  datatype Main = StartingReporter | Serving | Stopping | Joining | Exited(code: int)

  /** The goroutine that waits for the root context and runs Shutdown. */
  datatype Closer =
    | AwaitingRoot | InReporter | InServer | ClosingRedis | ClosingPool | StoppingTelemetry | Recording | Closing
    | Closed

  /** The parts whose shutdown can fail; closing the pool cannot. */
  datatype Part = ReporterPart | ServerPart | RedisPart | TelemetryPart

  datatype State = State(
    hasShutdown: bool,
    reporter: R.State,
    rootDone: bool,
    main: Main,
    startFailed: bool,
    closer: Closer,
    failed: set<Part>,
    shutdownErr: bool,
    redisClosed: bool,
    poolClosed: bool,
    shutdowns: nat)

  /** Call numbers of the reporter's one Start and one Shutdown. */
  const START: nat := 0
  const SHUTDOWN: nat := 1

  datatype Step =
    | Signal
    | Reporter(step: R.Step)
    | ReporterStarted | ServeReturns(failed: bool) | Stop | Join
    | SeeRoot | ReporterReturned | ServerStops(failed: bool) | CloseRedis(failed: bool) | ClosePool
    | StopTelemetry(failed: bool) | RecordError | CloseDone

  function Init(hasShutdown: bool): State {
    State(hasShutdown, R.Apply(R.Init(2), R.CallStart(START)), false, StartingReporter, false, AwaitingRoot, {},
          false, false, false, 0)
  }

  predicate OfStart(step: R.Step) {
    step == R.EnterStart(START) || step == R.CloseStarted(START) || step == R.Spawn(START)
  }

  predicate OfShutdown(step: R.Step) {
    || step == R.EnterStop(SHUTDOWN) || step == R.StopServer(SHUTDOWN) || step == R.Cancel(SHUTDOWN)
    || step == R.AskStarted(SHUTDOWN) || step == R.AskDone(SHUTDOWN) || step == R.SeeDone(SHUTDOWN)
    || step == R.Expire(SHUTDOWN)
  }

  predicate OfBackground(step: R.Step) {
    step.TestCancelled? || step.FinishCheck? || step.Publish? || step.SelectCancelled? || step.SelectTick?
    || step.CloseDone?
  }

  predicate Returned(pc: R.Pc) {
    pc.ReturnedNil? || pc.ReturnedError?
  }

  predicate Enabled(s: State, step: Step) {
    match step
    case Signal => true
    case Reporter(r) =>
      && R.Enabled(s.reporter, r)
      && ((s.main.StartingReporter? && OfStart(r)) || (s.closer.InReporter? && OfShutdown(r)) || OfBackground(r))
    case ReporterStarted => s.main.StartingReporter? && s.reporter.At(START).Started?
    case ServeReturns(_) => s.main.Serving?
    case Stop => s.main.Stopping?
    case Join => s.main.Joining? && s.closer.Closed?
    case SeeRoot => s.closer.AwaitingRoot? && s.rootDone && s.reporter.At(SHUTDOWN).Idle?
    case ReporterReturned => s.closer.InReporter? && Returned(s.reporter.At(SHUTDOWN))
    case ServerStops(_) => s.closer.InServer?
    case CloseRedis(_) => s.closer.ClosingRedis?
    case ClosePool => s.closer.ClosingPool?
    case StopTelemetry(_) => s.closer.StoppingTelemetry?
    case RecordError => s.closer.Recording?
    case CloseDone => s.closer.Closing?
  }

  function Noting(s: State, part: Part, failed: bool): State {
    if failed then s.(failed := s.failed + {part}) else s
  }

  function Apply(s: State, step: Step): State
    requires Enabled(s, step)
  {
    match step
    case Signal => s.(rootDone := true)
    case Reporter(r) => s.(reporter := R.Apply(s.reporter, r))
    case ReporterStarted => s.(main := Serving)
    case ServeReturns(failed) => s.(main := Stopping, startFailed := failed)
    case Stop => s.(main := Joining, rootDone := true)
    case Join => s.(main := Exited(if s.startFailed || s.shutdownErr then 1 else 0))
    case SeeRoot =>
      if s.hasShutdown then
        s.(closer := InReporter, reporter := R.Apply(s.reporter, R.CallShutdown(SHUTDOWN)))
      else s.(closer := Closing)
    case ReporterReturned =>
      Noting(s.(closer := InServer), ReporterPart, s.reporter.At(SHUTDOWN).ReturnedError?)
    case ServerStops(failed) => Noting(s.(closer := ClosingRedis), ServerPart, failed)
    case CloseRedis(failed) => Noting(s.(closer := ClosingPool, redisClosed := true), RedisPart, failed)
    case ClosePool => s.(closer := StoppingTelemetry, poolClosed := true)
    case StopTelemetry(failed) => Noting(s.(closer := Recording), TelemetryPart, failed)
    case RecordError => s.(closer := Closing, shutdownErr := s.failed != {}, shutdowns := s.shutdowns + 1)
    case CloseDone => s.(closer := Closed)
  }

  // ---------------------------------------------------------------- invariants

  predicate StartPc(pc: R.Pc) {
    pc.InStart? || pc.ClosingStarted? || pc.Spawning? || pc.Started?
  }

  predicate ShutdownPc(pc: R.Pc) {
    || pc.InShutdown? || pc.StoppingServer? || pc.Cancelling? || pc.AskingStarted? || pc.AskingDone? || pc.Waiting?
    || Returned(pc)
  }

  /** The reporter sees one Start call and at most one Shutdown call. */
  ghost predicate ReporterInv(s: State) {
    && R.Inv(s.reporter)
    && StartPc(s.reporter.At(START))
    && (forall c :: c != START && c != SHUTDOWN ==> s.reporter.At(c).Idle?)
    && (s.closer.AwaitingRoot? || !s.hasShutdown ==> s.reporter.At(SHUTDOWN).Idle?)
    && (s.closer.InReporter? ==> ShutdownPc(s.reporter.At(SHUTDOWN)))
    && (s.hasShutdown && !s.closer.AwaitingRoot? && !s.closer.InReporter? ==> Returned(s.reporter.At(SHUTDOWN)))
  }

  predicate Recorded(closer: Closer) {
    closer.Closing? || closer.Closed?
  }

  ghost predicate CloserInv(s: State) {
    && (!s.hasShutdown ==> s.closer.AwaitingRoot? || Recorded(s.closer))
    && s.shutdowns == (if s.hasShutdown && Recorded(s.closer) then 1 else 0)
    && (if Recorded(s.closer) then s.shutdownErr == (s.failed != {}) else !s.shutdownErr)
    && (!s.hasShutdown ==> s.failed == {})
    && (s.redisClosed <==> s.hasShutdown && (s.closer.ClosingPool? || s.closer.StoppingTelemetry?
                                             || s.closer.Recording? || Recorded(s.closer)))
    && (s.poolClosed <==> s.redisClosed && !s.closer.ClosingPool?)
    && (ReporterPart in s.failed <==> s.reporter.At(SHUTDOWN).ReturnedError? && !s.closer.InReporter?)
  }

  ghost predicate MainInv(s: State) {
    && (s.main.StartingReporter? || s.main.Serving? ==> !s.startFailed)
    && (s.main.Joining? ==> s.rootDone)
    && (s.main.Exited? ==>
          s.closer.Closed? && s.main.code == if s.startFailed || s.shutdownErr then 1 else 0)
    && (!s.closer.AwaitingRoot? ==> s.rootDone)
  }

  ghost predicate Inv(s: State) {
    ReporterInv(s) && CloserInv(s) && MainInv(s)
  }

  lemma BackgroundCalls(s: R.State, r: R.Step)
    requires R.Enabled(s, r) && OfBackground(r)
    ensures R.Apply(s, r).calls == s.calls
  {}

  lemma StartCalls(s: R.State, r: R.Step)
    requires R.Enabled(s, r) && OfStart(r)
    ensures var s' := R.Apply(s, r);
            && StartPc(s'.At(START)) && StartLeft(s'.At(START)) < StartLeft(s.At(START))
            && forall c :: c != START ==> s'.At(c) == s.At(c)
  {}

  lemma ShutdownCalls(s: R.State, r: R.Step)
    requires R.Enabled(s, r) && OfShutdown(r)
    ensures var s' := R.Apply(s, r);
            && ShutdownPc(s'.At(SHUTDOWN)) && ShutdownLeft(s'.At(SHUTDOWN)) < ShutdownLeft(s.At(SHUTDOWN))
            && forall c :: c != SHUTDOWN ==> s'.At(c) == s.At(c)
  {}

  lemma ReporterStepKept(s: State, r: R.Step)
    requires Inv(s) && Enabled(s, Reporter(r))
    ensures Inv(Apply(s, Reporter(r)))
  {
    hide R.Inv, R.Enabled, R.Apply;
    R.StepKeepsInv(s.reporter, r);
    if OfBackground(r) {
      BackgroundCalls(s.reporter, r);
    } else if OfStart(r) {
      StartCalls(s.reporter, r);
    } else {
      ShutdownCalls(s.reporter, r);
    }
    var s' := Apply(s, Reporter(r));
    assert OfBackground(r) ==> forall c :: s'.reporter.At(c) == s.reporter.At(c);
    assert ReporterInv(s');
  }

  lemma CallShutdown(s: R.State)
    requires R.Inv(s) && s.At(SHUTDOWN).Idle?
    ensures var s' := R.Apply(s, R.CallShutdown(SHUTDOWN));
            R.Inv(s') && s'.At(SHUTDOWN).InShutdown? && forall c :: c != SHUTDOWN ==> s'.At(c) == s.At(c)
  {
    R.StepKeepsInv(s, R.CallShutdown(SHUTDOWN));
  }

  lemma ReporterKeptBySeeRoot(s: State)
    requires ReporterInv(s) && Enabled(s, SeeRoot)
    ensures ReporterInv(Apply(s, SeeRoot))
  {
    hide R.Inv, R.Apply;
    if s.hasShutdown {
      CallShutdown(s.reporter);
    }
  }

  lemma ReporterKeptByOthers(s: State, step: Step)
    requires ReporterInv(s) && Enabled(s, step) && !step.Reporter? && !step.SeeRoot?
    ensures ReporterInv(Apply(s, step))
  {
    hide R.Inv, R.Apply, R.Enabled, StartPc, ShutdownPc, Returned, R.State.At;
  }

  lemma ReporterKept(s: State, step: Step)
    requires ReporterInv(s) && Enabled(s, step) && !step.Reporter?
    ensures ReporterInv(Apply(s, step))
  {
    hide ReporterInv, Apply, Enabled;
    if step.SeeRoot? {
      ReporterKeptBySeeRoot(s);
    } else {
      ReporterKeptByOthers(s, step);
    }
  }

  lemma CloserKept(s: State, step: Step)
    requires Inv(s) && Enabled(s, step) && !step.Reporter?
    ensures CloserInv(Apply(s, step))
  {
    hide R.Inv, R.Apply, MainInv;
    if step.SeeRoot? && s.hasShutdown {
      CallShutdown(s.reporter);
    }
  }

  lemma MainKept(s: State, step: Step)
    requires MainInv(s) && Enabled(s, step) && !step.Reporter?
    ensures MainInv(Apply(s, step))
  {
    hide R.Inv, R.Apply;
  }

  lemma StepKeepsInv(s: State, step: Step)
    requires Inv(s) && Enabled(s, step)
    ensures Inv(Apply(s, step))
  {
    if step.Reporter? {
      ReporterStepKept(s, step.step);
    } else {
      ReporterKept(s, step);
      CloserKept(s, step);
      MainKept(s, step);
    }
  }

  /** The state after a schedule, or nothing if some step was not enabled when it was taken. */
  ghost function After(hasShutdown: bool, steps: seq<Step>): (s: Option<State>)
    ensures s.Some? ==> Inv(s.value) && s.value.hasShutdown == hasShutdown
  {
    if steps == [] then
      R.StepKeepsInv(R.Init(2), R.CallStart(START));
      Some(Init(hasShutdown))
    else
      var before, step := After(hasShutdown, steps[..|steps| - 1]), steps[|steps| - 1];
      if before.None? || !Enabled(before.value, step) then None
      else
        StepKeepsInv(before.value, step);
        Some(Apply(before.value, step))
  }

  /**
   Whatever the order of signal, Start returning and shutdown progress: RunLifecycle returns only after its one
   Shutdown (if it was given one) has finished and recorded its error, and its code is 0 iff Start and every part of
   that Shutdown succeeded.
   */
  lemma ExitAfterOneShutdown(hasShutdown: bool, steps: seq<Step>)
    requires After(hasShutdown, steps).Some? && After(hasShutdown, steps).value.main.Exited?
    ensures var s := After(hasShutdown, steps).value;
            && s.rootDone
            && s.shutdowns == (if hasShutdown then 1 else 0)
            && (s.main.code == 0 <==> !s.startFailed && s.failed == {})
            && (s.main.code == 0 || s.main.code == 1)
            && (hasShutdown ==> s.redisClosed && s.poolClosed && Returned(s.reporter.At(SHUTDOWN)))
  {
    hide R.Inv;
  }

  // ---------------------------------------------------------------- the schedule and the exit code

  /** What the schedule says went wrong is what the state remembers. */
  ghost predicate Remembers(s: State, steps: seq<Step>) {
    && (s.startFailed <==> ServeReturns(true) in steps)
    && (ServerPart in s.failed <==> ServerStops(true) in steps)
    && (RedisPart in s.failed <==> CloseRedis(true) in steps)
    && (TelemetryPart in s.failed <==> StopTelemetry(true) in steps)
    && (s.reporter.At(SHUTDOWN).ReturnedError? <==> Reporter(R.Expire(SHUTDOWN)) in steps)
  }

  lemma ExpiryRemembered(s: R.State, r: R.Step)
    requires R.Enabled(s, r) && (OfStart(r) || OfShutdown(r) || OfBackground(r))
    ensures R.Apply(s, r).At(SHUTDOWN).ReturnedError? <==>
            s.At(SHUTDOWN).ReturnedError? || r == R.Expire(SHUTDOWN)
  {}

  lemma RememberedByReporter(s: State, steps: seq<Step>, r: R.Step)
    requires Remembers(s, steps) && Enabled(s, Reporter(r))
    ensures Remembers(Apply(s, Reporter(r)), steps + [Reporter(r)])
  {
    ExpiryRemembered(s.reporter, r);
    hide R.Apply, R.Enabled, OfStart, OfShutdown, OfBackground, R.State.At;
  }

  lemma RememberedBySeeRoot(s: State, steps: seq<Step>)
    requires Remembers(s, steps) && Enabled(s, SeeRoot)
    ensures Remembers(Apply(s, SeeRoot), steps + [SeeRoot])
  {}

  lemma RememberedByOthers(s: State, steps: seq<Step>, step: Step)
    requires Remembers(s, steps) && Enabled(s, step) && !step.Reporter? && !step.SeeRoot?
    requires s.main.StartingReporter? || s.main.Serving? ==> !s.startFailed
    ensures Remembers(Apply(s, step), steps + [step])
  {
    hide R.Apply, R.Enabled, R.State.At, OfStart, OfShutdown, OfBackground, Returned;
    match step
    case Signal =>
    case ReporterStarted =>
    case ServeReturns(_) =>
    case Stop =>
    case Join =>
    case ReporterReturned =>
    case ServerStops(_) =>
    case CloseRedis(_) =>
    case ClosePool =>
    case StopTelemetry(_) =>
    case RecordError =>
    case CloseDone =>
  }

  lemma StartRemembers(hasShutdown: bool)
    ensures After(hasShutdown, []).Some? && Remembers(After(hasShutdown, []).value, [])
  {}

  lemma {:induction false} ScheduleIsRemembered(hasShutdown: bool, steps: seq<Step>)
    requires After(hasShutdown, steps).Some?
    ensures Remembers(After(hasShutdown, steps).value, steps)
    decreases |steps|
  {
    hide Apply, Enabled, Remembers, ReporterInv, CloserInv;
    if steps == [] {
      StartRemembers(hasShutdown);
    } else {
      var n := |steps| - 1;
      var s, step := After(hasShutdown, steps[..n]).value, steps[n];
      assert steps == steps[..n] + [step];
      ScheduleIsRemembered(hasShutdown, steps[..n]);
      assert MainInv(s);
      if step.Reporter? {
        RememberedByReporter(s, steps[..n], step.step);
      } else if step.SeeRoot? {
        RememberedBySeeRoot(s, steps[..n]);
      } else {
        RememberedByOthers(s, steps[..n], step);
      }
    }
  }

  /**
   The exit code tells how the run went: 0 iff the schedule holds no failed Start and, if there was a Shutdown, no part
   of it that failed: not the reporter giving up, nor the server, the Redis client or telemetry.
   */
  lemma ExitCodeTellsTheRun(hasShutdown: bool, steps: seq<Step>)
    requires After(hasShutdown, steps).Some? && After(hasShutdown, steps).value.main.Exited?
    ensures var s := After(hasShutdown, steps).value;
            && (s.main.code == 0 || s.main.code == 1)
            && (hasShutdown ==>
                  && (s.main.code == 0 <==>
                        && ServeReturns(true) !in steps && ServerStops(true) !in steps && CloseRedis(true) !in steps
                        && StopTelemetry(true) !in steps && s.reporter.At(SHUTDOWN).ReturnedNil?)
                  && (s.reporter.At(SHUTDOWN).ReturnedNil? <==> Reporter(R.Expire(SHUTDOWN)) !in steps))
            && (!hasShutdown ==> (s.main.code == 0 <==> ServeReturns(true) !in steps))
  {
    ScheduleIsRemembered(hasShutdown, steps);
    var s := After(hasShutdown, steps).value;
    ExitAfterOneShutdown(hasShutdown, steps);
    hide After, R.Inv;
    assert s.failed == {} <==>
           ReporterPart !in s.failed && ServerPart !in s.failed && RedisPart !in s.failed && TelemetryPart !in s.failed by {
      PartsAreFour(s.failed);
    }
  }

  lemma PartsAreFour(failed: set<Part>)
    ensures failed == {} <==>
            ReporterPart !in failed && ServerPart !in failed && RedisPart !in failed && TelemetryPart !in failed
  {
    forall part | part in failed
      ensures part == ReporterPart || part == ServerPart || part == RedisPart || part == TelemetryPart {}
  }

  // ---------------------------------------------------------------- the order of closing

  /** The place of a step in its goroutine's program; 0 for steps of others. */
  function CloserPlace(step: Step): nat {
    match step
    case SeeRoot => 1
    case ReporterReturned => 2
    case ServerStops(_) => 3
    case CloseRedis(_) => 4
    case ClosePool => 5
    case StopTelemetry(_) => 6
    case RecordError => 7
    case CloseDone => 8
    case _ => 0
  }

  function MainPlace(step: Step): nat {
    match step
    case ReporterStarted => 1
    case ServeReturns(_) => 2
    case Stop => 3
    case Join => 4
    case _ => 0
  }

  /** The places of the steps that a goroutine took, in the order it took them. */
  function Places(steps: seq<Step>, place: Step -> nat): seq<nat> {
    if steps == [] then []
    else
      var p := place(steps[|steps| - 1]);
      Places(steps[..|steps| - 1], place) + if p == 0 then [] else [p]
  }

  function UpTo(k: nat): (places: seq<nat>)
    ensures |places| == k && forall i :: 0 <= i < k ==> places[i] == i + 1
  {
    seq(k, i => i + 1)
  }

  lemma UpToNext(k: nat)
    ensures UpTo(k + 1) == UpTo(k) + [k + 1]
  {}

  /** How far the goroutines have come. */
  lemma CloserMoves(s: State, step: Step)
    requires Enabled(s, step) && s.hasShutdown
    ensures var place, done, done' := CloserPlace(step), 8 - CloserLeft(s.closer), 8 - CloserLeft(Apply(s, step).closer);
            if place == 0 then done' == done else place == done + 1 && done' == done + 1
  {
    hide R.Apply, R.Enabled, R.State.At, OfStart, OfShutdown, OfBackground, Returned;
    match step
    case Signal =>
    case Reporter(_) =>
    case ReporterStarted =>
    case ServeReturns(_) =>
    case Stop =>
    case Join =>
    case SeeRoot =>
    case ReporterReturned =>
    case ServerStops(_) =>
    case CloseRedis(_) =>
    case ClosePool =>
    case StopTelemetry(_) =>
    case RecordError =>
    case CloseDone =>
  }

  lemma MainMoves(s: State, step: Step)
    requires Enabled(s, step)
    ensures var place, done, done' := MainPlace(step), 4 - MainLeft(s.main), 4 - MainLeft(Apply(s, step).main);
            if place == 0 then done' == done else place == done + 1 && done' == done + 1
  {
    hide R.Apply, R.Enabled, R.State.At, OfStart, OfShutdown, OfBackground, Returned;
    match step
    case Signal =>
    case Reporter(_) =>
    case ReporterStarted =>
    case ServeReturns(_) =>
    case Stop =>
    case Join =>
    case SeeRoot =>
    case ReporterReturned =>
    case ServerStops(_) =>
    case CloseRedis(_) =>
    case ClosePool =>
    case StopTelemetry(_) =>
    case RecordError =>
    case CloseDone =>
  }

  /** One more step, taken in its place, carries the places on. */
  lemma PlacesNext(steps: seq<Step>, place: Step -> nat, done: nat, done': nat)
    requires steps != [] && Places(steps[..|steps| - 1], place) == UpTo(done)
    requires var p := place(steps[|steps| - 1]);
             if p == 0 then done' == done else p == done + 1 && done' == done + 1
    ensures Places(steps, place) == UpTo(done')
  {
    UpToNext(done);
    hide UpTo;
  }

  lemma {:induction false} MainIsInOrder(hasShutdown: bool, steps: seq<Step>)
    requires After(hasShutdown, steps).Some?
    ensures Places(steps, MainPlace) == UpTo(4 - MainLeft(After(hasShutdown, steps).value.main))
    decreases |steps|
  {
    hide Enabled, Apply, Inv, MainLeft, UpTo, MainPlace;
    if steps == [] {
      StartsInOrder(hasShutdown);
    } else {
      var n := |steps| - 1;
      hide Places;
      MainIsInOrder(hasShutdown, steps[..n]);
      var s := After(hasShutdown, steps[..n]).value;
      MainMoves(s, steps[n]);
      PlacesNext(steps, MainPlace, 4 - MainLeft(s.main), 4 - MainLeft(Apply(s, steps[n]).main));
    }
  }

  lemma {:induction false} CloserIsInOrder(steps: seq<Step>)
    requires After(true, steps).Some?
    ensures Places(steps, CloserPlace) == UpTo(8 - CloserLeft(After(true, steps).value.closer))
    decreases |steps|
  {
    hide Enabled, Apply, Inv, CloserLeft, UpTo, CloserPlace;
    if steps == [] {
      StartsInOrder(true);
    } else {
      var n := |steps| - 1;
      hide Places;
      CloserIsInOrder(steps[..n]);
      var s := After(true, steps[..n]).value;
      CloserMoves(s, steps[n]);
      PlacesNext(steps, CloserPlace, 8 - CloserLeft(s.closer), 8 - CloserLeft(Apply(s, steps[n]).closer));
    }
  }

  lemma StartsInOrder(hasShutdown: bool)
    ensures After(hasShutdown, []).Some? && Places([], MainPlace) == Places([], CloserPlace) == []
    ensures UpTo(4 - MainLeft(After(hasShutdown, []).value.main)) == []
    ensures UpTo(8 - CloserLeft(After(hasShutdown, []).value.closer)) == []
  {}

  /**
   In every schedule the closing goroutine takes its steps in this order, each at most once: it sees the root context
   done, shuts down the reporter, then the server, then closes Redis, then the pool, then stops telemetry, records the
   joined error and closes the channel. The other one starts the reporter, serves, calls stop and joins.
   */
  lemma StepsAreInOrder(hasShutdown: bool, steps: seq<Step>)
    requires After(hasShutdown, steps).Some?
    ensures Places(steps, MainPlace) <= [1, 2, 3, 4]
    ensures hasShutdown ==> Places(steps, CloserPlace) <= [1, 2, 3, 4, 5, 6, 7, 8]
    ensures After(hasShutdown, steps).value.main.Exited? ==>
              && Places(steps, MainPlace) == [1, 2, 3, 4]
              && (hasShutdown ==> Places(steps, CloserPlace) == [1, 2, 3, 4, 5, 6, 7, 8])
  {
    MainIsInOrder(hasShutdown, steps);
    if hasShutdown {
      CloserIsInOrder(steps);
    }
    var s := After(hasShutdown, steps).value;
    ExitedIsThrough(s);
    hide After, Places, Inv, UpTo, MainLeft, CloserLeft;
    FirstPlaces(4 - MainLeft(s.main), 8 - CloserLeft(s.closer));
    FirstPlaces(4, 8);
  }

  lemma ExitedIsThrough(s: State)
    requires Inv(s)
    ensures s.main.Exited? ==> MainLeft(s.main) == 0 && CloserLeft(s.closer) == 0
    ensures MainLeft(s.main) <= 4 && CloserLeft(s.closer) <= 8
  {
    hide R.Inv;
  }

  lemma FirstPlaces(k: nat, l: nat)
    requires k <= 4 && l <= 8
    ensures UpTo(k) <= [1, 2, 3, 4] && UpTo(l) <= [1, 2, 3, 4, 5, 6, 7, 8]
    ensures [1, 2, 3, 4] == UpTo(4) && [1, 2, 3, 4, 5, 6, 7, 8] == UpTo(8)
  {}

  /** In every schedule Shutdown finishes at most once, and the pool closes only after the Redis client. */
  lemma AtMostOneShutdown(hasShutdown: bool, steps: seq<Step>)
    requires After(hasShutdown, steps).Some?
    ensures var s := After(hasShutdown, steps).value;
            s.shutdowns <= 1 && (s.poolClosed ==> s.redisClosed) && (s.redisClosed ==> Returned(s.reporter.At(SHUTDOWN)))
  {
    hide R.Inv;
  }

  predicate BackgroundWork(step: Step) {
    step.Reporter? && R.BackgroundWork(step.step)
  }

  lemma QuietStep(s: State, step: Step)
    requires Inv(s) && Enabled(s, step) && s.reporter.At(SHUTDOWN).ReturnedNil?
    ensures Apply(s, step).reporter.At(SHUTDOWN).ReturnedNil? && !BackgroundWork(step)
  {
    hide R.Inv, R.Enabled, R.Apply;
    if step.Reporter? {
      R.QuietStays(s.reporter, step.step, SHUTDOWN);
    }
  }

  /**
   If the reporter's Shutdown returned nil, then from before the Redis client and the pool are closed, for the rest of
   every schedule, no background readiness check is running and none starts.
   */
  lemma {:induction false} NoCheckOverlapsClosing(hasShutdown: bool, steps: seq<Step>, more: seq<Step>)
    requires After(hasShutdown, steps + more).Some?
    requires After(hasShutdown, steps).Some? ==> After(hasShutdown, steps).value.reporter.At(SHUTDOWN).ReturnedNil?
    ensures After(hasShutdown, steps).Some?
    ensures var s := After(hasShutdown, steps + more).value;
            s.reporter.At(SHUTDOWN).ReturnedNil? && !s.reporter.Busy()
    ensures forall i :: 0 <= i < |more| ==> !BackgroundWork(more[i])
    decreases |more|
  {
    hide R.Inv, Enabled, Apply, CloserInv, MainInv;
    if more == [] {
      assert steps + more == steps;
    } else {
      var n := |more| - 1;
      assert (steps + more)[..|steps| + n] == steps + more[..n];
      NoCheckOverlapsClosing(hasShutdown, steps, more[..n]);
      QuietStep(After(hasShutdown, steps + more[..n]).value, more[n]);
    }
    R.NilIsQuiet(After(hasShutdown, steps + more).value.reporter, SHUTDOWN);
  }

  /** Closing starts only once the reporter's Shutdown has returned, and an error there makes the exit code 1. */
  lemma ClosingFollowsReporter(hasShutdown: bool, steps: seq<Step>)
    requires After(hasShutdown, steps).Some?
    ensures var s := After(hasShutdown, steps).value;
            && (s.redisClosed && ReporterPart !in s.failed ==>
                  s.reporter.At(SHUTDOWN).ReturnedNil? && !s.reporter.Busy())
            && (s.main.Exited? && s.main.code == 0 && hasShutdown ==> !s.reporter.Busy())
  {
    var s := After(hasShutdown, steps).value;
    hide R.Inv, After;
    if s.redisClosed && ReporterPart !in s.failed {
      R.NilIsQuiet(s.reporter, SHUTDOWN);
    }
  }

  ghost predicate NoWorkIn(steps: seq<Step>) {
    forall i :: 0 <= i < |steps| ==> !BackgroundWork(steps[i])
  }

  lemma QuietReporterStep(s: State, step: Step)
    requires Inv(s) && Enabled(s, step) && R.Quiet(s.reporter)
    ensures R.Quiet(Apply(s, step).reporter) && !BackgroundWork(step)
  {
    if step.Reporter? {
      hide R.Enabled, R.Apply, R.Inv, R.Quiet;
      R.QuietStep(s.reporter, step.step);
    } else if step.SeeRoot? && s.hasShutdown {
      hide R.Inv;
    }
  }

  lemma {:induction false} QuietForGood(hasShutdown: bool, steps: seq<Step>, more: seq<Step>)
    requires After(hasShutdown, steps).Some? && R.Quiet(After(hasShutdown, steps).value.reporter)
    requires After(hasShutdown, steps + more).Some?
    ensures R.Quiet(After(hasShutdown, steps + more).value.reporter) && NoWorkIn(more)
    decreases |more|
  {
    hide R.Quiet, R.Inv, Enabled, Apply, Inv, BackgroundWork;
    if more == [] {
      assert steps + more == steps;
    } else {
      var n := |more| - 1;
      assert (steps + more)[..|steps| + n] == steps + more[..n];
      QuietForGood(hasShutdown, steps, more[..n]);
      QuietReporterStep(After(hasShutdown, steps + more[..n]).value, more[n]);
    }
  }

  /**
   Exactly when closing is safe: once the Redis client is closed, no readiness check or publication follows if and only
   if the reporter's goroutine does not exist, has not yet tested its context, or is past its loop; and that is so
   whenever the reporter's part of Shutdown did not fail.
   */
  lemma ClosedIsQuietIff(hasShutdown: bool, steps: seq<Step>)
    requires After(hasShutdown, steps).Some? && After(hasShutdown, steps).value.redisClosed
    ensures var s := After(hasShutdown, steps).value;
            var b := s.reporter.background;
            && s.reporter.cancelled
            && ((b.Absent? || b.Entered? || b.Returning? || b.Gone?) <==>
                forall more :: After(hasShutdown, steps + more).Some? ==> NoWorkIn(more))
            && (ReporterPart !in s.failed ==> b.Absent? || b.Entered? || b.Returning? || b.Gone?)
  {
    var s := After(hasShutdown, steps).value;
    ClosedIsCancelled(s);
    hide Inv, R.Inv;
    if R.Quiet(s.reporter) {
      forall more | After(hasShutdown, steps + more).Some? ensures NoWorkIn(more) {
        QuietForGood(hasShutdown, steps, more);
      }
    } else {
      R.NotQuietCanWork(s.reporter);
      var step := Reporter(R.NextWork(s.reporter.background));
      assert (steps + [step])[..|steps|] == steps;
      assert After(hasShutdown, steps + [step]).Some? && BackgroundWork([step][0]);
    }
  }

  lemma ClosedIsCancelled(s: State)
    requires Inv(s) && s.redisClosed
    ensures s.reporter.cancelled && (ReporterPart !in s.failed ==> R.Quiet(s.reporter))
  {
    hide R.StartInv, R.StopInv, R.PublishInv;
  }

  /** A step of the two goroutines of RunLifecycle, or of the reporter calls they are inside. */
  predicate Foreground(step: Step) {
    !step.Signal? && !(step.Reporter? && OfBackground(step.step))
  }

  /** The next step of the Shutdown call inside the reporter; waiting ends at the latest when its context expires. */
  function ReporterShutdownStep(pc: R.Pc): R.Step {
    match pc
    case InShutdown => R.EnterStop(SHUTDOWN)
    case StoppingServer => R.StopServer(SHUTDOWN)
    case Cancelling => R.Cancel(SHUTDOWN)
    case AskingStarted => R.AskStarted(SHUTDOWN)
    case AskingDone => R.AskDone(SHUTDOWN)
    case _ => R.Expire(SHUTDOWN)
  }

  function ReporterStartStep(pc: R.Pc): R.Step {
    match pc
    case InStart => R.EnterStart(START)
    case ClosingStarted => R.CloseStarted(START)
    case _ => R.Spawn(START)
  }

  /** With one Start call and one Shutdown call nobody ever waits for a sync.Once. */
  lemma OnceFree(r: R.State)
    requires R.Inv(r)
    ensures r.startRun.Running? ==> r.At(r.startRun.caller).ClosingStarted? || r.At(r.startRun.caller).Spawning?
    ensures r.stopServer.Running? ==> r.At(r.stopServer.caller).StoppingServer?
  {}

  /** Until RunLifecycle returns, one of its goroutines can take a step, whatever the background does. */
  lemma AlwaysCanProceed(hasShutdown: bool, steps: seq<Step>) returns (step: Step)
    requires After(hasShutdown, steps).Some? && !After(hasShutdown, steps).value.main.Exited?
    ensures Foreground(step) && Enabled(After(hasShutdown, steps).value, step)
  {
    hide After, R.Inv, R.StartInv, R.StopInv, R.WaitInv, R.PublishInv;
    var s := After(hasShutdown, steps).value;
    OnceFree(s.reporter);
    var starting, closing := s.reporter.At(START), s.reporter.At(SHUTDOWN);
    step := match s.main
      case StartingReporter => if starting.Started? then ReporterStarted else Reporter(ReporterStartStep(starting))
      case Serving => ServeReturns(false)
      case Stopping => Stop
      case _ =>
        match s.closer
        case AwaitingRoot => SeeRoot
        case InReporter => if Returned(closing) then ReporterReturned else Reporter(ReporterShutdownStep(closing))
        case InServer => ServerStops(false)
        case ClosingRedis => CloseRedis(false)
        case ClosingPool => ClosePool
        case StoppingTelemetry => StopTelemetry(false)
        case Recording => RecordError
        case Closing => CloseDone
        case Closed => Join;
  }

  // ---------------------------------------------------------------- RunLifecycle returns

  function MainLeft(main: Main): nat {
    match main
    case StartingReporter => 4
    case Serving => 3
    case Stopping => 2
    case Joining => 1
    case Exited(_) => 0
  }

  function CloserLeft(closer: Closer): nat {
    match closer
    case AwaitingRoot => 8
    case InReporter => 7
    case InServer => 6
    case ClosingRedis => 5
    case ClosingPool => 4
    case StoppingTelemetry => 3
    case Recording => 2
    case Closing => 1
    case Closed => 0
  }

  function StartLeft(pc: R.Pc): nat {
    match pc
    case InStart => 3
    case ClosingStarted => 2
    case Spawning => 1
    case _ => 0
  }

  function ShutdownLeft(pc: R.Pc): nat {
    match pc
    case StoppingServer => 5
    case Cancelling => 4
    case AskingStarted => 3
    case AskingDone => 2
    case Waiting => 1
    case ReturnedNil => 0
    case ReturnedError => 0
    case _ => 6
  }

  /** How many steps the goroutines of RunLifecycle can still take. */
  function StepsLeft(s: State): nat {
    MainLeft(s.main) + CloserLeft(s.closer) + StartLeft(s.reporter.At(START)) + ShutdownLeft(s.reporter.At(SHUTDOWN))
  }

  const MOST_STEPS := 21

  lemma ReporterStepUses(s: State, r: R.Step)
    requires Enabled(s, Reporter(r))
    ensures StepsLeft(Apply(s, Reporter(r))) + (if Foreground(Reporter(r)) then 1 else 0) <= StepsLeft(s)
  {
    hide R.Enabled, R.Apply, StartPc, ShutdownPc;
    if OfBackground(r) {
      BackgroundCalls(s.reporter, r);
    } else if OfStart(r) {
      StartCalls(s.reporter, r);
    } else {
      ShutdownCalls(s.reporter, r);
    }
  }

  lemma SeeRootUses(s: State)
    requires Enabled(s, SeeRoot)
    ensures StepsLeft(Apply(s, SeeRoot)) < StepsLeft(s)
  {}

  predicate OfMain(step: Step) {
    step.ReporterStarted? || step.ServeReturns? || step.Stop? || step.Join?
  }

  lemma MainStepUses(s: State, step: Step)
    requires Enabled(s, step) && OfMain(step)
    ensures var s' := Apply(s, step);
            s'.reporter == s.reporter && s'.closer == s.closer && MainLeft(s'.main) < MainLeft(s.main)
  {
    hide R.Apply, R.Enabled, Noting;
  }

  lemma NotingKeeps(s: State, part: Part, failed: bool)
    ensures var s' := Noting(s, part, failed);
            s'.reporter == s.reporter && s'.main == s.main && s'.closer == s.closer
  {}

  lemma FailingStepUses(s: State, step: Step)
    requires Enabled(s, step)
    requires step.ReporterReturned? || step.ServerStops? || step.CloseRedis? || step.StopTelemetry?
    ensures var s' := Apply(s, step);
            s'.reporter == s.reporter && s'.main == s.main && CloserLeft(s'.closer) < CloserLeft(s.closer)
  {
    match step
    case ReporterReturned =>
      NotingKeeps(s.(closer := InServer), ReporterPart, s.reporter.At(SHUTDOWN).ReturnedError?);
    case ServerStops(failed) => NotingKeeps(s.(closer := ClosingRedis), ServerPart, failed);
    case CloseRedis(failed) => NotingKeeps(s.(closer := ClosingPool, redisClosed := true), RedisPart, failed);
    case StopTelemetry(failed) => NotingKeeps(s.(closer := Recording), TelemetryPart, failed);
    hide R.Apply, R.Enabled, Noting;
  }

  lemma CloserStepUses(s: State, step: Step)
    requires Enabled(s, step) && (step.ClosePool? || step.RecordError? || step.CloseDone?)
    ensures var s' := Apply(s, step);
            s'.reporter == s.reporter && s'.main == s.main && CloserLeft(s'.closer) < CloserLeft(s.closer)
  {
    hide R.Apply, R.Enabled, Noting;
  }

  lemma StepUses(s: State, step: Step)
    requires Enabled(s, step)
    ensures StepsLeft(Apply(s, step)) + (if Foreground(step) then 1 else 0) <= StepsLeft(s)
  {
    hide Apply, Enabled, R.State.At, StartLeft, ShutdownLeft, MainLeft, CloserLeft;
    if step.Reporter? {
      ReporterStepUses(s, step.step);
    } else if step.SeeRoot? {
      SeeRootUses(s);
    } else {
      SignalUsesNothing(s);
      if OfMain(step) {
        MainStepUses(s, step);
      } else if step.ClosePool? || step.RecordError? || step.CloseDone? {
        CloserStepUses(s, step);
      } else if !step.Signal? {
        FailingStepUses(s, step);
      }
    }
  }

  lemma SignalUsesNothing(s: State)
    ensures Enabled(s, Signal) && StepsLeft(Apply(s, Signal)) == StepsLeft(s)
  {}

  function ForegroundSteps(steps: seq<Step>): nat {
    if steps == [] then 0
    else ForegroundSteps(steps[..|steps| - 1]) + if Foreground(steps[|steps| - 1]) then 1 else 0
  }

  lemma {:induction false} StepsAreBounded(hasShutdown: bool, steps: seq<Step>)
    requires After(hasShutdown, steps).Some?
    ensures ForegroundSteps(steps) + StepsLeft(After(hasShutdown, steps).value) <= MOST_STEPS
    decreases |steps|
  {
    if steps != [] {
      hide Enabled, Apply, Inv, StepsLeft, Foreground;
      var n := |steps| - 1;
      StepsAreBounded(hasShutdown, steps[..n]);
      StepUses(After(hasShutdown, steps[..n]).value, steps[n]);
    }
  }

  lemma ExitedIsStuck(s: State, step: Step)
    requires Inv(s) && s.main.Exited? && Foreground(step)
    ensures !Enabled(s, step)
  {
    hide R.Inv;
  }

  /**
   RunLifecycle returns: in every schedule its goroutines take at most 21 steps, and they are out of steps exactly when
   it has returned, whatever the background does in between.
   */
  lemma RunLifecycleReturns(hasShutdown: bool, steps: seq<Step>)
    requires After(hasShutdown, steps).Some?
    ensures ForegroundSteps(steps) <= MOST_STEPS
    ensures var s := After(hasShutdown, steps).value;
            s.main.Exited? <==> forall step :: Foreground(step) ==> !Enabled(s, step)
  {
    var s := After(hasShutdown, steps).value;
    StepsAreBounded(hasShutdown, steps);
    hide Enabled, Foreground, StepsLeft;
    if s.main.Exited? {
      forall step | Foreground(step) ensures !Enabled(s, step) {
        ExitedIsStuck(s, step);
      }
    } else {
      var step := AlwaysCanProceed(hasShutdown, steps);
    }
  }

  lemma Take(s: State, steps: seq<Step>, step: Step) returns (s': State, steps': seq<Step>)
    requires After(true, steps) == Some(s) && Enabled(s, step)
    ensures s' == Apply(s, step) && After(true, steps') == Some(s')
  {
    s', steps' := Apply(s, step), steps + [step];
    assert steps'[..|steps|] == steps;
  }

  lemma NothingTaken()
    ensures After(true, []) == Some(Init(true))
  {}

  /** A schedule in which the reporter has started and the server serves. */
  lemma ServingSchedule() returns (s: State, steps: seq<Step>)
    ensures After(true, steps) == Some(s)
    ensures s.main.Serving? && s.closer.AwaitingRoot? && s.failed == {} && !s.startFailed
    ensures s.reporter.At(SHUTDOWN).Idle? && s.reporter.stopServer.Fresh? && s.reporter.background.Entered?
    ensures s.reporter.startedCloses == 1 && s.reporter.doneCloses == 0 && !s.reporter.cancelled
  {
    hide After, Inv, R.Inv;
    s, steps := Init(true), [];
    NothingTaken();
    s, steps := Take(s, steps, Reporter(R.EnterStart(START)));
    s, steps := Take(s, steps, Reporter(R.CloseStarted(START)));
    s, steps := Take(s, steps, Reporter(R.Spawn(START)));
    s, steps := Take(s, steps, ReporterStarted);
  }

  function Awake(checking: bool): R.Background {
    if checking then R.Checking else R.Entered
  }

  /** And, the goroutine being in its first check or not yet there, a signal has sent the other one into Shutdown. */
  lemma SignalledSchedule(checking: bool) returns (s: State, steps: seq<Step>)
    ensures After(true, steps) == Some(s)
    ensures s.main.Serving? && s.closer.InReporter? && s.rootDone && s.failed == {} && !s.startFailed
    ensures s.reporter.At(SHUTDOWN).InShutdown? && s.reporter.background == Awake(checking)
    ensures s.reporter.stopServer.Fresh? && s.reporter.startedCloses == 1 && s.reporter.doneCloses == 0
  {
    hide After, Inv, R.Inv;
    s, steps := ServingSchedule();
    if checking {
      s, steps := Take(s, steps, Reporter(R.TestCancelled));
    }
    s, steps := Take(s, steps, Signal);
    s, steps := Take(s, steps, SeeRoot);
  }

  lemma StoppingSchedule(checking: bool) returns (s: State, steps: seq<Step>)
    ensures After(true, steps) == Some(s)
    ensures s.main.Serving? && s.closer.InReporter? && s.rootDone && s.failed == {} && !s.startFailed
    ensures s.reporter.At(SHUTDOWN).Cancelling? && s.reporter.background == Awake(checking)
    ensures s.reporter.startedCloses == 1 && s.reporter.doneCloses == 0
  {
    hide After, Inv, R.Inv;
    s, steps := SignalledSchedule(checking);
    s, steps := Take(s, steps, Reporter(R.EnterStop(SHUTDOWN)));
    s, steps := Take(s, steps, Reporter(R.StopServer(SHUTDOWN)));
  }

  /** And the reporter's Shutdown has cancelled the context and waits for the goroutine. */
  lemma WaitingSchedule(checking: bool) returns (s: State, steps: seq<Step>)
    ensures After(true, steps) == Some(s)
    ensures s.main.Serving? && s.closer.InReporter? && s.rootDone && s.failed == {} && !s.startFailed
    ensures s.reporter.At(SHUTDOWN).Waiting? && s.reporter.background == Awake(checking) && s.reporter.cancelled
    ensures s.reporter.doneCloses == 0
  {
    hide After, Inv, R.Inv;
    s, steps := StoppingSchedule(checking);
    s, steps := Take(s, steps, Reporter(R.Cancel(SHUTDOWN)));
    s, steps := Take(s, steps, Reporter(R.AskStarted(SHUTDOWN)));
    s, steps := Take(s, steps, Reporter(R.AskDone(SHUTDOWN)));
  }

  /** And the goroutine returns, so Shutdown returns nil. */
  lemma QuietSchedule() returns (s: State, steps: seq<Step>)
    ensures After(true, steps) == Some(s)
    ensures s.main.Serving? && s.closer.InReporter? && s.rootDone && s.failed == {} && !s.startFailed
    ensures s.reporter.At(SHUTDOWN).ReturnedNil?
  {
    hide After, Inv, R.Inv;
    s, steps := WaitingSchedule(false);
    s, steps := Take(s, steps, Reporter(R.TestCancelled));
    s, steps := Take(s, steps, Reporter(R.CloseDone));
    s, steps := Take(s, steps, Reporter(R.SeeDone(SHUTDOWN)));
  }

  /** A clean exit is possible: a signal, a quiet reporter, everything closed, and the code is 0. */
  lemma CleanExit() returns (s: State, steps: seq<Step>)
    ensures After(true, steps) == Some(s) && s.main == Exited(0) && s.poolClosed && s.shutdowns == 1
  {
    hide After, Inv, R.Inv;
    s, steps := QuietSchedule();
    s, steps := Take(s, steps, ReporterReturned);
    s, steps := Take(s, steps, ServerStops(false));
    s, steps := Take(s, steps, ServeReturns(false));
    s, steps := Take(s, steps, CloseRedis(false));
    s, steps := Take(s, steps, ClosePool);
    s, steps := Take(s, steps, StopTelemetry(false));
    s, steps := Take(s, steps, RecordError);
    s, steps := Take(s, steps, CloseDone);
    s, steps := Take(s, steps, Stop);
    s, steps := Take(s, steps, Join);
    assert s.shutdowns == 1 by {
      ExitAfterOneShutdown(true, steps);
    }
  }

  /** Not promised: when the reporter's Shutdown gave up, the Redis client and the pool close under a running check. */
  lemma CheckMayOutliveResources() returns (s: State, steps: seq<Step>)
    ensures After(true, steps) == Some(s)
    ensures s.redisClosed && s.poolClosed && s.reporter.background.Checking? && ReporterPart in s.failed
  {
    hide After, Inv, R.Inv;
    s, steps := WaitingSchedule(true);
    s, steps := Take(s, steps, Reporter(R.Expire(SHUTDOWN)));
    s, steps := Take(s, steps, ReporterReturned);
    s, steps := Take(s, steps, ServerStops(false));
    s, steps := Take(s, steps, CloseRedis(false));
    s, steps := Take(s, steps, ClosePool);
  }
}
