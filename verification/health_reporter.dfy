/** The gRPC health reporter: any number of Start and Shutdown calls racing with the background goroutine. */
module HealthReporter {
  import opened Wrappers

  /** A sync.Once: not yet entered, being run by one caller, or finished. */
  datatype Once = Fresh | Running(caller: nat) | Done

  /** Where the goroutine started by Start stands. */
  datatype Background =
    | Absent
    | Entered
    | Checking
    | Publishing(next: nat, serving: bool)
    | Selecting
    | Returning
    | Gone

  /** Where one call of Start or Shutdown stands; a second call by the same goroutine is another number. */
  datatype Pc =
    | Idle
    | InStart | ClosingStarted | Spawning | Started
    | InShutdown | StoppingServer | Cancelling | AskingStarted | AskingDone | Waiting
    | ReturnedNil | ReturnedError

  datatype State = State(
    cancelled: bool,
    startRun: Once,
    stopServer: Once,
    startedCloses: nat,
    doneCloses: nat,
    serverShutdowns: nat,
    background: Background,
    published: seq<bool>,
    calls: map<nat, Pc>)
  {
    function At(c: nat): Pc {
      if c in calls then calls[c] else Idle
    }

    /** A readiness check or a status publication is under way in the background. */
    predicate Busy() {
      background.Checking? || background.Publishing?
    }
  }

  datatype Step =
    | CallStart(c: nat) | EnterStart(c: nat) | CloseStarted(c: nat) | Spawn(c: nat)
    | CallShutdown(c: nat) | EnterStop(c: nat) | StopServer(c: nat) | Cancel(c: nat)
    | AskStarted(c: nat) | AskDone(c: nat) | SeeDone(c: nat) | Expire(c: nat)
    | TestCancelled | FinishCheck(serving: bool) | Publish | SelectCancelled | SelectTick | CloseDone

  /** A new reporter has told each of its services, one or two, that it is not serving. */
  function Init(services: nat): State {
    State(false, Fresh, Fresh, 0, 0, 0, Absent, seq(services, _ => false), map[])
  }

  predicate Enabled(s: State, step: Step) {
    match step
    case CallStart(c) => s.At(c).Idle?
    case EnterStart(c) => s.At(c).InStart? && !s.startRun.Running?
    case CloseStarted(c) => s.At(c).ClosingStarted?
    case Spawn(c) => s.At(c).Spawning?
    case CallShutdown(c) => s.At(c).Idle?
    case EnterStop(c) => s.At(c).InShutdown? && !s.stopServer.Running?
    case StopServer(c) => s.At(c).StoppingServer?
    case Cancel(c) => s.At(c).Cancelling?
    case AskStarted(c) => s.At(c).AskingStarted?
    case AskDone(c) => s.At(c).AskingDone?
    case SeeDone(c) => s.At(c).Waiting? && s.doneCloses > 0
    case Expire(c) => s.At(c).Waiting?
    case TestCancelled => s.background.Entered?
    case FinishCheck(_) => s.background.Checking?
    case Publish => s.background.Publishing?
    case SelectCancelled => s.background.Selecting? && s.cancelled
    case SelectTick => s.background.Selecting?
    case CloseDone => s.background.Returning?
  }

  function Moved(s: State, c: nat, pc: Pc): State {
    s.(calls := s.calls[c := pc])
  }

  /** After the last service the refresh is over and the loop goes back to its select. */
  function Publication(s: State, next: nat, serving: bool): Background {
    if next < |s.published| then Publishing(next, serving) else Selecting
  }

  function Apply(s: State, step: Step): State
    requires Enabled(s, step)
  {
    match step
    case CallStart(c) => Moved(s, c, InStart)
    case EnterStart(c) =>
      if s.startRun.Fresh? then Moved(s, c, ClosingStarted).(startRun := Running(c)) else Moved(s, c, Started)
    case CloseStarted(c) => Moved(s, c, Spawning).(startedCloses := s.startedCloses + 1)
    case Spawn(c) => Moved(s, c, Started).(background := Entered, startRun := Done)
    case CallShutdown(c) => Moved(s, c, InShutdown)
    case EnterStop(c) =>
      if s.stopServer.Fresh? then Moved(s, c, StoppingServer).(stopServer := Running(c)) else Moved(s, c, Cancelling)
    case StopServer(c) => Moved(s, c, Cancelling).(serverShutdowns := s.serverShutdowns + 1, stopServer := Done)
    case Cancel(c) => Moved(s, c, AskingStarted).(cancelled := true)
    case AskStarted(c) => Moved(s, c, if s.startedCloses > 0 then AskingDone else ReturnedNil)
    case AskDone(c) => Moved(s, c, if s.doneCloses > 0 then ReturnedNil else Waiting)
    case SeeDone(c) => Moved(s, c, ReturnedNil)
    case Expire(c) => Moved(s, c, ReturnedError)
    case TestCancelled => s.(background := if s.cancelled then Returning else Checking)
    case FinishCheck(serving) => s.(background := Publication(s, 0, serving))
    case Publish =>
      var Publishing(i, serving) := s.background;
      if i < |s.published| then
        s.(published := s.published[i := serving], background := Publication(s, i + 1, serving))
      else s
    case SelectCancelled => s.(background := Returning)
    case SelectTick => s.(background := Checking)
    case CloseDone => s.(background := Gone, doneCloses := s.doneCloses + 1)
  }

  // ---------------------------------------------------------------- invariants

  /** Start's body runs once: it closes the channel, then starts the goroutine. */
  ghost predicate StartInv(s: State) {
    && (forall c :: s.At(c).ClosingStarted? || s.At(c).Spawning? ==> s.startRun == Running(c))
    && match s.startRun
       case Fresh => s.startedCloses == 0 && s.background == Absent
       case Running(c) =>
         && s.background == Absent
         && ((s.At(c) == ClosingStarted && s.startedCloses == 0) || (s.At(c) == Spawning && s.startedCloses == 1))
       case Done => s.startedCloses == 1 && s.background != Absent
  }

  ghost predicate StopInv(s: State) {
    && (forall c :: s.At(c).StoppingServer? ==> s.stopServer == Running(c))
    && s.serverShutdowns == (if s.stopServer.Done? then 1 else 0)
    && (s.stopServer.Running? ==> s.At(s.stopServer.caller) == StoppingServer)
  }

  predicate PastCancel(pc: Pc) {
    pc.AskingStarted? || pc.AskingDone? || pc.Waiting? || pc.ReturnedNil? || pc.ReturnedError?
  }

  /** Nothing is running and, the context being cancelled, the goroutine can only return. */
  ghost predicate Quiet(s: State) {
    s.cancelled && (s.background.Absent? || s.background.Entered? || s.background.Returning? || s.background.Gone?)
  }

  ghost predicate WaitInv(s: State) {
    && s.doneCloses == (if s.background.Gone? then 1 else 0)
    && (forall c :: PastCancel(s.At(c)) ==> s.cancelled && s.stopServer.Done?)
    && (forall c :: s.At(c).Cancelling? ==> s.stopServer.Done?)
    && (forall c :: s.At(c).ReturnedNil? ==> Quiet(s))
  }

  /** Outside a publication loop every service was last told the same. */
  ghost predicate PublishInv(s: State) {
    if s.background.Publishing? then
      && s.background.next < |s.published|
      && forall i :: 0 <= i < s.background.next ==> s.published[i] == s.background.serving
    else forall i, j :: 0 <= i < j < |s.published| ==> s.published[i] == s.published[j]
  }

  ghost predicate Inv(s: State) {
    StartInv(s) && StopInv(s) && WaitInv(s) && PublishInv(s)
  }

  lemma StartKept(s: State, step: Step)
    requires StartInv(s) && Enabled(s, step)
    ensures StartInv(Apply(s, step))
  {}

  lemma StopKept(s: State, step: Step)
    requires StopInv(s) && Enabled(s, step)
    ensures StopInv(Apply(s, step))
  {}

  lemma CancelKept(s: State, step: Step)
    requires StopInv(s) && WaitInv(s) && Enabled(s, step)
    ensures var s' := Apply(s, step);
            && (forall c :: PastCancel(s'.At(c)) ==> s'.cancelled && s'.stopServer.Done?)
            && (forall c :: s'.At(c).Cancelling? ==> s'.stopServer.Done?)
  {
    hide StopInv, Quiet;
    var s' := Apply(s, step);
    forall c
      ensures PastCancel(s'.At(c)) ==> s'.cancelled && s'.stopServer.Done?
      ensures s'.At(c).Cancelling? ==> s'.stopServer.Done?
    {
      assert PastCancel(s.At(c)) ==> s.cancelled && s.stopServer.Done?;
      assert s.At(c).Cancelling? ==> s.stopServer.Done?;
    }
  }

  lemma NilKept(s: State, step: Step)
    requires StartInv(s) && WaitInv(s) && Enabled(s, step)
    ensures forall c :: Apply(s, step).At(c).ReturnedNil? ==> Quiet(Apply(s, step))
  {
    var s' := Apply(s, step);
    forall c ensures s'.At(c).ReturnedNil? ==> Quiet(s') {
      assert s.At(c).ReturnedNil? ==> Quiet(s);
      assert PastCancel(s.At(c)) ==> s.cancelled;
    }
  }

  lemma WaitKept(s: State, step: Step)
    requires Inv(s) && Enabled(s, step)
    ensures WaitInv(Apply(s, step))
  {
    CancelKept(s, step);
    NilKept(s, step);
    GoneOnce(s, step);
    hide Apply, Enabled, StartInv, StopInv, PublishInv, Quiet;
  }

  lemma GoneOnce(s: State, step: Step)
    requires s.doneCloses == (if s.background.Gone? then 1 else 0) && StartInv(s) && Enabled(s, step)
    ensures var s' := Apply(s, step);
            s'.doneCloses == if s'.background.Gone? then 1 else 0
  {}

  lemma PublishKept(s: State, step: Step)
    requires Inv(s) && Enabled(s, step)
    ensures PublishInv(Apply(s, step))
  {}

  lemma StepKeepsInv(s: State, step: Step)
    requires Inv(s) && Enabled(s, step)
    ensures Inv(Apply(s, step))
  {
    StartKept(s, step);
    StopKept(s, step);
    WaitKept(s, step);
    PublishKept(s, step);
  }

  // ---------------------------------------------------------------- all schedules

  /** The state after a schedule, or nothing if some step was not enabled when it was taken. */
  ghost function After(services: nat, steps: seq<Step>): (s: Option<State>)
    ensures s.Some? ==> Inv(s.value)
  {
    if steps == [] then Some(Init(services))
    else
      var before, step := After(services, steps[..|steps| - 1]), steps[|steps| - 1];
      if before.None? || !Enabled(before.value, step) then None
      else
        StepKeepsInv(before.value, step);
        Some(Apply(before.value, step))
  }

  predicate BackgroundWork(step: Step) {
    step.FinishCheck? || step.Publish? || step.SelectTick?
  }

  lemma NilIsQuiet(s: State, c: nat)
    requires Inv(s) && s.At(c).ReturnedNil?
    ensures s.cancelled && !s.Busy()
  {}

  lemma QuietStays(s: State, step: Step, c: nat)
    requires Inv(s) && Enabled(s, step) && s.At(c).ReturnedNil?
    ensures Apply(s, step).At(c).ReturnedNil? && !BackgroundWork(step)
  {}

  /**
   Quiescence: once any Shutdown has returned nil, no background readiness check or status publication is running,
   and none ever starts, whatever Start, Shutdown and the goroutine still do.
   */
  lemma {:induction false} NilShutdownMeansQuiet(services: nat, steps: seq<Step>, more: seq<Step>, c: nat)
    requires After(services, steps + more).Some?
    requires After(services, steps).Some? ==> After(services, steps).value.At(c).ReturnedNil?
    ensures After(services, steps).Some?
    ensures var s := After(services, steps + more).value;
            s.At(c).ReturnedNil? && s.cancelled && !s.Busy()
    ensures forall i :: 0 <= i < |more| ==> !BackgroundWork(more[i])
    decreases |more|
  {
    hide Apply, Enabled, Inv;
    if more == [] {
      assert steps + more == steps;
    } else {
      var n := |more| - 1;
      assert (steps + more)[..|steps| + n] == steps + more[..n];
      NilShutdownMeansQuiet(services, steps, more[..n], c);
      QuietStays(After(services, steps + more[..n]).value, more[n], c);
    }
    NilIsQuiet(After(services, steps + more).value, c);
  }

  // ---------------------------------------------------------------- the schedule and what was told

  /** The result of the last readiness check; before the first one, not serving. */
  function LastResult(steps: seq<Step>): bool {
    if steps == [] then false
    else if steps[|steps| - 1].FinishCheck? then steps[|steps| - 1].serving
    else LastResult(steps[..|steps| - 1])
  }

  /** Each service has been told that result, except those that a publication has not come to yet. */
  ghost predicate Told(s: State, services: nat, result: bool) {
    && |s.published| == services
    && (s.background.Publishing? ==> s.background.serving == result)
    && forall i :: 0 <= i < |s.published| && (s.background.Publishing? ==> i < s.background.next) ==>
         s.published[i] == result
  }

  lemma ToldStep(s: State, services: nat, result: bool, step: Step)
    requires Told(s, services, result) && Enabled(s, step)
    requires StartInv(s) && (s.background.Publishing? ==> s.background.next < services)
    ensures Told(Apply(s, step), services, if step.FinishCheck? then step.serving else result)
  {}

  /**
   What clients are told is the truth as last checked: between publications every service has the result of the last
   readiness check, or not serving before the first, and during one those already reached have it.
   */
  lemma {:induction false} ServicesAreToldTheLastResult(services: nat, steps: seq<Step>)
    requires After(services, steps).Some?
    ensures Told(After(services, steps).value, services, LastResult(steps))
    decreases |steps|
  {
    if steps != [] {
      var n := |steps| - 1;
      var s := After(services, steps[..n]).value;
      ServicesAreToldTheLastResult(services, steps[..n]);
      assert PublishInv(s) && StartInv(s);
      hide Apply, Enabled, Inv, StartInv;
      ToldStep(s, services, LastResult(steps[..n]), steps[n]);
    }
  }

  function CountOf(steps: seq<Step>, kind: Step -> bool): nat {
    if steps == [] then 0
    else CountOf(steps[..|steps| - 1], kind) + if kind(steps[|steps| - 1]) then 1 else 0
  }

  predicate IsCloseStarted(step: Step) {
    step.CloseStarted?
  }

  predicate IsCloseDone(step: Step) {
    step.CloseDone?
  }

  predicate IsStopServer(step: Step) {
    step.StopServer?
  }

  predicate IsCancel(step: Step) {
    step.Cancel?
  }


  lemma CountersMove(s: State, step: Step)
    requires Enabled(s, step)
    ensures var s' := Apply(s, step);
            && s'.startedCloses == s.startedCloses + (if step.CloseStarted? then 1 else 0)
            && s'.doneCloses == s.doneCloses + (if step.CloseDone? then 1 else 0)
            && s'.serverShutdowns == s.serverShutdowns + (if step.StopServer? then 1 else 0)
            && (s'.cancelled <==> s.cancelled || step.Cancel?)
  {}

  lemma {:induction false} CountersCount(services: nat, steps: seq<Step>)
    requires After(services, steps).Some?
    ensures var s := After(services, steps).value;
            && s.startedCloses == CountOf(steps, IsCloseStarted)
            && s.doneCloses == CountOf(steps, IsCloseDone)
            && s.serverShutdowns == CountOf(steps, IsStopServer)
            && (s.cancelled <==> CountOf(steps, IsCancel) > 0)
    decreases |steps|
  {
    if steps != [] {
      var n := |steps| - 1;
      CountersCount(services, steps[..n]);
      hide Apply, Enabled, Inv;
      CountersMove(After(services, steps[..n]).value, steps[n]);
    }
  }

  lemma ExpiryIsError(s: State, step: Step, c: nat)
    requires Enabled(s, step)
    ensures Apply(s, step).At(c).ReturnedError? <==> s.At(c).ReturnedError? || step == Expire(c)
  {}

  lemma {:induction false} ErrorMeansExpired(services: nat, steps: seq<Step>, c: nat)
    requires After(services, steps).Some?
    ensures After(services, steps).value.At(c).ReturnedError? <==> Expire(c) in steps
    decreases |steps|
  {
    if steps != [] {
      var n := |steps| - 1;
      ErrorMeansExpired(services, steps[..n], c);
      hide Apply, Enabled, Inv;
      ExpiryIsError(After(services, steps[..n]).value, steps[n], c);
      assert steps == steps[..n] + [steps[n]];
    }
  }

  /** Only a reporter that has been started is waited for. */
  lemma {:induction false} WaitersFollowStart(services: nat, steps: seq<Step>, c: nat)
    requires After(services, steps).Some?
    ensures var s := After(services, steps).value;
            s.At(c).AskingDone? || s.At(c).Waiting? || s.At(c).ReturnedError? ==> s.startedCloses > 0
    decreases |steps|
  {
    if steps != [] {
      var n := |steps| - 1;
      WaitersFollowStart(services, steps[..n], c);
      hide Inv, Apply, Enabled;
      WaitersStep(After(services, steps[..n]).value, steps[n], c);
    }
  }

  lemma WaitersStep(s: State, step: Step, c: nat)
    requires Enabled(s, step)
    requires s.At(c).AskingDone? || s.At(c).Waiting? || s.At(c).ReturnedError? ==> s.startedCloses > 0
    ensures var s' := Apply(s, step);
            s'.At(c).AskingDone? || s'.At(c).Waiting? || s'.At(c).ReturnedError? ==> s'.startedCloses > 0
  {}

  /**
   In every schedule each channel is closed at most once and the health server shut down at most once. A Shutdown
   answers with an error iff its own context expired while it waited, and it waits only for a reporter that was started:
   without a Start it answers nil.
   */
  lemma ShutdownAnswers(services: nat, steps: seq<Step>, c: nat)
    requires After(services, steps).Some?
    ensures CountOf(steps, IsCloseStarted) <= 1 && CountOf(steps, IsCloseDone) <= CountOf(steps, IsCloseStarted)
    ensures CountOf(steps, IsStopServer) <= 1
    ensures var s := After(services, steps).value;
            && (s.At(c).ReturnedError? <==> Expire(c) in steps)
            && (s.At(c).ReturnedNil? || s.At(c).ReturnedError? ==>
                  CountOf(steps, IsCancel) > 0 && CountOf(steps, IsStopServer) == 1)
            && (CountOf(steps, IsCloseStarted) == 0 ==>
                  && !s.At(c).Waiting? && Expire(c) !in steps
                  && (s.At(c).AskingStarted? ==> Apply(s, AskStarted(c)).At(c).ReturnedNil?))
  {
    var s := After(services, steps).value;
    hide Inv, CountOf, Enabled, Apply;
    ClosedAtMostOnce(services, steps);
    CountersCount(services, steps);
    ErrorMeansExpired(services, steps, c);
    WaitersFollowStart(services, steps, c);
    if s.At(c).AskingStarted? {
      AskedUnstarted(s, c);
    }
    hide After;
  }

  lemma AskedUnstarted(s: State, c: nat)
    requires s.At(c).AskingStarted?
    ensures Enabled(s, AskStarted(c))
    ensures s.startedCloses == 0 ==> Apply(s, AskStarted(c)).At(c).ReturnedNil?
  {}

  ghost predicate NoWorkIn(steps: seq<Step>) {
    forall i :: 0 <= i < |steps| ==> !BackgroundWork(steps[i])
  }

  lemma QuietStep(s: State, step: Step)
    requires Inv(s) && Enabled(s, step) && Quiet(s)
    ensures Quiet(Apply(s, step)) && !BackgroundWork(step)
  {}

  lemma {:induction false} QuietForGood(services: nat, steps: seq<Step>, more: seq<Step>)
    requires After(services, steps).Some? && Quiet(After(services, steps).value)
    requires After(services, steps + more).Some?
    ensures Quiet(After(services, steps + more).value) && NoWorkIn(more)
    decreases |more|
  {
    hide Apply, Enabled, Inv, Quiet, BackgroundWork;
    if more == [] {
      assert steps + more == steps;
    } else {
      var n := |more| - 1;
      assert (steps + more)[..|steps| + n] == steps + more[..n];
      QuietForGood(services, steps, more[..n]);
      QuietStep(After(services, steps + more[..n]).value, more[n]);
    }
  }

  /** The background step that a state which is not quiet can still take. */
  function NextWork(background: Background): Step {
    match background
    case Checking => FinishCheck(false)
    case Publishing(_, _) => Publish
    case _ => SelectTick
  }

  lemma NotQuietCanWork(s: State)
    requires s.cancelled && !Quiet(s)
    ensures Enabled(s, NextWork(s.background)) && BackgroundWork(NextWork(s.background))
  {}

  /**
   Cancellation alone does not quiet the reporter. Exactly when it does: once cancelled, no continuation holds another
   background readiness check or publication if and only if the goroutine does not exist, has not yet tested the
   context, or is past its loop.
   */
  lemma CancelledIsQuietIff(services: nat, steps: seq<Step>)
    requires After(services, steps).Some? && After(services, steps).value.cancelled
    ensures var b := After(services, steps).value.background;
            (b.Absent? || b.Entered? || b.Returning? || b.Gone?) <==>
            forall more :: After(services, steps + more).Some? ==> NoWorkIn(more)
  {
    var s := After(services, steps).value;
    if Quiet(s) {
      forall more | After(services, steps + more).Some? ensures NoWorkIn(more) {
        QuietForGood(services, steps, more);
      }
    } else {
      NotQuietCanWork(s);
      var step := NextWork(s.background);
      assert (steps + [step])[..|steps|] == steps;
      assert After(services, steps + [step]).Some? && BackgroundWork([step][0]);
    }
  }

  /**
   In every schedule each channel is closed at most once, the health server is shut down at most once, and by the
   time any Shutdown has returned, with or without an error, it has been shut down and the context cancelled.
   */
  lemma ClosedAtMostOnce(services: nat, steps: seq<Step>)
    requires After(services, steps).Some?
    ensures var s := After(services, steps).value;
            && s.startedCloses <= 1 && s.doneCloses <= s.startedCloses && s.serverShutdowns <= 1
            && (forall c :: s.At(c).ReturnedNil? || s.At(c).ReturnedError? ==> s.cancelled && s.serverShutdowns == 1)
            && (!s.background.Publishing? ==>
                  forall i, j :: 0 <= i < j < |s.published| ==> s.published[i] == s.published[j])
  {}

  lemma Take(services: nat, s: State, steps: seq<Step>, step: Step) returns (s': State, steps': seq<Step>)
    requires After(services, steps) == Some(s) && Enabled(s, step)
    ensures s' == Apply(s, step) && After(services, steps') == Some(s')
  {
    s', steps' := Apply(s, step), steps + [step];
    assert steps'[..|steps|] == steps;
  }

  lemma NothingTaken(services: nat)
    ensures After(services, []) == Some(Init(services))
  {}

  /** A schedule that starts the reporter. */
  lemma SpawnedSchedule() returns (s: State, steps: seq<Step>)
    ensures After(1, steps) == Some(s)
    ensures s.background.Entered? && !s.cancelled && |s.published| == 1
    ensures s.startedCloses == 1 && s.doneCloses == 0 && s.stopServer.Fresh? && s.At(1).Idle?
  {
    hide After, Inv;
    s, steps := Init(1), [];
    NothingTaken(1);
    s, steps := Take(1, s, steps, CallStart(0));
    s, steps := Take(1, s, steps, EnterStart(0));
    s, steps := Take(1, s, steps, CloseStarted(0));
    s, steps := Take(1, s, steps, Spawn(0));
  }

  /** A schedule that also runs its first refresh. */
  lemma RefreshedSchedule() returns (s: State, steps: seq<Step>)
    ensures After(1, steps) == Some(s)
    ensures s.background.Selecting? && s.startedCloses == 1 && s.doneCloses == 0 && s.stopServer.Fresh?
    ensures s.At(1).Idle?
  {
    hide After, Inv;
    s, steps := SpawnedSchedule();
    s, steps := Take(1, s, steps, TestCancelled);
    s, steps := Take(1, s, steps, FinishCheck(true));
    s, steps := Take(1, s, steps, Publish);
  }

  /** A schedule in which a Shutdown waits for the goroutine while that is between two refreshes. */
  lemma WaitingSchedule() returns (s: State, steps: seq<Step>)
    ensures After(1, steps) == Some(s)
    ensures s.At(1).Waiting? && s.cancelled && s.background.Selecting?
  {
    hide After, Inv;
    s, steps := RefreshedSchedule();
    s, steps := Take(1, s, steps, CallShutdown(1));
    s, steps := Take(1, s, steps, EnterStop(1));
    s, steps := Take(1, s, steps, StopServer(1));
    s, steps := Take(1, s, steps, Cancel(1));
    s, steps := Take(1, s, steps, AskStarted(1));
    s, steps := Take(1, s, steps, AskDone(1));
  }

  /**
   The nil answer matters: a Shutdown that gave up on its own context has returned, the run context is cancelled,
   and the select still picked the ticker, so a readiness check is running.
   */
  lemma ErrorShutdownMayNotBeQuiet() returns (s: State, steps: seq<Step>)
    ensures After(1, steps) == Some(s) && s.At(1).ReturnedError? && s.cancelled && s.background.Checking?
  {
    hide After, Inv;
    s, steps := WaitingSchedule();
    s, steps := Take(1, s, steps, SelectTick);
    s, steps := Take(1, s, steps, Expire(1));
  }
}
