/** Observed gRPC client streams: the active-stream gauge under racing SendMsg and RecvMsg failures. */
module StreamMetrics {
  import opened Wrappers

  const OK := "OK"

  /** The labels of a completed request: those of its call, and the gRPC status it ended with. */
  datatype Series = Series(labels: string, status: string)

  /** The instruments: a gauge per label set, and per series two counters and the durations that its histogram was given. */
  datatype Meter = Meter(
    active: map<string, int>,
    requests: map<Series, nat>,
    errors: map<Series, nat>,
    durations: map<Series, seq<int>>)
  {
    function Active(labels: string): int {
      if labels in active then active[labels] else 0
    }

    function Requests(x: Series): nat {
      if x in requests then requests[x] else 0
    }

    function Errors(x: Series): nat {
      if x in errors then errors[x] else 0
    }

    function Durations(x: Series): seq<int> {
      if x in durations then durations[x] else []
    }

    function Added(labels: string, delta: int): Meter {
      this.(active := active[labels := Active(labels) + delta])
    }

    function Recorded(x: Series, duration: int): Meter {
      this.(requests := requests[x := Requests(x) + 1],
            durations := durations[x := Durations(x) + [duration]],
            errors := if x.status == OK then errors else errors[x := Errors(x) + 1])
    }
  }

  /** One request more of that series, with its duration, and one error more unless it ended well; nothing else moves. */
  ghost predicate OneRequestMore(was: Meter, now: Meter, x: Series, duration: int) {
    && now.active == was.active
    && now.Requests(x) == was.Requests(x) + 1 && now.Durations(x) == was.Durations(x) + [duration]
    && now.Errors(x) == was.Errors(x) + (if x.status == "OK" then 0 else 1)
    && forall y :: y != x ==>
         now.Requests(y) == was.Requests(y) && now.Durations(y) == was.Durations(y) && now.Errors(y) == was.Errors(y)
  }

  /** The gauge of those labels has moved by delta; nothing else moves. */
  ghost predicate GaugeMoved(was: Meter, now: Meter, labels: string, delta: int) {
    && now.requests == was.requests && now.durations == was.durations && now.errors == was.errors
    && now.Active(labels) == was.Active(labels) + delta
    && forall other :: other != labels ==> now.Active(other) == was.Active(other)
  }

  lemma RecordedIsOneMore(m: Meter, x: Series, duration: int)
    ensures OneRequestMore(m, m.Recorded(x, duration), x, duration)
  {}

  const NO_READINGS := Meter(map[], map[], map[], map[])

  class RequestMetrics {
    var active: map<string, int>
    var requests: map<Series, nat>
    var errors: map<Series, nat>
    var durations: map<Series, seq<int>>

    function Readings(): Meter
      reads this
    {
      Meter(active, requests, errors, durations)
    }

    constructor ()
      ensures Readings() == NO_READINGS
    {
      active, requests, errors, durations := map[], map[], map[], map[];
    }

    method Add(labels: string, delta: int)
      modifies this
      ensures Readings() == old(Readings()).Added(labels, delta)
    {
      active := active[labels := (if labels in active then active[labels] else 0) + delta];
    }

    method Record(labels: string, status: string, duration: int)
      modifies this
      ensures Readings() == old(Readings()).Recorded(Series(labels, status), duration)
      ensures OneRequestMore(old(Readings()), Readings(), Series(labels, status), duration)
    {
      var x := Series(labels, status);
      RecordedIsOneMore(Readings(), x, duration);
      hide OneRequestMore;
      requests := requests[x := (if x in requests then requests[x] else 0) + 1];
      durations := durations[x := (if x in durations then durations[x] else []) + [duration]];
      if status != OK {
        errors := errors[x := (if x in errors then errors[x] else 0) + 1];
      }
    }

    method StreamStarted(labels: string)
      modifies this
      ensures Readings() == old(Readings()).Added(labels, 1)
      ensures GaugeMoved(old(Readings()), Readings(), labels, 1)
    {
      Add(labels, 1);
    }

    method StreamFinished(labels: string, status: string, duration: int)
      modifies this
      ensures Readings() == old(Readings()).Added(labels, -1).Recorded(Series(labels, status), duration)
      ensures exists between :: GaugeMoved(old(Readings()), between, labels, -1)
                                && OneRequestMore(between, Readings(), Series(labels, status), duration)
    {
      ghost var was := Readings();
      Add(labels, -1);
      assert GaugeMoved(was, Readings(), labels, -1);
      hide GaugeMoved, OneRequestMore;
      Record(labels, status, duration);
    }
  }

  /** What SendMsg or RecvMsg returned: nothing, io.EOF, or an error with some status. */
  datatype MessageError = NoError | EndOfStream | Failed(status: string) {
    function Status(): string {
      if Failed? then status else OK
    }
  }

  class ObservedClientStream {
    const metrics: RequestMetrics
    const labels: string
    var finished: bool

    constructor (metrics: RequestMetrics, labels: string)
      ensures this.metrics == metrics && this.labels == labels && !finished
    {
      this.metrics, this.labels, finished := metrics, labels, false;
    }

    /** SendMsg and RecvMsg alike: the first error finishes the stream, and no later one does anything. */
    method AfterMessage(error: MessageError, duration: int)
      modifies this, metrics
      ensures finished == (old(finished) || error != NoError)
      ensures metrics.Readings() ==
              if error == NoError || old(finished) then old(metrics.Readings())
              else old(metrics.Readings()).Added(labels, -1).Recorded(Series(labels, error.Status()), duration)
      ensures error != NoError && !old(finished) ==>
                exists between ::
                  && GaugeMoved(old(metrics.Readings()), between, labels, -1)
                  && OneRequestMore(between, metrics.Readings(),
                                    Series(labels, if error == EndOfStream then "OK" else error.status), duration)
    {
      if error != NoError && !finished {
        finished := true;
        metrics.StreamFinished(labels, error.Status(), duration);
      }
    }
  }

  // ---------------------------------------------------------------- every interleaving

  /** Who may finish a stream: its opener until it is handed out, then whoever enters the sync.Once first. */
  datatype Once = Unshared(owner: nat) | Fresh | Running(owner: nat) | Done

  datatype Stream = Stream(labels: string, once: Once, finishes: nat, records: seq<string>)

  /** Where one goroutine stands. */
  datatype Pc =
    | Idle
    | Opening(stream: nat)
    | AtOnce(stream: nat, status: string)
    | Decrementing(stream: nat, status: string)
    | Recording(stream: nat, status: string)

  datatype State = State(meter: Meter, streams: map<nat, Stream>, goroutines: map<nat, Pc>) {
    function At(g: nat): Pc {
      if g in goroutines then goroutines[g] else Idle
    }
  }

  datatype Step =
    | Begin(g: nat, stream: nat, labels: string)
    | SetupFails(g: nat, stream: nat, status: string)
    | SetupSucceeds(g: nat)
    | MessageFails(g: nat, stream: nat, error: MessageError)
    | EnterOnce(g: nat)
    | Decrement(g: nat)
    | Record(g: nat, duration: int)

  const START := State(NO_READINGS, map[], map[])

  predicate Enabled(s: State, step: Step) {
    match step
    case Begin(g, id, _) => s.At(g).Idle? && id !in s.streams
    case SetupFails(g, id, _) => s.At(g) == Opening(id) && id in s.streams
    case SetupSucceeds(g) => s.At(g).Opening? && s.At(g).stream in s.streams
    case MessageFails(g, id, error) =>
      error != NoError && s.At(g).Idle? && id in s.streams && !s.streams[id].once.Unshared?
    case EnterOnce(g) =>
      s.At(g).AtOnce? && s.At(g).stream in s.streams && !s.streams[s.At(g).stream].once.Running?
    case Decrement(g) => s.At(g).Decrementing? && s.At(g).stream in s.streams
    case Record(g, _) => s.At(g).Recording? && s.At(g).stream in s.streams
  }

  function Moved(s: State, g: nat, pc: Pc, id: nat, stream: Stream): State {
    s.(goroutines := s.goroutines[g := pc], streams := s.streams[id := stream])
  }

  function Apply(s: State, step: Step): State
    requires Enabled(s, step)
  {
    match step
    case Begin(g, id, labels) =>
      Moved(s, g, Opening(id), id, Stream(labels, Unshared(g), 0, [])).(meter := s.meter.Added(labels, 1))
    case SetupFails(g, id, status) =>
      Moved(s, g, Decrementing(id, status), id, s.streams[id])
    case SetupSucceeds(g) =>
      var id := s.At(g).stream;
      Moved(s, g, Idle, id, s.streams[id].(once := Fresh))
    case MessageFails(g, id, error) => Moved(s, g, AtOnce(id, error.Status()), id, s.streams[id])
    case EnterOnce(g) =>
      var AtOnce(id, status) := s.At(g);
      if s.streams[id].once.Fresh? then
        Moved(s, g, Decrementing(id, status), id, s.streams[id].(once := Running(g)))
      else Moved(s, g, Idle, id, s.streams[id])
    case Decrement(g) =>
      var Decrementing(id, status) := s.At(g);
      var stream := s.streams[id];
      Moved(s, g, Recording(id, status), id, stream.(finishes := stream.finishes + 1))
        .(meter := s.meter.Added(stream.labels, -1))
    case Record(g, duration) =>
      var Recording(id, status) := s.At(g);
      var stream := s.streams[id];
      Moved(s, g, Idle, id, stream.(once := Done, records := stream.records + [status]))
        .(meter := s.meter.Recorded(Series(stream.labels, status), duration))
  }

  predicate OwnedBy(stream: Stream, g: nat) {
    stream.once == Unshared(g) || stream.once == Running(g)
  }

  /** Where a goroutine is fits the stream it is at. */
  ghost predicate GoroutineInv(s: State, g: nat) {
    match s.At(g)
    case Idle => true
    case Opening(id) =>
      id in s.streams && s.streams[id].once == Unshared(g) && s.streams[id].finishes == 0 && s.streams[id].records == []
    case AtOnce(id, _) => id in s.streams && !s.streams[id].once.Unshared?
    case Decrementing(id, _) =>
      id in s.streams && OwnedBy(s.streams[id], g) && s.streams[id].finishes == 0 && s.streams[id].records == []
    case Recording(id, _) =>
      id in s.streams && OwnedBy(s.streams[id], g) && s.streams[id].finishes == 1 && s.streams[id].records == []
  }

  predicate IsAt(pc: Pc, id: nat) {
    (pc.Opening? || pc.Decrementing? || pc.Recording?) && pc.stream == id
  }

  ghost predicate StreamInv(s: State, id: nat)
    requires id in s.streams
  {
    var stream := s.streams[id];
    match stream.once
    case Fresh => stream.finishes == 0 && stream.records == []
    case Done => stream.finishes == |stream.records| == 1
    case _ => IsAt(s.At(stream.once.owner), id) && stream.finishes <= 1 && stream.records == []
  }

  /** The streams with these labels that have begun and not been finished. */
  ghost function Unfinished(s: State, labels: string): set<nat> {
    set id | id in s.streams && s.streams[id].labels == labels && s.streams[id].finishes == 0
  }

  ghost function Begun(s: State, labels: string): set<nat> {
    set id | id in s.streams && s.streams[id].labels == labels
  }

  ghost function Finished(s: State, labels: string): set<nat> {
    set id | id in s.streams && s.streams[id].labels == labels && s.streams[id].finishes > 0
  }

  /** The streams of a series that have been recorded. */
  ghost function Recorded(s: State, x: Series): set<nat> {
    set id | id in s.streams && s.streams[id].labels == x.labels && x.status in s.streams[id].records
  }

  ghost predicate SeriesInv(s: State, x: Series) {
    && s.meter.Requests(x) == |s.meter.Durations(x)| == |Recorded(s, x)|
    && s.meter.Errors(x) == if x.status == OK then 0 else |Recorded(s, x)|
  }

  ghost predicate CountInv(s: State) {
    && (forall labels :: s.meter.Active(labels) == |Unfinished(s, labels)|)
    && forall x :: SeriesInv(s, x)
  }

  ghost predicate Inv(s: State) {
    && (forall g :: GoroutineInv(s, g))
    && (forall id :: id in s.streams ==> StreamInv(s, id))
    && CountInv(s)
  }

  lemma StepKeepsGoroutines(s: State, step: Step)
    requires Inv(s) && Enabled(s, step)
    ensures forall g :: GoroutineInv(Apply(s, step), g)
  {
    var s' := Apply(s, step);
    forall g ensures GoroutineInv(s', g) {
      assert GoroutineInv(s, g) && GoroutineInv(s, step.g);
    }
  }

  lemma StepKeepsStreams(s: State, step: Step)
    requires Inv(s) && Enabled(s, step)
    ensures forall id :: id in Apply(s, step).streams ==> StreamInv(Apply(s, step), id)
  {
    var s' := Apply(s, step);
    assert GoroutineInv(s, step.g);
    forall id | id in s'.streams ensures StreamInv(s', id) {
      assert id in s.streams ==> StreamInv(s, id);
    }
  }

  /** Only beginning a stream and decrementing for it change which streams of a label set are unfinished. */
  lemma UnfinishedMoves(s: State, step: Step, labels: string)
    requires Enabled(s, step)
    requires step.Decrement? ==> s.streams[s.At(step.g).stream].finishes == 0
    ensures Unfinished(Apply(s, step), labels) ==
            match step
            case Begin(_, id, l) => Unfinished(s, labels) + if l == labels then {id} else {}
            case Decrement(g) =>
              Unfinished(s, labels) - if s.streams[s.At(g).stream].labels == labels then {s.At(g).stream} else {}
            case _ => Unfinished(s, labels)
  {}

  lemma ActiveMoves(s: State, step: Step, labels: string)
    requires Enabled(s, step)
    ensures Apply(s, step).meter.Active(labels) == s.meter.Active(labels) +
            match step
            case Begin(_, _, l) => if l == labels then 1 else 0
            case Decrement(g) => if s.streams[s.At(g).stream].labels == labels then -1 else 0
            case _ => 0
  {}

  lemma GaugeMoves(s: State, step: Step, labels: string)
    requires Inv(s) && Enabled(s, step)
    ensures Apply(s, step).meter.Active(labels) == |Unfinished(Apply(s, step), labels)|
  {
    assert GoroutineInv(s, step.g);
    assert s.meter.Active(labels) == |Unfinished(s, labels)|;
    if step.Decrement? {
      var id := s.At(step.g).stream;
      assert s.streams[id].labels == labels ==> id in Unfinished(s, labels);
    }
    assert step.Begin? ==> step.stream !in Unfinished(s, labels);
    hide Apply, GoroutineInv, StreamInv, Unfinished, Meter.Active, Inv;
    UnfinishedMoves(s, step, labels);
    ActiveMoves(s, step, labels);
  }

  /** Only recording a stream changes which streams are recorded, and in which series. */
  lemma RecordedMoves(s: State, step: Step, x: Series)
    requires Enabled(s, step)
    ensures Recorded(Apply(s, step), x) == Recorded(s, x) + if RecordsIn(s, step, x) then {s.At(step.g).stream} else {}
  {}

  predicate RecordsIn(s: State, step: Step, x: Series)
    requires Enabled(s, step)
  {
    step.Record? && x == Series(s.streams[s.At(step.g).stream].labels, s.At(step.g).status)
  }

  lemma MeterMoves(s: State, step: Step, x: Series)
    requires Enabled(s, step)
    ensures var m, m' := s.meter, Apply(s, step).meter;
            if RecordsIn(s, step, x) then
              && m'.Requests(x) == m.Requests(x) + 1 && |m'.Durations(x)| == |m.Durations(x)| + 1
              && m'.Errors(x) == m.Errors(x) + if x.status == OK then 0 else 1
            else
              m'.Requests(x) == m.Requests(x) && m'.Durations(x) == m.Durations(x) && m'.Errors(x) == m.Errors(x)
  {}

  lemma SeriesMoves(s: State, step: Step, x: Series)
    requires GoroutineInv(s, step.g) && Enabled(s, step) && SeriesInv(s, x)
    ensures SeriesInv(Apply(s, step), x)
  {
    assert step.Record? ==> s.At(step.g).stream !in Recorded(s, x);
    hide Apply, GoroutineInv, Recorded, RecordsIn, Meter.Requests, Meter.Errors, Meter.Durations;
    assert RecordsIn(s, step, x) ==> step.Record? by {
      RecordsInIsRecord(s, step, x);
    }
    RecordedMoves(s, step, x);
    MeterMoves(s, step, x);
  }

  lemma RecordsInIsRecord(s: State, step: Step, x: Series)
    requires Enabled(s, step)
    ensures RecordsIn(s, step, x) ==> step.Record?
  {}

  lemma StepKeepsCounts(s: State, step: Step)
    requires Inv(s) && Enabled(s, step)
    ensures CountInv(Apply(s, step))
  {
    assert GoroutineInv(s, step.g) && CountInv(s);
    hide Apply, Enabled, Inv, GoroutineInv;
    forall x ensures SeriesInv(Apply(s, step), x) {
      assert SeriesInv(s, x);
      SeriesMoves(s, step, x);
    }
    forall labels ensures Apply(s, step).meter.Active(labels) == |Unfinished(Apply(s, step), labels)| {
      GaugeMoves(s, step, labels);
    }
  }

  ghost function After(steps: seq<Step>): (s: Option<State>)
    ensures s.Some? ==> Inv(s.value)
  {
    if steps == [] then
      StartCounts();
      Some(START)
    else
      var before, step := After(steps[..|steps| - 1]), steps[|steps| - 1];
      if before.None? || !Enabled(before.value, step) then None
      else
        StepKeepsGoroutines(before.value, step);
        StepKeepsStreams(before.value, step);
        StepKeepsCounts(before.value, step);
        Some(Apply(before.value, step))
  }

  lemma StartCounts()
    ensures CountInv(START)
  {
    assert forall labels :: Unfinished(START, labels) == {};
    forall x ensures SeriesInv(START, x) {
      assert Recorded(START, x) == {};
    }
  }

  /**
   For any number of streams and any interleaving of failing messages: every stream is finished and recorded at most
   once; for every label set the gauge is the number of its streams begun minus the number finished; and for every
   series both counters and the histogram count its recorded streams, the error counter only those that did not end
   well.
   */
  lemma GaugeCountsOpenStreams(steps: seq<Step>, labels: string, status: string)
    requires After(steps).Some?
    ensures var s, x := After(steps).value, Series(labels, status);
            && (forall id :: id in s.streams ==> s.streams[id].finishes <= 1 && |s.streams[id].records| <= 1)
            && s.meter.Active(labels) == |Begun(s, labels)| - |Finished(s, labels)|
            && s.meter.Active(labels) >= 0
            && s.meter.Requests(x) == |s.meter.Durations(x)| == |Recorded(s, x)| <= |Finished(s, labels)|
            && s.meter.Errors(x) == if status == OK then 0 else |Recorded(s, x)|
  {
    hide After, GoroutineInv;
    var s, x := After(steps).value, Series(labels, status);
    forall id | id in s.streams
      ensures s.streams[id].finishes <= 1 && |s.streams[id].records| <= 1
      ensures s.streams[id].records != [] ==> s.streams[id].finishes > 0
    {
      assert StreamInv(s, id);
    }
    Partition(Begun(s, labels), Finished(s, labels), Unfinished(s, labels));
    SubsetSize(Recorded(s, x), Finished(s, labels));
    assert s.meter.Active(labels) == |Unfinished(s, labels)| && SeriesInv(s, x);
  }

  // ---------------------------------------------------------------- why a stream was finished

  /** In this step the stream fails, or ends, with that status: io.EOF is a good end, any other error has its own. */
  predicate FailsWith(step: Step, id: nat, status: string) {
    || (step.SetupFails? && step.stream == id && step.status == status)
    || (step.MessageFails? && step.stream == id && step.error == EndOfStream && status == "OK")
    || (step.MessageFails? && step.stream == id && step.error == MessageError.Failed(status))
  }

  ghost predicate FailedWith(steps: seq<Step>, id: nat, status: string) {
    exists i :: 0 <= i < |steps| && FailsWith(steps[i], id, status)
  }

  ghost predicate HasFailed(steps: seq<Step>, id: nat) {
    exists status :: FailedWith(steps, id, status)
  }

  ghost predicate PcTraced(steps: seq<Step>, pc: Pc) {
    pc.AtOnce? || pc.Decrementing? || pc.Recording? ==> FailedWith(steps, pc.stream, pc.status)
  }

  ghost predicate RecordsTraced(steps: seq<Step>, id: nat, stream: Stream) {
    forall status :: status in stream.records ==> FailedWith(steps, id, status)
  }

  /** Someone is finishing the stream or has done so, or is at its sync.Once. */
  ghost predicate Underway(s: State, id: nat) {
    id in s.streams &&
    match s.streams[id].once
    case Fresh => exists g :: s.At(g).AtOnce? && s.At(g).stream == id
    case Unshared(owner) => (s.At(owner).Decrementing? || s.At(owner).Recording?) && s.At(owner).stream == id
    case _ => true
  }

  /** Every status on its way to the counters is one the stream failed with, and no failure is forgotten. */
  ghost predicate Traced(s: State, steps: seq<Step>) {
    && (forall g :: PcTraced(steps, s.At(g)))
    && (forall id :: id in s.streams ==> RecordsTraced(steps, id, s.streams[id]))
    && (forall id :: HasFailed(steps, id) ==> Underway(s, id))
  }

  lemma FailedLonger(steps: seq<Step>, step: Step, id: nat, status: string)
    ensures FailedWith(steps + [step], id, status) <==> FailedWith(steps, id, status) || FailsWith(step, id, status)
  {
    var all := steps + [step];
    assert all[|steps|] == step;
    assert forall i :: 0 <= i < |steps| ==> all[i] == steps[i];
    if FailedWith(steps, id, status) {
      var i :| 0 <= i < |steps| && FailsWith(steps[i], id, status);
      assert FailsWith(all[i], id, status);
    }
  }

  lemma PcsStayTraced(s: State, steps: seq<Step>, step: Step, g: nat)
    requires Enabled(s, step) && PcTraced(steps, s.At(g)) && PcTraced(steps, s.At(step.g))
    ensures PcTraced(steps + [step], Apply(s, step).At(g))
  {
    var pc := Apply(s, step).At(g);
    hide FailedWith;
    if pc.AtOnce? || pc.Decrementing? || pc.Recording? {
      FailedLonger(steps, step, pc.stream, pc.status);
    }
  }

  lemma RecordsStayTraced(s: State, steps: seq<Step>, step: Step, id: nat)
    requires Enabled(s, step) && PcTraced(steps, s.At(step.g))
    requires id in s.streams ==> RecordsTraced(steps, id, s.streams[id])
    requires id in Apply(s, step).streams
    ensures RecordsTraced(steps + [step], id, Apply(s, step).streams[id])
  {
    hide FailedWith;
    forall status | status in Apply(s, step).streams[id].records ensures FailedWith(steps + [step], id, status) {
      FailedLonger(steps, step, id, status);
    }
  }

  /** A failure puts the stream under way, and what is under way stays so until it is done. */
  lemma StaysUnderway(s: State, step: Step, id: nat)
    requires Enabled(s, step) && (forall g :: GoroutineInv(s, g))
    requires Underway(s, id) || exists status :: FailsWith(step, id, status)
    ensures Underway(Apply(s, step), id)
  {
    var s' := Apply(s, step);
    assert GoroutineInv(s, step.g);
    if Underway(s, id) && s.streams[id].once.Fresh? {
      var g :| s.At(g).AtOnce? && s.At(g).stream == id;
      assert step.g != g ==> s'.At(g) == s.At(g);
    } else if !Underway(s, id) {
      assert s'.At(step.g).AtOnce? || s'.At(step.g).Decrementing?;
    }
  }

  lemma StepKeepsTrace(s: State, steps: seq<Step>, step: Step)
    requires Inv(s) && Traced(s, steps) && Enabled(s, step)
    ensures Traced(Apply(s, step), steps + [step])
  {
    var s' := Apply(s, step);
    hide Apply, Enabled, PcTraced, RecordsTraced, Underway, FailedWith, FailsWith, GoroutineInv, StreamInv, CountInv;
    forall g ensures PcTraced(steps + [step], s'.At(g)) {
      PcsStayTraced(s, steps, step, g);
    }
    forall id | id in s'.streams ensures RecordsTraced(steps + [step], id, s'.streams[id]) {
      RecordsStayTraced(s, steps, step, id);
    }
    forall id | HasFailed(steps + [step], id) ensures Underway(s', id) {
      var status :| FailedWith(steps + [step], id, status);
      FailedLonger(steps, step, id, status);
      StaysUnderway(s, step, id);
    }
  }

  lemma {:induction false} ScheduleIsTraced(steps: seq<Step>)
    requires After(steps).Some?
    ensures Traced(After(steps).value, steps)
    decreases |steps|
  {
    if steps == [] {
      assert forall id, status :: !FailedWith([], id, status);
    } else {
      hide Apply, Enabled, Inv, Traced;
      var n := |steps| - 1;
      ScheduleIsTraced(steps[..n]);
      StepKeepsTrace(After(steps[..n]).value, steps[..n], steps[n]);
      assert steps == steps[..n] + [steps[n]];
    }
  }

  /**
   Why a stream is finished: once no goroutine is inside the interceptor, a stream has been finished and recorded, just
   once, if it has failed or ended, and otherwise not at all; and the recorded status is one it failed with, or OK when
   it ended with io.EOF.
   */
  lemma FinishedIffFailed(steps: seq<Step>, id: nat)
    requires After(steps).Some? && id in After(steps).value.streams
    requires forall g :: After(steps).value.At(g).Idle?
    ensures var stream := After(steps).value.streams[id];
            && stream.finishes == |stream.records| == (if HasFailed(steps, id) then 1 else 0)
            && (stream.records != [] ==> FailedWith(steps, id, stream.records[0]))
  {
    ScheduleIsTraced(steps);
    var s := After(steps).value;
    assert StreamInv(s, id) && RecordsTraced(steps, id, s.streams[id]);
    hide After, FailedWith;
    var records := s.streams[id].records;
    if records != [] {
      assert records[0] in records;
      assert FailedWith(steps, id, records[0]);
    } else {
      assert HasFailed(steps, id) ==> Underway(s, id);
    }
  }

  lemma Partition(all: set<nat>, a: set<nat>, b: set<nat>)
    requires all == a + b && a !! b
    ensures |all| == |a| + |b|
  {}

  lemma SubsetSize(a: set<nat>, b: set<nat>)
    requires a <= b
    ensures |a| <= |b|
  {
    assert b == a + (b - a);
  }
}
