/**
 The token bucket as arithmetic on a level, and what whole runs of it promise.
 A bucket's level is its number of tokens times the refill interval, so it is measured in milliseconds.
 */
module TokenBucket {
  import opened Wrappers

  /** At most capacity tokens; one more token every refill milliseconds. */
  datatype Config = Config(capacity: int, refill: int) {
    predicate Valid() {
      capacity > 0 && refill > 0
    }

    function Full(): (full: int)
      ensures Valid() ==> full >= refill
    {
      capacity * refill
    }
  }

  datatype Bucket = Bucket(level: real, updated: int)

  datatype Decision = Decision(allowed: bool, retryMs: int, remaining: int)

  /** What one key holds after some calls, and the decisions those calls received. */
  datatype Trace = Trace(stored: Option<Bucket>, outcomes: seq<Decision>)

  /** The level that a call at now finds: a missing bucket is full. */
  function Refilled(cfg: Config, stored: Option<Bucket>, now: int): real {
    match stored
    case None => cfg.Full() as real
    case Some(b) => RealMin(cfg.Full() as real, b.level + Max(0, now - b.updated) as real)
  }

  function Spent(cfg: Config, level: real): real {
    if level >= cfg.refill as real then level - cfg.refill as real else level
  }

  /** How many whole tokens a level holds. */
  function WholeTokens(refill: int, level: real): nat
    requires refill > 0
    decreases level
  {
    if level < refill as real then 0 else 1 + WholeTokens(refill, level - refill as real)
  }

  lemma {:induction false} WholeTokensFit(refill: int, level: real)
    requires refill > 0 && level >= 0.0
    ensures var n := WholeTokens(refill, level);
            (refill * n) as real <= level < (refill * n + refill) as real
    decreases level
  {
    if level >= refill as real {
      WholeTokensFit(refill, level - refill as real);
      var rest := WholeTokens(refill, level - refill as real);
      assert refill * (rest + 1) == refill * rest + refill;
    }
  }

  function Decide(cfg: Config, level: real): Decision
    requires cfg.refill > 0
  {
    var remaining := WholeTokens(cfg.refill, Spent(cfg, level));
    if level >= cfg.refill as real then Decision(true, 0, remaining)
    else Decision(false, Ceil(cfg.refill as real - level), remaining)
  }

  function Step(cfg: Config, stored: Option<Bucket>, now: int): Bucket {
    Bucket(Spent(cfg, Refilled(cfg, stored, now)), now)
  }

  /** Calls on one key at the given times, oldest first. */
  function Run(cfg: Config, stored: Option<Bucket>, times: seq<int>): (t: Trace)
    requires cfg.Valid()
    ensures |t.outcomes| == |times|
  {
    if times == [] then Trace(stored, [])
    else
      var n := |times| - 1;
      var before := Run(cfg, stored, times[..n]);
      Trace(Some(Step(cfg, before.stored, times[n])),
            before.outcomes + [Decide(cfg, Refilled(cfg, before.stored, times[n]))])
  }

  function Allowed(cfg: Config, times: seq<int>): (marks: seq<bool>)
    requires cfg.Valid()
    ensures |marks| == |times|
  {
    var outcomes := Run(cfg, None, times).outcomes;
    seq(|times|, i requires 0 <= i < |outcomes| => outcomes[i].allowed)
  }

  // ---------------------------------------------------------------- the log of past calls

  /**
   Room left at call j when only the calls from i on are charged:
   a full bucket at time i, plus what the clock added, minus what was spent.
   */
  function Slack(cfg: Config, times: seq<int>, marks: seq<bool>, i: int, j: int): int
    requires 0 <= i <= j < |times| && j <= |marks|
  {
    cfg.Full() + (times[j] - times[i]) - cfg.refill * Count(marks, i, j)
  }

  /** The reference rule, over the whole history: every suffix of the log has room for one more. */
  ghost predicate LogAllows(cfg: Config, times: seq<int>, marks: seq<bool>, j: int)
    requires 0 <= j < |times| && j <= |marks|
  {
    forall i :: 0 <= i <= j ==>
      cfg.refill * (Count(marks, i, j) + 1) <= cfg.capacity * cfg.refill + (times[j] - times[i])
  }

  ghost predicate MeetsLog(cfg: Config, times: seq<int>, marks: seq<bool>) {
    |marks| == |times| &&
    forall j :: 0 <= j < |times| ==> (marks[j] <==> LogAllows(cfg, times, marks, j))
  }

  lemma {:induction false} CountOfPrefix(marks: seq<bool>, more: seq<bool>, lo: int, hi: int)
    requires 0 <= lo <= hi <= |marks|
    ensures Count(marks + more, lo, hi) == Count(marks, lo, hi)
    decreases hi
  {
    if lo < hi {
      CountOfPrefix(marks, more, lo, hi - 1);
    }
  }

  lemma AllowedSnoc(cfg: Config, times: seq<int>, now: int)
    requires cfg.Valid()
    ensures Allowed(cfg, times + [now]) ==
            Allowed(cfg, times) + [Refilled(cfg, Run(cfg, None, times).stored, now) >= cfg.refill as real]
  {
    assert (times + [now])[..|times|] == times;
  }

  /** One more call adds the clock's step to every older slack and takes away what that call spent. */
  lemma SlackMoves(cfg: Config, times: seq<int>, marks: seq<bool>, mark: bool, now: int, i: int)
    requires |times| == |marks| + 1 && 0 <= i <= |marks|
    ensures var n := |marks|;
            Slack(cfg, times + [now], marks + [mark], i, n + 1) ==
            Slack(cfg, times, marks, i, n) + (now - times[n]) - if mark then cfg.refill else 0
  {
    var n := |marks|;
    CountOfPrefix(marks, [mark], i, n);
    var c := Count(marks, i, n);
    assert Count(marks + [mark], i, n + 1) == c + if mark then 1 else 0;
    assert cfg.refill * (c + 1) == cfg.refill * c + cfg.refill;
  }

  /** The slack of every suffix of the log at its last call. */
  function Slacks(cfg: Config, times: seq<int>, marks: seq<bool>): (slacks: seq<int>)
    requires |times| == |marks| + 1
    ensures |slacks| == |times|
  {
    seq(|times|, i requires 0 <= i < |times| => Slack(cfg, times, marks, i, |marks|))
  }

  ghost predicate IsLeast(values: seq<int>, least: real) {
    && (forall i :: 0 <= i < |values| ==> least <= values[i] as real)
    && (exists i :: 0 <= i < |values| && least == values[i] as real)
  }

  lemma LeastAfterShift(values: seq<int>, values': seq<int>, delta: int, last: int, least: real, least': real)
    requires IsLeast(values, least) && |values'| == |values| + 1
    requires forall i :: 0 <= i < |values| ==> values'[i] == values[i] + delta
    requires values'[|values|] == last
    requires least' == RealMin(last as real, least + delta as real)
    ensures IsLeast(values', least')
  {
    var k :| 0 <= k < |values| && least == values[k] as real;
    var k' := if least' == last as real then |values| else k;
    assert least' == values'[k'] as real;
  }

  /** From one call to the next the level loses what was spent, gains what the clock added, and stops at full. */
  lemma LevelMoves(cfg: Config, times: seq<int>, t: int, now: int)
    requires cfg.Valid() && t <= now
    ensures var level := Refilled(cfg, Run(cfg, None, times).stored, t);
            var delta := (now - t) - if level >= cfg.refill as real then cfg.refill else 0;
            Refilled(cfg, Run(cfg, None, times + [t]).stored, now) ==
            RealMin(cfg.Full() as real, level + delta as real)
  {
    assert (times + [t])[..|times|] == times;
    hide Config.Full;
  }

  /** The level is the least slack over all suffixes of the log. */
  lemma {:induction false} LevelIsLeastSlack(cfg: Config, times: seq<int>, now: int)
    requires cfg.Valid() && Nondecreasing(times + [now])
    ensures IsLeast(Slacks(cfg, times + [now], Allowed(cfg, times)),
                    Refilled(cfg, Run(cfg, None, times).stored, now))
    decreases |times|
  {
    var slacks := Slacks(cfg, times + [now], Allowed(cfg, times));
    assert slacks[|times|] == cfg.Full();
    if times != [] {
      var n := |times| - 1;
      var p, t := times[..n], times[n];
      assert times == p + [t] && (times + [now])[..n + 1] == p + [t];
      NondecreasingPrefix(times + [now], n + 1);
      assert t <= now by {
        assert (times + [now])[n] <= (times + [now])[n + 1];
      }
      var mark := Refilled(cfg, Run(cfg, None, p).stored, t) >= cfg.refill as real;
      var before := Slacks(cfg, p + [t], Allowed(cfg, p));
      var delta := (now - t) - if mark then cfg.refill else 0;
      AllowedSnoc(cfg, p, t);
      hide Run, Allowed, Refilled, Slack, IsLeast, Nondecreasing;
      LevelIsLeastSlack(cfg, p, t);
      forall i | 0 <= i <= n ensures slacks[i] == before[i] + delta {
        SlackMoves(cfg, p + [t], Allowed(cfg, p), mark, now, i);
      }
      LevelMoves(cfg, p, t, now);
      LeastAfterShift(before, slacks, delta, cfg.Full(), Refilled(cfg, Run(cfg, None, p).stored, t),
                      Refilled(cfg, Run(cfg, None, times).stored, now));
    }
  }

  lemma SlackForOne(cfg: Config, times: seq<int>, marks: seq<bool>, j: int)
    requires 0 <= j < |times| && j <= |marks|
    ensures LogAllows(cfg, times, marks, j) <==>
            forall i :: 0 <= i <= j ==> Slack(cfg, times, marks, i, j) >= cfg.refill
  {
    forall i | 0 <= i <= j
      ensures cfg.refill * (Count(marks, i, j) + 1) <= cfg.capacity * cfg.refill + (times[j] - times[i]) <==>
              Slack(cfg, times, marks, i, j) >= cfg.refill
    {
      var c := Count(marks, i, j);
      assert cfg.refill * (c + 1) == cfg.refill * c + cfg.refill;
    }
  }

  lemma LogAllowsOfPrefix(cfg: Config, times: seq<int>, marks: seq<bool>, now: int, mark: bool, j: int)
    requires |marks| == |times| && 0 <= j < |times|
    ensures LogAllows(cfg, times + [now], marks + [mark], j) == LogAllows(cfg, times, marks, j)
  {
    forall i | 0 <= i <= j ensures Count(marks + [mark], i, j) == Count(marks, i, j) {
      CountOfPrefix(marks, [mark], i, j);
    }
    assert forall i :: 0 <= i <= j ==> (times + [now])[i] == times[i];
  }

  /**
   The two stored numbers decide exactly as the whole history does,
   and no other sequence of decisions meets the history rule.
   */
  lemma {:induction false} TwoNumbersDecideAsTheLog(cfg: Config, times: seq<int>, marks: seq<bool>)
    requires cfg.Valid() && Nondecreasing(times)
    ensures MeetsLog(cfg, times, marks) <==> marks == Allowed(cfg, times)
    decreases |times|
  {
    if |marks| == |times| > 0 {
      var n := |times| - 1;
      var p, now, mark := times[..n], times[n], marks[n];
      assert times == p + [now] && marks == marks[..n] + [mark];
      NondecreasingPrefix(times, n);
      TwoNumbersDecideAsTheLog(cfg, p, marks[..n]);
      forall j | 0 <= j < n
        ensures LogAllows(cfg, times, marks, j) == LogAllows(cfg, p, marks[..n], j)
      {
        LogAllowsOfPrefix(cfg, p, marks[..n], now, mark, j);
      }
      assert MeetsLog(cfg, times, marks) <==>
             MeetsLog(cfg, p, marks[..n]) && (mark <==> LogAllows(cfg, times, marks, n)) by {
        assert forall j :: 0 <= j < n ==> marks[..n][j] == marks[j];
      }
      AllowedSnoc(cfg, p, now);
      assert marks == Allowed(cfg, times) <==>
             marks[..n] == Allowed(cfg, p) && mark == Allowed(cfg, times)[n];
      if marks[..n] == Allowed(cfg, p) {
        LogDecidesNext(cfg, p, now, mark);
      }
    }
  }

  /** The whole log allows the next call exactly when the level it finds holds a token. */
  lemma LogDecides(cfg: Config, times: seq<int>, now: int)
    requires cfg.Valid() && Nondecreasing(times + [now])
    ensures LogAllows(cfg, times + [now], Allowed(cfg, times), |times|) <==>
            Refilled(cfg, Run(cfg, None, times).stored, now) >= cfg.refill as real
  {
    hide Run, Refilled, Allowed, Config.Full, LogAllows;
    LogDecidesNext(cfg, times, now, true);
    NextMarkIsIgnored(cfg, times + [now], Allowed(cfg, times), true);
  }

  lemma NextMarkIsIgnored(cfg: Config, times: seq<int>, marks: seq<bool>, mark: bool)
    requires |times| == |marks| + 1
    ensures LogAllows(cfg, times, marks + [mark], |marks|) == LogAllows(cfg, times, marks, |marks|)
  {
    forall i | 0 <= i <= |marks| ensures Count(marks + [mark], i, |marks|) == Count(marks, i, |marks|) {
      CountOfPrefix(marks, [mark], i, |marks|);
    }
    hide Count, Config.Full;
  }

  lemma LogDecidesNext(cfg: Config, times: seq<int>, now: int, mark: bool)
    requires cfg.Valid() && Nondecreasing(times + [now])
    ensures LogAllows(cfg, times + [now], Allowed(cfg, times) + [mark], |times|) <==>
            Refilled(cfg, Run(cfg, None, times).stored, now) >= cfg.refill as real
  {
    var n, all, marks := |times|, times + [now], Allowed(cfg, times);
    forall i | 0 <= i <= n ensures Count(marks + [mark], i, n) == Count(marks, i, n) {
      CountOfPrefix(marks, [mark], i, n);
    }
    SlackForOne(cfg, all, marks + [mark], n);
    LevelIsLeastSlack(cfg, times, now);
    assert forall i :: 0 <= i <= n ==> Slack(cfg, all, marks + [mark], i, n) == Slacks(cfg, all, marks)[i];
  }
}
