/** What whole runs of one token bucket promise beyond the log rule: rejections, expiry, stepping clocks, retries. */
module TokenBucketRuns {
  import opened Wrappers
  import opened TokenBucket

  lemma {:induction false} RunConcat(cfg: Config, stored: Option<Bucket>, a: seq<int>, b: seq<int>)
    requires cfg.Valid()
    ensures var first := Run(cfg, stored, a);
            var second := Run(cfg, first.stored, b);
            Run(cfg, stored, a + b) == Trace(second.stored, first.outcomes + second.outcomes)
    decreases |b|
  {
    if b == [] {
      assert a + b == a;
    } else {
      var n := |b| - 1;
      RunConcat(cfg, stored, a, b[..n]);
      assert (a + b)[..|a| + n] == a + b[..n];
      var first := Run(cfg, stored, a);
      var mid := Run(cfg, first.stored, b[..n]);
      var last := Decide(cfg, Refilled(cfg, mid.stored, b[n]));
      assert Run(cfg, stored, a + b).outcomes == (first.outcomes + mid.outcomes) + [last];
      assert first.outcomes + (mid.outcomes + [last]) == (first.outcomes + mid.outcomes) + [last];
    }
  }

  // ---------------------------------------------------------------- rejected calls

  /** Two stored states that no call from time t on can tell apart. */
  ghost predicate SameFrom(cfg: Config, a: Option<Bucket>, b: Option<Bucket>, t: int) {
    forall t' :: t' >= t ==> Refilled(cfg, a, t') == Refilled(cfg, b, t')
  }

  lemma {:induction false} SameStateSameRun(cfg: Config, a: Option<Bucket>, b: Option<Bucket>, t: int, times: seq<int>)
    requires cfg.Valid() && SameFrom(cfg, a, b, t) && forall i :: 0 <= i < |times| ==> t <= times[i]
    ensures Run(cfg, a, times).outcomes == Run(cfg, b, times).outcomes
    ensures times != [] ==> Run(cfg, a, times).stored == Run(cfg, b, times).stored
    decreases |times|
  {
    if times != [] {
      var n := |times| - 1;
      SameStateSameRun(cfg, a, b, t, times[..n]);
      assert times[n] >= t;
      if n == 0 {
        assert Refilled(cfg, a, times[n]) == Refilled(cfg, b, times[n]);
      }
    }
  }

  lemma StoredAtLastCall(cfg: Config, times: seq<int>)
    requires cfg.Valid() && times != []
    ensures var s := Run(cfg, None, times).stored;
            s.Some? && s.value.updated == times[|times| - 1] && 0.0 <= s.value.level <= cfg.Full() as real
    decreases |times|
  {
    var n := |times| - 1;
    if n > 0 {
      StoredAtLastCall(cfg, times[..n]);
    }
    assert cfg.Full() >= 0 by {
      assert cfg.capacity * cfg.refill >= 0;
    }
  }

  /** A first call is never rejected, and a later rejected call only moves what the clock had already earned. */
  lemma RejectionKeepsState(cfg: Config, times: seq<int>, t: int)
    requires cfg.Valid() && Nondecreasing(times + [t])
    requires !Decide(cfg, Refilled(cfg, Run(cfg, None, times).stored, t)).allowed
    ensures SameFrom(cfg, Run(cfg, None, times + [t]).stored, Run(cfg, None, times).stored, t)
  {
    var s := Run(cfg, None, times).stored;
    assert (times + [t])[..|times|] == times;
    assert Run(cfg, None, times + [t]).stored == Some(Step(cfg, s, t));
    assert times != [] by {
      assert cfg.capacity * cfg.refill >= cfg.refill;
    }
    StoredAtLastCall(cfg, times);
    assert s.value.updated <= t by {
      assert (times + [t])[|times| - 1] <= (times + [t])[|times|];
    }
  }

  lemma LastOutcome(cfg: Config, before: seq<int>, t: int)
    requires cfg.Valid()
    ensures Run(cfg, None, before + [t]).outcomes[|before|] ==
            Decide(cfg, Refilled(cfg, Run(cfg, None, before).stored, t))
  {
    assert (before + [t])[..|before|] == before;
  }

  /**
   Rejected calls are unobservable: taking a rejected call out of a run leaves every other call's
   decision, retry hint and remaining count as it was.
   */
  lemma RejectedCallIsUnobservable(cfg: Config, before: seq<int>, t: int, after: seq<int>)
    requires cfg.Valid() && Nondecreasing(before + [t] + after)
    requires !Run(cfg, None, before + [t]).outcomes[|before|].allowed
    ensures var n := |before|;
            var with, without := Run(cfg, None, before + [t] + after), Run(cfg, None, before + after);
            && with.outcomes[..n] + with.outcomes[n + 1..] == without.outcomes
            && (after != [] ==> with.stored == without.stored)
  {
    LaterCalls(before, t, after);
    hide Run, SameFrom, Nondecreasing, Decide, Refilled;
    LastOutcome(cfg, before, t);
    OutcomesOfPrefix(cfg, before, t);
    RejectionKeepsState(cfg, before, t);
    var first, called := Run(cfg, None, before), Run(cfg, None, before + [t]);
    SameStateSameRun(cfg, called.stored, first.stored, t, after);
    RunConcat(cfg, None, before + [t], after);
    RunConcat(cfg, None, before, after);
    CutOne(called.outcomes, Run(cfg, first.stored, after).outcomes, |before|);
  }

  lemma CutOne<T>(first: seq<T>, rest: seq<T>, n: nat)
    requires |first| == n + 1
    ensures (first + rest)[..n] + (first + rest)[n + 1..] == first[..n] + rest
  {}

  lemma LaterCalls(before: seq<int>, t: int, after: seq<int>)
    requires Nondecreasing(before + [t] + after)
    ensures Nondecreasing(before + [t]) && forall i :: 0 <= i < |after| ==> t <= after[i]
  {
    var all := before + [t] + after;
    assert all[..|before| + 1] == before + [t];
    NondecreasingPrefix(all, |before| + 1);
    forall i | 0 <= i < |after| ensures t <= after[i] {
      assert all[|before|] <= all[|before| + 1 + i];
    }
  }

  // ---------------------------------------------------------------- key expiry

  /** A call, and whether the key had expired before it. */
  datatype Call = Call(now: int, expired: bool)

  function Times(calls: seq<Call>): (times: seq<int>)
    ensures |times| == |calls|
  {
    seq(|calls|, i requires 0 <= i < |calls| => calls[i].now)
  }

  function RunExpiring(cfg: Config, calls: seq<Call>): (t: Trace)
    requires cfg.Valid()
    ensures |t.outcomes| == |calls|
  {
    if calls == [] then Trace(None, [])
    else
      var n := |calls| - 1;
      var before := RunExpiring(cfg, calls[..n]);
      var stored := if calls[n].expired then None else before.stored;
      Trace(Some(Step(cfg, stored, calls[n].now)),
            before.outcomes + [Decide(cfg, Refilled(cfg, stored, calls[n].now))])
  }

  /** The script renews the key for capacity * refill milliseconds at every call. */
  ghost predicate ExpiresOnTime(cfg: Config, calls: seq<Call>) {
    forall j :: 0 < j < |calls| && calls[j].expired ==> calls[j].now - calls[j - 1].now >= cfg.Full()
  }

  /** Dropping a key once its time to live has passed yields what a store that never expires yields. */
  lemma {:induction false} ExpiryIsTransparent(cfg: Config, calls: seq<Call>)
    requires cfg.Valid() && Nondecreasing(Times(calls)) && ExpiresOnTime(cfg, calls)
    ensures RunExpiring(cfg, calls) == Run(cfg, None, Times(calls))
    decreases |calls|
  {
    if calls != [] {
      var n := |calls| - 1;
      var p := calls[..n];
      assert Times(p) == Times(calls)[..n];
      NondecreasingPrefix(Times(calls), n);
      ExpiryIsTransparent(cfg, p);
      if n > 0 {
        StoredAtLastCall(cfg, Times(p));
        assert Times(calls)[n - 1] <= Times(calls)[n];
      }
    }
  }

  /** No shorter time to live would do: an idle time hides the loss of every possible bucket iff it fills one. */
  lemma TimeToLiveIsLeast(cfg: Config, idle: int)
    requires cfg.Valid() && idle >= 0
    ensures (forall level: real :: 0.0 <= level <= cfg.Full() as real ==>
              Decide(cfg, Refilled(cfg, Some(Bucket(level, 0)), idle)) == Decide(cfg, Refilled(cfg, None, idle)))
            <==> idle >= cfg.Full()
  {
    if idle < cfg.Full() {
      var emptied := Some(Bucket(0.0, 0));
      assert Refilled(cfg, emptied, idle) == idle as real;
      FullBucketIsDistinct(cfg, idle as real);
      assert 0.0 <= emptied.value.level <= cfg.Full() as real;
    }
  }

  lemma FullBucketIsDistinct(cfg: Config, level: real)
    requires cfg.Valid() && 0.0 <= level < cfg.Full() as real
    ensures Decide(cfg, level) != Decide(cfg, cfg.Full() as real)
  {
    var rest := cfg.Full() - cfg.refill;
    if level >= cfg.refill as real {
      WholeTokensGap(cfg.refill, cfg.capacity - 1, level - cfg.refill as real, rest as real);
    }
  }

  /** Levels on either side of a multiple of the refill interval hold different numbers of whole tokens. */
  lemma WholeTokensGap(refill: int, k: int, low: real, high: real)
    requires refill > 0 && 0.0 <= low < (refill * k) as real <= high
    ensures WholeTokens(refill, low) < WholeTokens(refill, high)
  {
    var a, b := WholeTokens(refill, low), WholeTokens(refill, high);
    WholeTokensFit(refill, low);
    WholeTokensFit(refill, high);
    hide WholeTokens;
    assert refill * a < refill * k < refill * b + refill;
    FactorsInOrder(refill, a, k);
    assert refill * (b + 1) == refill * b + refill;
    FactorsInOrder(refill, k, b + 1);
  }

  lemma FactorsInOrder(refill: int, a: int, b: int)
    requires refill > 0 && refill * a < refill * b
    ensures a < b
  {
    if a >= b {
      MultiplesInOrder(refill, b, a);
    }
  }

  lemma MultiplesInOrder(refill: int, a: int, b: int)
    requires refill > 0 && a <= b
    ensures refill * a <= refill * b
  {}

  // ---------------------------------------------------------------- clocks that step back

  /** How far the clock moved forward in all, ignoring backward steps. */
  function ForwardSteps(times: seq<int>): (total: nat)
  {
    if |times| <= 1 then 0
    else ForwardSteps(times[..|times| - 1]) + Max(0, times[|times| - 1] - times[|times| - 2])
  }

  /** What refilling a bucket that is already full threw away. */
  function Overflow(cfg: Config, times: seq<int>): (lost: real)
    requires cfg.Valid()
  {
    if |times| <= 1 then 0.0
    else
      var n := |times| - 1;
      var s := Run(cfg, None, times[..n]).stored.value;
      var offered := s.level + Max(0, times[n] - s.updated) as real;
      Overflow(cfg, times[..n]) + offered - RealMin(cfg.Full() as real, offered)
  }

  /** One call's part in the ledger: what was stored and what the clock offered is spent, kept or lost. */
  lemma LedgerStep(cfg: Config, times: seq<int>)
    requires cfg.Valid() && |times| >= 2
    ensures var n := |times| - 1;
            var was, now := Run(cfg, None, times[..n]).stored.value, Run(cfg, None, times).stored.value;
            && now.level + (if Allowed(cfg, times)[n] then cfg.refill else 0) as real
               + Overflow(cfg, times) - Overflow(cfg, times[..n])
               == was.level + Max(0, times[n] - times[n - 1]) as real
            && Overflow(cfg, times) >= Overflow(cfg, times[..n])
  {
    StoredAtLastCall(cfg, times[..|times| - 1]);
  }

  /** What admissions cost: one refill interval each. */
  function Spending(cfg: Config, times: seq<int>): int
    requires cfg.Valid()
  {
    cfg.refill * Count(Allowed(cfg, times), 0, |times|)
  }

  lemma SpendingSnoc(cfg: Config, times: seq<int>)
    requires cfg.Valid() && times != []
    ensures var n := |times| - 1;
            Spending(cfg, times) == Spending(cfg, times[..n]) + if Allowed(cfg, times)[n] then cfg.refill else 0
  {
    var n := |times| - 1;
    assert times == times[..n] + [times[n]];
    AllowedSnoc(cfg, times[..n], times[n]);
    hide Run;
    CountOfPrefix(Allowed(cfg, times[..n]), [Allowed(cfg, times)[n]], 0, n);
    OneMore(cfg.refill, Count(Allowed(cfg, times[..n]), 0, n));
  }

  lemma OneMore(refill: int, n: int)
    ensures refill * (n + 1) == refill * n + refill
  {}

  lemma LedgerOfOne(cfg: Config, times: seq<int>)
    requires cfg.Valid() && |times| == 1
    ensures var level := Run(cfg, None, times).stored.value.level;
            level + Spending(cfg, times) as real + Overflow(cfg, times) == (cfg.Full() + ForwardSteps(times)) as real
  {
    assert Run(cfg, None, times).stored == Some(Step(cfg, None, times[0]));
    SpendingSnoc(cfg, times);
    assert Spending(cfg, times[..0]) == 0;
    assert Allowed(cfg, times)[0];
  }

  /**
   For every sequence of clock readings, forward or back: what is left, what was spent and what overflowed
   add up to a full bucket plus the forward clock steps. So admissions never exceed
   capacity + ForwardSteps / refill, and the level stays between empty and full.
   */
  lemma {:induction false} LedgerUnderAnyClock(cfg: Config, times: seq<int>)
    requires cfg.Valid() && times != []
    ensures var level := Run(cfg, None, times).stored.value.level;
            && level + Spending(cfg, times) as real + Overflow(cfg, times) ==
               (cfg.Full() + ForwardSteps(times)) as real
            && Overflow(cfg, times) >= 0.0
            && 0.0 <= level <= cfg.Full() as real
            && Spending(cfg, times) <= cfg.Full() + ForwardSteps(times)
    decreases |times|
  {
    var n := |times| - 1;
    hide Run, Spending, Allowed, Config.Full;
    StoredAtLastCall(cfg, times);
    if n > 0 {
      LedgerUnderAnyClock(cfg, times[..n]);
      SpendingSnoc(cfg, times);
      LedgerStep(cfg, times);
    } else {
      LedgerOfOne(cfg, times);
    }
  }

  // ---------------------------------------------------------------- retry hints

  ghost predicate RejectedFrom(outcomes: seq<Decision>, n: int) {
    forall i :: 0 <= n <= i < |outcomes| ==> !outcomes[i].allowed
  }

  lemma SameFromLater(cfg: Config, a: Option<Bucket>, b: Option<Bucket>, c: Option<Bucket>, t: int, later: int)
    requires SameFrom(cfg, a, b, t) && SameFrom(cfg, b, c, t) && t <= later
    ensures SameFrom(cfg, a, c, later)
  {}

  lemma OutcomesOfPrefix(cfg: Config, times: seq<int>, t: int)
    requires cfg.Valid()
    ensures Run(cfg, None, times + [t]).outcomes[..|times|] == Run(cfg, None, times).outcomes
  {
    assert (times + [t])[..|times|] == times;
  }

  /** However often a client polls, rejections leave what later calls will find as it was before them. */
  lemma {:induction false} RejectionsKeepState(cfg: Config, before: seq<int>, polls: seq<int>, t: int)
    requires cfg.Valid() && Nondecreasing(before + polls + [t])
    requires RejectedFrom(Run(cfg, None, before + polls).outcomes, |before|)
    ensures SameFrom(cfg, Run(cfg, None, before + polls).stored, Run(cfg, None, before).stored, t)
    decreases |polls|
  {
    var all := before + polls;
    if polls == [] {
      assert all == before;
    } else {
      var n := |polls| - 1;
      var early, last := polls[..n], polls[n];
      assert all == before + early + [last];
      assert (all + [t])[..|all|] == before + early + [last];
      NondecreasingPrefix(all + [t], |all|);
      assert last <= t by {
        assert (all + [t])[|all| - 1] <= (all + [t])[|all|];
      }
      hide Run, SameFrom, Decide, Refilled, Nondecreasing;
      var outcomes := Run(cfg, None, all).outcomes;
      OutcomesOfPrefix(cfg, before + early, last);
      assert RejectedFrom(outcomes[..|before + early|], |before|);
      RejectionsKeepState(cfg, before, early, last);
      LastOutcome(cfg, before + early, last);
      assert !outcomes[|before + early|].allowed;
      RejectionKeepsState(cfg, before + early, last);
      SameFromLater(cfg, Run(cfg, None, all).stored, Run(cfg, None, before + early).stored,
                    Run(cfg, None, before).stored, last, t);
    }
  }

  /** Once the stored state is not behind the clock, the hint is the least wait that finds a token. */
  lemma WaitIsExact(cfg: Config, stored: Option<Bucket>, t: int, t': int)
    requires cfg.Valid() && t <= t' && (stored.Some? ==> stored.value.updated <= t)
    requires !Decide(cfg, Refilled(cfg, stored, t)).allowed
    ensures var hint := Decide(cfg, Refilled(cfg, stored, t)).retryMs;
            hint >= 1 && (Decide(cfg, Refilled(cfg, stored, t')).allowed <==> t' >= t + hint)
  {}

  /**
   After a rejection (the first of polls), while no call is admitted,
   a call succeeds exactly when at least the hinted wait has passed.
   */
  lemma RetryHintIsExact(cfg: Config, before: seq<int>, polls: seq<int>, t: int)
    requires cfg.Valid() && polls != [] && Nondecreasing(before + polls + [t])
    requires RejectedFrom(Run(cfg, None, before + polls).outcomes, |before|)
    ensures var hint := Run(cfg, None, before + polls).outcomes[|before|].retryMs;
            && hint >= 1
            && (Run(cfg, None, before + polls + [t]).outcomes[|before + polls|].allowed
                <==> t >= polls[0] + hint)
  {
    var all := before + polls;
    var s := Run(cfg, None, before).stored;
    RejectionsKeepState(cfg, before, polls, t);
    assert (all + [t])[..|all|] == all;
    FirstOutcome(cfg, before, polls);
    assert !Run(cfg, None, all).outcomes[|before|].allowed;
    if before != [] {
      StoredAtLastCall(cfg, before);
      assert (all + [t])[|before| - 1] <= (all + [t])[|before|];
    }
    assert (all + [t])[|before|] <= (all + [t])[|all|];
    WaitIsExact(cfg, s, polls[0], t);
  }

  // ---------------------------------------------------------------- the remaining count

  /** The same clock reading n times. */
  function AtOnce(t: int, n: nat): (times: seq<int>)
    ensures |times| == n && forall i :: 0 <= i < n ==> times[i] == t
  {
    if n == 0 then [] else AtOnce(t, n - 1) + [t]
  }

  lemma SameInstant(cfg: Config, level: real, t: int)
    requires level <= cfg.Full() as real
    ensures Refilled(cfg, Some(Bucket(level, t)), t) == level
  {
    hide Config.Full;
  }

  lemma BurstLast(cfg: Config, stored: Option<Bucket>, t: int, n: nat)
    requires cfg.Valid() && n > 0
    ensures var before := Run(cfg, stored, AtOnce(t, n - 1)).stored;
            && Run(cfg, stored, AtOnce(t, n)).stored == Some(Step(cfg, before, t))
            && Run(cfg, stored, AtOnce(t, n)).outcomes[n - 1] == Decide(cfg, Refilled(cfg, before, t))
  {
    assert AtOnce(t, n)[..n - 1] == AtOnce(t, n - 1);
  }

  /** The level that n tokens are worth. */
  function Worth(cfg: Config, n: int): real {
    (cfg.refill * n) as real
  }

  lemma WorthInOrder(cfg: Config, a: int, b: int)
    requires cfg.Valid() && a <= b
    ensures Worth(cfg, a) <= Worth(cfg, b)
    ensures Worth(cfg, a + 1) == Worth(cfg, a) + cfg.refill as real && Worth(cfg, 0) == 0.0
  {
    MultiplesInOrder(cfg.refill, a, b);
    OneMore(cfg.refill, a);
  }

  /** While there are tokens, each call of a burst takes one. */
  lemma {:induction false} BurstDrains(cfg: Config, level: real, t: int, n: nat)
    requires cfg.Valid() && Worth(cfg, n) <= level <= cfg.Full() as real
    ensures Run(cfg, Some(Bucket(level, t)), AtOnce(t, n)).stored == Some(Bucket(level - Worth(cfg, n), t))
  {
    if n == 0 {
      WorthInOrder(cfg, 0, 0);
    } else {
      WorthInOrder(cfg, n - 1, n);
      WorthInOrder(cfg, 0, n - 1);
      hide Run, Config.Full, Refilled, AtOnce, Worth;
      BurstDrains(cfg, level, t, n - 1);
      BurstLast(cfg, Some(Bucket(level, t)), t, n);
      SameInstant(cfg, level - Worth(cfg, n - 1), t);
    }
  }

  /** The last call of a burst is allowed exactly when the level covers all of them. */
  lemma BurstOutcome(cfg: Config, level: real, t: int, n: nat)
    requires cfg.Valid() && n >= 1 && Worth(cfg, n - 1) <= level <= cfg.Full() as real
    ensures Run(cfg, Some(Bucket(level, t)), AtOnce(t, n)).outcomes[n - 1].allowed <==> Worth(cfg, n) <= level
  {
    WorthInOrder(cfg, n - 1, n);
    WorthInOrder(cfg, 0, n - 1);
    hide Run, Config.Full, Refilled, AtOnce, WholeTokens, Worth;
    BurstDrains(cfg, level, t, n - 1);
    BurstLast(cfg, Some(Bucket(level, t)), t, n);
    SameInstant(cfg, level - Worth(cfg, n - 1), t);
  }

  /** A level covers n tokens exactly when n is at most its number of whole tokens. */
  lemma CoversWholeTokens(cfg: Config, level: real, n: nat)
    requires cfg.Valid() && level >= 0.0
    ensures Worth(cfg, n) <= level <==> n <= WholeTokens(cfg.refill, level)
  {
    var whole := WholeTokens(cfg.refill, level);
    WorthOfWholeTokens(cfg, level);
    WorthInOrder(cfg, whole, whole);
    hide WholeTokens, Worth;
    if n <= whole {
      WorthInOrder(cfg, n, whole);
    } else {
      WorthInOrder(cfg, whole + 1, n);
    }
  }

  /**
   What remaining means: after a call, so many more calls at the same instant are allowed and not one more.
   */
  lemma RemainingIsExact(cfg: Config, stored: Option<Bucket>, t: int, n: nat)
    requires cfg.Valid() && (stored.Some? ==> stored.value.level >= 0.0)
    requires 1 <= n <= Decide(cfg, Refilled(cfg, stored, t)).remaining + 1
    ensures var after := Step(cfg, stored, t);
            Run(cfg, Some(after), AtOnce(t, n)).outcomes[n - 1].allowed <==>
            n <= Decide(cfg, Refilled(cfg, stored, t)).remaining
  {
    var level := Step(cfg, stored, t).level;
    LevelInRange(cfg, stored, t);
    hide Run, Config.Full, Refilled, AtOnce, WholeTokens, Worth;
    CoversWholeTokens(cfg, level, n - 1);
    CoversWholeTokens(cfg, level, n);
    BurstOutcome(cfg, level, t, n);
  }

  lemma WorthOfWholeTokens(cfg: Config, level: real)
    requires cfg.Valid() && level >= 0.0
    ensures var n := WholeTokens(cfg.refill, level);
            Worth(cfg, n) <= level < Worth(cfg, n) + cfg.refill as real
  {
    WholeTokensFit(cfg.refill, level);
  }

  lemma LevelInRange(cfg: Config, stored: Option<Bucket>, t: int)
    requires cfg.Valid() && (stored.Some? ==> stored.value.level >= 0.0)
    ensures 0.0 <= Refilled(cfg, stored, t) <= cfg.Full() as real
    ensures 0.0 <= Step(cfg, stored, t).level <= cfg.Full() as real
  {
    MultiplesInOrder(cfg.refill, 0, cfg.capacity);
    hide Config.Full;
    assert cfg.Full() >= 0 by {
      FullIsPositive(cfg);
    }
  }

  lemma FullIsPositive(cfg: Config)
    requires cfg.Valid()
    ensures cfg.Full() > 0
  {}

  lemma FirstOutcome(cfg: Config, before: seq<int>, polls: seq<int>)
    requires cfg.Valid() && polls != []
    ensures Run(cfg, None, before + polls).outcomes[|before|] ==
            Decide(cfg, Refilled(cfg, Run(cfg, None, before).stored, polls[0]))
  {
    var s := Run(cfg, None, before).stored;
    RunConcat(cfg, None, before, polls);
    assert polls == [polls[0]] + polls[1..] && [polls[0]][..0] == [];
    RunConcat(cfg, s, [polls[0]], polls[1..]);
  }

  /** Polling early never helps: every call before the hinted time is rejected. */
  lemma {:induction false} EarlyPollsAreRejected(cfg: Config, before: seq<int>, polls: seq<int>)
    requires cfg.Valid() && polls != [] && Nondecreasing(before + polls)
    requires !Run(cfg, None, before + polls).outcomes[|before|].allowed
    requires forall i :: 0 < i < |polls| ==>
               polls[i] < polls[0] + Run(cfg, None, before + polls).outcomes[|before|].retryMs
    ensures RejectedFrom(Run(cfg, None, before + polls).outcomes, |before|)
    decreases |polls|
  {
    var n := |polls| - 1;
    hide Run, Decide, Nondecreasing;
    if n == 0 {
      assert before + polls == before + [polls[0]];
    } else {
      var early, last := polls[..n], polls[n];
      assert before + polls == before + early + [last];
      assert (before + polls)[..|before| + n] == before + early;
      NondecreasingPrefix(before + polls, |before| + n);
      FirstOutcome(cfg, before, polls);
      FirstOutcome(cfg, before, early);
      EarlyPollsAreRejected(cfg, before, early);
      RetryHintIsExact(cfg, before, early, last);
      OutcomesOfPrefix(cfg, before + early, last);
    }
  }
}
