/** What runs of tiered calls promise beyond the limits: which rejections are free, and that expiry goes unnoticed. */
module TieredWindowRuns {
  import opened Wrappers
  import opened SlidingWindow
  import opened TW = TieredWindow
  import One = SlidingWindowRuns

  // ---------------------------------------------------------------- what a rejected call costs

  /** A call at now or later finds the same events of that tier in both. */
  ghost predicate SameView(sets: Sets, sets': Sets, tier: Tier, now: int) {
    Recent(Get(sets, tier.key), now - tier.rule.window) == Recent(Get(sets', tier.key), now - tier.rule.window)
  }

  lemma {:induction false} InsertHolds(events: seq<Event>, e: Event)
    ensures e in Insert(events, e)
  {
    if events != [] && events[|events| - 1].score > e.score {
      InsertHolds(events[..|events| - 1], e);
    }
  }

  lemma {:induction false} RecentHolds(events: seq<Event>, e: Event, cutoff: int)
    requires e in events && e.score > cutoff
    ensures e in Recent(events, cutoff)
  {
    var n := |events| - 1;
    if events[n] != e {
      assert events == events[..n] + [events[n]];
      RecentHolds(events[..n], e, cutoff);
    }
  }

  /** An admission of a new member shows; a rejection only purges, which no later call sees. */
  lemma AdmissionShows(rule: Rule, stored: seq<Event>, e: Event)
    requires rule.Valid() && Fresh(stored, e.member)
    ensures var cutoff := e.score - rule.window;
            var (stored', outcome) := Admit(rule, stored, e);
            Recent(stored', cutoff) == Recent(stored, cutoff) <==> !outcome.admitted
  {
    var cutoff := e.score - rule.window;
    var live := Recent(stored, cutoff);
    var (stored', outcome) := Admit(rule, stored, e);
    hide Recent, Insert, Without;
    if outcome.admitted {
      InsertHolds(Without(live, e.member), e);
      RecentHolds(stored', e, cutoff);
      RecentFresh(stored, cutoff, e.member);
      FreshLacks(live, e);
    } else {
      RecentOfRecent(stored, cutoff, cutoff);
    }
  }

  lemma FreshLacks(events: seq<Event>, e: Event)
    requires Fresh(events, e.member)
    ensures e !in events
  {}

  lemma ReachedTier(sets: Sets, tiers: seq<Tier>, e: Event, j: nat)
    requires j < |tiers| && DistinctKeys(tiers) && ChargeFrom(sets, tiers, 0, e).1.Some?
    requires j <= ChargeFrom(sets, tiers, 0, e).1.value.tier
    ensures var (sets', verdict) := ChargeFrom(sets, tiers, 0, e);
            && Get(sets', tiers[j].key) == Admit(tiers[j].rule, Get(sets, tiers[j].key), e).0
            && (HasRoom(sets, tiers[j], e.score) <==> j < verdict.value.tier)
            && (Admit(tiers[j].rule, Get(sets, tiers[j].key), e).1.admitted <==> j < verdict.value.tier)
  {
    hide Admit, HasRoom, ChargeFrom;
    FirstFullTierRejects(sets, tiers, 0, e);
    AdmitNeedsRoom(sets, tiers[j], e);
    assert Reaches(sets, tiers, 0, e, j);
    ReachedTierIsCharged(sets, tiers, 0, e, j);
  }

  lemma TierShows(sets: Sets, tiers: seq<Tier>, e: Event, j: nat)
    requires j < |tiers| && DistinctKeys(tiers) && tiers[j].rule.Valid() && Fresh(Get(sets, tiers[j].key), e.member)
    requires ChargeFrom(sets, tiers, 0, e).1.Some?
    ensures var (sets', verdict) := ChargeFrom(sets, tiers, 0, e);
            SameView(sets, sets', tiers[j], e.score) <==> j >= verdict.value.tier
  {
    hide Admit, HasRoom, Recent, ChargeFrom, Fresh, DistinctKeys, Get;
    if j <= ChargeFrom(sets, tiers, 0, e).1.value.tier {
      ReachedTier(sets, tiers, e, j);
      AdmissionShows(tiers[j].rule, Get(sets, tiers[j].key), e);
    } else {
      LaterTierUntouched(sets, tiers, e, j);
    }
  }

  lemma LaterTierUntouched(sets: Sets, tiers: seq<Tier>, e: Event, j: nat)
    requires j < |tiers| && DistinctKeys(tiers) && ChargeFrom(sets, tiers, 0, e).1.Some?
    requires ChargeFrom(sets, tiers, 0, e).1.value.tier < j
    ensures Get(ChargeFrom(sets, tiers, 0, e).0, tiers[j].key) == Get(sets, tiers[j].key)
  {
    hide ChargeFrom;
    OtherKeysUntouched(sets, tiers, 0, e, tiers[j].key);
  }

  /**
   A rejected call leaves what later calls find on every tier, and so is free, if and only if its first tier was full;
   otherwise it has used up a place on each tier before the one that rejects it.
   */
  lemma RejectionIsFreeIffFirstTierIsFull(sets: Sets, tiers: seq<Tier>, e: Event)
    requires tiers != [] && DistinctKeys(tiers) && ChargeFrom(sets, tiers, 0, e).1.Some?
    requires forall j :: 0 <= j < |tiers| ==> tiers[j].rule.Valid() && Fresh(Get(sets, tiers[j].key), e.member)
    ensures var (sets', verdict) := ChargeFrom(sets, tiers, 0, e);
            && (!HasRoom(sets, tiers[0], e.score) <==>
                  forall j :: 0 <= j < |tiers| ==> SameView(sets, sets', tiers[j], e.score))
            && (forall j :: 0 <= j < |tiers| ==> (SameView(sets, sets', tiers[j], e.score) <==> j >= verdict.value.tier))
  {
    hide ChargeFrom, SameView, HasRoom, Fresh, DistinctKeys;
    forall j | 0 <= j < |tiers|
      ensures SameView(sets, ChargeFrom(sets, tiers, 0, e).0, tiers[j], e.score) <==>
              j >= ChargeFrom(sets, tiers, 0, e).1.value.tier
    {
      TierShows(sets, tiers, e, j);
    }
    ReachedTier(sets, tiers, e, 0);
  }

  // ---------------------------------------------------------------- runs that no call can tell apart

  type Rules = map<string, Rule>

  /** Sets that no call at now or later can tell apart. */
  ghost predicate Alike(rules: Rules, a: Sets, b: Sets, now: int) {
    forall key :: key in rules ==> SameView(a, b, Tier(key, rules[key]), now)
  }

  lemma AlikeLater(rules: Rules, a: Sets, b: Sets, now: int, later: int)
    requires Alike(rules, a, b, now) && now <= later
    ensures Alike(rules, a, b, later)
  {
    forall key | key in rules ensures SameView(a, b, Tier(key, rules[key]), later) {
      assert SameView(a, b, Tier(key, rules[key]), now);
      RecentOfRecent(Get(a, key), now - rules[key].window, later - rules[key].window);
      RecentOfRecent(Get(b, key), now - rules[key].window, later - rules[key].window);
    }
  }

  lemma SameViewSameCall(rule: Rule, a: seq<Event>, b: seq<Event>, e: Event)
    requires Recent(a, e.score - rule.window) == Recent(b, e.score - rule.window)
    ensures Admit(rule, a, e) == Admit(rule, b, e)
  {
    hide Recent, AdmitInto;
  }

  /** What charging one tier does to the rest of the call. */
  function ChargeRest(sets: Sets, tiers: seq<Tier>, i: nat, e: Event, charge: (seq<Event>, Outcome))
    : (Sets, Option<Rejection>)
    requires i < |tiers|
  {
    var sets' := sets[tiers[i].key := charge.0];
    if charge.1.admitted then ChargeFrom(sets', tiers, i + 1, e) else (sets', Some(Rejection(i, charge.1.retryMs)))
  }

  lemma ChargeOne(sets: Sets, tiers: seq<Tier>, i: nat, e: Event)
    requires i < |tiers|
    ensures ChargeFrom(sets, tiers, i, e) ==
            ChargeRest(sets, tiers, i, e, Admit(tiers[i].rule, Get(sets, tiers[i].key), e))
  {
    hide Admit;
  }

  lemma {:induction false} AlikeCharge(rules: Rules, a: Sets, b: Sets, tiers: seq<Tier>, i: nat, e: Event)
    requires i <= |tiers| && Alike(rules, a, b, e.score)
    requires forall j :: 0 <= j < |tiers| ==> tiers[j].key in rules && tiers[j].rule == rules[tiers[j].key]
    ensures ChargeFrom(a, tiers, i, e).1 == ChargeFrom(b, tiers, i, e).1
    ensures Alike(rules, ChargeFrom(a, tiers, i, e).0, ChargeFrom(b, tiers, i, e).0, e.score)
    decreases |tiers| - i
  {
    if i < |tiers| {
      var key, rule := tiers[i].key, tiers[i].rule;
      SameChargeHere(rules, a, b, key, e);
      ChargeOne(a, tiers, i, e);
      ChargeOne(b, tiers, i, e);
      hide Admit, ChargeFrom, Alike, Get;
      var charge := Admit(rule, Get(a, key), e);
      AlikePut(rules, a, b, key, charge.0, e.score);
      if charge.1.admitted {
        AlikeCharge(rules, a[key := charge.0], b[key := charge.0], tiers, i + 1, e);
      }
    }
  }

  lemma SameChargeHere(rules: Rules, a: Sets, b: Sets, key: string, e: Event)
    requires key in rules && Alike(rules, a, b, e.score)
    ensures Admit(rules[key], Get(a, key), e) == Admit(rules[key], Get(b, key), e)
  {
    hide Admit, Recent;
    assert SameView(a, b, Tier(key, rules[key]), e.score);
    SameViewSameCall(rules[key], Get(a, key), Get(b, key), e);
  }

  lemma AlikePut(rules: Rules, a: Sets, b: Sets, key: string, stored: seq<Event>, now: int)
    requires Alike(rules, a, b, now)
    ensures Alike(rules, a[key := stored], b[key := stored], now)
  {
    hide Recent;
    forall k | k in rules ensures SameView(a[key := stored], b[key := stored], Tier(k, rules[k]), now) {
      assert SameView(a, b, Tier(k, rules[k]), now);
    }
  }

  /** Two histories with the same logs and allowed calls, and sets that no later call can tell apart. */
  ghost predicate Twins(rules: Rules, t: History, u: History, now: int) {
    t.logs == u.logs && t.allowed == u.allowed && Alike(rules, t.sets, u.sets, now)
  }

  lemma TwinsAfter(rules: Rules, t: History, u: History, call: Call) returns (verdict: Option<Rejection>)
    requires KnownKeys(rules, call) && Twins(rules, t, u, call.request.score)
    ensures Twins(rules, After(rules, t, call), After(rules, u, call), call.request.score)
    ensures After(rules, t, call).verdicts == t.verdicts + [verdict]
    ensures After(rules, u, call).verdicts == u.verdicts + [verdict]
  {
    verdict := ChargeFrom(t.sets, Tiers(rules, call), 0, call.request).1;
    AlikeCharge(rules, t.sets, u.sets, Tiers(rules, call), 0, call.request);
  }

  /** Calls on known keys, in clock order. */
  ghost predicate InOrder(rules: Rules, calls: seq<Call>) {
    KnownCalls(rules, calls) && Sorted(Requested(calls))
  }

  lemma RunSnoc(rules: Rules, calls: seq<Call>, call: Call)
    requires InOrder(rules, calls + [call])
    ensures InOrder(rules, calls) && KnownKeys(rules, call)
    ensures calls != [] ==> calls[|calls| - 1].request.score <= call.request.score
    ensures TW.Run(rules, calls + [call]) == After(rules, TW.Run(rules, calls), call)
  {
    var all := calls + [call];
    assert all[..|calls|] == calls && all[|calls|] == call;
    assert forall i :: 0 <= i < |calls| ==> all[i] == calls[i];
    assert Requested(all) == Requested(calls) + [call.request];
    SortedPart(Requested(calls), call.request);
  }

  lemma SortedPart(requests: seq<Event>, e: Event)
    requires Sorted(requests + [e])
    ensures Sorted(requests) && (requests != [] ==> requests[|requests| - 1].score <= e.score)
  {
    assert forall i :: 0 <= i < |requests| ==> (requests + [e])[i] == requests[i];
    assert (requests + [e])[|requests|] == e;
  }

  /** A call rejected by its first tier leaves a twin of the history it met. */
  lemma FullFirstTierLeavesTwin(rules: Rules, t: History, call: Call)
    requires KnownKeys(rules, call)
    requires var v := ChargeFrom(t.sets, Tiers(rules, call), 0, call.request).1; v.Some? && v.value.tier == 0
    ensures Twins(rules, After(rules, t, call), t, call.request.score)
    ensures |After(rules, t, call).verdicts| == |t.verdicts| + 1
  {
    var e, key := call.request, call.keys[0];
    var stored := Admit(rules[key], Get(t.sets, key), e).0;
    hide Admit;
    ChargeOne(t.sets, Tiers(rules, call), 0, e);
    hide ChargeFrom, SameView, Recent;
    RejectionOnlyPurges(rules[key], Get(t.sets, key), e);
    AlikePurged(rules, t.sets, key, stored, e.score);
    AppendedNowhere(t.logs, call.keys, e);
  }

  lemma AlikePurged(rules: Rules, sets: Sets, key: string, stored: seq<Event>, now: int)
    requires key in rules
    requires Recent(stored, now - rules[key].window) == Recent(Get(sets, key), now - rules[key].window)
    ensures Alike(rules, sets[key := stored], sets, now)
  {
    hide Recent;
  }

  lemma AppendedNowhere(logs: Sets, keys: seq<string>, e: Event)
    ensures Appended(logs, keys[..0], e) == logs
  {}

  lemma RejectionOnlyPurges(rule: Rule, stored: seq<Event>, e: Event)
    ensures var (stored', outcome) := Admit(rule, stored, e);
            !outcome.admitted ==> Recent(stored', e.score - rule.window) == Recent(stored, e.score - rule.window)
  {
    var cutoff := e.score - rule.window;
    RecentOfRecent(stored, cutoff, cutoff);
    hide Recent, Insert, Without;
  }

  /**
   Taking out a call that its first tier rejected leaves every other call's verdict as it was, and all admissions.
   The members need not even be new.
   */
  lemma {:induction false} FirstTierRejectionIsUnobservable(rules: Rules, before: seq<Call>, c: Call, after: seq<Call>)
    requires InOrder(rules, before + [c] + after) && InOrder(rules, before + [c]) && InOrder(rules, before + after)
    requires var v := TW.Run(rules, before + [c]).verdicts[|before|]; v.Some? && v.value.tier == 0
    ensures var n := |before|;
            var with, without := TW.Run(rules, before + [c] + after), TW.Run(rules, before + after);
            && with.verdicts[..n] + with.verdicts[n + 1..] == without.verdicts
            && with.logs == without.logs && with.allowed == without.allowed
            && Alike(rules, with.sets, without.sets, if after == [] then c.request.score else after[|after| - 1].request.score)
    decreases |after|
  {
    hide InOrder, Twins, Alike, After, TW.Run;
    if after == [] {
      assert before + [c] + after == before + [c] && before + after == before;
      RunSnoc(rules, before, c);
      FirstVerdict(rules, before, c);
    } else {
      var m := |after| - 1;
      var early, e := after[..m], after[m];
      assert before + [c] + after == (before + [c] + early) + [e];
      assert before + after == (before + early) + [e];
      RunSnoc(rules, before + [c] + early, e);
      RunSnoc(rules, before + early, e);
      FirstTierRejectionIsUnobservable(rules, before, c, early);
      var t, u := TW.Run(rules, before + [c] + early), TW.Run(rules, before + early);
      AlikeLater(rules, t.sets, u.sets, (before + [c] + early)[|before| + m].request.score, e.request.score);
      StillTwins(rules, t, u, |before|, e);
    }
  }

  lemma FirstVerdict(rules: Rules, before: seq<Call>, c: Call)
    requires InOrder(rules, before + [c]) && InOrder(rules, before)
    requires var v := TW.Run(rules, before + [c]).verdicts[|before|]; v.Some? && v.value.tier == 0
    ensures var t, u := TW.Run(rules, before + [c]), TW.Run(rules, before);
            && t.verdicts[..|before|] + t.verdicts[|before| + 1..] == u.verdicts
            && t.logs == u.logs && t.allowed == u.allowed && Alike(rules, t.sets, u.sets, c.request.score)
  {
    RunSnoc(rules, before, c);
    var u := TW.Run(rules, before);
    assert TW.Run(rules, before + [c]).verdicts[|before|] == ChargeFrom(u.sets, Tiers(rules, c), 0, c.request).1;
    FullFirstTierLeavesTwin(rules, u, c);
  }

  lemma StillTwins(rules: Rules, t: History, u: History, n: nat, e: Call)
    requires KnownKeys(rules, e) && n < |t.verdicts| && t.verdicts[..n] + t.verdicts[n + 1..] == u.verdicts
    requires t.logs == u.logs && t.allowed == u.allowed && Alike(rules, t.sets, u.sets, e.request.score)
    ensures var t', u' := After(rules, t, e), After(rules, u, e);
            && t'.verdicts[..n] + t'.verdicts[n + 1..] == u'.verdicts && |t'.verdicts| == |t.verdicts| + 1
            && t'.logs == u'.logs && t'.allowed == u'.allowed && Alike(rules, t'.sets, u'.sets, e.request.score)
  {
    hide After, Alike;
    var verdict := TwinsAfter(rules, t, u, e);
    One.DropAt(t.verdicts, u.verdicts, n, verdict);
  }

  // ---------------------------------------------------------------- a rejection that costs something

  const RULES: Rules := map["a" := Rule(1, 10), "b" := Rule(1, 10)]
  const FILL := Call(["b"], Event(0, "x"))
  const REJECTED := Call(["a", "b"], Event(1, "y"))
  const LATER := Call(["a"], Event(2, "z"))

  lemma AdmitFirst(e: Event)
    ensures Admit(Rule(1, 10), [], e) == ([e], Outcome(true, 0, 0))
  {
    assert Insert([], e) == [e];
  }

  lemma AdmitSecond(e: Event, e': Event)
    requires e.score <= e'.score < e.score + 10
    ensures Admit(Rule(1, 10), [e], e') == ([e], Outcome(false, 0, e.score + 10 - e'.score))
  {
    RecentOfOne(e, e'.score - 10);
    hide Recent, Insert, Without;
  }

  lemma RecentOfOne(e: Event, cutoff: int)
    ensures Recent([e], cutoff) == if e.score > cutoff then [e] else []
  {
    assert [e][..0] == [];
  }

  /** A call on one key is a plain admission. */
  lemma RunOne(rules: Rules, t: History, call: Call)
    requires |call.keys| == 1 && KnownKeys(rules, call)
    ensures var (stored, outcome) := Admit(rules[call.keys[0]], Get(t.sets, call.keys[0]), call.request);
            var t' := After(rules, t, call);
            && t'.sets == t.sets[call.keys[0] := stored]
            && t'.verdicts == t.verdicts + [if outcome.admitted then None else Some(Rejection(0, outcome.retryMs))]
  {
    hide Admit;
    var tiers := Tiers(rules, call);
    var (stored, outcome) := Admit(tiers[0].rule, Get(t.sets, tiers[0].key), call.request);
    assert ChargeFrom(t.sets, tiers, 0, call.request) ==
           (t.sets[call.keys[0] := stored], if outcome.admitted then None else Some(Rejection(0, outcome.retryMs))) by {
      assert ChargeFrom(t.sets[call.keys[0] := stored], tiers, 1, call.request) == (t.sets[call.keys[0] := stored], None);
    }
  }

  lemma RunRejected(t: History)
    requires t.sets == map["b" := [FILL.request]]
    ensures var t' := After(RULES, t, REJECTED);
            && t'.sets == map["a" := [REJECTED.request], "b" := [FILL.request]]
            && t'.verdicts == t.verdicts + [Some(Rejection(1, 9))]
  {
    hide Admit;
    var e, tiers := REJECTED.request, Tiers(RULES, REJECTED);
    AdmitFirst(e);
    AdmitSecond(FILL.request, e);
    var charged := t.sets["a" := [e]];
    assert tiers == [Tier("a", Rule(1, 10)), Tier("b", Rule(1, 10))];
    assert Get(charged, "b") == [FILL.request];
    assert ChargeFrom(charged, tiers, 1, e) == (charged["b" := [FILL.request]], Some(Rejection(1, 9)));
    assert ChargeFrom(t.sets, tiers, 0, e) == ChargeFrom(charged, tiers, 1, e);
  }

  lemma WitnessInOrder()
    ensures InOrder(RULES, [] + [FILL]) && InOrder(RULES, [FILL] + [REJECTED])
    ensures InOrder(RULES, ([FILL] + [REJECTED]) + [LATER]) && InOrder(RULES, [FILL] + [LATER])
  {
    assert KnownKeys(RULES, FILL) && KnownKeys(RULES, REJECTED) && KnownKeys(RULES, LATER);
  }

  lemma WitnessWithout()
    requires InOrder(RULES, [] + [FILL]) && InOrder(RULES, [FILL] + [LATER])
    ensures InOrder(RULES, [FILL]) && TW.Run(RULES, [FILL]).sets == map["b" := [FILL.request]]
    ensures TW.Run(RULES, [FILL]).verdicts == [None] && TW.Run(RULES, [FILL] + [LATER]).verdicts == [None, None]
  {
    hide After, Admit, TW.Run, Sorted, KnownKeys;
    assert [FILL] == [] + [FILL];
    AdmitFirst(FILL.request);
    AdmitFirst(LATER.request);
    RunSnoc(RULES, [], FILL);
    RunNothing();
    RunOne(RULES, TW.Run(RULES, []), FILL);
    RunSnoc(RULES, [FILL], LATER);
    RunOne(RULES, TW.Run(RULES, [FILL]), LATER);
  }

  /**
   A call that a later tier rejects can turn a following call from allowed to rejected: here the second of three calls
   is rejected by key b, and only because of it the third is rejected on key a.
   */
  lemma LaterTierRejectionIsObservable()
    ensures InOrder(RULES, [FILL] + [REJECTED] + [LATER]) && InOrder(RULES, [FILL] + [LATER])
    ensures TW.Run(RULES, [FILL] + [REJECTED] + [LATER]).verdicts == [None, Some(Rejection(1, 9)), Some(Rejection(0, 9))]
    ensures TW.Run(RULES, [FILL] + [LATER]).verdicts == [None, None]
  {
    hide After, Admit, TW.Run, Sorted, KnownKeys, InOrder;
    WitnessInOrder();
    WitnessWithout();
    AdmitSecond(REJECTED.request, LATER.request);
    RunSnoc(RULES, [FILL], REJECTED);
    RunRejected(TW.Run(RULES, [FILL]));
    RunSnoc(RULES, [FILL] + [REJECTED], LATER);
    RunOne(RULES, TW.Run(RULES, [FILL] + [REJECTED]), LATER);
  }

  lemma RunNothing()
    ensures TW.Run(RULES, []) == History(map[], map[], [], [])
  {}

  // ---------------------------------------------------------------- key expiry

  /** A call, and the keys that expired before it. */
  datatype ExpiringCall = ExpiringCall(call: Call, expired: set<string>)

  function Calls(calls: seq<ExpiringCall>): (r: seq<Call>)
    ensures |r| == |calls|
  {
    seq(|calls|, i requires 0 <= i < |calls| => calls[i].call)
  }

  function RunExpiring(rules: Rules, calls: seq<ExpiringCall>): (t: History)
    requires forall c :: c in calls ==> KnownKeys(rules, c.call)
    ensures |t.verdicts| == |calls|
  {
    if calls == [] then History(map[], map[], [], [])
    else
      var n := |calls| - 1;
      assert calls[n] in calls;
      var before := RunExpiring(rules, calls[..n]);
      After(rules, before.(sets := before.sets - calls[n].expired), calls[n].call)
  }

  /** The key was not renewed for a whole window: every admission charged to it renews it. */
  predicate Lapsed(rules: Rules, logs: Sets, key: string, now: int) {
    key in rules ==> One.LapsedSince(rules[key], Get(logs, key), now)
  }

  ghost predicate ExpiresOnTime(rules: Rules, calls: seq<ExpiringCall>)
    requires forall c :: c in calls ==> KnownKeys(rules, c.call)
  {
    forall j, key :: 0 <= j < |calls| && key in calls[j].expired ==>
      Lapsed(rules, RunExpiring(rules, calls[..j]).logs, key, calls[j].call.request.score)
  }

  /** Every set shows a call at now, or later, what the key's whole log would show it. */
  ghost predicate ShowsLogs(rules: Rules, t: History, now: int) {
    forall key :: key in rules ==> ShowsLog(rules[key], Get(t.logs, key), Get(t.sets, key), now)
  }

  ghost predicate ShowsLog(rule: Rule, log: seq<Event>, stored: seq<Event>, now: int) {
    Sorted(log) && Recent(stored, now - rule.window) == Recent(log, now - rule.window)
  }

  /** Losing some sets goes unseen by every later call if and only if each of their keys has lapsed. */
  lemma DropIsUnseen(rules: Rules, t: History, expired: set<string>, now: int)
    requires ShowsLogs(rules, t, now)
    ensures Alike(rules, t.sets - expired, t.sets, now) <==>
            forall key :: key in expired ==> Lapsed(rules, t.logs, key, now)
  {
    hide Lapsed, SameView, ShowsLog, Get;
    forall key | key in rules
      ensures SameView(t.sets - expired, t.sets, Tier(key, rules[key]), now) <==>
              (key in expired ==> Lapsed(rules, t.logs, key, now))
    {
      assert ShowsLog(rules[key], Get(t.logs, key), Get(t.sets, key), now);
      DroppedView(rules, t, expired, key, now);
    }
    UnknownKeyLapsed(rules, t.logs, now);
  }

  lemma UnknownKeyLapsed(rules: Rules, logs: Sets, now: int)
    ensures forall key :: key !in rules ==> Lapsed(rules, logs, key, now)
  {}

  lemma DroppedView(rules: Rules, t: History, expired: set<string>, key: string, now: int)
    requires key in rules && ShowsLog(rules[key], Get(t.logs, key), Get(t.sets, key), now)
    ensures SameView(t.sets - expired, t.sets, Tier(key, rules[key]), now) <==>
            (key in expired ==> Lapsed(rules, t.logs, key, now))
  {
    hide Recent, Sorted, One.LapsedSince, Get;
    One.LapsedLogIsOld(rules[key], Get(t.logs, key), now);
    GetDropped(t.sets, expired, key);
    RecentOfNothing(now - rules[key].window);
  }

  lemma GetDropped(sets: Sets, expired: set<string>, key: string)
    ensures Get(sets - expired, key) == if key in expired then [] else Get(sets, key)
  {}

  lemma RecentOfNothing(cutoff: int)
    ensures Recent([], cutoff) == []
  {}

  lemma TracksNow(rules: Rules, calls: seq<Call>, key: string)
    requires GoodCalls(rules, calls) && key in rules && rules[key].Valid()
    ensures var t := TW.Run(rules, calls);
            Tracks(rules[key], Get(t.logs, key), Get(t.sets, key), Now(Requested(calls)))
  {
    var t := TW.Run(rules, calls);
    hide TW.Run, GoodCalls, Tracks, KnownKeys, AllowedOn, InWindow;
    EveryKeyHolds(rules, calls, key);
  }

  lemma NoEvents(rules: Rules, key: string)
    ensures Get(TW.Run(rules, []).logs, key) == [] && Get(TW.Run(rules, []).sets, key) == []
  {}

  lemma TracksView(rule: Rule, log: seq<Event>, stored: seq<Event>, past: int, now: int)
    requires Tracks(rule, log, stored, past) && past <= now
    ensures ShowsLog(rule, log, stored, now)
  {
    hide Sorted, NoneAfter, WithinLimit, Recent;
    TracksLater(rule, log, stored, past, now);
  }

  /** At every call of a run, plain or tiered. */
  lemma RunShowsLogs(rules: Rules, calls: seq<Call>, now: int)
    requires GoodCalls(rules, calls) && (forall key :: key in rules ==> rules[key].Valid())
    requires calls != [] ==> calls[|calls| - 1].request.score <= now
    ensures ShowsLogs(rules, TW.Run(rules, calls), now)
  {
    var t := TW.Run(rules, calls);
    hide TW.Run, GoodCalls, KnownKeys, Get, Tracks, ShowsLog;
    forall key | key in rules ensures ShowsLog(rules[key], Get(t.logs, key), Get(t.sets, key), now) {
      if calls == [] {
        NoEvents(rules, key);
        NothingShown(rules[key], now);
      } else {
        TracksNow(rules, calls, key);
        TracksView(rules[key], Get(t.logs, key), Get(t.sets, key), Now(Requested(calls)), now);
      }
    }
  }

  lemma NothingShown(rule: Rule, now: int)
    ensures ShowsLog(rule, [], [], now)
  {}

  lemma GoodPrefix(rules: Rules, calls: seq<Call>, call: Call)
    requires GoodCalls(rules, calls + [call])
    ensures GoodCalls(rules, calls) && InOrder(rules, calls + [call])
    ensures calls != [] ==> calls[|calls| - 1].request.score <= call.request.score
  {
    var all := calls + [call];
    assert forall i :: 0 <= i < |calls| ==> all[i] == calls[i];
    assert Requested(all) == Requested(calls) + [call.request];
    RequestsPrefix(Requested(calls), call.request);
  }

  lemma OnTimePrefix(rules: Rules, calls: seq<ExpiringCall>)
    requires calls != [] && (forall c :: c in calls ==> KnownKeys(rules, c.call)) && ExpiresOnTime(rules, calls)
    ensures var n := |calls| - 1;
            && (forall c :: c in calls[..n] ==> KnownKeys(rules, c.call))
            && ExpiresOnTime(rules, calls[..n])
            && (forall key :: key in calls[n].expired ==>
                  Lapsed(rules, RunExpiring(rules, calls[..n]).logs, key, calls[n].call.request.score))
  {
    hide RunExpiring, Lapsed;
    assert forall c :: c in calls[..|calls| - 1] ==> c in calls;
    assert forall j :: 0 <= j < |calls| - 1 ==> calls[..|calls| - 1][..j] == calls[..j];
  }

  /** One call of a store whose keys expire, beside the run of one whose keys never expire. */
  lemma ExpiryStep(rules: Rules, t: History, past: seq<Call>, call: Call, expired: set<string>)
    requires GoodCalls(rules, past + [call]) && GoodCalls(rules, past) && KnownKeys(rules, call)
    requires forall key :: key in rules ==> rules[key].Valid()
    requires t.verdicts == TW.Run(rules, past).verdicts && Twins(rules, t, TW.Run(rules, past), call.request.score)
    requires forall key :: key in expired ==> Lapsed(rules, t.logs, key, call.request.score)
    ensures var t', u' := After(rules, t.(sets := t.sets - expired), call), TW.Run(rules, past + [call]);
            t'.verdicts == u'.verdicts && Twins(rules, t', u', call.request.score)
  {
    var u := TW.Run(rules, past);
    hide TW.Run, After, GoodCalls, Lapsed, Alike, KnownKeys, InOrder;
    GoodPrefix(rules, past, call);
    RunSnoc(rules, past, call);
    RunShowsLogs(rules, past, call.request.score);
    DropIsUnseen(rules, u, expired, call.request.score);
    DropFromBoth(rules, t.sets, u.sets, expired, call.request.score);
    var verdict := TwinsAfter(rules, t.(sets := t.sets - expired), u, call);
  }

  lemma TwinsLater(rules: Rules, t: History, u: History, now: int, later: int)
    requires Twins(rules, t, u, now) && now <= later
    ensures Twins(rules, t, u, later)
  {
    hide Alike;
    AlikeLater(rules, t.sets, u.sets, now, later);
  }

  /** A store whose keys expire on time gives every plain and tiered call the verdict of one whose keys never expire. */
  lemma {:induction false} ExpiryIsTransparent(rules: Rules, calls: seq<ExpiringCall>)
    requires (forall c :: c in calls ==> KnownKeys(rules, c.call)) && GoodCalls(rules, Calls(calls))
    requires forall key :: key in rules ==> rules[key].Valid()
    requires ExpiresOnTime(rules, calls)
    ensures var t, u := RunExpiring(rules, calls), TW.Run(rules, Calls(calls));
            && t.verdicts == u.verdicts
            && Twins(rules, t, u, if calls == [] then 0 else calls[|calls| - 1].call.request.score)
    decreases |calls|
  {
    hide RunExpiring, TW.Run, After, GoodCalls, ExpiresOnTime, Lapsed, Twins, InOrder, Calls, KnownKeys;
    if calls == [] {
      NothingYet(rules, 0);
    } else {
      var n := |calls| - 1;
      var p, c := calls[..n], calls[n].call;
      CallsLast(calls);
      OnTimePrefix(rules, calls);
      GoodPrefix(rules, Calls(p), c);
      RunExpiringLast(rules, calls);
      ExpiryIsTransparent(rules, p);
      var t, u := RunExpiring(rules, p), TW.Run(rules, Calls(p));
      if p == [] {
        NothingYet(rules, c.request.score);
      } else {
        TwinsLater(rules, t, u, p[n - 1].call.request.score, c.request.score);
      }
      ExpiryStep(rules, t, Calls(p), c, calls[n].expired);
    }
  }

  lemma CallsLast(calls: seq<ExpiringCall>)
    requires calls != []
    ensures var n := |calls| - 1;
            && Calls(calls) == Calls(calls[..n]) + [calls[n].call]
            && (n > 0 ==> Calls(calls[..n])[n - 1] == calls[n - 1].call)
  {}

  lemma RunExpiringLast(rules: Rules, calls: seq<ExpiringCall>)
    requires calls != [] && forall c :: c in calls ==> KnownKeys(rules, c.call)
    ensures var n := |calls| - 1;
            && KnownKeys(rules, calls[n].call) && (forall c :: c in calls[..n] ==> KnownKeys(rules, c.call))
            && var t := RunExpiring(rules, calls[..n]);
            RunExpiring(rules, calls) == After(rules, t.(sets := t.sets - calls[n].expired), calls[n].call)
  {
    hide KnownKeys, After;
    assert calls[|calls| - 1] in calls;
  }

  lemma NothingYet(rules: Rules, now: int)
    ensures Calls([]) == [] && RunExpiring(rules, []) == TW.Run(rules, [])
    ensures Twins(rules, RunExpiring(rules, []), TW.Run(rules, []), now)
  {}

  lemma DropFromBoth(rules: Rules, a: Sets, b: Sets, expired: set<string>, now: int)
    requires Alike(rules, a, b, now) && Alike(rules, b - expired, b, now)
    ensures Alike(rules, a - expired, b, now)
  {
    hide Recent;
    forall key | key in rules ensures SameView(a - expired, b, Tier(key, rules[key]), now) {
      assert SameView(a, b, Tier(key, rules[key]), now) && SameView(b - expired, b, Tier(key, rules[key]), now);
      GetDropped(a, expired, key);
      GetDropped(b, expired, key);
    }
  }
}
