/** Which rejected tiered calls can be noticed: exactly those that had room on their first tier. */
module TieredRejections {
  import opened Wrappers
  import opened SlidingWindow
  import opened TW = TieredWindow
  import opened Runs = TieredWindowRuns

  // ---------------------------------------------------------------- filling one key

  function Unary(n: nat): (s: string)
    ensures |s| == n
  {
    seq(n, _ => 'x')
  }

  /** Calls on one key, all at the same time, each with a longer member than the one before. */
  function Fills(key: string, now: int, from: nat, n: nat): (calls: seq<Call>)
    ensures |calls| == n
  {
    if n == 0 then [] else Fills(key, now, from, n - 1) + [Call([key], Event(now, Unary(from + n - 1)))]
  }

  ghost predicate Shorter(calls: seq<Call>, n: nat) {
    forall i :: 0 <= i < |calls| ==> |calls[i].request.member| < n
  }

  /** A length that every member falls short of. */
  function Longer(calls: seq<Call>): (n: nat)
    ensures Shorter(calls, n)
  {
    if calls == [] then 0
    else
      Max(Longer(calls[..|calls| - 1]), |calls[|calls| - 1].request.member| + 1)
  }

  ghost predicate EndsBy(calls: seq<Call>, now: int) {
    calls != [] ==> calls[|calls| - 1].request.score <= now
  }

  /** A later call with a member of its own keeps a run in order. */
  lemma GoodSnoc(rules: Rules, calls: seq<Call>, call: Call, n: nat)
    requires GoodCalls(rules, calls) && Shorter(calls, n) && EndsBy(calls, call.request.score)
    requires KnownKeys(rules, call) && |call.request.member| == n
    ensures GoodCalls(rules, calls + [call])
    ensures Shorter(calls + [call], n + 1) && EndsBy(calls + [call], call.request.score)
  {
    hide KnownKeys;
    assert Requested(calls + [call]) == Requested(calls) + [call.request];
    forall i | 0 <= i < |calls| ensures Requested(calls)[i].member != call.request.member {
      assert |calls[i].request.member| < n;
    }
    RequestsSnoc(Requested(calls), call.request);
  }

  lemma RequestsSnoc(requests: seq<Event>, e: Event)
    requires Requests(requests) && (requests != [] ==> requests[|requests| - 1].score <= e.score)
    requires Fresh(requests, e.member)
    ensures Requests(requests + [e])
  {}

  lemma {:induction false} FillsAreGood(rules: Rules, past: seq<Call>, key: string, now: int, from: nat, n: nat)
    requires GoodCalls(rules, past) && Shorter(past, from) && EndsBy(past, now) && key in rules
    ensures var calls := past + Fills(key, now, from, n);
            GoodCalls(rules, calls) && Shorter(calls, from + n) && EndsBy(calls, now)
  {
    hide GoodCalls, Shorter, EndsBy;
    if n == 0 {
      assert past + [] == past;
    } else {
      var call := Call([key], Event(now, Unary(from + n - 1)));
      assert past + Fills(key, now, from, n) == past + Fills(key, now, from, n - 1) + [call];
      FillsAreGood(rules, past, key, now, from, n - 1);
      GoodSnoc(rules, past + Fills(key, now, from, n - 1), call, from + n - 1);
    }
  }

  /** How many events of a key a call at now would find. */
  function Found(rules: Rules, sets: Sets, key: string, now: int): nat
    requires key in rules
  {
    |Recent(Get(sets, key), now - rules[key].window)|
  }

  lemma {:induction false} RecentOfAll(events: seq<Event>, cutoff: int)
    requires forall i :: 0 <= i < |events| ==> events[i].score > cutoff
    ensures Recent(events, cutoff) == events
  {
    if events != [] {
      RecentOfAll(events[..|events| - 1], cutoff);
    }
  }

  lemma {:induction false} InsertCounts(events: seq<Event>, e: Event, cutoff: int)
    requires e.score > cutoff && forall i :: 0 <= i < |events| ==> events[i].score > cutoff
    ensures |Insert(events, e)| == |events| + 1
    ensures forall i :: 0 <= i < |Insert(events, e)| ==> Insert(events, e)[i].score > cutoff
  {
    if events != [] && events[|events| - 1].score > e.score {
      InsertCounts(events[..|events| - 1], e, cutoff);
    }
  }

  lemma AdmitIntoCounts(rule: Rule, live: seq<Event>, e: Event, cutoff: int)
    requires Fresh(live, e.member) && e.score > cutoff && forall i :: 0 <= i < |live| ==> live[i].score > cutoff
    ensures var (stored, outcome) := AdmitInto(rule, live, e);
            && (outcome.admitted <==> |live| < rule.limit)
            && |stored| == |live| + (if outcome.admitted then 1 else 0)
            && forall i :: 0 <= i < |stored| ==> stored[i].score > cutoff
  {
    assert Without(live, e.member) == live;
    InsertCounts(live, e, cutoff);
    hide Insert, Without;
  }

  /** A new member takes one place if there is one. */
  lemma AdmissionCounts(rule: Rule, stored: seq<Event>, e: Event)
    requires rule.Valid() && Fresh(stored, e.member)
    ensures var cutoff := e.score - rule.window;
            var (stored', outcome) := Admit(rule, stored, e);
            && (outcome.admitted <==> |Recent(stored, cutoff)| < rule.limit)
            && |Recent(stored', cutoff)| == |Recent(stored, cutoff)| + if outcome.admitted then 1 else 0
  {
    hide Recent, AdmitInto, Fresh;
    var cutoff := e.score - rule.window;
    RecentAmong(stored, cutoff);
    RecentFresh(stored, cutoff, e.member);
    AdmitIntoCounts(rule, Recent(stored, cutoff), e, cutoff);
    RecentOfAll(Admit(rule, stored, e).0, cutoff);
  }

  lemma StoredIsFresh(rules: Rules, past: seq<Call>, key: string, call: Call)
    requires GoodCalls(rules, past) && GoodCalls(rules, past + [call]) && key in rules && rules[key].Valid()
    ensures Fresh(Get(TW.Run(rules, past).sets, key), call.request.member)
  {
    var stored := Get(TW.Run(rules, past).sets, key);
    assert Requested(past + [call]) == Requested(past) + [call.request];
    hide TW.Run, KnownKeys, Tracks, AllowedOn, InWindow, Get;
    EveryKeyHolds(rules, past, key);
    FreshAmong(stored, Requested(past), call.request);
  }

  /** A call on one key takes a place there if there is one, and is rejected otherwise. */
  lemma PlainCallCounts(rules: Rules, t: History, key: string, call: Call)
    requires key in rules && rules[key].Valid() && Fresh(Get(t.sets, key), call.request.member)
    requires call.keys == [key] && KnownKeys(rules, call)
    ensures var t', now := After(rules, t, call), call.request.score;
            var count := Found(rules, t.sets, key, now);
            && |t'.verdicts| == |t.verdicts| + 1
            && (t'.verdicts[|t.verdicts|] == None <==> count < rules[key].limit)
            && Found(rules, t'.sets, key, now) == count + if count < rules[key].limit then 1 else 0
  {
    hide Admit, After, Recent, Fresh, Rule.Valid, KnownKeys;
    AdmissionCounts(rules[key], Get(t.sets, key), call.request);
    OneKey(call, key);
    RunOne(rules, t, call);
  }

  lemma OneKey(call: Call, key: string)
    requires call.keys == [key]
    ensures |call.keys| == 1 && call.keys[0] == key
  {}

  lemma OneFill(rules: Rules, past: seq<Call>, key: string, call: Call)
    requires GoodCalls(rules, past) && GoodCalls(rules, past + [call]) && key in rules && rules[key].Valid()
    requires call.keys == [key] && KnownKeys(rules, call)
    ensures var t, t', now := TW.Run(rules, past), TW.Run(rules, past + [call]), call.request.score;
            var count := Found(rules, t.sets, key, now);
            && (t'.verdicts[|past|] == None <==> count < rules[key].limit)
            && Found(rules, t'.sets, key, now) == count + if count < rules[key].limit then 1 else 0
  {
    var t := TW.Run(rules, past);
    hide TW.Run, After, GoodCalls, InOrder, KnownKeys, KnownCalls, Fresh, Found, Get;
    StoredIsFresh(rules, past, key, call);
    GoodPrefix(rules, past, call);
    Runs.RunSnoc(rules, past, call);
    PlainCallCounts(rules, t, key, call);
  }

  function Fill(key: string, now: int, from: nat, i: nat): Call {
    Call([key], Event(now, Unary(from + i)))
  }

  /** The last filling call, after the run of the others. */
  lemma FillSnoc(rules: Rules, past: seq<Call>, key: string, now: int, from: nat, n: nat)
    requires GoodCalls(rules, past) && Shorter(past, from) && EndsBy(past, now) && key in rules && n > 0
    ensures var early := past + Fills(key, now, from, n - 1);
            && past + Fills(key, now, from, n) == early + [Fill(key, now, from, n - 1)]
            && |early| == |past| + n - 1
            && GoodCalls(rules, early) && GoodCalls(rules, past + Fills(key, now, from, n))
            && KnownKeys(rules, Fill(key, now, from, n - 1))
  {
    assert past + Fills(key, now, from, n) == past + Fills(key, now, from, n - 1) + [Fill(key, now, from, n - 1)];
    hide GoodCalls, Shorter, EndsBy, Fills;
    FillsAreGood(rules, past, key, now, from, n - 1);
    FillsAreGood(rules, past, key, now, from, n);
  }

  lemma NoFills(past: seq<Call>, key: string, now: int, from: nat)
    ensures past + Fills(key, now, from, 0) == past
  {}

  lemma {:induction false} FillingCounts(rules: Rules, past: seq<Call>, key: string, now: int, from: nat, n: nat)
    requires GoodCalls(rules, past) && Shorter(past, from) && EndsBy(past, now) && key in rules && rules[key].Valid()
    requires Found(rules, TW.Run(rules, past).sets, key, now) + n <= rules[key].limit
    ensures GoodCalls(rules, past + Fills(key, now, from, n))
    ensures Found(rules, TW.Run(rules, past + Fills(key, now, from, n)).sets, key, now) ==
            Found(rules, TW.Run(rules, past).sets, key, now) + n
  {
    hide TW.Run, GoodCalls, Found, Shorter, EndsBy, Fills, KnownKeys, KnownCalls;
    if n == 0 {
      NoFills(past, key, now, from);
    } else {
      FillSnoc(rules, past, key, now, from, n);
      FillingCounts(rules, past, key, now, from, n - 1);
      OneFill(rules, past + Fills(key, now, from, n - 1), key, Fill(key, now, from, n - 1));
    }
  }

  /** The last of n calls on one key is allowed exactly when there were n places. */
  lemma LastFill(rules: Rules, past: seq<Call>, key: string, now: int, from: nat, n: nat)
    requires GoodCalls(rules, past) && Shorter(past, from) && EndsBy(past, now) && key in rules && rules[key].Valid()
    requires n > 0 && Found(rules, TW.Run(rules, past).sets, key, now) + n - 1 <= rules[key].limit
    ensures GoodCalls(rules, past + Fills(key, now, from, n))
    ensures TW.Run(rules, past + Fills(key, now, from, n)).verdicts[|past| + n - 1] == None <==>
            Found(rules, TW.Run(rules, past).sets, key, now) + n <= rules[key].limit
  {
    hide TW.Run, GoodCalls, Found, Shorter, EndsBy, Fills, KnownKeys, KnownCalls;
    FillSnoc(rules, past, key, now, from, n);
    FillingCounts(rules, past, key, now, from, n - 1);
    OneFill(rules, past + Fills(key, now, from, n - 1), key, Fill(key, now, from, n - 1));
  }

  // ---------------------------------------------------------------- the exact condition

  /** Whatever calls follow, every other call has the verdict it would have had without c. */
  ghost predicate Unobservable(rules: Rules, before: seq<Call>, c: Call) {
    forall after :: GoodCalls(rules, before + [c] + after) && GoodCalls(rules, before + after) ==>
      var with, without := TW.Run(rules, before + [c] + after).verdicts, TW.Run(rules, before + after).verdicts;
      with[..|before|] + with[|before| + 1..] == without
  }

  lemma GoodInOrder(rules: Rules, calls: seq<Call>)
    requires GoodCalls(rules, calls)
    ensures InOrder(rules, calls)
  {}

  lemma FirstTierCounts(rules: Rules, u: History, c: Call)
    requires KnownKeys(rules, c) && c.keys != [] && rules[c.keys[0]].Valid()
    requires Fresh(Get(u.sets, c.keys[0]), c.request.member)
    requires var v := ChargeFrom(u.sets, Tiers(rules, c), 0, c.request).1; v.Some? && v.value.tier > 0
    ensures var key, now := c.keys[0], c.request.score;
            var count := Found(rules, u.sets, key, now);
            count < rules[key].limit && Found(rules, After(rules, u, c).sets, key, now) == count + 1
  {
    hide Admit, Recent, ChargeFrom, Fresh, Rule.Valid, HasRoom, Appended;
    var key, tiers := c.keys[0], Tiers(rules, c);
    AdmissionCounts(rules[key], Get(u.sets, key), c.request);
    assert tiers[0] == Tier(key, rules[key]);
    ReachedTier(u.sets, tiers, c.request, 0);
  }

  /** A call that its first tier lets through and a later one rejects has taken a place on the first. */
  lemma FirstTierIsCharged(rules: Rules, before: seq<Call>, c: Call)
    requires GoodCalls(rules, before) && GoodCalls(rules, before + [c]) && KnownKeys(rules, c) && c.keys != []
    requires rules[c.keys[0]].Valid()
    requires var v := TW.Run(rules, before + [c]).verdicts[|before|]; v.Some? && v.value.tier > 0
    ensures var key, now := c.keys[0], c.request.score;
            var count := Found(rules, TW.Run(rules, before).sets, key, now);
            && count < rules[key].limit
            && Found(rules, TW.Run(rules, before + [c]).sets, key, now) == count + 1
  {
    var u := TW.Run(rules, before);
    hide TW.Run, ChargeFrom, GoodCalls, InOrder, KnownCalls, Fresh, Found, Get;
    StoredIsFresh(rules, before, c.keys[0], c);
    GoodPrefix(rules, before, c);
    Runs.RunSnoc(rules, before, c);
    assert TW.Run(rules, before + [c]).verdicts[|before|] == ChargeFrom(u.sets, Tiers(rules, c), 0, c.request).1;
    FirstTierCounts(rules, u, c);
  }

  lemma PartsAreGood(rules: Rules, before: seq<Call>, c: Call)
    requires GoodCalls(rules, before + [c])
    ensures GoodCalls(rules, before) && KnownKeys(rules, c) && EndsBy(before, c.request.score)
    ensures EndsBy(before + [c], c.request.score)
  {
    GoodPrefix(rules, before, c);
    assert c in before + [c];
  }

  lemma ShorterPrefix(before: seq<Call>, c: Call, n: nat)
    requires Shorter(before + [c], n)
    ensures Shorter(before, n)
  {
    assert forall i :: 0 <= i < |before| ==> (before + [c])[i] == before[i];
  }

  lemma DifferAt<T>(with: seq<T>, without: seq<T>, n: nat, k: nat)
    requires |with| == |without| + 1 && n <= k < |without| && with[k + 1] != without[k]
    ensures with[..n] + with[n + 1..] != without
  {
    assert (with[..n] + with[n + 1..])[k] == with[k + 1];
  }

  /** Enough later calls on the first tier's key bring the lost place to light. */
  lemma ChargedCallShows(rules: Rules, before: seq<Call>, c: Call)
    requires GoodCalls(rules, before + [c]) && c.keys != [] && forall key :: key in rules ==> rules[key].Valid()
    requires var v := TW.Run(rules, before + [c]).verdicts[|before|]; v.Some? && v.value.tier > 0
    ensures !Unobservable(rules, before, c)
  {
    PartsAreGood(rules, before, c);
    var key, now, from := c.keys[0], c.request.score, Longer(before + [c]);
    ShorterPrefix(before, c, from);
    assert key in rules && rules[key].Valid();
    FirstTierIsCharged(rules, before, c);
    var free := rules[key].limit - Found(rules, TW.Run(rules, before).sets, key, now);
    var after := Fills(key, now, from, free);
    hide TW.Run, GoodCalls, Found, Fills, Shorter, EndsBy, KnownKeys, KnownCalls, Longer;
    LastFill(rules, before + [c], key, now, from, free);
    LastFill(rules, before, key, now, from, free);
    DifferAt(TW.Run(rules, before + [c] + after).verdicts, TW.Run(rules, before + after).verdicts,
             |before|, |before| + free - 1);
  }

  /**
   A rejected call can be noticed by no other call, whatever follows, if and only if its first tier was full when it
   came. A plain call has one tier, so this holds of every rejected plain call.
   */
  lemma UnobservableIffFirstTierWasFull(rules: Rules, before: seq<Call>, c: Call)
    requires GoodCalls(rules, before + [c]) && GoodCalls(rules, before) && c.keys != [] && KnownKeys(rules, c)
    requires forall key :: key in rules ==> rules[key].Valid()
    requires TW.Run(rules, before + [c]).verdicts[|before|].Some?
    ensures Unobservable(rules, before, c) <==>
            !HasRoom(TW.Run(rules, before).sets, Tiers(rules, c)[0], c.request.score)
  {
    var tiers, u := Tiers(rules, c), TW.Run(rules, before);
    GoodPrefix(rules, before, c);
    Runs.RunSnoc(rules, before, c);
    var verdict := TW.Run(rules, before + [c]).verdicts[|before|];
    assert verdict == ChargeFrom(u.sets, tiers, 0, c.request).1;
    hide TW.Run, HasRoom, ChargeFrom, GoodCalls, InOrder, Unobservable, KnownKeys;
    ReachedTierOf(u.sets, tiers, c);
    if verdict.value.tier > 0 {
      ChargedCallShows(rules, before, c);
    } else {
      FullFirstTierIsUnobservable(rules, before, c);
    }
  }

  lemma ReachedTierOf(sets: Sets, tiers: seq<Tier>, c: Call)
    requires tiers != [] && |tiers| == |c.keys| && (forall j :: 0 <= j < |tiers| ==> tiers[j].key == c.keys[j])
    requires forall i, j :: 0 <= i < j < |c.keys| ==> c.keys[i] != c.keys[j]
    requires ChargeFrom(sets, tiers, 0, c.request).1.Some?
    ensures HasRoom(sets, tiers[0], c.request.score) <==> ChargeFrom(sets, tiers, 0, c.request).1.value.tier > 0
  {
    hide HasRoom, ChargeFrom;
    ReachedTier(sets, tiers, c.request, 0);
  }

  lemma FullFirstTierIsUnobservable(rules: Rules, before: seq<Call>, c: Call)
    requires GoodCalls(rules, before + [c])
    requires var v := TW.Run(rules, before + [c]).verdicts[|before|]; v.Some? && v.value.tier == 0
    ensures Unobservable(rules, before, c)
  {
    forall after | GoodCalls(rules, before + [c] + after) && GoodCalls(rules, before + after)
      ensures var with, without := TW.Run(rules, before + [c] + after).verdicts, TW.Run(rules, before + after).verdicts;
              with[..|before|] + with[|before| + 1..] == without
    {
      hide TW.Run;
      GoodInOrder(rules, before + [c] + after);
      GoodInOrder(rules, before + after);
      GoodInOrder(rules, before + [c]);
      FirstTierRejectionIsUnobservable(rules, before, c, after);
    }
  }
}
