/** The tiered sliding-window script: tiers are charged one after another, and a rejection undoes nothing. */
module TieredWindow {
  import opened Wrappers
  import opened SlidingWindow

  /** One tier as the script sees it, with its window in milliseconds. */
  datatype Tier = Tier(key: string, rule: Rule)

  datatype Rejection = Rejection(tier: nat, retryMs: int)

  type Sets = map<string, seq<Event>>

  function Get(sets: Sets, key: string): seq<Event> {
    if key in sets then sets[key] else []
  }

  /** Charges the tiers from number i on, up to the first that is full. */
  function ChargeFrom(sets: Sets, tiers: seq<Tier>, i: nat, e: Event): (r: (Sets, Option<Rejection>))
    requires i <= |tiers|
    ensures r.1.Some? ==> i <= r.1.value.tier < |tiers|
    decreases |tiers| - i
  {
    if i == |tiers| then (sets, None)
    else
      var (stored, outcome) := Admit(tiers[i].rule, Get(sets, tiers[i].key), e);
      var sets' := sets[tiers[i].key := stored];
      if outcome.admitted then ChargeFrom(sets', tiers, i + 1, e)
      else (sets', Some(Rejection(i, outcome.retryMs)))
  }

  ghost predicate DistinctKeys(tiers: seq<Tier>) {
    forall i, j :: 0 <= i < j < |tiers| ==> tiers[i].key != tiers[j].key
  }

  predicate HasRoom(sets: Sets, tier: Tier, now: int) {
    |Recent(Get(sets, tier.key), now - tier.rule.window)| < tier.rule.limit
  }

  lemma AdmitNeedsRoom(sets: Sets, tier: Tier, e: Event)
    ensures Admit(tier.rule, Get(sets, tier.key), e).1.admitted == HasRoom(sets, tier, e.score)
  {}

  /** The number of tiers that a verdict leaves charged. */
  function Charged(tiers: seq<Tier>, verdict: Option<Rejection>): nat {
    if verdict.Some? then verdict.value.tier else |tiers|
  }

  /** The tiers from number i on that a call reaches: those it charges and the one that rejects it. */
  ghost predicate Reaches(sets: Sets, tiers: seq<Tier>, i: nat, e: Event, j: int)
    requires i <= |tiers|
  {
    i <= j < |tiers| && j <= Charged(tiers, ChargeFrom(sets, tiers, i, e).1)
  }

  /** With distinct keys, charging one tier leaves what the later ones find. */
  lemma LaterTiersSee(sets: Sets, tiers: seq<Tier>, i: nat, stored: seq<Event>, now: int)
    requires i < |tiers| && DistinctKeys(tiers)
    ensures var sets' := sets[tiers[i].key := stored];
            && (forall j :: i < j < |tiers| ==> Get(sets', tiers[j].key) == Get(sets, tiers[j].key))
            && (forall j :: i < j < |tiers| ==> HasRoom(sets', tiers[j], now) == HasRoom(sets, tiers[j], now))
  {
    hide Recent;
    forall j | i < j < |tiers| ensures tiers[j].key != tiers[i].key {}
  }

  /**
   The call is allowed iff every tier has room, and a rejection names the first full tier and its hint.
   */
  lemma {:induction false} FirstFullTierRejects(sets: Sets, tiers: seq<Tier>, i: nat, e: Event)
    requires i <= |tiers| && DistinctKeys(tiers)
    ensures var verdict := ChargeFrom(sets, tiers, i, e).1;
            var n := Charged(tiers, verdict);
            && (verdict == None <==> forall j :: i <= j < |tiers| ==> HasRoom(sets, tiers[j], e.score))
            && (forall j :: i <= j < n ==> HasRoom(sets, tiers[j], e.score))
            && (verdict.Some? ==>
                  && !HasRoom(sets, tiers[n], e.score)
                  && verdict.value.retryMs == Admit(tiers[n].rule, Get(sets, tiers[n].key), e).1.retryMs)
    decreases |tiers| - i
  {
    if i < |tiers| {
      hide Admit, HasRoom;
      var (stored, outcome) := Admit(tiers[i].rule, Get(sets, tiers[i].key), e);
      AdmitNeedsRoom(sets, tiers[i], e);
      if outcome.admitted {
        LaterTiersSee(sets, tiers, i, stored, e.score);
        FirstFullTierRejects(sets[tiers[i].key := stored], tiers, i + 1, e);
      }
    }
  }

  /**
   Every tier the call reaches is purged, and charged unless it is the one that rejects;
   a rejection undoes none of it.
   */
  lemma {:induction false} ReachedTierIsCharged(sets: Sets, tiers: seq<Tier>, i: nat, e: Event, j: int)
    requires i <= |tiers| && DistinctKeys(tiers) && Reaches(sets, tiers, i, e, j)
    ensures Get(ChargeFrom(sets, tiers, i, e).0, tiers[j].key) ==
            Admit(tiers[j].rule, Get(sets, tiers[j].key), e).0
    decreases |tiers| - i
  {
    hide Admit, HasRoom;
    var (stored, outcome) := Admit(tiers[i].rule, Get(sets, tiers[i].key), e);
    var sets' := sets[tiers[i].key := stored];
    if outcome.admitted {
      LaterTiersSee(sets, tiers, i, stored, e.score);
      if j > i {
        ReachedTierIsCharged(sets', tiers, i + 1, e, j);
      } else {
        OtherKeysUntouched(sets', tiers, i + 1, e, tiers[i].key);
      }
    }
  }

  /** Every other key, and so every tier after the one that rejects, keeps what it held. */
  lemma {:induction false} OtherKeysUntouched(sets: Sets, tiers: seq<Tier>, i: nat, e: Event, key: string)
    requires i <= |tiers|
    requires forall j: int :: Reaches(sets, tiers, i, e, j) ==> tiers[j].key != key
    ensures Get(ChargeFrom(sets, tiers, i, e).0, key) == Get(sets, key)
    decreases |tiers| - i
  {
    if i < |tiers| {
      hide Admit;
      var (stored, outcome) := Admit(tiers[i].rule, Get(sets, tiers[i].key), e);
      assert Reaches(sets, tiers, i, e, i);
      if outcome.admitted {
        var sets' := sets[tiers[i].key := stored];
        forall j: int | Reaches(sets', tiers, i + 1, e, j) ensures tiers[j].key != key {
          assert Reaches(sets, tiers, i, e, j);
        }
        OtherKeysUntouched(sets', tiers, i + 1, e, key);
      }
    }
  }

  // ---------------------------------------------------------------- whole runs over shared keys

  /** A call on some keys; a plain Allow is a call on one key. Each key has one rule for good. */
  datatype Call = Call(keys: seq<string>, request: Event)

  datatype History = History(sets: Sets, logs: Sets, allowed: seq<Call>, verdicts: seq<Option<Rejection>>)

  ghost predicate KnownKeys(rules: map<string, Rule>, call: Call) {
    && (forall i :: 0 <= i < |call.keys| ==> call.keys[i] in rules)
    && (forall i, j :: 0 <= i < j < |call.keys| ==> call.keys[i] != call.keys[j])
  }

  function Tiers(rules: map<string, Rule>, call: Call): (tiers: seq<Tier>)
    requires forall i :: 0 <= i < |call.keys| ==> call.keys[i] in rules
    ensures |tiers| == |call.keys|
  {
    seq(|call.keys|, i requires 0 <= i < |call.keys| => Tier(call.keys[i], rules[call.keys[i]]))
  }

  function Appended(logs: Sets, keys: seq<string>, e: Event): Sets {
    map key | key in logs.Keys + (set k | k in keys) :: if key in keys then Get(logs, key) + [e] else logs[key]
  }

  ghost predicate KnownCalls(rules: map<string, Rule>, calls: seq<Call>) {
    forall i :: 0 <= i < |calls| ==> KnownKeys(rules, calls[i])
  }

  function Run(rules: map<string, Rule>, calls: seq<Call>): (t: History)
    requires KnownCalls(rules, calls)
    ensures |t.verdicts| == |calls|
  {
    if calls == [] then History(map[], map[], [], [])
    else
      var n := |calls| - 1;
      After(rules, Run(rules, calls[..n]), calls[n])
  }

  function After(rules: map<string, Rule>, t: History, call: Call): History
    requires KnownKeys(rules, call)
  {
    var (sets, verdict) := ChargeFrom(t.sets, Tiers(rules, call), 0, call.request);
    var n := Charged(Tiers(rules, call), verdict);
    History(sets,
            Appended(t.logs, call.keys[..n], call.request),
            if verdict == None then t.allowed + [call] else t.allowed,
            t.verdicts + [verdict])
  }

  /** The allowed calls that name a key, as events. */
  function AllowedOn(key: string, allowed: seq<Call>): seq<Event> {
    if allowed == [] then []
    else
      var n := |allowed| - 1;
      AllowedOn(key, allowed[..n]) + if key in allowed[n].keys then [allowed[n].request] else []
  }

  function Requested(calls: seq<Call>): (requests: seq<Event>)
    ensures |requests| == |calls|
  {
    seq(|calls|, i requires 0 <= i < |calls| => calls[i].request)
  }

  /** What holds for one key at clock reading now; its log lists every admission charged to it, allowed call or not. */
  ghost predicate KeyHolds(rule: Rule, key: string, t: History, past: seq<Event>, now: int) {
    && Tracks(rule, Get(t.logs, key), Get(t.sets, key), now)
    && Among(Get(t.sets, key), past)
    && Among(Get(t.logs, key), past)
    && (forall lo, hi :: InWindow(AllowedOn(key, t.allowed), lo, hi) <= InWindow(Get(t.logs, key), lo, hi))
  }

  lemma FreshAmong(stored: seq<Event>, past: seq<Event>, e: Event)
    requires Among(stored, past) && DistinctMembers(past + [e])
    ensures Fresh(stored, e.member)
  {
    forall i | 0 <= i < |stored| ensures stored[i].member != e.member {
      assert stored[i] in past;
      var k :| 0 <= k < |past| && past[k] == stored[i];
      assert (past + [e])[k].member != (past + [e])[|past|].member;
    }
  }

  /** What one call does to one key: it is charged, it rejects, or it is not reached. */
  lemma CallOnKey(rules: map<string, Rule>, t: History, call: Call, key: string) returns (charged: bool, rejects: bool)
    requires KnownKeys(rules, call) && key in rules
    ensures var t' := After(rules, t, call);
            var (stored, outcome) := Admit(rules[key], Get(t.sets, key), call.request);
            && !(charged && rejects)
            && Get(t'.logs, key) == Extended(Get(t.logs, key), call.request, charged)
            && Get(t'.sets, key) == (if charged || rejects then stored else Get(t.sets, key))
            && (charged ==> outcome.admitted) && (rejects ==> !outcome.admitted)
            && (t'.allowed == t.allowed || (t'.allowed == t.allowed + [call] && (key in call.keys ==> charged)))
  {
    hide Admit, HasRoom, ChargeFrom;
    var tiers, e := Tiers(rules, call), call.request;
    var n := Charged(tiers, ChargeFrom(t.sets, tiers, 0, e).1);
    FirstFullTierRejects(t.sets, tiers, 0, e);
    AdmitNeedsRoom(t.sets, Tier(key, rules[key]), e);
    charged := key in call.keys[..n];
    rejects := n < |tiers| && tiers[n].key == key;
    if charged {
      var j :| 0 <= j < n && call.keys[j] == key;
      assert HasRoom(t.sets, tiers[j], e.score) && tiers[j] == Tier(key, rules[key]);
      assert Reaches(t.sets, tiers, 0, e, j);
      ReachedTierIsCharged(t.sets, tiers, 0, e, j);
    } else if rejects {
      assert !HasRoom(t.sets, tiers[n], e.score) && tiers[n] == Tier(key, rules[key]);
      assert Reaches(t.sets, tiers, 0, e, n);
      ReachedTierIsCharged(t.sets, tiers, 0, e, n);
    } else {
      forall j: int | Reaches(t.sets, tiers, 0, e, j) ensures tiers[j].key != key {
        assert j < n ==> call.keys[..n][j] == call.keys[j];
      }
      OtherKeysUntouched(t.sets, tiers, 0, e, key);
    }
  }

  /** Allowed calls on a key are charged to it, so no window holds more of them than of its log. */
  lemma AllowedStayBelowLog(allowed: seq<Call>, log: seq<Event>, call: Call, key: string, charged: bool, grown: bool)
    requires forall lo, hi :: InWindow(AllowedOn(key, allowed), lo, hi) <= InWindow(log, lo, hi)
    requires grown && key in call.keys ==> charged
    ensures var allowed' := if grown then allowed + [call] else allowed;
            var log' := Extended(log, call.request, charged);
            forall lo, hi :: InWindow(AllowedOn(key, allowed'), lo, hi) <= InWindow(log', lo, hi)
  {
    var allowed' := if grown then allowed + [call] else allowed;
    var log' := Extended(log, call.request, charged);
    assert (allowed + [call])[..|allowed|] == allowed;
    var on := AllowedOn(key, allowed);
    assert AllowedOn(key, allowed') == if grown && key in call.keys then on + [call.request] else on;
    forall lo, hi ensures InWindow(AllowedOn(key, allowed'), lo, hi) <= InWindow(log', lo, hi) {
      InWindowSnoc(log, call.request, lo, hi);
      InWindowSnoc(on, call.request, lo, hi);
    }
  }

  lemma AmongLonger(events: seq<Event>, past: seq<Event>, e: Event)
    requires Among(events, past)
    ensures Among(events, past + [e])
  {}

  lemma AmongTrans(a: seq<Event>, b: seq<Event>, c: seq<Event>)
    requires Among(a, b) && Among(b, c)
    ensures Among(a, c)
  {
    forall i | 0 <= i < |a| ensures a[i] in c {
      var k :| 0 <= k < |b| && b[k] == a[i];
    }
  }

  lemma KeyKeeps(rules: map<string, Rule>, t: History, call: Call, key: string, past: seq<Event>, now: int)
    requires KnownKeys(rules, call) && key in rules && rules[key].Valid()
    requires KeyHolds(rules[key], key, t, past, now) && now <= call.request.score
    requires DistinctMembers(past + [call.request])
    ensures KeyHolds(rules[key], key, After(rules, t, call), past + [call.request], call.request.score)
  {
    hide After, Admit, Tracks, Recent, AllowedOn, Among, DistinctMembers, KnownKeys, Fresh, InWindow, Get;
    var rule, e := rules[key], call.request;
    var log, stored := Get(t.logs, key), Get(t.sets, key);
    FreshAmong(stored, past, e);
    AmongGrows(log, past, e, true);
    AmongGrows(log, past, e, false);
    AmongLonger(stored, past, e);
    var charged, rejects := CallOnKey(rules, t, call, key);
    var t' := After(rules, t, call);
    AllowedStayBelowLog(t.allowed, log, call, key, charged, t'.allowed != t.allowed);
    if charged || rejects {
      AdmitTracks(rule, log, stored, now, e);
      RecentAmong(Get(t'.logs, key), e.score - rule.window);
      AmongTrans(Get(t'.sets, key), Get(t'.logs, key), past + [e]);
    } else {
      TracksLater(rule, log, stored, now, e.score);
    }
  }

  ghost predicate GoodCalls(rules: map<string, Rule>, calls: seq<Call>) {
    KnownCalls(rules, calls) && Requests(Requested(calls))
  }

  lemma FirstCall(rules: map<string, Rule>, call: Call, key: string)
    requires KnownKeys(rules, call) && key in rules && rules[key].Valid()
    ensures KeyHolds(rules[key], key, After(rules, Run(rules, []), call), [call.request], call.request.score)
  {
    assert WithinLimit(rules[key], []);
    assert [] + [call.request] == [call.request];
    hide After;
    KeyKeeps(rules, Run(rules, []), call, key, [], call.request.score);
  }

  lemma NoCalls(rules: map<string, Rule>, key: string)
    requires key in rules && rules[key].Valid()
    ensures KeyHolds(rules[key], key, Run(rules, []), Requested([]), Now(Requested([])))
  {
    assert WithinLimit(rules[key], []);
  }

  lemma MembersOf(past: seq<Event>, e: Event)
    requires Requests(past + [e])
    ensures DistinctMembers(past + [e])
  {}

  /** On every run, every key's whole admission history stays within its rule, and its set tracks that history. */
  lemma {:induction false} EveryKeyHolds(rules: map<string, Rule>, calls: seq<Call>, key: string)
    requires GoodCalls(rules, calls) && key in rules && rules[key].Valid()
    ensures KeyHolds(rules[key], key, Run(rules, calls), Requested(calls), Now(Requested(calls)))
    decreases |calls|
  {
    hide KeyHolds, After, Requests, DistinctMembers;
    if calls == [] {
      NoCalls(rules, key);
    } else {
      var n := |calls| - 1;
      var p, call := calls[..n], calls[n];
      assert calls == p + [call];
      assert Requested(calls) == Requested(p) + [call.request];
      RequestsPrefix(Requested(p), call.request);
      MembersOf(Requested(p), call.request);
      EveryKeyHolds(rules, p, key);
      if p == [] {
        assert Requested(calls) == [call.request];
        FirstCall(rules, call, key);
      } else {
        KeyKeeps(rules, Run(rules, p), call, key, Requested(p), Now(Requested(p)));
      }
    }
  }

  /** Over any run of tiered and plain calls, the allowed calls on a key never exceed its limit in any window. */
  lemma AllowedCallsWithinEveryTier(rules: map<string, Rule>, calls: seq<Call>, key: string)
    requires GoodCalls(rules, calls) && key in rules && rules[key].Valid()
    ensures WithinLimit(rules[key], Get(Run(rules, calls).logs, key))
    ensures WithinLimit(rules[key], AllowedOn(key, Run(rules, calls).allowed))
  {
    EveryKeyHolds(rules, calls, key);
    var rule, t := rules[key], Run(rules, calls);
    forall now ensures LastWindow(rule, AllowedOn(key, t.allowed), now) <= rule.limit {
      assert LastWindow(rule, Get(t.logs, key), now) <= rule.limit;
      assert InWindow(AllowedOn(key, t.allowed), now - rule.window, now) <=
             InWindow(Get(t.logs, key), now - rule.window, now);
    }
  }
}
