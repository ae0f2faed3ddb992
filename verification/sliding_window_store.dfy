/** The sliding-window scripts as they run on stored sets, and the Go methods that pack their arguments. */
module SlidingWindowStores {
  import opened Wrappers
  import opened SlidingWindow
  import TW = TieredWindow

  datatype Error = InvalidArguments | InvalidTier(key: string) | NoRandomness | Unavailable

  datatype Reply = Reply(allowed: bool, remaining: int, retryAfterNs: int)

  datatype SourceTier = SourceTier(key: string, limit: int, windowNs: int)

  datatype TieredReply = TieredReply(allowed: bool, rejectedTier: string, retryAfterNs: int)

  /** One entry of a script's ARGV. */
  datatype Arg = Number(n: int) | Text(s: string)

  function RuleOf(limit: int, windowNs: int): Rule {
    Rule(limit, Milliseconds(windowNs))
  }

  /** Each tier with its own limit and its own window. */
  function TiersOf(tiers: seq<SourceTier>): (r: seq<TW.Tier>)
    ensures |r| == |tiers|
  {
    seq(|tiers|, i requires 0 <= i < |tiers| => TW.Tier(tiers[i].key, RuleOf(tiers[i].limit, tiers[i].windowNs)))
  }

  /** The layout the tiered script expects: clock, member, all limits, then all windows. */
  predicate Packed(keys: seq<string>, args: seq<Arg>) {
    && |args| == 2 + 2 * |keys|
    && args[0].Number? && args[1].Text?
    && forall i :: 2 <= i < |args| ==> args[i].Number?
  }

  /** The tiers the script reads back: ARGV counts from 1, so entry x is args[x - 1]. */
  function Unpacked(keys: seq<string>, args: seq<Arg>): (tiers: seq<TW.Tier>)
    requires Packed(keys, args)
    ensures |tiers| == |keys|
  {
    var count := |keys|;
    seq(count, i requires 0 <= i < count => TW.Tier(keys[i], Rule(args[2 + i].n, args[2 + count + i].n)))
  }

  /** Each of the first n tiers has its key renewed for its own window. */
  function Renewed(ttl: map<string, int>, tiers: seq<TW.Tier>, n: nat): map<string, int>
    requires n <= |tiers|
  {
    if n == 0 then ttl else Renewed(ttl, tiers, n - 1)[tiers[n - 1].key := tiers[n - 1].rule.window]
  }

  function FirstInvalid(tiers: seq<SourceTier>): (n: nat)
    ensures n <= |tiers|
    ensures forall i :: 0 <= i < n ==> RuleOf(tiers[i].limit, tiers[i].windowNs).Valid()
    ensures n < |tiers| ==> !RuleOf(tiers[n].limit, tiers[n].windowNs).Valid()
    decreases |tiers|
  {
    if tiers == [] then 0
    else
      var n := FirstInvalid(tiers[..|tiers| - 1]);
      var last := tiers[|tiers| - 1];
      if n < |tiers| - 1 then n
      else if RuleOf(last.limit, last.windowNs).Valid() then |tiers| else n
  }

  /**
   What one admission is, for any stored set whatever its order: it is admitted iff fewer than limit events lie within
   the window before now; then its member is in the set, once and with this score, beside those events; otherwise they
   are all that is left, and the hint is the time until the first of them leaves.
   */
  ghost predicate Explains(was: seq<Event>, left: seq<Event>, limit: int, ms: int, e: Event,
                           admitted: bool, remaining: int, retryMs: int) {
    var live := Recent(was, e.score - ms);
    && (admitted <==> |live| < limit)
    && (admitted ==> remaining == limit - |live| - 1 && retryMs == 0 && AddedTo(live, left, e))
    && (!admitted ==>
          && remaining == 0 && left == live && live != [] && retryMs == live[0].score + ms - e.score
          && (Sorted(live) ==> forall i :: 0 <= i < |live| ==> live[0].score <= live[i].score))
  }

  /** The set with the event's member at the event's score, once. */
  ghost predicate AddedTo(live: seq<Event>, left: seq<Event>, e: Event) {
    && (forall x :: x in left <==> x == e || (x in live && x.member != e.member))
    && (Fresh(live, e.member) ==> |left| == |live| + 1)
    && (Sorted(live) ==> Sorted(left))
  }

  lemma AdmitExplains(was: seq<Event>, limit: int, ms: int, e: Event)
    requires limit > 0 && ms > 0
    ensures var (left, outcome) := Admit(Rule(limit, ms), was, e);
            Explains(was, left, limit, ms, e, outcome.admitted, outcome.remaining, outcome.retryMs)
  {
    var live := Recent(was, e.score - ms);
    RecentAmong(was, e.score - ms);
    AddExplains(live, e);
    hide Recent, Insert, Without, AddedTo;
  }

  /** ZADD of a member that may or may not be there. */
  lemma AddExplains(live: seq<Event>, e: Event)
    ensures AddedTo(live, Insert(Without(live, e.member), e), e)
  {
    var kept := Without(live, e.member);
    assert Fresh(live, e.member) ==> kept == live;
    hide Insert, Without;
    forall x ensures x in Insert(kept, e) <==> x == e || (x in live && x.member != e.member) {
      InsertIsExact(kept, e, x);
      WithoutIsExact(live, e.member, x);
    }
    InsertIsExact(kept, e, e);
    if Sorted(live) {
      WithoutSorted(live, e.member);
      InsertSorts(kept, e);
    }
  }

  lemma {:induction false} WithoutSorted(events: seq<Event>, member: string)
    requires Sorted(events)
    ensures Sorted(Without(events, member))
  {
    if events != [] {
      var n := |events| - 1;
      WithoutSorted(events[..n], member);
      forall i | 0 <= i < |Without(events[..n], member)|
        ensures Without(events[..n], member)[i].score <= events[n].score
      {
        WithoutIsExact(events[..n], member, Without(events[..n], member)[i]);
      }
    }
  }

  ghost predicate DistinctSourceKeys(tiers: seq<SourceTier>) {
    forall i, j :: 0 <= i < j < |tiers| ==> tiers[i].key != tiers[j].key
  }

  /** Fewer than the tier's own limit of events lie within the tier's own window before now. */
  predicate Roomy(sets: TW.Sets, tier: SourceTier, nowMs: int) {
    |Recent(TW.Get(sets, tier.key), nowMs - Milliseconds(tier.windowNs))| < tier.limit
  }

  /** The number of the first tier without room, or of tiers. */
  ghost function FirstFull(sets: TW.Sets, tiers: seq<SourceTier>, nowMs: int): (n: nat)
    ensures n <= |tiers|
    ensures forall i :: 0 <= i < n ==> Roomy(sets, tiers[i], nowMs)
    ensures n < |tiers| ==> !Roomy(sets, tiers[n], nowMs)
  {
    if tiers == [] then 0
    else
      var n := FirstFull(sets, tiers[..|tiers| - 1], nowMs);
      if n < |tiers| - 1 then n
      else if Roomy(sets, tiers[|tiers| - 1], nowMs) then |tiers| else n
  }

  /**
   What a tiered call answers: allowed iff every tier has room in its own window; otherwise it names the first tier
   without room and the time until that key's first live event leaves.
   */
  ghost predicate ExplainsTiers(was: TW.Sets, tiers: seq<SourceTier>, nowMs: int, reply: TieredReply) {
    && (reply.allowed <==> forall i :: 0 <= i < |tiers| ==> Roomy(was, tiers[i], nowMs))
    && (reply.allowed ==> reply.rejectedTier == "" && reply.retryAfterNs == 0)
    && (!reply.allowed ==> NamesTier(was, tiers, nowMs, reply))
  }

  ghost predicate NamesTier(was: TW.Sets, tiers: seq<SourceTier>, nowMs: int, reply: TieredReply) {
    var n := FirstFull(was, tiers, nowMs);
    n < |tiers| &&
    var live := Recent(TW.Get(was, tiers[n].key), nowMs - Milliseconds(tiers[n].windowNs));
    && live != [] && reply.rejectedTier == tiers[n].key
    && reply.retryAfterNs == (live[0].score + Milliseconds(tiers[n].windowNs) - nowMs) * 1_000_000
  }

  /** This tier's set is what its own admission, with its own limit and window, makes of it. */
  ghost predicate ExplainsTier(was: TW.Sets, left: TW.Sets, tier: SourceTier, e: Event, admitted: bool) {
    exists remaining, retryMs ::
      Explains(TW.Get(was, tier.key), TW.Get(left, tier.key), tier.limit, Milliseconds(tier.windowNs), e,
               admitted, remaining, retryMs)
  }

  /**
   What a tiered call leaves: each tier before the first without room holds this call as its own admission puts it
   there, and is renewed for its own window; the first without room is purged; every other key is as it was.
   */
  ghost predicate ExplainsState(was: TW.Sets, left: TW.Sets, wasTtl: map<string, int>, leftTtl: map<string, int>,
                                tiers: seq<SourceTier>, e: Event) {
    var n := FirstFull(was, tiers, e.score);
    && (forall i :: 0 <= i < |tiers| && i <= n ==> ExplainsTier(was, left, tiers[i], e, i < n))
    && (forall i :: 0 <= i < n ==>
          tiers[i].key in leftTtl && leftTtl[tiers[i].key] == Milliseconds(tiers[i].windowNs))
    && (forall key :: !NamedBy(tiers, n + 1, key) ==> TW.Get(left, key) == TW.Get(was, key))
    && (forall key :: !NamedBy(tiers, n, key) ==>
          (key in leftTtl <==> key in wasTtl) && (key in wasTtl ==> leftTtl[key] == wasTtl[key]))
  }

  /** One of the first n tiers has that key. */
  ghost predicate NamedBy(tiers: seq<SourceTier>, n: int, key: string) {
    exists i :: 0 <= i < |tiers| && i < n && tiers[i].key == key
  }

  /** Each tier with a limit and a window that are positive. */
  predicate AllValid(tiers: seq<SourceTier>) {
    forall i :: 0 <= i < |tiers| ==> tiers[i].limit > 0 && Milliseconds(tiers[i].windowNs) > 0
  }

  lemma AllValidMeans(tiers: seq<SourceTier>)
    ensures AllValid(tiers) <==> FirstInvalid(tiers) == |tiers|
  {}

  lemma TierRoom(sets: TW.Sets, tiers: seq<SourceTier>, e: Event, i: nat)
    requires i < |tiers|
    ensures TW.HasRoom(sets, TiersOf(tiers)[i], e.score) == Roomy(sets, tiers[i], e.score)
  {}

  lemma DistinctTiers(tiers: seq<SourceTier>)
    requires DistinctSourceKeys(tiers)
    ensures TW.DistinctKeys(TiersOf(tiers))
  {}

  /** Where a tiered call stops: at the first tier without room. */
  lemma StopsAt(sets: TW.Sets, tiers: seq<SourceTier>, e: Event)
    requires DistinctSourceKeys(tiers)
    ensures var n, verdict := FirstFull(sets, tiers, e.score), TW.ChargeFrom(sets, TiersOf(tiers), 0, e).1;
            && n == TW.Charged(TiersOf(tiers), verdict)
            && (verdict.Some? <==> n < |tiers|)
            && (n < |tiers| ==>
                  verdict.value.retryMs == Admit(TiersOf(tiers)[n].rule, TW.Get(sets, tiers[n].key), e).1.retryMs)
  {
    hide Admit, TW.HasRoom, TW.ChargeFrom, Roomy, RuleOf, FirstFull;
    DistinctTiers(tiers);
    TW.FirstFullTierRejects(sets, TiersOf(tiers), 0, e);
    forall i | 0 <= i < |tiers| ensures TW.HasRoom(sets, TiersOf(tiers)[i], e.score) == Roomy(sets, tiers[i], e.score) {
      TierRoom(sets, tiers, e, i);
    }
  }

  /** The answer that AllowTiered makes of a verdict. */
  function TieredAnswer(tiers: seq<SourceTier>, verdict: Option<TW.Rejection>): TieredReply
    requires verdict.Some? ==> verdict.value.tier < |tiers|
  {
    if verdict == None then TieredReply(true, "", 0)
    else TieredReply(false, tiers[verdict.value.tier].key, Max(0, verdict.value.retryMs) * 1_000_000)
  }

  lemma AnswerExplains(was: TW.Sets, tiers: seq<SourceTier>, e: Event)
    requires DistinctSourceKeys(tiers) && AllValid(tiers)
    ensures ExplainsTiers(was, tiers, e.score, TieredAnswer(tiers, TW.ChargeFrom(was, TiersOf(tiers), 0, e).1))
  {
    hide Admit, Recent, TW.ChargeFrom, FirstFull, DistinctSourceKeys, TW.Get;
    StopsAt(was, tiers, e);
    var n := FirstFull(was, tiers, e.score);
    if n < |tiers| {
      FullTierHint(TW.Get(was, tiers[n].key), tiers[n].limit, Milliseconds(tiers[n].windowNs), e);
    }
  }

  lemma FullTierHint(was: seq<Event>, limit: int, ms: int, e: Event)
    requires limit > 0 && ms > 0 && |Recent(was, e.score - ms)| >= limit
    ensures var live := Recent(was, e.score - ms);
            && live != []
            && Max(0, Admit(Rule(limit, ms), was, e).1.retryMs) == live[0].score + ms - e.score
  {
    RecentAmong(was, e.score - ms);
    hide Recent;
  }

  lemma ReachedTierExplains(was: TW.Sets, tiers: seq<SourceTier>, e: Event, i: nat)
    requires DistinctSourceKeys(tiers) && AllValid(tiers) && i < |tiers|
    requires i <= TW.Charged(TiersOf(tiers), TW.ChargeFrom(was, TiersOf(tiers), 0, e).1)
    ensures ExplainsTier(was, TW.ChargeFrom(was, TiersOf(tiers), 0, e).0, tiers[i], e, Roomy(was, tiers[i], e.score))
  {
    hide Admit, TW.ChargeFrom, Recent, Explains;
    DistinctTiers(tiers);
    assert TW.Reaches(was, TiersOf(tiers), 0, e, i);
    TW.ReachedTierIsCharged(was, TiersOf(tiers), 0, e, i);
    AdmitExplains(TW.Get(was, tiers[i].key), tiers[i].limit, Milliseconds(tiers[i].windowNs), e);
    TW.AdmitNeedsRoom(was, TiersOf(tiers)[i], e);
    TierRoom(was, tiers, e, i);
  }

  lemma UnreachedKeyStays(was: TW.Sets, tiers: seq<SourceTier>, e: Event, key: string)
    requires !NamedBy(tiers, TW.Charged(TiersOf(tiers), TW.ChargeFrom(was, TiersOf(tiers), 0, e).1) + 1, key)
    ensures TW.Get(TW.ChargeFrom(was, TiersOf(tiers), 0, e).0, key) == TW.Get(was, key)
  {
    hide TW.ChargeFrom;
    TW.OtherKeysUntouched(was, TiersOf(tiers), 0, e, key);
  }

  lemma {:induction false} RenewedAt(ttl: map<string, int>, tiers: seq<SourceTier>, n: nat, key: string)
    requires DistinctSourceKeys(tiers) && n <= |tiers|
    ensures var ttl' := Renewed(ttl, TiersOf(tiers), n);
            && (forall i :: 0 <= i < n && tiers[i].key == key ==>
                  key in ttl' && ttl'[key] == Milliseconds(tiers[i].windowNs))
            && (!NamedBy(tiers, n, key) ==>
                  (key in ttl' <==> key in ttl) && (key in ttl ==> ttl'[key] == ttl[key]))
  {
    if n > 0 {
      assert tiers[n - 1].key == key ==> NamedBy(tiers, n, key);
      RenewedAt(ttl, tiers, n - 1, key);
    }
  }

  lemma StateExplains(was: TW.Sets, ttl: map<string, int>, tiers: seq<SourceTier>, e: Event)
    requires DistinctSourceKeys(tiers) && AllValid(tiers)
    ensures var (left, verdict) := TW.ChargeFrom(was, TiersOf(tiers), 0, e);
            ExplainsState(was, left, ttl, Renewed(ttl, TiersOf(tiers), TW.Charged(TiersOf(tiers), verdict)), tiers, e)
  {
    hide TW.ChargeFrom, TW.Charged, ExplainsTier, Roomy, Renewed, TiersOf, FirstFull, AllValid, NamedBy, DistinctSourceKeys;
    StopsAt(was, tiers, e);
    var n, left := FirstFull(was, tiers, e.score), TW.ChargeFrom(was, TiersOf(tiers), 0, e).0;
    forall i | 0 <= i < |tiers| && i <= n ensures ExplainsTier(was, left, tiers[i], e, i < n) {
      ReachedTierExplains(was, tiers, e, i);
    }
    forall i | 0 <= i < n
      ensures var ttl' := Renewed(ttl, TiersOf(tiers), n);
              tiers[i].key in ttl' && ttl'[tiers[i].key] == Milliseconds(tiers[i].windowNs)
    {
      RenewedAt(ttl, tiers, n, tiers[i].key);
    }
    forall key | !NamedBy(tiers, n + 1, key) ensures TW.Get(left, key) == TW.Get(was, key) {
      UnreachedKeyStays(was, tiers, e, key);
    }
    forall key | !NamedBy(tiers, n, key)
      ensures var ttl' := Renewed(ttl, TiersOf(tiers), n);
              (key in ttl' <==> key in ttl) && (key in ttl ==> ttl'[key] == ttl[key])
    {
      RenewedAt(ttl, tiers, n, key);
    }
  }

  class SlidingWindowStore {
    var sets: map<string, seq<Event>>
    var ttl: map<string, int>

    constructor ()
      ensures sets == map[] && ttl == map[]
    {
      sets, ttl := map[], map[];
    }

    /** The Lua function admit. */
    method AdmitKey(key: string, nowMs: int, windowMs: int, limit: int, member: string)
      returns (admitted: bool, remaining: int, retryMs: int)
      modifies this
      ensures var (stored, outcome) :=
                Admit(Rule(limit, windowMs), old(TW.Get(sets, key)), Event(nowMs, member));
              && sets == old(sets)[key := stored]
              && (admitted, remaining, retryMs) == (outcome.admitted, outcome.remaining, outcome.retryMs)
      ensures ttl == if admitted then old(ttl)[key := windowMs] else old(ttl)
    {
      hide Recent, Insert, Without, TW.Get;
      var live := Recent(TW.Get(sets, key), nowMs - windowMs);
      sets := sets[key := live];
      var count := |live|;
      if count >= limit {
        retryMs := windowMs;
        if live != [] {
          retryMs := live[0].score + windowMs - nowMs;
        }
        if retryMs < 1 {
          retryMs := 1;
        }
        return false, 0, retryMs;
      }
      sets := sets[key := Insert(Without(live, member), Event(nowMs, member))];
      ttl := ttl[key := windowMs];
      return true, limit - count - 1, 0;
    }

    method Allow(key: string, limit: int, windowNs: int, nowMs: int, member: Option<string>, link: Link)
      returns (result: Result<Reply, Error>)
      modifies this
      ensures var rule := RuleOf(limit, windowNs);
              if !rule.Valid() then
                result == Failure(InvalidArguments) && sets == old(sets) && ttl == old(ttl)
              else if member == None then
                result == Failure(NoRandomness) && sets == old(sets) && ttl == old(ttl)
              else if link == Down then
                result == Failure(Unavailable) && sets == old(sets) && ttl == old(ttl)
              else
                var (stored, outcome) := Admit(rule, old(TW.Get(sets, key)), Event(nowMs, member.value));
                && sets == old(sets)[key := stored]
                && ttl == (if outcome.admitted then old(ttl)[key := rule.window] else old(ttl))
                && result == if link == ReplyLost then Failure(Unavailable) else
                     Success(Reply(outcome.admitted, outcome.remaining,
                                   if outcome.admitted then 0 else outcome.retryMs * 1_000_000))
      ensures var ms := Milliseconds(windowNs);
              limit > 0 && ms > 0 && member.Some? && link == Up ==>
                && result.Success? && result.value.retryAfterNs % 1_000_000 == 0
                && Explains(old(TW.Get(sets, key)), TW.Get(sets, key), limit, ms, Event(nowMs, member.value),
                            result.value.allowed, result.value.remaining, result.value.retryAfterNs / 1_000_000)
                && (result.value.allowed ==> key in ttl && ttl[key] == ms)
      ensures forall k :: k != key ==> TW.Get(sets, k) == old(TW.Get(sets, k))
    {
      if limit > 0 && Milliseconds(windowNs) > 0 && member.Some? {
        AdmitExplains(TW.Get(sets, key), limit, Milliseconds(windowNs), Event(nowMs, member.value));
      }
      hide Admit, Recent, AddedTo;
      var ms := Milliseconds(windowNs);
      if limit <= 0 || ms <= 0 {
        return Failure(InvalidArguments);
      }
      if member == None {
        return Failure(NoRandomness);
      }
      if link == Down {
        return Failure(Unavailable);
      }
      var admitted, remaining, retry := AdmitKey(key, nowMs, ms, limit, member.value);
      if link == ReplyLost {
        return Failure(Unavailable);
      }
      var retryAfter := 0;
      if !admitted && retry > 0 {
        retryAfter := retry * 1_000_000;
      }
      result := Success(Reply(admitted, if admitted then remaining else 0, retryAfter));
    }

    /** The tiered script: its reply is allowed, the number of the rejecting tier counted from 1, and the hint. */
    method TieredScript(keys: seq<string>, args: seq<Arg>) returns (allowed: int, index: int, retryMs: int)
      requires Packed(keys, args)
      modifies this
      ensures var e := Event(args[0].n, args[1].s);
              var (stored, verdict) := TW.ChargeFrom(old(sets), Unpacked(keys, args), 0, e);
              && sets == stored
              && ttl == Renewed(old(ttl), Unpacked(keys, args), TW.Charged(Unpacked(keys, args), verdict))
              && (verdict == None ==> (allowed, index, retryMs) == (1, 0, 0))
              && (verdict.Some? ==>
                    (allowed, index, retryMs) == (0, verdict.value.tier + 1, verdict.value.retryMs))
    {
      hide Admit;
      var count := |keys|;
      var nowMs, member := args[0].n, args[1].s;
      ghost var tiers := Unpacked(keys, args);
      ghost var e := Event(nowMs, member);
      var i := 1;
      while i <= count
        invariant 1 <= i <= count + 1
        invariant TW.ChargeFrom(old(sets), tiers, 0, e) == TW.ChargeFrom(sets, tiers, i - 1, e)
        invariant ttl == Renewed(old(ttl), tiers, i - 1)
      {
        var windowMs, limit := args[2 + count + i - 1].n, args[2 + i - 1].n;
        assert tiers[i - 1] == TW.Tier(keys[i - 1], Rule(limit, windowMs));
        var admitted, _, retry := AdmitKey(keys[i - 1], nowMs, windowMs, limit, member);
        if !admitted {
          return 0, i, retry;
        }
        i := i + 1;
      }
      return 1, 0, 0;
    }

    method AllowTiered(tiers: seq<SourceTier>, nowMs: int, member: Option<string>, link: Link)
      returns (result: Result<TieredReply, Error>)
      modifies this
      ensures if tiers == [] then
                result == Success(TieredReply(true, "", 0)) && sets == old(sets) && ttl == old(ttl)
              else if member == None then
                result == Failure(NoRandomness) && sets == old(sets) && ttl == old(ttl)
              else if FirstInvalid(tiers) < |tiers| then
                result == Failure(InvalidTier(tiers[FirstInvalid(tiers)].key)) && sets == old(sets) && ttl == old(ttl)
              else if link == Down then
                result == Failure(Unavailable) && sets == old(sets) && ttl == old(ttl)
              else
                var (stored, verdict) :=
                  TW.ChargeFrom(old(sets), TiersOf(tiers), 0, Event(nowMs, member.value));
                && sets == stored
                && ttl == Renewed(old(ttl), TiersOf(tiers), TW.Charged(TiersOf(tiers), verdict))
                && result == if link == ReplyLost then Failure(Unavailable)
                     else Success(TieredAnswer(tiers, verdict))
      ensures tiers != [] && member.Some? && AllValid(tiers) && DistinctSourceKeys(tiers) && link != Down ==>
                && ExplainsState(old(sets), sets, old(ttl), ttl, tiers, Event(nowMs, member.value))
                && (link == Up ==> result.Success? && ExplainsTiers(old(sets), tiers, nowMs, result.value))
    {
      hide ExplainsState, ExplainsTiers, AllValid, DistinctSourceKeys, FirstFull, TW.ChargeFrom, TW.Charged, Renewed;
      AllValidMeans(tiers);
      if member.Some? && AllValid(tiers) && DistinctSourceKeys(tiers) {
        AnswerExplains(sets, tiers, Event(nowMs, member.value));
        StateExplains(sets, ttl, tiers, Event(nowMs, member.value));
      }
      if tiers == [] {
        return Success(TieredReply(true, "", 0));
      }
      if member == None {
        return Failure(NoRandomness);
      }
      var keys: seq<string> := [];
      var args: seq<Arg> := [Number(nowMs), Text(member.value)];
      var i := 0;
      while i < |tiers|
        invariant 0 <= i <= |tiers| && |keys| == i && |args| == 2 + i
        invariant i <= FirstInvalid(tiers)
        invariant sets == old(sets) && ttl == old(ttl)
        invariant args[..2] == [Number(nowMs), Text(member.value)]
        invariant forall j :: 0 <= j < i ==> keys[j] == tiers[j].key
        invariant forall j :: 2 <= j < 2 + i ==> args[j] == Number(tiers[j - 2].limit)
      {
        if tiers[i].limit <= 0 || Milliseconds(tiers[i].windowNs) <= 0 {
          return Failure(InvalidTier(tiers[i].key));
        }
        keys := keys + [tiers[i].key];
        args := args + [Number(tiers[i].limit)];
        i := i + 1;
      }
      ghost var limits := args;
      i := 0;
      while i < |tiers|
        invariant 0 <= i <= |tiers| && |args| == 2 + |tiers| + i
        invariant args[..2 + |tiers|] == limits
        invariant forall j :: 2 + |tiers| <= j < |args| ==>
                    args[j] == Number(Milliseconds(tiers[j - 2 - |tiers|].windowNs))
      {
        args := args + [Number(Milliseconds(tiers[i].windowNs))];
        i := i + 1;
      }
      forall j | 2 <= j < 2 + |tiers| ensures args[j] == Number(tiers[j - 2].limit) {
        assert args[j] == limits[j];
      }
      assert args[0] == limits[0] == limits[..2][0] && args[1] == limits[1] == limits[..2][1];
      assert Unpacked(keys, args) == TiersOf(tiers);
      if link == Down {
        return Failure(Unavailable);
      }
      var allowed, index, retry := TieredScript(keys, args);
      if link == ReplyLost {
        return Failure(Unavailable);
      }
      if allowed == 1 {
        return Success(TieredReply(true, "", 0));
      }
      var rejected, retryAfter := "", 0;
      if 1 <= index <= |tiers| {
        rejected := tiers[index - 1].key;
      }
      if retry > 0 {
        retryAfter := retry * 1_000_000;
      }
      result := Success(TieredReply(false, rejected, retryAfter));
    }
  }
}
