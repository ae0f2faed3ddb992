/** The token-bucket script as it runs on stored tokens, proved to follow the level arithmetic of TokenBucket. */
module TokenBucketStores {
  import opened Wrappers
  import TB = TokenBucket
  import TokenBucketRuns

  datatype Error = InvalidArguments | Unavailable

  /** The hash a key holds: fields t and u, and the time to live in milliseconds. */
  datatype Fields = Fields(t: real, u: int, ttl: int)

  datatype Reply = Reply(allowed: bool, remaining: int, retryAfterNs: int)

  /** What the caller learns from a decision on the level. */
  function ReplyOf(d: TB.Decision): Reply {
    Reply(d.allowed, d.remaining, if d.allowed then 0 else d.retryMs * 1_000_000)
  }

  /**
   What a reply tells of the level the call found and of the level it left: it is allowed iff there was a token, which
   is then gone; remaining counts the tokens left; and a rejection names the least whole number of milliseconds that
   brings the next one.
   */
  ghost predicate Explains(reply: Reply, found: real, left: real, refillMs: int) {
    && (reply.allowed <==> found >= refillMs as real)
    && left == (if reply.allowed then found - refillMs as real else found)
    && reply.remaining >= 0
    && (refillMs * reply.remaining) as real <= left < (refillMs * reply.remaining + refillMs) as real
    && (reply.allowed ==> reply.retryAfterNs == 0)
    && (!reply.allowed ==>
          exists ms: int :: ms >= 1 && reply.retryAfterNs == ms * 1_000_000
                            && left + (ms - 1) as real < refillMs as real <= left + ms as real)
  }

  lemma ReplyExplains(cfg: TB.Config, stored: Option<TB.Bucket>, now: int)
    requires cfg.Valid() && (stored.Some? ==> stored.value.level >= 0.0)
    ensures Explains(ReplyOf(TB.Decide(cfg, TB.Refilled(cfg, stored, now))), TB.Refilled(cfg, stored, now),
                     TB.Step(cfg, stored, now).level, cfg.refill)
  {
    var level := TB.Refilled(cfg, stored, now);
    var d := TB.Decide(cfg, level);
    TokenBucketRuns.LevelInRange(cfg, stored, now);
    TB.WholeTokensFit(cfg.refill, TB.Spent(cfg, level));
    hide TB.WholeTokens, TB.Config.Full, TB.Refilled;
    if !d.allowed {
      var ms := d.retryMs;
      assert ms >= 1 && ReplyOf(d).retryAfterNs == ms * 1_000_000;
      assert level + (ms - 1) as real < cfg.refill as real <= level + ms as real;
    }
  }

  /** Tokens as a level in milliseconds. */
  function LevelOf(tokens: real, refillMs: int): real {
    tokens * refillMs as real
  }

  /** The tokens that a wait in milliseconds earns. */
  function Earned(waitMs: int, refillMs: int): real
    requires refillMs > 0
  {
    waitMs as real / refillMs as real
  }

  class TokenBucketStore {
    var buckets: map<string, Fields>

    ghost predicate Valid()
      reads this
    {
      forall key :: key in buckets ==> buckets[key].t >= 0.0
    }

    /** The bucket of a key as a level for the given refill interval. */
    ghost function Stored(key: string, refillMs: int): Option<TB.Bucket>
      reads this
    {
      if key in buckets then Some(TB.Bucket(LevelOf(buckets[key].t, refillMs), buckets[key].u)) else None
    }

    constructor ()
      ensures Valid() && buckets == map[]
    {
      buckets := map[];
    }

    method Script(key: string, capacity: int, refillMs: int, nowMs: int)
      returns (allowed: int, retryMs: int, remaining: int)
      requires Valid() && capacity > 0 && refillMs > 0
      modifies this
      ensures Valid() && key in buckets && buckets == old(buckets)[key := buckets[key]]
      ensures buckets[key].ttl == capacity * refillMs
      ensures var cfg := TB.Config(capacity, refillMs);
              var d := TB.Decide(cfg, TB.Refilled(cfg, old(Stored(key, refillMs)), nowMs));
              && Stored(key, refillMs) == Some(TB.Step(cfg, old(Stored(key, refillMs)), nowMs))
              && allowed == (if d.allowed then 1 else 0) && retryMs == d.retryMs && remaining == d.remaining
    {
      hide LevelOf, Earned, TB.WholeTokens;
      var tokens, updated := capacity as real, nowMs;
      if key in buckets {
        tokens, updated := buckets[key].t, buckets[key].u;
      }
      ghost var found := tokens;
      var elapsed := nowMs - updated;
      if elapsed < 0 {
        elapsed := 0;
      }
      tokens := RealMin(capacity as real, tokens + Earned(elapsed, refillMs));
      ghost var level := LevelOf(tokens, refillMs);
      ghost var cfg := TB.Config(capacity, refillMs);
      RefillInLevels(capacity, refillMs, found, elapsed);
      assert level == TB.Refilled(cfg, old(Stored(key, refillMs)), nowMs);
      DecisionInLevels(cfg, tokens);
      allowed, retryMs := 0, 0;
      if tokens >= 1.0 {
        tokens := tokens - 1.0;
        allowed := 1;
      } else {
        retryMs := Ceil(LevelOf(1.0 - tokens, refillMs));
      }
      buckets := buckets[key := Fields(tokens, nowMs, capacity * refillMs)];
      remaining := tokens.Floor;
    }

    method Allow(key: string, capacity: int, refillNs: int, nowMs: int, link: Link)
      returns (result: Result<Reply, Error>)
      requires Valid()
      modifies this
      ensures Valid()
      ensures var cfg := TB.Config(capacity, Milliseconds(refillNs));
              if !cfg.Valid() then
                result == Failure(InvalidArguments) && buckets == old(buckets)
              else if link == Down then
                result == Failure(Unavailable) && buckets == old(buckets)
              else
                && key in buckets && buckets == old(buckets)[key := buckets[key]]
                && buckets[key].ttl == cfg.Full()
                && Stored(key, cfg.refill) == Some(TB.Step(cfg, old(Stored(key, cfg.refill)), nowMs))
                && result == if link == ReplyLost then Failure(Unavailable) else
                     Success(ReplyOf(TB.Decide(cfg, TB.Refilled(cfg, old(Stored(key, cfg.refill)), nowMs))))
      ensures var cfg := TB.Config(capacity, Milliseconds(refillNs));
              cfg.Valid() && link == Up ==>
                && result.Success? && key in buckets
                && Explains(result.value, TB.Refilled(cfg, old(Stored(key, cfg.refill)), nowMs),
                            LevelOf(buckets[key].t, cfg.refill), cfg.refill)
    {
      ghost var cfg := TB.Config(capacity, Milliseconds(refillNs));
      if cfg.Valid() {
        ReplyExplains(cfg, Stored(key, cfg.refill), nowMs);
      }
      var ms := Milliseconds(refillNs);
      if capacity <= 0 || ms <= 0 {
        return Failure(InvalidArguments);
      }
      if link == Down {
        return Failure(Unavailable);
      }
      var allowed, retry, remaining := Script(key, capacity, ms, nowMs);
      if link == ReplyLost {
        return Failure(Unavailable);
      }
      var retryAfter := 0;
      if allowed != 1 && retry > 0 {
        retryAfter := retry * 1_000_000;
      }
      result := Success(Reply(allowed == 1, remaining, retryAfter));
    }
  }

  lemma InOrder(a: real, b: real, r: real)
    requires r > 0.0
    ensures a < b <==> a * r < b * r
  {
    assert b * r - a * r == (b - a) * r;
  }

  lemma LevelsInOrder(a: real, b: real, refillMs: int)
    requires refillMs > 0
    ensures a < b <==> LevelOf(a, refillMs) < LevelOf(b, refillMs)
  {
    InOrder(a, b, refillMs as real);
  }

  lemma EarnedLevel(tokens: real, waitMs: int, refillMs: int)
    requires refillMs > 0
    ensures LevelOf(tokens + Earned(waitMs, refillMs), refillMs) == LevelOf(tokens, refillMs) + waitMs as real
  {
    var r, e := refillMs as real, waitMs as real;
    assert (e / r) * r == e;
  }

  lemma FullLevel(capacity: int, refillMs: int)
    ensures LevelOf(capacity as real, refillMs) == (capacity * refillMs) as real
  {}

  /** Refilling tokens, as the script does, is refilling their level. */
  lemma RefillInLevels(capacity: int, refillMs: int, tokens: real, elapsed: int)
    requires capacity > 0 && refillMs > 0
    ensures LevelOf(RealMin(capacity as real, tokens + Earned(elapsed, refillMs)), refillMs) ==
            RealMin(LevelOf(capacity as real, refillMs), LevelOf(tokens, refillMs) + elapsed as real)
    ensures LevelOf(capacity as real, refillMs) == (capacity * refillMs) as real
    ensures elapsed >= 0 ==> Earned(elapsed, refillMs) >= 0.0
  {
    EarnedLevel(tokens, elapsed, refillMs);
    FullLevel(capacity, refillMs);
    EarnedNothingLess(elapsed, refillMs);
    hide LevelOf, Earned;
    LevelsInOrder(capacity as real, tokens + Earned(elapsed, refillMs), refillMs);
  }

  lemma EarnedNothingLess(waitMs: int, refillMs: int)
    requires refillMs > 0
    ensures waitMs >= 0 ==> Earned(waitMs, refillMs) >= 0.0
  {}

  lemma TokenInLevels(refillMs: int, tokens: real)
    requires refillMs > 0
    ensures LevelOf(1.0, refillMs) == refillMs as real
    ensures LevelOf(tokens - 1.0, refillMs) == LevelOf(tokens, refillMs) - refillMs as real
    ensures LevelOf(1.0 - tokens, refillMs) == refillMs as real - LevelOf(tokens, refillMs)
  {}

  /** Deciding on tokens, as the script does, is deciding on their level. */
  lemma DecisionInLevels(cfg: TB.Config, tokens: real)
    requires cfg.Valid() && tokens >= 0.0
    ensures var level := LevelOf(tokens, cfg.refill);
            var left := if tokens >= 1.0 then tokens - 1.0 else tokens;
            && TB.Decide(cfg, level).allowed == (tokens >= 1.0)
            && TB.Decide(cfg, level).retryMs == (if tokens >= 1.0 then 0 else Ceil(LevelOf(1.0 - tokens, cfg.refill)))
            && TB.Spent(cfg, level) == LevelOf(left, cfg.refill)
            && TB.Decide(cfg, level).remaining == left.Floor
  {
    hide LevelOf, TB.WholeTokens;
    TokenInLevels(cfg.refill, tokens);
    LevelsInOrder(tokens, 1.0, cfg.refill);
    FloorIsWholeTokens(cfg.refill, if tokens >= 1.0 then tokens - 1.0 else tokens);
  }

  /** The script's math.floor of the tokens counts the refill intervals that fit in the level. */
  lemma {:induction false} FloorIsWholeTokens(refillMs: int, tokens: real)
    requires refillMs > 0 && tokens >= 0.0
    ensures tokens.Floor == TB.WholeTokens(refillMs, LevelOf(tokens, refillMs))
    decreases tokens
  {
    hide LevelOf;
    TokenInLevels(refillMs, tokens);
    LevelsInOrder(tokens, 1.0, refillMs);
    if tokens >= 1.0 {
      FloorIsWholeTokens(refillMs, tokens - 1.0);
      FloorLessOne(tokens);
    }
  }

  lemma FloorLessOne(x: real)
    ensures (x - 1.0).Floor == x.Floor - 1
  {}
}
