/** The path from a bucket decision to the HTTP answer and its Retry-After header. */
module RateLimitHttp {
  import opened Wrappers
  import TB = TokenBucket
  import Runs = TokenBucketRuns
  import opened TokenBucketStores

  datatype AppError = TooManyRequests | BackendUnavailable

  datatype Verdict = Verdict(allowed: bool, retryAfterNs: int)

  /** The middleware either passes the request on or answers with an error and perhaps a Retry-After header. */
  datatype Response = Next | Refused(code: AppError, retryAfter: Option<int>)

  const SECOND := 1_000_000_000

  /** The least positive whole number of seconds that is not shorter than the duration. */
  function RetryAfterSeconds(ns: int): (n: int)
    ensures n >= 1 && ns <= n * SECOND
    ensures n > 1 ==> (n - 1) * SECOND < ns
  {
    var n := Ceil(ns as real / SECOND as real);
    if n < 1 then 1 else n
  }

  function BucketKey(ip: string): string {
    "global:ip:" + ip
  }

  method AllowIP(store: TokenBucketStore, capacity: int, refillNs: int, ip: string, nowMs: int, link: Link)
    returns (result: Result<Verdict, AppError>)
    requires store.Valid()
    modifies store
    ensures store.Valid()
    ensures var cfg, key := TB.Config(capacity, Milliseconds(refillNs)), BucketKey(ip);
            if ip == "" then
              result == Failure(TooManyRequests) && store.buckets == old(store.buckets)
            else if !cfg.Valid() || link == Down then
              result == Failure(BackendUnavailable) && store.buckets == old(store.buckets)
            else
              var d := TB.Decide(cfg, TB.Refilled(cfg, old(store.Stored(key, cfg.refill)), nowMs));
              && key in store.buckets && store.buckets == old(store.buckets)[key := store.buckets[key]]
              && store.Stored(key, cfg.refill) == Some(TB.Step(cfg, old(store.Stored(key, cfg.refill)), nowMs))
              && result == if link == ReplyLost then Failure(BackendUnavailable)
                           else Success(Verdict(d.allowed, ReplyOf(d).retryAfterNs))
  {
    if ip == "" {
      return Failure(TooManyRequests);
    }
    var reply := store.Allow(BucketKey(ip), capacity, refillNs, nowMs, link);
    if reply.Failure? {
      return Failure(BackendUnavailable);
    }
    return Success(Verdict(reply.value.allowed, reply.value.retryAfterNs));
  }

  /** A rejection's hint is at least a millisecond, so its header is always set. */
  lemma RejectionHasHint(cfg: TB.Config, stored: Option<TB.Bucket>, now: int)
    requires cfg.Valid() && !TB.Decide(cfg, TB.Refilled(cfg, stored, now)).allowed
    ensures TB.Decide(cfg, TB.Refilled(cfg, stored, now)).retryMs >= 1
  {}

  class GlobalRateLimitMiddleware {
    const store: TokenBucketStore
    const capacity: int
    const refillNs: int
    var allowed: nat
    var limited: nat
    var unavailable: nat

    constructor (store: TokenBucketStore, capacity: int, refillNs: int)
      ensures this.store == store && this.capacity == capacity && this.refillNs == refillNs
      ensures allowed == limited == unavailable == 0
    {
      this.store, this.capacity, this.refillNs := store, capacity, refillNs;
      allowed, limited, unavailable := 0, 0, 0;
    }

    function Config(): TB.Config {
      TB.Config(capacity, Milliseconds(refillNs))
    }

    /** The address's bucket, as a level. */
    ghost function Bucket(ip: string): Option<TB.Bucket>
      reads this, store
    {
      store.Stored(BucketKey(ip), Config().refill)
    }

    /** A request of that address reaches its bucket. */
    predicate Reaches(ip: string, link: Link) {
      ip != "" && Config().Valid() && link != Down
    }

    /**
     One request. From any valid store, the decision on the address's own bucket is the answer, a rejection always
     carries the header, and a refusal as too many requests without a header means there was no address. The bucket
     takes one step even when the answer is lost, no other bucket changes, and every request is counted under exactly
     one outcome.
     */
    method Handle(ip: string, nowMs: int, link: Link) returns (response: Response)
      requires store.Valid()
      modifies this, store
      ensures store.Valid()
      ensures !Reaches(ip, link) ==> store.buckets == old(store.buckets)
      ensures Reaches(ip, link) ==>
                && BucketKey(ip) in store.buckets
                && store.buckets == old(store.buckets)[BucketKey(ip) := store.buckets[BucketKey(ip)]]
                && Bucket(ip) == Some(TB.Step(Config(), old(Bucket(ip)), nowMs))
      ensures (allowed, limited, unavailable) ==
              match response
              case Next => (old(allowed) + 1, old(limited), old(unavailable))
              case Refused(TooManyRequests, Some(_)) => (old(allowed), old(limited) + 1, old(unavailable))
              case Refused(_, _) => (old(allowed), old(limited), old(unavailable) + 1)
      ensures response == Refused(TooManyRequests, None) <==> ip == ""
      ensures response == Refused(BackendUnavailable, None) <==> ip != "" && (!Config().Valid() || link != Up)
      ensures Reaches(ip, link) && link == Up ==>
                var d := TB.Decide(Config(), TB.Refilled(Config(), old(Bucket(ip)), nowMs));
                response == AnswerTo(d)
      ensures forall times :: Reaches(ip, link) && old(Bucket(ip)) == TB.Run(Config(), None, times).stored ==>
                && Bucket(ip) == TB.Run(Config(), None, times + [nowMs]).stored
                && (link == Up ==>
                      response == AnswerTo(TB.Run(Config(), None, times + [nowMs]).outcomes[|times|]))
      ensures var cfg := TB.Config(capacity, Milliseconds(refillNs));
              ip != "" && cfg.Valid() && link == Up ==>
                var found := old(store.Stored(BucketKey(ip), cfg.refill));
                var left := store.Stored(BucketKey(ip), cfg.refill);
                && (response == Next <==> TB.Refilled(cfg, found, nowMs) >= cfg.refill as real)
                && (response != Next ==> TellsWhen(cfg, left, nowMs, response))
                && forall times :: TB.Run(cfg, None, times).stored == found && Nondecreasing(times + [nowMs]) ==>
                     (response == Next <==> TB.LogAllows(cfg, times + [nowMs], TB.Allowed(cfg, times), |times|))
    {
      ghost var found := Bucket(ip);
      ghost var cfg := TB.Config(capacity, Milliseconds(refillNs));
      if Reaches(ip, link) {
        AnswerIsRight(cfg, found, nowMs);
      }
      var verdict := AllowIP(store, capacity, refillNs, ip, nowMs, link);
      if Reaches(ip, link) {
        RunsOn(Config(), found, nowMs);
      }
      if verdict.Failure? {
        unavailable := unavailable + 1;
        return Refused(verdict.error, None);
      }
      if !verdict.value.allowed {
        limited := limited + 1;
        RejectionHasHint(Config(), found, nowMs);
        var header := None;
        if verdict.value.retryAfterNs > 0 {
          header := Some(RetryAfterSeconds(verdict.value.retryAfterNs));
        }
        return Refused(TooManyRequests, header);
      }
      allowed := allowed + 1;
      return Next;
    }
  }

  /** What a bucket's decision means to the client. */
  function AnswerTo(d: TB.Decision): Response {
    if d.allowed then Next else Refused(TooManyRequests, Some(RetryAfterSeconds(d.retryMs * 1_000_000)))
  }

  /** The refusal's header is the least positive number of seconds after which the bucket it left admits a call. */
  ghost predicate TellsWhen(cfg: TB.Config, left: Option<TB.Bucket>, now: int, response: Response) {
    && response.Refused? && response.code == TooManyRequests && response.retryAfter.Some?
    && var n := response.retryAfter.value;
    && n >= 1
    && TB.Refilled(cfg, left, now + 1000 * n) >= cfg.refill as real
    && forall m :: 1 <= m < n ==> TB.Refilled(cfg, left, now + 1000 * m) < cfg.refill as real
  }

  /** Passing on is what the level, and with it the whole log of past calls, allows; refusing tells when to come back. */
  lemma AnswerIsRight(cfg: TB.Config, found: Option<TB.Bucket>, now: int)
    requires cfg.Valid() && (found.Some? ==> found.value.level >= 0.0)
    ensures var answer := AnswerTo(TB.Decide(cfg, TB.Refilled(cfg, found, now)));
            && (answer == Next <==> TB.Refilled(cfg, found, now) >= cfg.refill as real)
            && (answer != Next ==> TellsWhen(cfg, Some(TB.Step(cfg, found, now)), now, answer))
            && forall times :: TB.Run(cfg, None, times).stored == found && Nondecreasing(times + [now]) ==>
                 (answer == Next <==> TB.LogAllows(cfg, times + [now], TB.Allowed(cfg, times), |times|))
  {
    var level := TB.Refilled(cfg, found, now);
    if level < cfg.refill as real {
      RefusalTellsWhen(cfg, found, now);
    }
    forall times | TB.Run(cfg, None, times).stored == found && Nondecreasing(times + [now])
      ensures level >= cfg.refill as real <==> TB.LogAllows(cfg, times + [now], TB.Allowed(cfg, times), |times|)
    {
      TB.LogDecides(cfg, times, now);
    }
  }

  lemma RefusalTellsWhen(cfg: TB.Config, found: Option<TB.Bucket>, now: int)
    requires cfg.Valid() && (found.Some? ==> found.value.level >= 0.0)
    requires TB.Refilled(cfg, found, now) < cfg.refill as real
    ensures var d := TB.Decide(cfg, TB.Refilled(cfg, found, now));
            TellsWhen(cfg, Some(TB.Step(cfg, found, now)), now, AnswerTo(d))
  {
    var level := TB.Refilled(cfg, found, now);
    Runs.LevelInRange(cfg, found, now);
    assert cfg.Full() >= cfg.refill;
    var ms := TB.Decide(cfg, level).retryMs;
    var n := RetryAfterSeconds(ms * 1_000_000);
    hide TB.Config.Full, TB.WholeTokens;
    assert ms >= 1 && level + (ms - 1) as real < cfg.refill as real <= level + ms as real;
    assert 1000 * (n - 1) < ms <= 1000 * n;
  }

  /** One more call on a bucket that a run has left continues that run. */
  lemma RunsOn(cfg: TB.Config, stored: Option<TB.Bucket>, now: int)
    requires cfg.Valid()
    ensures forall times :: TB.Run(cfg, None, times).stored == stored ==>
              && TB.Run(cfg, None, times + [now]).stored == Some(TB.Step(cfg, stored, now))
              && TB.Run(cfg, None, times + [now]).outcomes[|times|] == TB.Decide(cfg, TB.Refilled(cfg, stored, now))
  {
    forall times | TB.Run(cfg, None, times).stored == stored
      ensures TB.Run(cfg, None, times + [now]).stored == Some(TB.Step(cfg, stored, now))
      ensures TB.Run(cfg, None, times + [now]).outcomes[|times|] == TB.Decide(cfg, TB.Refilled(cfg, stored, now))
    {
      assert (times + [now])[..|times|] == times;
    }
  }

  /** Different addresses have different buckets. */
  lemma BucketKeysDiffer(a: string, b: string)
    ensures BucketKey(a) == BucketKey(b) <==> a == b
  {
    assert BucketKey(a)[|BucketKey("")|..] == a && BucketKey(b)[|BucketKey("")|..] == b;
  }

  lemma CeilIs(x: real, n: int)
    requires n as real - 1.0 < x <= n as real
    ensures Ceil(x) == n
  {}

  lemma SecondsOf(ms: int)
    ensures (ms * 1_000_000) as real / SECOND as real == ms as real / 1000.0
  {}

  /**
   Taking the ceiling of floating-point seconds gives this header too: for a wait of whole milliseconds, no rounding
   error below a millisecond changes it, as long as whole seconds come out exact.
   */
  lemma HeaderSurvivesRounding(ms: int, seconds: real)
    requires ms >= 0 && -0.001 < seconds - ms as real / 1000.0 < 0.001
    requires ms % 1000 == 0 ==> seconds == ms as real / 1000.0
    ensures Max(1, Ceil(seconds)) == RetryAfterSeconds(ms * 1_000_000)
  {
    var k, rest := ms / 1000, ms % 1000;
    var n := if rest == 0 then k else k + 1;
    assert ms as real / 1000.0 == k as real + rest as real / 1000.0;
    assert rest > 0 ==> 0.001 <= rest as real / 1000.0 <= 0.999;
    SecondsOf(ms);
    CeilIs(seconds, n);
    CeilIs(ms as real / 1000.0, n);
  }

  /**
   After a rejection (the first of polls) whose header says n seconds, and while no call of that address is admitted:
   a call n seconds later or more is allowed, and among calls a whole number of seconds later none earlier is.
   This is delay-seconds as section 10.2.3 of RFC 9110 has it.
   */
  lemma RetryAfterHeaderIsExact(cfg: TB.Config, before: seq<int>, polls: seq<int>, t: int, m: int)
    requires cfg.Valid() && polls != [] && Nondecreasing(before + polls + [t])
    requires Runs.RejectedFrom(TB.Run(cfg, None, before + polls).outcomes, |before|)
    ensures var n := RetryAfterSeconds(TB.Run(cfg, None, before + polls).outcomes[|before|].retryMs * 1_000_000);
            var passes := TB.Run(cfg, None, before + polls + [t]).outcomes[|before + polls|].allowed;
            && (t >= polls[0] + 1000 * n ==> passes)
            && (t == polls[0] + 1000 * m ==> (passes <==> m >= n))
  {
    Runs.RetryHintIsExact(cfg, before, polls, t);
  }
}
