/** What whole runs of one sliding window promise: greedy admission is a maximum, rejections, expiry and retries. */
module SlidingWindowRuns {
  import opened Wrappers
  import opened SlidingWindow

  // ---------------------------------------------------------------- maximality

  /** The requests at the positions marked true. */
  function Select(requests: seq<Event>, chosen: seq<bool>): (s: seq<Event>)
    requires |chosen| == |requests|
    ensures |s| <= |requests|
  {
    if requests == [] then []
    else
      var n := |requests| - 1;
      Select(requests[..n], chosen[..n]) + if chosen[n] then [requests[n]] else []
  }

  function Admitted(rule: Rule, requests: seq<Event>): (marks: seq<bool>)
    ensures |marks| == |requests|
  {
    var outcomes := Run(rule, requests).outcomes;
    seq(|requests|, i requires 0 <= i < |outcomes| => outcomes[i].admitted)
  }

  lemma WithinLimitOfPrefix(rule: Rule, events: seq<Event>, e: Event)
    requires WithinLimit(rule, events + [e])
    ensures WithinLimit(rule, events)
  {
    forall t ensures LastWindow(rule, events, t) <= rule.limit {
      InWindowSnoc(events, e, t - rule.window, t);
      assert LastWindow(rule, events + [e], t) <= rule.limit;
    }
  }

  /** How many requests come no later than the cutoff, in a run in clock order. */
  function Before(requests: seq<Event>, cutoff: int): (p: nat)
    ensures p <= |requests|
    ensures p > 0 ==> requests[p - 1].score <= cutoff
  {
    if requests == [] then 0
    else if requests[|requests| - 1].score <= cutoff then |requests|
    else Before(requests[..|requests| - 1], cutoff)
  }

  lemma {:induction false} NoneRecent(events: seq<Event>, cutoff: int)
    requires NoneAfter(events, cutoff)
    ensures Recent(events, cutoff) == []
  {
    if events != [] {
      NoneRecent(events[..|events| - 1], cutoff);
    }
  }

  /** Admissions split at a cutoff into those made by then and those a purge at the cutoff keeps. */
  lemma {:induction false} LogSplits(rule: Rule, requests: seq<Event>, cutoff: int)
    requires rule.Valid() && Requests(requests)
    ensures AdmittedBy(rule, requests, cutoff) == |Run(rule, requests[..Before(requests, cutoff)]).log|
    decreases |requests|
  {
    var p := Before(requests, cutoff);
    if p == |requests| {
      assert requests[..p] == requests;
      OldLog(rule, requests, cutoff);
    } else {
      hide AdmittedBy, Run;
      var n := |requests| - 1;
      var q, e := requests[..n], requests[n];
      assert requests == q + [e];
      RequestsPrefix(q, e);
      LogSplits(rule, q, cutoff);
      assert q[..p] == requests[..p];
      SplitStep(rule, q, e, cutoff);
    }
  }

  /** Admissions that a purge at the cutoff takes away. */
  function AdmittedBy(rule: Rule, requests: seq<Event>, cutoff: int): int {
    |Run(rule, requests).log| - |Recent(Run(rule, requests).log, cutoff)|
  }

  lemma SplitStep(rule: Rule, requests: seq<Event>, e: Event, cutoff: int)
    requires e.score > cutoff
    ensures AdmittedBy(rule, requests + [e], cutoff) == AdmittedBy(rule, requests, cutoff)
  {
    RunSnoc(rule, requests, e);
    RecentSnoc(Run(rule, requests).log, e, cutoff);
  }

  lemma OldLog(rule: Rule, requests: seq<Event>, cutoff: int)
    requires rule.Valid() && Requests(requests) && (requests == [] || Now(requests) <= cutoff)
    ensures Recent(Run(rule, requests).log, cutoff) == []
  {
    if requests != [] {
      StoredSetIsTheLastWindow(rule, requests);
      NoneRecent(Run(rule, requests).log, cutoff);
    }
  }

  lemma LastIsLatest(requests: seq<Event>, cutoff: int)
    requires Sorted(requests) && (requests == [] || requests[|requests| - 1].score <= cutoff)
    ensures NoneAfter(requests, cutoff)
  {}

  lemma SelectSnoc(requests: seq<Event>, chosen: seq<bool>, e: Event, mark: bool)
    requires |chosen| == |requests|
    ensures var s := Select(requests, chosen);
            Select(requests + [e], chosen + [mark]) == if mark then s + [e] else s
  {
    assert (requests + [e])[..|requests|] == requests && (chosen + [mark])[..|requests|] == chosen;
  }

  lemma SortedButLast(requests: seq<Event>)
    requires Sorted(requests) && requests != []
    ensures Sorted(requests[..|requests| - 1])
  {}

  lemma {:induction false} SelectionSplits(requests: seq<Event>, chosen: seq<bool>, cutoff: int, now: int)
    requires |chosen| == |requests| && NoneAfter(requests, now) && Sorted(requests)
    ensures var p := Before(requests, cutoff);
            |Select(requests, chosen)| ==
            |Select(requests[..p], chosen[..p])| + InWindow(Select(requests, chosen), cutoff, now)
    decreases |requests|
  {
    var p := Before(requests, cutoff);
    if p == |requests| {
      assert requests[..p] == requests && chosen[..p] == chosen;
      LastIsLatest(requests, cutoff);
      NothingLater(requests, chosen, cutoff, now);
    } else {
      hide InWindow, Sorted, Select, NoneAfter;
      var n := |requests| - 1;
      var q, e := requests[..n], requests[n];
      assert requests == q + [e] && chosen == chosen[..n] + [chosen[n]];
      SortedButLast(requests);
      AllBeforePrefix(requests, now);
      SelectionSplits(q, chosen[..n], cutoff, now);
      SelectionStep(q, chosen[..n], e, chosen[n], p, cutoff, now);
    }
  }

  lemma AllBeforePrefix(requests: seq<Event>, now: int)
    requires NoneAfter(requests, now) && requests != []
    ensures NoneAfter(requests[..|requests| - 1], now) && requests[|requests| - 1].score <= now
  {}

  lemma SelectionStep(requests: seq<Event>, chosen: seq<bool>, e: Event, mark: bool, p: nat, cutoff: int, now: int)
    requires |chosen| == |requests| && p <= |requests| && cutoff < e.score <= now
    requires |Select(requests, chosen)| ==
             |Select(requests[..p], chosen[..p])| + InWindow(Select(requests, chosen), cutoff, now)
    ensures var all, marks := requests + [e], chosen + [mark];
            |Select(all, marks)| == |Select(all[..p], marks[..p])| + InWindow(Select(all, marks), cutoff, now)
  {
    hide Select, InWindow;
    assert (requests + [e])[..p] == requests[..p] && (chosen + [mark])[..p] == chosen[..p];
    InWindowSnoc(Select(requests, chosen), e, cutoff, now);
    SelectSnoc(requests, chosen, e, mark);
  }

  lemma {:induction false} NothingLater(requests: seq<Event>, chosen: seq<bool>, cutoff: int, now: int)
    requires |chosen| == |requests| && NoneAfter(requests, cutoff)
    ensures InWindow(Select(requests, chosen), cutoff, now) == 0
  {
    if requests != [] {
      var n := |requests| - 1;
      NothingLater(requests[..n], chosen[..n], cutoff, now);
      assert requests == requests[..n] + [requests[n]] && chosen == chosen[..n] + [chosen[n]];
      InWindowSnoc(Select(requests[..n], chosen[..n]), requests[n], cutoff, now);
      SelectSnoc(requests[..n], chosen[..n], requests[n], chosen[n]);
    }
  }

  /** Any choice of requests that respects the limit is, at every point of the run, no larger than what was admitted. */
  lemma {:induction false} GreedyStaysAhead(rule: Rule, requests: seq<Event>, chosen: seq<bool>)
    requires rule.Valid() && Requests(requests) && |chosen| == |requests|
    requires WithinLimit(rule, Select(requests, chosen))
    ensures |Select(requests, chosen)| <= |Run(rule, requests).log|
    decreases |requests|, 0
  {
    if requests != [] {
      var n := |requests| - 1;
      var q, e := requests[..n], requests[n];
      assert requests == q + [e] && chosen == chosen[..n] + [chosen[n]];
      RequestsPrefix(q, e);
      var s := Select(q, chosen[..n]);
      assert Select(requests, chosen) == if chosen[n] then s + [e] else s;
      if chosen[n] {
        WithinLimitOfPrefix(rule, s, e);
      }
      GreedyStaysAhead(rule, q, chosen[..n]);
      RunSnoc(rule, q, e);
      if chosen[n] && !Run(rule, requests).outcomes[n].admitted {
        FullWindowIsPaidFor(rule, q, chosen[..n], e);
      }
    }
  }

  lemma {:induction false} SelectionOfPrefix(rule: Rule, requests: seq<Event>, chosen: seq<bool>, p: nat)
    requires p <= |requests| == |chosen| && WithinLimit(rule, Select(requests, chosen))
    ensures WithinLimit(rule, Select(requests[..p], chosen[..p]))
    decreases |requests|
  {
    if p == |requests| {
      assert requests[..p] == requests && chosen[..p] == chosen;
    } else {
      var n := |requests| - 1;
      var s := Select(requests[..n], chosen[..n]);
      assert Select(requests, chosen) == if chosen[n] then s + [requests[n]] else s;
      if chosen[n] {
        WithinLimitOfPrefix(rule, s, requests[n]);
      }
      SelectionOfPrefix(rule, requests[..n], chosen[..n], p);
      assert requests[..n][..p] == requests[..p] && chosen[..n][..p] == chosen[..p];
    }
  }

  /** When a request is rejected, the window that rejects it holds as much as any choice could have put there. */
  lemma {:induction false} FullWindowIsPaidFor(rule: Rule, requests: seq<Event>, chosen: seq<bool>, e: Event)
    requires rule.Valid() && Requests(requests + [e]) && |chosen| == |requests|
    requires WithinLimit(rule, Select(requests, chosen) + [e])
    requires !Admit(rule, Run(rule, requests).stored, e).1.admitted
    ensures |Select(requests, chosen)| + 1 <= |Run(rule, requests).log|
    decreases |requests|, 1
  {
    var cutoff := e.score - rule.window;
    var p := Before(requests, cutoff);
    RequestsPrefix(requests, e);
    assert |Select(requests[..p], chosen[..p])| <= |Run(rule, requests[..p]).log| by {
      SortedPrefix(requests, p);
      WithinLimitOfPrefix(rule, Select(requests, chosen), e);
      SelectionOfPrefix(rule, requests, chosen, p);
      GreedyStaysAhead(rule, requests[..p], chosen[..p]);
    }
    AdmittedInWindow(rule, requests, e, p);
    ChosenInWindow(rule, requests, chosen, e, p);
  }

  lemma AdmittedInWindow(rule: Rule, requests: seq<Event>, e: Event, p: nat)
    requires rule.Valid() && Requests(requests + [e]) && Requests(requests)
    requires p == Before(requests, e.score - rule.window)
    requires !Admit(rule, Run(rule, requests).stored, e).1.admitted
    ensures |Run(rule, requests).log| >= |Run(rule, requests[..p]).log| + rule.limit
  {
    hide Run, Admit;
    RejectedWindowIsFull(rule, requests, e);
    LogSplits(rule, requests, e.score - rule.window);
  }

  lemma ChosenInWindow(rule: Rule, requests: seq<Event>, chosen: seq<bool>, e: Event, p: nat)
    requires rule.Valid() && Sorted(requests + [e]) && Sorted(requests) && |chosen| == |requests|
    requires p == Before(requests, e.score - rule.window)
    requires WithinLimit(rule, Select(requests, chosen) + [e])
    ensures |Select(requests, chosen)| + 1 <= |Select(requests[..p], chosen[..p])| + rule.limit
  {
    var cutoff := e.score - rule.window;
    AllBefore(requests, e);
    hide Select, InWindow, Before, Sorted, NoneAfter;
    SelectionSplits(requests, chosen, cutoff, e.score);
    InWindowSnoc(Select(requests, chosen), e, cutoff, e.score);
    assert LastWindow(rule, Select(requests, chosen) + [e], e.score) <= rule.limit;
  }

  lemma AllBefore(requests: seq<Event>, e: Event)
    requires Sorted(requests + [e])
    ensures NoneAfter(requests, e.score)
  {
    assert forall i :: 0 <= i < |requests| ==> (requests + [e])[i] == requests[i];
    assert (requests + [e])[|requests|] == e;
  }

  lemma SortedPrefix(requests: seq<Event>, p: nat)
    requires Requests(requests) && p <= |requests|
    ensures Requests(requests[..p])
  {}

  lemma RejectedWindowIsFull(rule: Rule, requests: seq<Event>, e: Event)
    requires rule.Valid() && Requests(requests + [e])
    ensures Admit(rule, Run(rule, requests).stored, e).1.admitted <==>
            |Recent(Run(rule, requests).log, e.score - rule.window)| < rule.limit
  {
    var t := NextCall(rule, requests, e);
    AdmitSees(rule, t.log, t.stored, if requests == [] then e.score else Now(requests), e);
  }

  /** The facts AdmitSees asks for, at the next call of a run. */
  lemma NextCall(rule: Rule, requests: seq<Event>, e: Event) returns (t: Trace)
    requires rule.Valid() && Requests(requests + [e])
    ensures t == Run(rule, requests)
    ensures Tracks(rule, t.log, t.stored, if requests == [] then e.score else Now(requests))
    ensures requests != [] ==> Now(requests) <= e.score
    ensures Fresh(t.stored, e.member)
  {
    t := Run(rule, requests);
    RequestsPrefix(requests, e);
    StoredSetIsTheLastWindow(rule, requests);
    RunStaysFresh(rule, requests, t, e);
  }

  lemma {:induction false} LogIsSelection(rule: Rule, requests: seq<Event>)
    ensures Select(requests, Admitted(rule, requests)) == Run(rule, requests).log
    decreases |requests|
  {
    if requests != [] {
      var n := |requests| - 1;
      LogIsSelection(rule, requests[..n]);
      assert requests == requests[..n] + [requests[n]];
      assert Admitted(rule, requests)[..n] == Admitted(rule, requests[..n]);
    }
  }

  /**
   Admission is maximal: what was admitted respects the limit in every window, and no set of requests that does
   is larger.
   */
  lemma AdmissionIsMaximum(rule: Rule, requests: seq<Event>)
    requires rule.Valid() && Requests(requests)
    ensures var admitted := Admitted(rule, requests);
            && WithinLimit(rule, Select(requests, admitted))
            && forall chosen :: |chosen| == |requests| && WithinLimit(rule, Select(requests, chosen)) ==>
                 |Select(requests, chosen)| <= |Select(requests, admitted)|
  {
    LogIsSelection(rule, requests);
    StoredSetIsTheLastWindow(rule, requests);
    forall chosen | |chosen| == |requests| && WithinLimit(rule, Select(requests, chosen))
      ensures |Select(requests, chosen)| <= |Select(requests, Admitted(rule, requests))|
    {
      GreedyStaysAhead(rule, requests, chosen);
    }
  }

  // ---------------------------------------------------------------- rejected calls

  /** A call's outcome and what it leaves depend on the log alone. */
  lemma SameLogSameCall(rule: Rule, a: seq<Event>, b: seq<Event>, e: Event)
    requires rule.Valid() && Requests(a + [e]) && Requests(b + [e])
    requires Run(rule, a).log == Run(rule, b).log
    ensures Admit(rule, Run(rule, a).stored, e) == Admit(rule, Run(rule, b).stored, e)
  {
    var s := NextCall(rule, a, e);
    var t := NextCall(rule, b, e);
    hide *;
    AdmitSees(rule, s.log, s.stored, if a == [] then e.score else Now(a), e);
    AdmitSees(rule, t.log, t.stored, if b == [] then e.score else Now(b), e);
  }

  lemma WithoutOne(before: seq<Event>, c: Event, after: seq<Event>)
    requires Requests(before + [c] + after)
    ensures Requests(before + after)
  {
    var all, less := before + [c] + after, before + after;
    forall i, j | 0 <= i < j < |less|
      ensures less[i].score <= less[j].score && less[i].member != less[j].member
    {
      var i' := if i < |before| then i else i + 1;
      var j' := if j < |before| then j else j + 1;
      assert all[i'] == less[i] && all[j'] == less[j];
    }
  }

  /** The outcomes of one run are those of another with the one at n left out. */
  ghost predicate SkipsOne(with: Trace, without: Trace, n: nat) {
    && with.log == without.log && n < |with.outcomes|
    && with.outcomes[..n] + with.outcomes[n + 1..] == without.outcomes
  }

  lemma SkippedThenCall(rule: Rule, p: seq<Event>, q: seq<Event>, n: nat, e: Event)
    requires rule.Valid() && Requests(p + [e]) && Requests(q + [e])
    requires SkipsOne(Run(rule, p), Run(rule, q), n)
    ensures SkipsOne(Run(rule, p + [e]), Run(rule, q + [e]), n)
    ensures Run(rule, p + [e]).stored == Run(rule, q + [e]).stored
  {
    hide Run, Admit, Requests;
    SameLogSameCall(rule, p, q, e);
    RunSnoc(rule, p, e);
    RunSnoc(rule, q, e);
    DropAt(Run(rule, p).outcomes, Run(rule, q).outcomes, n, Admit(rule, Run(rule, q).stored, e).1);
  }

  /**
   Rejected calls are unobservable: taking a rejected call out of a run leaves every other call's
   decision, retry hint and remaining count as it was.
   */
  lemma {:induction false} RejectedCallIsUnobservable(rule: Rule, before: seq<Event>, c: Event, after: seq<Event>)
    requires rule.Valid() && Requests(before + [c] + after)
    requires !Run(rule, before + [c]).outcomes[|before|].admitted
    ensures var n := |before|;
            var with, without := Run(rule, before + [c] + after), Run(rule, before + after);
            && with.log == without.log
            && with.outcomes[..n] + with.outcomes[n + 1..] == without.outcomes
            && (after != [] ==> with.stored == without.stored)
    decreases |after|
  {
    hide Admit, Run;
    if after == [] {
      assert before + [c] + after == before + [c] && before + after == before;
      RunSnoc(rule, before, c);
    } else {
      var m := |after| - 1;
      var early, e := after[..m], after[m];
      assert before + [c] + after == (before + [c] + early) + [e];
      assert before + after == (before + early) + [e];
      RequestsPrefix(before + [c] + early, e);
      WithoutOne(before, c, after);
      hide Requests;
      RejectedCallIsUnobservable(rule, before, c, early);
      SkippedThenCall(rule, before + [c] + early, before + early, |before|, e);
    }
  }

  lemma DropAt<T>(with: seq<T>, without: seq<T>, n: nat, last: T)
    requires n < |with| && with[..n] + with[n + 1..] == without
    ensures (with + [last])[..n] + (with + [last])[n + 1..] == without + [last]
  {
    assert (with + [last])[n + 1..] == with[n + 1..] + [last];
  }

  // ---------------------------------------------------------------- key expiry

  /** A call, and whether the key had expired before it. */
  datatype Call = Call(request: Event, expired: bool)

  function Calls(calls: seq<Call>): (requests: seq<Event>)
    ensures |requests| == |calls|
  {
    seq(|calls|, i requires 0 <= i < |calls| => calls[i].request)
  }

  function RunExpiring(rule: Rule, calls: seq<Call>): (t: Trace)
    ensures |t.outcomes| == |calls|
  {
    if calls == [] then Trace([], [], [])
    else
      var n := |calls| - 1;
      var before := RunExpiring(rule, calls[..n]);
      var (stored, outcome) := Admit(rule, if calls[n].expired then [] else before.stored, calls[n].request);
      Trace(stored, Extended(before.log, calls[n].request, outcome.admitted), before.outcomes + [outcome])
  }

  /** Only an admission renews the key, for window milliseconds. */
  predicate LapsedSince(rule: Rule, log: seq<Event>, now: int) {
    log == [] || log[|log| - 1].score + rule.window <= now
  }

  ghost predicate ExpiresOnTime(rule: Rule, calls: seq<Call>) {
    forall j :: 0 <= j < |calls| && calls[j].expired ==>
      LapsedSince(rule, RunExpiring(rule, calls[..j]).log, calls[j].request.score)
  }

  lemma LapsedLogIsOld(rule: Rule, log: seq<Event>, now: int)
    requires Sorted(log)
    ensures LapsedSince(rule, log, now) <==> Recent(log, now - rule.window) == []
  {
    if LapsedSince(rule, log, now) {
      LastIsLatest(log, now - rule.window);
      NoneRecent(log, now - rule.window);
    }
  }

  /** Losing the set before a call goes unnoticed exactly when the last admission has left the window. */
  lemma DropIsUnobservable(rule: Rule, requests: seq<Event>, e: Event)
    requires rule.Valid() && Requests(requests + [e])
    ensures var t := Run(rule, requests);
            && (Admit(rule, [], e).1 == Admit(rule, t.stored, e).1 <==> LapsedSince(rule, t.log, e.score))
            && (LapsedSince(rule, t.log, e.score) ==> Admit(rule, [], e) == Admit(rule, t.stored, e))
  {
    hide Recent, Run, Admit, AdmitInto, WithinLimit, LapsedSince;
    var t := NextCall(rule, requests, e);
    LapsedLogIsOld(rule, t.log, e.score);
    AdmitSees(rule, t.log, t.stored, if requests == [] then e.score else Now(requests), e);
    AdmitEmpty(rule, e);
  }

  lemma AdmitEmpty(rule: Rule, e: Event)
    requires rule.Valid()
    ensures Admit(rule, [], e) == ([e], Outcome(true, rule.limit - 1, 0))
    ensures AdmitInto(rule, [], e) == Admit(rule, [], e)
  {
    assert Insert([], e) == [e];
  }

  lemma OnTimePrefix(rule: Rule, calls: seq<Call>)
    requires ExpiresOnTime(rule, calls) && calls != []
    ensures var n := |calls| - 1;
            && ExpiresOnTime(rule, calls[..n])
            && (calls[n].expired ==> LapsedSince(rule, RunExpiring(rule, calls[..n]).log, calls[n].request.score))
  {
    hide RunExpiring, LapsedSince;
    assert forall j :: 0 <= j < |calls| - 1 ==> calls[..|calls| - 1][..j] == calls[..j];
  }

  /** A store whose keys expire on time answers as one whose keys never expire. */
  lemma {:induction false} ExpiryIsTransparent(rule: Rule, calls: seq<Call>)
    requires rule.Valid() && Requests(Calls(calls)) && ExpiresOnTime(rule, calls)
    ensures RunExpiring(rule, calls) == Run(rule, Calls(calls))
    decreases |calls|
  {
    if calls != [] {
      hide Run, Admit, Requests, ExpiresOnTime, LapsedSince, Recent;
      var n := |calls| - 1;
      var p := calls[..n];
      assert Calls(calls) == Calls(p) + [calls[n].request];
      RequestsPrefix(Calls(p), calls[n].request);
      OnTimePrefix(rule, calls);
      ExpiryIsTransparent(rule, p);
      RunSnoc(rule, Calls(p), calls[n].request);
      if calls[n].expired {
        DropIsUnobservable(rule, Calls(p), calls[n].request);
      }
    }
  }

  // ---------------------------------------------------------------- retry hints

  ghost predicate RejectedFrom(outcomes: seq<Outcome>, n: int) {
    forall i :: 0 <= n <= i < |outcomes| ==> !outcomes[i].admitted
  }

  lemma {:induction false} RejectionsKeepLog(rule: Rule, before: seq<Event>, polls: seq<Event>)
    requires RejectedFrom(Run(rule, before + polls).outcomes, |before|)
    ensures Run(rule, before + polls).log == Run(rule, before).log
    ensures polls != [] ==> Run(rule, before + polls).outcomes[|before|] ==
                            Admit(rule, Run(rule, before).stored, polls[0]).1
    ensures polls != [] ==> !Run(rule, before + polls).outcomes[|before|].admitted
    decreases |polls|
  {
    if polls == [] {
      assert before + polls == before;
    } else {
      var n := |polls| - 1;
      var early, last := polls[..n], polls[n];
      assert before + polls == before + early + [last];
      var outcomes := Run(rule, before + polls).outcomes;
      RunSnoc(rule, before + early, last);
      assert !outcomes[|before| + n].admitted;
      hide Run, Admit;
      forall i | |before| <= i < |before| + n ensures !Run(rule, before + early).outcomes[i].admitted {
        assert Run(rule, before + early).outcomes[i] == outcomes[i];
      }
      RejectionsKeepLog(rule, before, early);
      if n == 0 {
        assert before + early == before;
      }
    }
  }

  lemma {:induction false} PurgeReachesOldest(events: seq<Event>, cutoff: int)
    requires Sorted(events) && events != []
    ensures |Recent(events, cutoff)| < |events| <==> events[0].score <= cutoff
  {
    if |events| > 1 {
      PurgeReachesOldest(events[..|events| - 1], cutoff);
    }
  }

  /** A full window frees a place exactly when its oldest event leaves it. */
  lemma WaitIsExact(rule: Rule, log: seq<Event>, now: int, later: int)
    requires rule.Valid() && Sorted(log) && NoneAfter(log, now) && WithinLimit(rule, log) && now <= later
    requires |Recent(log, now - rule.window)| >= rule.limit
    ensures var live := Recent(log, now - rule.window);
            && now - rule.window < live[0].score <= now
            && (|Recent(log, later - rule.window)| < rule.limit <==> live[0].score + rule.window <= later)
  {
    hide Recent, InWindow, Among, Tracks, WithinLimit, LastWindow, Sorted, NoneAfter;
    var live := Recent(log, now - rule.window);
    TracksAfterRejection(rule, log, now);
    RecentOldest(rule, log, now);
    RecentSorted(log, now - rule.window);
    RecentOfRecent(log, now - rule.window, later - rule.window);
    PurgeReachesOldest(live, later - rule.window);
  }

  lemma RecentOldest(rule: Rule, log: seq<Event>, now: int)
    requires NoneAfter(log, now)
    ensures var live := Recent(log, now - rule.window);
            forall i :: 0 <= i < |live| ==> now - rule.window < live[i].score <= now
  {
    RecentAmong(log, now - rule.window);
  }

  /** The hint of a rejection is the time until the oldest live event leaves the window. */
  lemma HintOf(rule: Rule, requests: seq<Event>, e: Event)
    requires rule.Valid() && Requests(requests + [e])
    requires !Admit(rule, Run(rule, requests).stored, e).1.admitted
    ensures var log := Run(rule, requests).log;
            var live := Recent(log, e.score - rule.window);
            && |live| >= rule.limit
            && Admit(rule, Run(rule, requests).stored, e).1.retryMs == live[0].score + rule.window - e.score
            && Sorted(log) && NoneAfter(log, e.score) && WithinLimit(rule, log)
  {
    var t := NextCall(rule, requests, e);
    var now := if requests == [] then e.score else Now(requests);
    hide Run, Admit, Recent, WithinLimit;
    AdmitSees(rule, t.log, t.stored, now, e);
    TracksLater(rule, t.log, t.stored, now, e.score);
  }

  /**
   After a rejection (the first of polls), while no call is admitted,
   a call succeeds exactly when at least the hinted wait has passed.
   */
  lemma RetryHintIsExact(rule: Rule, before: seq<Event>, polls: seq<Event>, e: Event)
    requires rule.Valid() && polls != [] && Requests(before + polls + [e])
    requires RejectedFrom(Run(rule, before + polls).outcomes, |before|)
    ensures var hint := Run(rule, before + polls).outcomes[|before|].retryMs;
            && 1 <= hint <= rule.window
            && (Run(rule, before + polls + [e]).outcomes[|before + polls|].admitted
                <==> e.score >= polls[0].score + hint)
  {
    hide *;
    var all := before + polls;
    RejectionsKeepLog(rule, before, polls);
    FirstOf(before, polls, e);
    HintOf(rule, before, polls[0]);
    WaitIsExact(rule, Run(rule, before).log, polls[0].score, e.score);
    RejectedWindowIsFull(rule, all, e);
    RunSnoc(rule, all, e);
  }

  lemma FirstOf(before: seq<Event>, polls: seq<Event>, e: Event)
    requires polls != [] && Requests(before + polls + [e])
    ensures Requests(before + [polls[0]]) && polls[0].score <= e.score
  {
    var all := before + polls + [e];
    assert (before + [polls[0]]) == all[..|before| + 1];
    SortedPrefix(all, |before| + 1);
    assert all[|before|] == polls[0] && all[|all| - 1] == e;
  }
}
