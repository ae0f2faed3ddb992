/** The sliding-window limiter on one sorted set, and what whole runs of it promise. */
module SlidingWindow {
  import opened Wrappers

  /** A member of the sorted set; as a request, its score is the time of the call. */
  datatype Event = Event(score: int, member: string)

  /** At most limit admissions in any window of the given length in milliseconds. */
  datatype Rule = Rule(limit: int, window: int) {
    predicate Valid() {
      limit > 0 && window > 0
    }
  }

  datatype Outcome = Outcome(admitted: bool, remaining: int, retryMs: int)

  /** Scores in ascending order, as the sorted set keeps them. */
  ghost predicate Sorted(events: seq<Event>) {
    forall i, j :: 0 <= i <= j < |events| ==> events[i].score <= events[j].score
  }

  ghost predicate NoneAfter(events: seq<Event>, now: int) {
    forall i :: 0 <= i < |events| ==> events[i].score <= now
  }

  ghost predicate DistinctMembers(events: seq<Event>) {
    forall i, j :: 0 <= i < j < |events| ==> events[i].member != events[j].member
  }

  /** ZREMRANGEBYSCORE key -inf cutoff: what is left has scores above the cutoff. */
  function Recent(events: seq<Event>, cutoff: int): (kept: seq<Event>)
    ensures |kept| <= |events|
  {
    if events == [] then []
    else
      var n := |events| - 1;
      Recent(events[..n], cutoff) + if events[n].score > cutoff then [events[n]] else []
  }

  ghost predicate Fresh(events: seq<Event>, member: string) {
    forall i :: 0 <= i < |events| ==> events[i].member != member
  }

  function Without(events: seq<Event>, member: string): (kept: seq<Event>)
    ensures Fresh(events, member) ==> kept == events
  {
    if events == [] then []
    else
      var n := |events| - 1;
      Without(events[..n], member) + if events[n].member != member then [events[n]] else []
  }

  /** ZADD: a member has one score, and the set stays in score order. */
  function Insert(events: seq<Event>, e: Event): seq<Event> {
    if events == [] || events[|events| - 1].score <= e.score then events + [e]
    else Insert(events[..|events| - 1], e) + [events[|events| - 1]]
  }

  /** The admit function of the script: purge, count, then either reject with a hint or add the member. */
  function Admit(rule: Rule, stored: seq<Event>, e: Event): (seq<Event>, Outcome) {
    AdmitInto(rule, Recent(stored, e.score - rule.window), e)
  }

  function AdmitInto(rule: Rule, live: seq<Event>, e: Event): (seq<Event>, Outcome) {
    if |live| >= rule.limit then
      var retry := if live == [] then rule.window else live[0].score + rule.window - e.score;
      (live, Outcome(false, 0, Max(1, retry)))
    else
      (Insert(Without(live, e.member), e), Outcome(true, rule.limit - |live| - 1, 0))
  }

  // ---------------------------------------------------------------- windows over a log of events

  /** How many events have lo < score <= hi. */
  function InWindow(events: seq<Event>, lo: int, hi: int): (n: nat)
    ensures n <= |events|
  {
    if events == [] then 0
    else InWindow(events[..|events| - 1], lo, hi) + if lo < events[|events| - 1].score <= hi then 1 else 0
  }

  /** How many events the window (t - window, t] holds. */
  function LastWindow(rule: Rule, events: seq<Event>, t: int): nat {
    InWindow(events, t - rule.window, t)
  }

  /** The strict bound: no window (t - window, t] holds more than limit events. */
  ghost predicate WithinLimit(rule: Rule, events: seq<Event>) {
    forall t :: LastWindow(rule, events, t) <= rule.limit
  }

  lemma RecentSnoc(events: seq<Event>, e: Event, cutoff: int)
    ensures Recent(events + [e], cutoff) == Recent(events, cutoff) + if e.score > cutoff then [e] else []
  {
    assert (events + [e])[..|events|] == events;
  }

  lemma InWindowSnoc(events: seq<Event>, e: Event, lo: int, hi: int)
    ensures InWindow(events + [e], lo, hi) == InWindow(events, lo, hi) + if lo < e.score <= hi then 1 else 0
  {
    assert (events + [e])[..|events|] == events;
  }

  ghost predicate Among(events: seq<Event>, others: seq<Event>) {
    forall i :: 0 <= i < |events| ==> events[i] in others
  }

  lemma {:induction false} RecentAmong(events: seq<Event>, cutoff: int)
    ensures Among(Recent(events, cutoff), events)
    ensures forall i :: 0 <= i < |Recent(events, cutoff)| ==> Recent(events, cutoff)[i].score > cutoff
  {
    if events != [] {
      RecentAmong(events[..|events| - 1], cutoff);
    }
  }

  /** A purge keeps exactly the events above the cutoff. */
  lemma {:induction false} RecentIsExact(events: seq<Event>, cutoff: int, x: Event)
    ensures x in Recent(events, cutoff) <==> x in events && x.score > cutoff
  {
    if events != [] {
      var n := |events| - 1;
      assert events == events[..n] + [events[n]];
      RecentIsExact(events[..n], cutoff, x);
    }
  }

  lemma {:induction false} WithoutIsExact(events: seq<Event>, member: string, x: Event)
    ensures x in Without(events, member) <==> x in events && x.member != member
  {
    if events != [] {
      var n := |events| - 1;
      assert events == events[..n] + [events[n]];
      WithoutIsExact(events[..n], member, x);
    }
  }

  lemma {:induction false} InsertIsExact(events: seq<Event>, e: Event, x: Event)
    ensures x in Insert(events, e) <==> x == e || x in events
    ensures |Insert(events, e)| == |events| + 1
  {
    if events != [] && events[|events| - 1].score > e.score {
      var n := |events| - 1;
      assert events == events[..n] + [events[n]];
      InsertIsExact(events[..n], e, x);
    }
  }

  lemma {:induction false} InsertSorts(events: seq<Event>, e: Event)
    requires Sorted(events)
    ensures Sorted(Insert(events, e))
  {
    if events != [] && events[|events| - 1].score > e.score {
      var n := |events| - 1;
      InsertSorts(events[..n], e);
      forall i | 0 <= i < |Insert(events[..n], e)| ensures Insert(events[..n], e)[i].score <= events[n].score {
        InsertIsExact(events[..n], e, Insert(events[..n], e)[i]);
      }
    }
  }

  lemma {:induction false} RecentOfRecent(events: seq<Event>, a: int, b: int)
    requires a <= b
    ensures Recent(Recent(events, a), b) == Recent(events, b)
  {
    if events != [] {
      var n := |events| - 1;
      RecentOfRecent(events[..n], a, b);
      if events[n].score > a {
        RecentSnoc(Recent(events[..n], a), events[n], b);
      } else {
        assert Recent(events, a) == Recent(events[..n], a);
        assert Recent(events, b) == Recent(events[..n], b);
      }
    }
  }

  lemma {:induction false} RecentSorted(events: seq<Event>, cutoff: int)
    requires Sorted(events)
    ensures Sorted(Recent(events, cutoff))
  {
    if events != [] {
      var n := |events| - 1;
      RecentSorted(events[..n], cutoff);
      RecentAmong(events[..n], cutoff);
    }
  }

  /** With nothing later than hi, the window (lo, hi] holds just what purging at lo keeps. */
  lemma {:induction false} RecentIsWindow(events: seq<Event>, lo: int, hi: int)
    requires NoneAfter(events, hi)
    ensures |Recent(events, lo)| == InWindow(events, lo, hi)
  {
    if events != [] {
      RecentIsWindow(events[..|events| - 1], lo, hi);
    }
  }

  /** A window that starts later and reaches no later than hi holds no more. */
  lemma {:induction false} NarrowerWindow(events: seq<Event>, lo: int, lo': int, hi: int, hi': int)
    requires lo <= lo' && (hi' <= hi || NoneAfter(events, hi))
    ensures InWindow(events, lo', hi') <= InWindow(events, lo, hi)
  {
    if events != [] {
      NarrowerWindow(events[..|events| - 1], lo, lo', hi, hi');
    }
  }

  // ---------------------------------------------------------------- one admission keeps this invariant

  /**
   Against the log of everything ever admitted, at a clock reading now: the log is in order and within the limit,
   and the stored set holds the part of it that any later call can still see.
   */
  ghost predicate Tracks(rule: Rule, log: seq<Event>, stored: seq<Event>, now: int) {
    && Sorted(log) && NoneAfter(log, now) && WithinLimit(rule, log)
    && Recent(stored, now - rule.window) == Recent(log, now - rule.window)
  }

  function Extended(log: seq<Event>, e: Event, admitted: bool): seq<Event> {
    if admitted then log + [e] else log
  }

  lemma TracksLater(rule: Rule, log: seq<Event>, stored: seq<Event>, now: int, later: int)
    requires Tracks(rule, log, stored, now) && now <= later
    ensures Tracks(rule, log, stored, later)
  {
    hide Recent, WithinLimit, Sorted;
    RecentOfRecent(log, now - rule.window, later - rule.window);
    RecentOfRecent(stored, now - rule.window, later - rule.window);
  }

  lemma AppendSorted(log: seq<Event>, e: Event)
    requires Sorted(log) && NoneAfter(log, e.score)
    ensures Sorted(log + [e]) && NoneAfter(log + [e], e.score)
  {}

  /** Admitting into a window with room keeps every window, past and future, within the limit. */
  lemma RoomKeepsLimit(rule: Rule, log: seq<Event>, e: Event)
    requires rule.Valid() && Sorted(log) && NoneAfter(log, e.score) && WithinLimit(rule, log)
    requires |Recent(log, e.score - rule.window)| < rule.limit
    ensures WithinLimit(rule, log + [e])
  {
    forall t ensures LastWindow(rule, log + [e], t) <= rule.limit {
      InWindowSnoc(log, e, t - rule.window, t);
      assert LastWindow(rule, log, t) <= rule.limit;
      if t - rule.window < e.score <= t {
        NarrowerWindow(log, e.score - rule.window, t - rule.window, e.score, t);
        RecentIsWindow(log, e.score - rule.window, e.score);
      }
    }
  }

  /** Purging keeps only events that were there, so a fresh member stays fresh and ZADD appends. */
  lemma InsertAppends(live: seq<Event>, e: Event)
    requires Fresh(live, e.member) && NoneAfter(live, e.score)
    ensures Insert(Without(live, e.member), e) == live + [e]
  {}

  lemma AdmitIntoSees(rule: Rule, live: seq<Event>, e: Event)
    requires rule.Valid() && NoneAfter(live, e.score) && Fresh(live, e.member)
    requires forall i :: 0 <= i < |live| ==> live[i].score > e.score - rule.window
    ensures AdmitInto(rule, live, e) ==
            if |live| < rule.limit then (live + [e], Outcome(true, rule.limit - |live| - 1, 0))
            else (live, Outcome(false, 0, live[0].score + rule.window - e.score))
  {
    InsertAppends(live, e);
  }

  /** What a call finds after purging, seen from the log. */
  lemma Live(rule: Rule, log: seq<Event>, stored: seq<Event>, now: int, e: Event)
    requires rule.Valid() && Tracks(rule, log, stored, now) && now <= e.score && Fresh(stored, e.member)
    ensures var live := Recent(log, e.score - rule.window);
            && live == Recent(stored, e.score - rule.window)
            && Admit(rule, stored, e) == AdmitInto(rule, live, e)
            && Sorted(live) && NoneAfter(live, e.score) && Fresh(live, e.member)
            && (forall i :: 0 <= i < |live| ==> live[i].score > e.score - rule.window)
            && NoneAfter(log, e.score)
  {
    hide Recent, AdmitInto, WithinLimit;
    var cutoff := e.score - rule.window;
    TracksLater(rule, log, stored, now, e.score);
    RecentSorted(log, cutoff);
    RecentBounds(log, cutoff, e.score);
    RecentFresh(stored, cutoff, e.member);
  }

  lemma RecentBounds(events: seq<Event>, cutoff: int, now: int)
    requires NoneAfter(events, now)
    ensures var live := Recent(events, cutoff);
            NoneAfter(live, now) && forall i :: 0 <= i < |live| ==> live[i].score > cutoff
  {
    RecentAmong(events, cutoff);
  }

  lemma RecentFresh(events: seq<Event>, cutoff: int, member: string)
    requires Fresh(events, member)
    ensures Fresh(Recent(events, cutoff), member)
  {
    RecentAmong(events, cutoff);
  }

  /** What one call does, in terms of the events still in its window. */
  lemma AdmitSees(rule: Rule, log: seq<Event>, stored: seq<Event>, now: int, e: Event)
    requires rule.Valid() && Tracks(rule, log, stored, now) && now <= e.score && Fresh(stored, e.member)
    ensures var live := Recent(log, e.score - rule.window);
            && AdmitInto(rule, live, e) == Admit(rule, stored, e)
            && (|live| < rule.limit ==>
                  Admit(rule, stored, e) == (live + [e], Outcome(true, rule.limit - |live| - 1, 0)))
            && (|live| >= rule.limit ==>
                  Admit(rule, stored, e) == (live, Outcome(false, 0, live[0].score + rule.window - e.score)))
  {
    Live(rule, log, stored, now, e);
    AdmitIntoSees(rule, Recent(log, e.score - rule.window), e);
  }

  lemma TracksAfterAdmission(rule: Rule, log: seq<Event>, e: Event)
    requires rule.Valid() && Sorted(log) && NoneAfter(log, e.score) && WithinLimit(rule, log)
    requires |Recent(log, e.score - rule.window)| < rule.limit
    ensures var live := Recent(log, e.score - rule.window);
            && Tracks(rule, log + [e], live + [e], e.score)
            && live + [e] == Recent(log + [e], e.score - rule.window)
  {
    var cutoff := e.score - rule.window;
    AppendSorted(log, e);
    RoomKeepsLimit(rule, log, e);
    assert Recent(log + [e], cutoff) == Recent(log, cutoff) + [e] by {
      RecentSnoc(log, e, cutoff);
    }
    assert Recent(Recent(log, cutoff) + [e], cutoff) == Recent(log, cutoff) + [e] by {
      RecentOfRecent(log, cutoff, cutoff);
      RecentSnoc(Recent(log, cutoff), e, cutoff);
    }
  }

  lemma TracksAfterRejection(rule: Rule, log: seq<Event>, now: int)
    requires rule.Valid() && Sorted(log) && NoneAfter(log, now) && WithinLimit(rule, log)
    ensures var live := Recent(log, now - rule.window);
            && Tracks(rule, log, live, now)
            && |live| <= rule.limit
  {
    hide Recent, InWindow, Sorted;
    RecentOfRecent(log, now - rule.window, now - rule.window);
    RecentIsWindow(log, now - rule.window, now);
    assert LastWindow(rule, log, now) <= rule.limit;
  }

  /** After a call at e.score the stored set is exactly the admitted events of the last window. */
  lemma AdmitTracks(rule: Rule, log: seq<Event>, stored: seq<Event>, now: int, e: Event)
    requires rule.Valid() && Tracks(rule, log, stored, now) && now <= e.score && Fresh(stored, e.member)
    ensures var (stored', outcome) := Admit(rule, stored, e);
            var log' := Extended(log, e, outcome.admitted);
            && outcome.admitted == (|Recent(log, e.score - rule.window)| < rule.limit)
            && Tracks(rule, log', stored', e.score)
            && stored' == Recent(log', e.score - rule.window)
            && |stored'| <= rule.limit
  {
    assert NoneAfter(log, e.score);
    hide Admit, Recent, WithinLimit, Sorted, NoneAfter, Fresh;
    AdmitSees(rule, log, stored, now, e);
    if |Recent(log, e.score - rule.window)| < rule.limit {
      TracksAfterAdmission(rule, log, e);
    } else {
      TracksAfterRejection(rule, log, e.score);
    }
  }

  // ---------------------------------------------------------------- runs on one key

  datatype Trace = Trace(stored: seq<Event>, log: seq<Event>, outcomes: seq<Outcome>)

  /** Requests on one key, oldest first; log lists the admitted ones. */
  function Run(rule: Rule, requests: seq<Event>): (t: Trace)
    ensures |t.outcomes| == |requests|
  {
    if requests == [] then Trace([], [], [])
    else
      var n := |requests| - 1;
      var before := Run(rule, requests[..n]);
      var (stored, outcome) := Admit(rule, before.stored, requests[n]);
      Trace(stored, Extended(before.log, requests[n], outcome.admitted), before.outcomes + [outcome])
  }

  /** Calls in clock order, each with a member of its own. */
  ghost predicate Requests(requests: seq<Event>) {
    Sorted(requests) && DistinctMembers(requests)
  }

  lemma RunSnoc(rule: Rule, requests: seq<Event>, e: Event)
    ensures var before := Run(rule, requests);
            var (stored, outcome) := Admit(rule, before.stored, e);
            Run(rule, requests + [e]) ==
            Trace(stored, Extended(before.log, e, outcome.admitted), before.outcomes + [outcome])
  {
    assert (requests + [e])[..|requests|] == requests;
  }

  /** The clock reading of the last call. */
  function Now(requests: seq<Event>): int {
    if requests == [] then 0 else requests[|requests| - 1].score
  }

  /** What every run keeps, stated at its last call. */
  ghost predicate TracksRun(rule: Rule, requests: seq<Event>, t: Trace) {
    && Tracks(rule, t.log, t.stored, Now(requests))
    && t.stored == Recent(t.log, Now(requests) - rule.window)
    && |t.stored| <= rule.limit
    && Among(t.log, requests)
  }

  lemma RunStaysFresh(rule: Rule, requests: seq<Event>, t: Trace, e: Event)
    requires TracksRun(rule, requests, t) && DistinctMembers(requests + [e])
    ensures Fresh(t.stored, e.member)
  {
    RecentAmong(t.log, Now(requests) - rule.window);
    forall i | 0 <= i < |t.stored| ensures t.stored[i].member != e.member {
      assert t.stored[i] in requests;
      var k :| 0 <= k < |requests| && requests[k] == t.stored[i];
      assert (requests + [e])[k].member != (requests + [e])[|requests|].member;
    }
  }

  lemma AmongGrows(log: seq<Event>, requests: seq<Event>, e: Event, admitted: bool)
    requires Among(log, requests)
    ensures Among(Extended(log, e, admitted), requests + [e])
  {}

  lemma RequestsPrefix(requests: seq<Event>, e: Event)
    requires Requests(requests + [e])
    ensures Requests(requests) && (requests != [] ==> Now(requests) <= e.score)
  {
    var all := requests + [e];
    assert forall i :: 0 <= i < |requests| ==> all[i] == requests[i];
    assert all[|requests|] == e;
  }

  /**
   On every run: the stored set after a call is exactly the admitted events in (now - window, now], it never holds
   more than limit, and no window of the whole history holds more than limit admissions.
   */
  lemma {:induction false} StoredSetIsTheLastWindow(rule: Rule, requests: seq<Event>)
    requires rule.Valid() && Requests(requests)
    ensures TracksRun(rule, requests, Run(rule, requests))
    decreases |requests|
  {
    if requests == [] {
      assert WithinLimit(rule, []);
    } else {
      var n := |requests| - 1;
      var p, e := requests[..n], requests[n];
      assert requests == p + [e];
      RequestsPrefix(p, e);
      StoredSetIsTheLastWindow(rule, p);
      NextCallTracks(rule, p, e);
    }
  }

  lemma NextCallTracks(rule: Rule, requests: seq<Event>, e: Event)
    requires rule.Valid() && TracksRun(rule, requests, Run(rule, requests)) && DistinctMembers(requests + [e])
    requires requests != [] ==> Now(requests) <= e.score
    ensures TracksRun(rule, requests + [e], Run(rule, requests + [e]))
  {
    hide Run, Admit, Tracks, Recent, Among, DistinctMembers;
    var before := Run(rule, requests);
    RunStaysFresh(rule, requests, before, e);
    var now := if requests == [] then e.score else Now(requests);
    assert Tracks(rule, before.log, before.stored, now) by {
      if requests == [] {
        EmptyRun(rule, e.score);
      }
    }
    AdmitTracks(rule, before.log, before.stored, now, e);
    RunSnoc(rule, requests, e);
    AmongGrows(before.log, requests, e, Admit(rule, before.stored, e).1.admitted);
  }

  lemma EmptyRun(rule: Rule, now: int)
    ensures rule.Valid() ==> Tracks(rule, Run(rule, []).log, Run(rule, []).stored, now)
  {
    assert rule.Valid() ==> WithinLimit(rule, []);
  }
}
