/** OAuth states: concurrent Authorize and HandleCallback over the shared records. */
module OAuthProtocol {
  import opened Wrappers
  import opened OneTimeRecords

  /** SHA-256 is any function from browser bindings to digests. */
  type Hash = string -> string

  /**
   A state stored for a flow with a provider; the binding is the browser cookie and the verifier behind the redirect
   URL. Of all this only the state and the hash of the binding are stored.
   */
  datatype Authorization = Authorization(provider: string, state: string, binding: string)

  /** A code exchanged with the provider that the callback names, with the binding it presented as verifier. */
  datatype Exchange = Exchange(provider: string, state: string, code: string, binding: string)

  /** Where one request stands. */
  datatype Pc =
    | Idle
    | Storing(authorization: Authorization)
    | Consuming(exchange: Exchange)
    | Exchanging(exchange: Exchange)

  datatype State = State(
    providers: set<string>,
    records: Records,
    log: seq<Event>,
    requests: map<nat, Pc>,
    authorized: seq<Authorization>,
    exchanges: seq<Exchange>)
  {
    function At(r: nat): Pc {
      if r in requests then requests[r] else Idle
    }
  }

  /** Calls for an unknown provider, or without a binding, end before they reach the store. */
  datatype Step =
    | CallAuthorize(r: nat, authorization: Authorization)
    | StoreState(r: nat, link: Link)
    | CallCallback(r: nat, exchange: Exchange)
    | ConsumeState(r: nat, link: Link)
    | ExchangeCode(r: nat)
    | Expire(state: string)

  predicate Enabled(s: State, step: Step) {
    match step
    case CallAuthorize(r, authorization) => s.At(r).Idle? && authorization.provider in s.providers
    case StoreState(r, _) => s.At(r).Storing?
    case CallCallback(r, exchange) =>
      s.At(r).Idle? && exchange.provider in s.providers && exchange.binding != ""
    case ConsumeState(r, _) => s.At(r).Consuming?
    case ExchangeCode(r) => s.At(r).Exchanging?
    case Expire(state) => state in s.records
  }

  function Moved(s: State, r: nat, pc: Pc): State {
    s.(requests := s.requests[r := pc])
  }

  function Apply(h: Hash, s: State, step: Step): State
    requires Enabled(s, step)
  {
    match step
    case CallAuthorize(r, authorization) => Moved(s, r, Storing(authorization))
    case StoreState(r, link) =>
      var a := s.At(r).authorization;
      if link == Down then Moved(s, r, Idle)
      else
        Moved(s, r, Idle).(
          records := s.records[a.state := h(a.binding)],
          log := s.log + [Stored(a.state, h(a.binding))],
          authorized := s.authorized + [a])
    case CallCallback(r, exchange) => Moved(s, r, Consuming(exchange))
    case ConsumeState(r, link) =>
      var e := s.At(r).exchange;
      var (records, value) := ReadAndTake(s.records, e.state);
      if link == Down || value == None then Moved(s, r, Idle)
      else
        Moved(s, r, if link == Up && value.value == h(e.binding) then Exchanging(e) else Idle).(
          records := records,
          log := s.log + [Taken(e.state, value.value)])
    case ExchangeCode(r) => Moved(s, r, Idle).(exchanges := s.exchanges + [s.At(r).exchange])
    case Expire(state) => s.(records := s.records - {state}, log := s.log + [Removed(state)])
  }

  /** A process configured with some providers. */
  function Start(providers: set<string>): State {
    State(providers, map[], [], map[], [], [])
  }

  // ---------------------------------------------------------------- invariants

  function ExchangesOf(exchanges: seq<Exchange>, state: string): nat {
    if exchanges == [] then 0
    else ExchangesOf(exchanges[..|exchanges| - 1], state) + if exchanges[|exchanges| - 1].state == state then 1 else 0
  }

  /** Callbacks that passed the binding check for that state and are about to exchange. */
  ghost function Pending(s: State, state: string): set<nat> {
    set r | r in s.requests && s.requests[r].Exchanging? && s.requests[r].exchange.state == state
  }

  ghost predicate RecordInv(s: State) {
    LawfulLog(s.log) && s.records == Live(s.log)
  }

  /** Every stored hash belongs to an authorization of that state. */
  ghost predicate StoredInv(h: Hash, s: State) {
    forall i :: 0 <= i < |s.log| && s.log[i].Stored? ==>
      exists a :: a in s.authorized && a.state == s.log[i].key && h(a.binding) == s.log[i].value
  }

  /** The state of a passed callback was taken with the hash of the binding it presented. */
  ghost predicate BoundInv(h: Hash, s: State) {
    && (forall r :: r in s.requests && s.requests[r].Exchanging? ==>
          Taken(s.requests[r].exchange.state, h(s.requests[r].exchange.binding)) in s.log)
    && (forall i :: 0 <= i < |s.exchanges| ==> Taken(s.exchanges[i].state, h(s.exchanges[i].binding)) in s.log)
  }

  ghost predicate CountInv(s: State) {
    forall state :: ExchangesOf(s.exchanges, state) + |Pending(s, state)| <= TakesOf(s.log, state)
  }

  /** Only configured providers are ever named. */
  ghost predicate ProviderInv(s: State) {
    && (forall r :: r in s.requests && s.requests[r].Storing? ==> s.requests[r].authorization.provider in s.providers)
    && (forall r :: r in s.requests && (s.requests[r].Consuming? || s.requests[r].Exchanging?) ==>
          s.requests[r].exchange.provider in s.providers)
    && (forall a :: a in s.authorized ==> a.provider in s.providers)
    && (forall i :: 0 <= i < |s.exchanges| ==> s.exchanges[i].provider in s.providers)
  }

  ghost predicate Inv(h: Hash, s: State) {
    RecordInv(s) && StoredInv(h, s) && BoundInv(h, s) && CountInv(s) && ProviderInv(s)
  }

  lemma RecordsKept(h: Hash, s: State, step: Step)
    requires Inv(h, s) && Enabled(s, step)
    ensures RecordInv(Apply(h, s, step))
  {
    var s' := Apply(h, s, step);
    if |s'.log| > |s.log| {
      Snoc(s.log, s'.log[|s.log|]);
      assert s'.log == s.log + [s'.log[|s.log|]];
    }
  }

  lemma StoredKept(h: Hash, s: State, step: Step)
    requires Inv(h, s) && Enabled(s, step)
    ensures StoredInv(h, Apply(h, s, step))
  {
    var s' := Apply(h, s, step);
    forall i | 0 <= i < |s'.log| && s'.log[i].Stored?
      ensures exists a :: a in s'.authorized && a.state == s'.log[i].key && h(a.binding) == s'.log[i].value
    {
      if i < |s.log| {
        assert s'.log[i] == s.log[i];
        var a :| a in s.authorized && a.state == s.log[i].key && h(a.binding) == s.log[i].value;
        assert a in s'.authorized;
      } else {
        assert s.At(step.r).authorization in s'.authorized;
      }
    }
  }

  lemma BoundKept(h: Hash, s: State, step: Step)
    requires Inv(h, s) && Enabled(s, step)
    ensures BoundInv(h, Apply(h, s, step))
  {
    var s' := Apply(h, s, step);
    assert forall e :: e in s.log ==> e in s'.log;
    if step.ExchangeCode? {
      assert s.requests[step.r].Exchanging?;
    }
  }

  lemma ExchangesSnoc(exchanges: seq<Exchange>, e: Exchange, state: string)
    ensures ExchangesOf(exchanges + [e], state) == ExchangesOf(exchanges, state) + if e.state == state then 1 else 0
  {
    assert (exchanges + [e])[..|exchanges|] == exchanges;
  }

  lemma PendingMoves(h: Hash, s: State, step: Step, state: string)
    requires Enabled(s, step)
    ensures var s' := Apply(h, s, step);
            Pending(s', state) ==
            if step.Expire? then Pending(s, state)
            else if s'.requests[step.r].Exchanging? && s'.requests[step.r].exchange.state == state
            then Pending(s, state) + {step.r}
            else Pending(s, state) - {step.r}
  {}

  /** A callback becomes pending for a state only by taking it. */
  lemma PendingNeedsTake(h: Hash, s: State, step: Step, state: string)
    requires RecordInv(s) && Enabled(s, step) && !step.Expire?
    ensures var s' := Apply(h, s, step);
            && TakesOf(s.log, state) <= TakesOf(s'.log, state)
            && (s'.requests[step.r].Exchanging? && s'.requests[step.r].exchange.state == state ==>
                  TakesOf(s'.log, state) == TakesOf(s.log, state) + 1)
  {
    var s' := Apply(h, s, step);
    if |s'.log| > |s.log| {
      Snoc(s.log, s'.log[|s.log|]);
      assert s'.log == s.log + [s'.log[|s.log|]];
    }
  }

  /** An exchange for a state is made by a pending callback, which is then no longer pending. */
  lemma ExchangesMove(h: Hash, s: State, step: Step, state: string)
    requires Enabled(s, step)
    ensures var s' := Apply(h, s, step);
            var was, now := ExchangesOf(s.exchanges, state), ExchangesOf(s'.exchanges, state);
            || now == was
            || (now == was + 1 && !step.Expire? && step.r in Pending(s, state) && s'.requests[step.r] == Idle)
  {
    if step.ExchangeCode? {
      ExchangesSnoc(s.exchanges, s.At(step.r).exchange, state);
    }
  }

  lemma CountKept(h: Hash, s: State, step: Step, state: string)
    requires Inv(h, s) && Enabled(s, step)
    ensures var s' := Apply(h, s, step);
            ExchangesOf(s'.exchanges, state) + |Pending(s', state)| <= TakesOf(s'.log, state)
  {
    assert ExchangesOf(s.exchanges, state) + |Pending(s, state)| <= TakesOf(s.log, state);
    if step.Expire? {
      Snoc(s.log, Removed(step.state));
      PendingMoves(h, s, step, state);
    } else {
      hide Apply, Enabled, LawfulLog, Live;
      PendingMoves(h, s, step, state);
      PendingNeedsTake(h, s, step, state);
      ExchangesMove(h, s, step, state);
    }
  }

  lemma ProvidersKept(h: Hash, s: State, step: Step)
    requires ProviderInv(s) && Enabled(s, step)
    ensures ProviderInv(Apply(h, s, step)) && Apply(h, s, step).providers == s.providers
  {
    hide ReadAndTake;
    if !step.Expire? {
      assert !s.At(step.r).Idle? ==> step.r in s.requests && s.requests[step.r] == s.At(step.r);
    }
  }

  lemma StepKeepsInv(h: Hash, s: State, step: Step)
    requires Inv(h, s) && Enabled(s, step)
    ensures Inv(h, Apply(h, s, step)) && Apply(h, s, step).providers == s.providers
  {
    ProvidersKept(h, s, step);
    RecordsKept(h, s, step);
    StoredKept(h, s, step);
    BoundKept(h, s, step);
    hide Apply, Enabled;
    forall state
      ensures ExchangesOf(Apply(h, s, step).exchanges, state) + |Pending(Apply(h, s, step), state)|
              <= TakesOf(Apply(h, s, step).log, state)
    {
      CountKept(h, s, step, state);
    }
  }

  lemma StartHolds(h: Hash, providers: set<string>)
    ensures Inv(h, Start(providers))
  {
    assert forall state :: Pending(Start(providers), state) == {};
  }

  /** The state after a schedule, or nothing if some step was not enabled when it was taken. */
  ghost function After(h: Hash, providers: set<string>, steps: seq<Step>): (s: Option<State>)
    ensures s.Some? ==> Inv(h, s.value) && s.value.providers == providers
  {
    if steps == [] then
      StartHolds(h, providers);
      Some(Start(providers))
    else
      var before, step := After(h, providers, steps[..|steps| - 1]), steps[|steps| - 1];
      if before.None? || !Enabled(before.value, step) then None
      else
        StepKeepsInv(h, before.value, step);
        Some(Apply(h, before.value, step))
  }

  /**
   Single use, over every interleaving: exchanges for a state never exceed the times it was taken, these never exceed
   its stores, and every store was taken once, went unused, or is still live.
   */
  lemma ExchangesNeverExceedStores(h: Hash, providers: set<string>, steps: seq<Step>, state: string)
    requires After(h, providers, steps).Some?
    ensures var s := After(h, providers, steps).value;
            && ExchangesOf(s.exchanges, state) <= TakesOf(s.log, state) <= StoresOf(s.log, state)
            && StoresOf(s.log, state) ==
               TakesOf(s.log, state) + UnusedOf(s.log, state) + (if state in s.records then 1 else 0)
  {
    var s := After(h, providers, steps).value;
    assert RecordInv(s);
    assert ExchangesOf(s.exchanges, state) + |Pending(s, state)| <= TakesOf(s.log, state);
    hide After;
    StoresAreConserved(s.log, state);
  }

  /**
   Binding: before each code exchange an Authorize had stored, under that very state, the hash of the binding the
   callback presented, and that store was the latest one for the state when the callback took it. The binding is also
   the code verifier, so this is the pairing of section 4 of RFC 7636 and the check of section 10.12 of RFC 6749.
   */
  lemma ExchangeIsBound(h: Hash, providers: set<string>, steps: seq<Step>, k: nat) returns (a: Authorization, stored: nat, taken: nat)
    requires After(h, providers, steps).Some? && k < |After(h, providers, steps).value.exchanges|
    ensures var s := After(h, providers, steps).value;
            var e := s.exchanges[k];
            && a in s.authorized && a.state == e.state && h(a.binding) == h(e.binding)
            && LatestOf(s.log, stored, taken) && taken < |s.log|
            && s.log[stored] == Stored(e.state, h(e.binding)) && s.log[taken] == Taken(e.state, h(e.binding))
  {
    var s := After(h, providers, steps).value;
    var e := s.exchanges[k];
    assert RecordInv(s) && StoredInv(h, s) && BoundInv(h, s);
    hide After;
    taken :| 0 <= taken < |s.log| && s.log[taken] == Taken(e.state, h(e.binding));
    var i := TakenWasLatestStored(s.log, taken);
    stored := i;
    a :| a in s.authorized && a.state == s.log[stored].key && h(a.binding) == s.log[stored].value;
  }

  /**
   A callback that reaches the store goes on to the exchange exactly when the state is live with the hash of its
   binding; whatever the binding, the state is spent, so a wrong one leaves nothing for a second try.
   */
  lemma AnyBindingSpendsTheState(h: Hash, s: State, step: Step)
    requires Inv(h, s) && Enabled(s, step) && step.ConsumeState? && step.link != Down
    ensures var s', e := Apply(h, s, step), s.At(step.r).exchange;
            && e.state !in s'.records
            && (s'.At(step.r).Exchanging? <==>
                  step.link == Up && e.state in s.records && s.records[e.state] == h(e.binding))
            && (forall other :: other != e.state ==>
                  (other in s'.records <==> other in s.records) &&
                  (other in s.records ==> s'.records[other] == s.records[other]))
  {}

  // ---------------------------------------------------------------- which provider

  /** Some authorization of that state and binding was for the provider the code is exchanged with. */
  ghost predicate MeantFor(s: State, h: Hash, e: Exchange) {
    exists a :: a in s.authorized && a.state == e.state && h(a.binding) == h(e.binding) && a.provider == e.provider
  }

  ghost predicate AllAsMeant(s: State, h: Hash) {
    forall i :: 0 <= i < |s.exchanges| ==> MeantFor(s, h, s.exchanges[i])
  }

  /**
   The provider is not part of what is stored, so a callback may name another one. Exactly when none can: every
   exchange of every schedule is with a provider the state was issued for, if and only if no two are configured.
   */
  lemma ProvidersMatchIffOnlyOne(h: Hash, providers: set<string>)
    ensures (forall p, q :: p in providers && q in providers ==> p == q) <==>
            forall steps :: After(h, providers, steps).Some? ==> AllAsMeant(After(h, providers, steps).value, h)
  {
    if p, q :| p in providers && q in providers && p != q {
      var a := Authorization(p, "s", "b");
      var s, steps := FlowCompletes(h, providers, a, q, "c");
      assert !MeantFor(s, h, s.exchanges[0]);
    } else {
      forall steps | After(h, providers, steps).Some? ensures AllAsMeant(After(h, providers, steps).value, h) {
        OnlyProviderIsMeant(h, providers, steps);
      }
    }
  }

  lemma OnlyProviderIsMeant(h: Hash, providers: set<string>, steps: seq<Step>)
    requires forall p, q :: p in providers && q in providers ==> p == q
    requires After(h, providers, steps).Some?
    ensures AllAsMeant(After(h, providers, steps).value, h)
  {
    var s := After(h, providers, steps).value;
    assert ProviderInv(s);
    hide After, Inv;
    forall i | 0 <= i < |s.exchanges| ensures MeantFor(s, h, s.exchanges[i]) {
      var a, _, _ := ExchangeIsBound(h, providers, steps, i);
      assert a.provider in providers && s.exchanges[i].provider in providers;
    }
  }

  lemma Take(h: Hash, providers: set<string>, s: State, steps: seq<Step>, step: Step)
    returns (s': State, steps': seq<Step>)
    requires After(h, providers, steps) == Some(s) && Enabled(s, step)
    ensures s' == Apply(h, s, step) && After(h, providers, steps') == Some(s')
  {
    s', steps' := Apply(h, s, step), steps + [step];
    assert steps'[..|steps|] == steps;
  }

  /** A schedule in which an Authorize has stored its state. */
  lemma StoredSchedule(h: Hash, providers: set<string>, a: Authorization) returns (s: State, steps: seq<Step>)
    requires a.provider in providers
    ensures After(h, providers, steps) == Some(s)
    ensures s.providers == providers && s.authorized == [a] && s.exchanges == [] && s.At(1).Idle?
    ensures a.state in s.records && s.records[a.state] == h(a.binding)
  {
    s, steps := Start(providers), [];
    assert After(h, providers, []) == Some(Start(providers));
    hide After, Inv;
    s, steps := Take(h, providers, s, steps, CallAuthorize(0, a));
    s, steps := Take(h, providers, s, steps, StoreState(0, Up));
  }

  /**
   The flow works: whatever the state and binding, a browser that comes back with both reaches the exchange, whichever
   configured provider its callback names.
   */
  lemma FlowCompletes(h: Hash, providers: set<string>, a: Authorization, provider: string, code: string)
    returns (s: State, steps: seq<Step>)
    requires a.binding != "" && a.provider in providers && provider in providers
    ensures After(h, providers, steps) == Some(s)
    ensures s.authorized == [a] && s.exchanges == [Exchange(provider, a.state, code, a.binding)]
  {
    hide After, Inv;
    s, steps := StoredSchedule(h, providers, a);
    s, steps := Take(h, providers, s, steps, CallCallback(1, Exchange(provider, a.state, code, a.binding)));
    s, steps := Take(h, providers, s, steps, ConsumeState(1, Up));
    s, steps := Take(h, providers, s, steps, ExchangeCode(1));
  }
}
