/** One-time passwords: concurrent SendCode and VerifyCode over the shared records and the users table. */
module OtpProtocol {
  import opened Wrappers
  import opened OneTimeRecords
  import U = Users

  /** SHA-256 is any function from codes to digests. */
  type Hash = string -> string

  /** Where one request stands. */
  datatype Pc =
    | Idle
    | Storing(email: string, code: string)
    | Sending(email: string)
    | Deleting(email: string)
    | Consuming(email: string, code: string)
    | Finding(email: string)
    | Creating(email: string)

  datatype Identity = Identity(userId: int, email: string)

  datatype State = State(
    records: Records,
    log: seq<Event>,
    db: U.Tables,
    requests: map<nat, Pc>,
    issued: seq<Identity>)
  {
    function At(r: nat): Pc {
      if r in requests then requests[r] else Idle
    }
  }

  datatype Step =
    | CallSend(r: nat, email: string, code: string)
    | StoreCode(r: nat, link: Link)
    | SendEmail(r: nat, sent: bool)
    | DeleteCode(r: nat, link: Link)
    | CallVerify(r: nat, email: string, code: string)
    | ConsumeCode(r: nat, link: Link)
    | FindUser(r: nat, link: Link)
    | CreateUser(r: nat, id: int, link: Link)
    | Expire(email: string)

  predicate Enabled(s: State, step: Step) {
    match step
    case CallSend(r, email, _) => s.At(r).Idle? && email != ""
    case StoreCode(r, _) => s.At(r).Storing?
    case SendEmail(r, _) => s.At(r).Sending?
    case DeleteCode(r, _) => s.At(r).Deleting?
    case CallVerify(r, email, code) => s.At(r).Idle? && email != "" && code != ""
    case ConsumeCode(r, _) => s.At(r).Consuming?
    case FindUser(r, _) => s.At(r).Finding?
    case CreateUser(r, id, _) => s.At(r).Creating? && id >= s.db.nextId
    case Expire(email) => email in s.records
  }

  function Moved(s: State, r: nat, pc: Pc): State {
    s.(requests := s.requests[r := pc])
  }

  /** A record of that email disappears, if there is one. */
  function Dropped(s: State, email: string): State {
    if email in s.records then s.(records := s.records - {email}, log := s.log + [Removed(email)]) else s
  }

  /** An account that may authenticate gets an identity. */
  function Issued(s: State, user: U.User): State {
    if user.CanAuthenticate() then s.(issued := s.issued + [Identity(user.id, user.email)]) else s
  }

  function Apply(h: Hash, s: State, step: Step): State
    requires s.db.Valid() && Enabled(s, step)
  {
    match step
    case CallSend(r, email, code) => Moved(s, r, Storing(email, code))
    case StoreCode(r, link) =>
      var Storing(email, code) := s.At(r);
      var s' := if link == Down then s
                else s.(records := s.records[email := h(code)], log := s.log + [Stored(email, h(code))]);
      Moved(s', r, if link == Up then Sending(email) else Idle)
    case SendEmail(r, sent) => Moved(s, r, if sent then Idle else Deleting(s.At(r).email))
    case DeleteCode(r, link) =>
      var email := s.At(r).email;
      Moved(if link == Down then s else Dropped(s, email), r, Idle)
    case CallVerify(r, email, code) => Moved(s, r, Consuming(email, code))
    case ConsumeCode(r, link) =>
      var Consuming(email, code) := s.At(r);
      var (records, answer) := CompareAndTake(s.records, email, h(code));
      if link == Down || answer != Match then Moved(s, r, Idle)
      else Moved(s.(records := records, log := s.log + [Taken(email, h(code))]), r,
                 if link == Up then Finding(email) else Idle)
    case FindUser(r, link) =>
      var email := s.At(r).email;
      if link != Up then Moved(s, r, Idle)
      else
        var found := s.db.GetByEmail(email);
        if found.Success? then Issued(Moved(s, r, Idle), found.value) else Moved(s, r, Creating(email))
    case CreateUser(r, id, link) =>
      var (db, result) := U.Exec(s.db, U.Create(s.At(r).email, id, link));
      var s' := Moved(s, r, Idle).(db := db);
      if result.Success? then Issued(s', result.value) else s'
    case Expire(email) => Dropped(s, email)
  }

  const START := State(map[], [], U.EMPTY, map[], [])

  // ---------------------------------------------------------------- invariants

  function IssuedFor(issued: seq<Identity>, email: string): nat {
    if issued == [] then 0
    else IssuedFor(issued[..|issued| - 1], email) + if issued[|issued| - 1].email == email then 1 else 0
  }

  /** Requests that matched a code of that email and have not yet finished. */
  ghost function Matched(s: State, email: string): set<nat> {
    set r | r in s.requests && (s.requests[r] == Finding(email) || s.requests[r] == Creating(email))
  }

  ghost predicate RecordInv(s: State) {
    LawfulLog(s.log) && s.records == Live(s.log)
  }

  ghost predicate IssueInv(s: State) {
    forall email :: IssuedFor(s.issued, email) + |Matched(s, email)| <= TakesOf(s.log, email)
  }

  /** Every identity names a row of the users table with the verified email and an active account. */
  ghost predicate IdentityInv(s: State) {
    && s.db.Valid()
    && forall i :: 0 <= i < |s.issued| ==>
         && s.issued[i].userId in s.db.users
         && s.db.users[s.issued[i].userId].email == s.issued[i].email
         && s.db.users[s.issued[i].userId].CanAuthenticate()
  }

  ghost predicate Inv(s: State) {
    RecordInv(s) && IssueInv(s) && IdentityInv(s)
  }

  lemma RecordsKept(h: Hash, s: State, step: Step)
    requires Inv(s) && Enabled(s, step)
    ensures RecordInv(Apply(h, s, step))
  {
    var s' := Apply(h, s, step);
    if |s'.log| > |s.log| {
      Snoc(s.log, s'.log[|s.log|]);
      assert s'.log == s.log + [s'.log[|s.log|]];
    }
  }

  lemma IdentitiesKept(h: Hash, s: State, step: Step)
    requires Inv(s) && Enabled(s, step)
    ensures IdentityInv(Apply(h, s, step))
  {
    var s' := Apply(h, s, step);
    if step.CreateUser? {
      var op := U.Create(s.At(step.r).email, step.id, step.link);
      U.StatementPreserves(s.db, op);
      if U.Exec(s.db, op).1.Success? {
        U.AnswerIsRow(s.db, op);
      }
    }
    if step.FindUser? {
      U.FoundIsRow(s.db, s.At(step.r).email);
    }
    forall i | 0 <= i < |s'.issued|
      ensures s'.issued[i].userId in s'.db.users
              && s'.db.users[s'.issued[i].userId].email == s'.issued[i].email
              && s'.db.users[s'.issued[i].userId].CanAuthenticate()
    {
      if i < |s.issued| {
        assert s'.issued[i] == s.issued[i];
      }
    }
  }

  lemma IssuedSnoc(issued: seq<Identity>, identity: Identity, email: string)
    ensures IssuedFor(issued + [identity], email) ==
            IssuedFor(issued, email) + if identity.email == email then 1 else 0
  {
    assert (issued + [identity])[..|issued|] == issued;
  }

  /** Only a request that is finishing a match of that email may issue, and it is then no longer a matched one. */
  lemma IssuedMoves(h: Hash, s: State, step: Step, email: string)
    requires Inv(s) && Enabled(s, step)
    ensures var s' := Apply(h, s, step);
            var was, now := IssuedFor(s.issued, email), IssuedFor(s'.issued, email);
            || now == was
            || (now == was + 1 && !step.Expire? && step.r in Matched(s, email) && s'.requests[step.r] == Idle)
  {
    var s' := Apply(h, s, step);
    IssuedForMatch(h, s, step);
    if s'.issued != s.issued {
      IssuedSnoc(s.issued, s'.issued[|s.issued|], email);
    }
    hide Apply, Enabled, IssuedFor, Inv;
  }

  /** An identity is issued only by a request that is finishing a match, for the email it matched. */
  lemma IssuedForMatch(h: Hash, s: State, step: Step)
    requires s.db.Valid() && Enabled(s, step)
    ensures var s' := Apply(h, s, step);
            || s'.issued == s.issued
            || (&& |s'.issued| == |s.issued| + 1 && s'.issued == s.issued + [s'.issued[|s.issued|]]
                && !step.Expire? && step.r in s.requests && s'.requests[step.r] == Idle
                && (s.At(step.r) == Finding(s'.issued[|s.issued|].email)
                    || s.At(step.r) == Creating(s'.issued[|s.issued|].email)))
  {
    if step.CreateUser? {
      CreatedHasEmail(s.db, s.At(step.r).email, step.id, step.link);
    }
    if step.FindUser? {
      U.FoundIsRow(s.db, s.At(step.r).email);
    }
    hide U.Exec, U.Tables.Valid, U.Tables.GetByEmail, CompareAndTake;
  }

  lemma CreatedHasEmail(db: U.Tables, email: string, id: int, link: Link)
    requires db.Valid()
    ensures var answer := U.Exec(db, U.Create(email, id, link)).1;
            answer.Success? ==> answer.value.email == email
  {}

  /** Whether a step is a consumption that takes the record of that email. */
  predicate TakesFor(h: Hash, s: State, step: Step, email: string)
    requires Enabled(s, step)
  {
    step.ConsumeCode? && step.link != Down && s.At(step.r).email == email &&
    CompareAndTake(s.records, email, h(s.At(step.r).code)).1 == Match
  }

  /** What a step adds for one email to the matches, to the identities and to the requests in between. */
  lemma IssuesKept(h: Hash, s: State, step: Step, email: string)
    requires Inv(s) && Enabled(s, step)
    ensures var s' := Apply(h, s, step);
            IssuedFor(s'.issued, email) + |Matched(s', email)| <= TakesOf(s'.log, email)
  {
    var s' := Apply(h, s, step);
    assert IssuedFor(s.issued, email) + |Matched(s, email)| <= TakesOf(s.log, email);
    if !step.Expire? {
      MatchingNeedsTake(h, s, step, email);
    }
    hide Apply, Enabled, TakesFor;
    LogKept(h, s, step, email);
    MatchedMoves(h, s, step, email);
    IssuedMoves(h, s, step, email);
  }

  lemma MatchingNeedsTake(h: Hash, s: State, step: Step, email: string)
    requires Inv(s) && Enabled(s, step) && !step.Expire?
    ensures var pc := Apply(h, s, step).requests[step.r];
            (pc == Finding(email) || pc == Creating(email)) && step.r !in Matched(s, email) ==>
              TakesFor(h, s, step, email)
  {
    hide U.Exec, RecordInv, IssueInv;
  }

  lemma LogKept(h: Hash, s: State, step: Step, email: string)
    requires Inv(s) && Enabled(s, step)
    ensures TakesOf(Apply(h, s, step).log, email) ==
            TakesOf(s.log, email) + if TakesFor(h, s, step, email) then 1 else 0
  {
    var s' := Apply(h, s, step);
    if |s'.log| > |s.log| {
      Snoc(s.log, s'.log[|s.log|]);
      assert s'.log == s.log + [s'.log[|s.log|]];
    }
  }

  lemma MatchedMoves(h: Hash, s: State, step: Step, email: string)
    requires s.db.Valid() && Enabled(s, step)
    ensures var s' := Apply(h, s, step);
            Matched(s', email) ==
            if step.Expire? then Matched(s, email)
            else if s'.requests[step.r] == Finding(email) || s'.requests[step.r] == Creating(email)
            then Matched(s, email) + {step.r}
            else Matched(s, email) - {step.r}
  {
    hide U.Exec, CompareAndTake, U.Tables.Valid;
  }

  /** The state after a schedule, or nothing if some step was not enabled when it was taken. */
  ghost function After(h: Hash, steps: seq<Step>): (s: Option<State>)
    ensures s.Some? ==> Inv(s.value)
  {
    if steps == [] then
      StartHolds();
      Some(START)
    else
      var before, step := After(h, steps[..|steps| - 1]), steps[|steps| - 1];
      if before.None? || !Enabled(before.value, step) then None
      else
        StepKeepsInv(h, before.value, step);
        Some(Apply(h, before.value, step))
  }

  lemma StartHolds()
    ensures Inv(START)
  {
    assert forall email :: Matched(START, email) == {};
  }

  lemma StepKeepsInv(h: Hash, s: State, step: Step)
    requires Inv(s) && Enabled(s, step)
    ensures Inv(Apply(h, s, step))
  {
    RecordsKept(h, s, step);
    IdentitiesKept(h, s, step);
    hide Apply, Inv;
    forall email ensures IssuedFor(Apply(h, s, step).issued, email) + |Matched(Apply(h, s, step), email)|
                         <= TakesOf(Apply(h, s, step).log, email) {
      IssuesKept(h, s, step, email);
    }
  }

  /**
   Conservation, over every interleaving: identities issued for an email never exceed its matches, matches never
   exceed stores, and every store was matched once, went unused, or is still live.
   */
  lemma OtpIsConserved(h: Hash, steps: seq<Step>, email: string)
    requires After(h, steps).Some?
    ensures var s := After(h, steps).value;
            && IssuedFor(s.issued, email) <= TakesOf(s.log, email) <= StoresOf(s.log, email)
            && StoresOf(s.log, email) ==
               TakesOf(s.log, email) + UnusedOf(s.log, email) + (if email in s.records then 1 else 0)
            && (forall i :: 0 <= i < |s.issued| ==>
                  && s.issued[i].userId in s.db.users
                  && s.db.users[s.issued[i].userId].email == s.issued[i].email)
  {
    var s := After(h, steps).value;
    assert RecordInv(s) && IdentityInv(s);
    assert IssuedFor(s.issued, email) + |Matched(s, email)| <= TakesOf(s.log, email);
    hide After;
    StoresAreConserved(s.log, email);
  }

  /** No code of any email is matched twice, and each match took what the latest store of that email had put there. */
  lemma MatchUsesLatestStore(h: Hash, steps: seq<Step>, n: nat) returns (i: int)
    requires After(h, steps).Some? && n < |After(h, steps).value.log| && After(h, steps).value.log[n].Taken?
    ensures var log := After(h, steps).value.log;
            LatestOf(log, i, n) && log[i] == Stored(log[n].key, log[n].value)
  {
    i := TakenWasLatestStored(After(h, steps).value.log, n);
  }

  /**
   A verification that reaches the store goes on exactly when the latest code sent to that email is live and hashes
   like the one presented; otherwise it leaves every record and the whole history as they were.
   */
  lemma VerifyMatchesExactly(h: Hash, steps: seq<Step>, step: Step)
    requires After(h, steps).Some? && Enabled(After(h, steps).value, step) && step.ConsumeCode? && step.link == Up
    ensures var s := After(h, steps).value;
            var s', Consuming(email, code) := Apply(h, s, step), s.At(step.r);
            && (s'.At(step.r) == Finding(email) <==>
                  exists i :: LatestOf(s.log, i, |s.log|) && s.log[i] == Stored(email, h(code)))
            && (s'.At(step.r) != Finding(email) ==> s'.records == s.records && s'.log == s.log)
            && (s'.At(step.r) == Finding(email) ==> s'.records == s.records - {email})
  {
    var s := After(h, steps).value;
    var Consuming(email, code) := s.At(step.r);
    assert RecordInv(s);
    hide After;
    if email in s.records && s.records[email] == h(code) {
      var i := LiveIsLatestStore(s.log, email);
    }
    if i :| LatestOf(s.log, i, |s.log|) && s.log[i] == Stored(email, h(code)) {
      LatestStoreIsLive(s.log, i);
    }
  }

  lemma NothingTaken(h: Hash)
    ensures After(h, []) == Some(START)
  {}

  /** A schedule in which two requests for one email have each stored a code and are about to send it. */
  lemma TwoCodesStored(h: Hash) returns (s: State, steps: seq<Step>)
    ensures After(h, steps) == Some(s)
    ensures s.log == [Stored("a", h("1")), Stored("a", h("2"))] && "a" in s.records
    ensures s.At(0) == Sending("a") && s.At(1) == Sending("a")
  {
    hide After, Inv, U.Exec, CompareAndTake, U.Tables.Valid, Issued, Dropped;
    s, steps := START, [];
    NothingTaken(h);
    s, steps := Take(h, s, steps, CallSend(0, "a", "1"));
    s, steps := Take(h, s, steps, StoreCode(0, Up));
    s, steps := Take(h, s, steps, CallSend(1, "a", "2"));
    s, steps := Take(h, s, steps, StoreCode(1, Up));
  }

  /** Not promised: a code can disappear unused because an older request's email failed and it cleaned up. */
  lemma FailedSendMayDeleteNewerCode(h: Hash) returns (s: State, sent: seq<Step>)
    ensures var steps := sent + [SendEmail(1, true)] + [SendEmail(0, false)] + [DeleteCode(0, Up)];
            After(h, steps) == Some(s)
    ensures s.log == [Stored("a", h("1")), Stored("a", h("2")), Removed("a")]
  {
    hide After, Inv, U.Exec, CompareAndTake, U.Tables.Valid, Issued;
    s, sent := TwoCodesStored(h);
    var steps := sent;
    s, steps := Take(h, s, steps, SendEmail(1, true));
    s, steps := Take(h, s, steps, SendEmail(0, false));
    s, steps := Take(h, s, steps, DeleteCode(0, Up));
  }

  lemma Take(h: Hash, s: State, steps: seq<Step>, step: Step) returns (s': State, steps': seq<Step>)
    requires After(h, steps) == Some(s) && Enabled(s, step)
    ensures s.db.Valid() && s' == Apply(h, s, step)
    ensures steps' == steps + [step] && After(h, steps') == Some(s')
  {
    assert IdentityInv(s);
    s', steps' := Apply(h, s, step), steps + [step];
    assert steps'[..|steps|] == steps;
  }

  lemma NewUser(email: string)
    ensures U.Exec(U.EMPTY, U.Create(email, 1, Up)).1 == Success(U.User(1, email, U.ACTIVE))
    ensures U.User(1, email, U.ACTIVE).CanAuthenticate()
  {}

  /** The code sent to a new email is live when it comes back. */
  lemma CodeMatches(h: Hash, email: string, code: string) returns (s: State, steps: seq<Step>)
    requires email != "" && code != ""
    ensures After(h, steps) == Some(s)
    ensures s.At(1) == Finding(email) && s.db == U.EMPTY && s.issued == []
  {
    hide After, Inv, U.Exec, U.Tables.Valid, Issued, Dropped;
    s, steps := START, [];
    NothingTaken(h);
    s, steps := Take(h, s, steps, CallSend(0, email, code));
    s, steps := Take(h, s, steps, StoreCode(0, Up));
    s, steps := Take(h, s, steps, SendEmail(0, true));
    s, steps := Take(h, s, steps, CallVerify(1, email, code));
    s, steps := Take(h, s, steps, ConsumeCode(1, Up));
  }

  /** The flow works: whatever the email and code, a new user who sends the code back gets an identity. */
  lemma FlowCompletes(h: Hash, email: string, code: string) returns (s: State, steps: seq<Step>)
    requires email != "" && code != ""
    ensures After(h, steps) == Some(s) && s.issued == [Identity(1, email)]
  {
    hide After, Inv, U.Exec, U.Tables.Valid, CompareAndTake, Dropped;
    s, steps := CodeMatches(h, email, code);
    NewUser(email);
    s, steps := Take(h, s, steps, FindUser(1, Up));
    s, steps := Take(h, s, steps, CreateUser(1, 1, Up));
  }
}
