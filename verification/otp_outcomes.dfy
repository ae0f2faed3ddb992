/** What SendCode and VerifyCode come to: who touches a code, and whom a matching verification identifies. */
module OtpOutcomes {
  import opened Wrappers
  import opened OneTimeRecords
  import opened OtpProtocol
  import U = Users

  predicate TakenBy(step: Step, r: nat) {
    !step.Expire? && step.r == r
  }

  lemma DeletingStep(h: Hash, s: State, step: Step, r: nat)
    requires Inv(s) && Enabled(s, step) && Apply(h, s, step).At(r).Deleting?
    ensures if TakenBy(step, r) then step == SendEmail(r, false) else s.At(r).Deleting?
  {
    hide U.Exec, CompareAndTake, RecordInv, IssueInv;
  }

  /** Only a request whose email could not be sent cleans up: that failure was its last step. */
  lemma {:induction false} CleanupFollowsFailedSend(h: Hash, steps: seq<Step>, r: nat) returns (i: nat)
    requires After(h, steps).Some? && After(h, steps).value.At(r).Deleting?
    ensures i < |steps| && steps[i] == SendEmail(r, false)
    ensures forall j :: i < j < |steps| ==> !TakenBy(steps[j], r)
    decreases |steps|
  {
    var n := |steps| - 1;
    var s := After(h, steps[..n]).value;
    DeletingStep(h, s, steps[n], r);
    if TakenBy(steps[n], r) {
      i := n;
    } else {
      hide Apply, Enabled, Inv;
      assert s.At(r).Deleting?;
      i := CleanupFollowsFailedSend(h, steps[..n], r);
      forall j | i < j < |steps| ensures !TakenBy(steps[j], r) {
        assert j < n ==> !TakenBy(steps[..n][j], r);
      }
    }
  }

  /**
   Who touches the code of an email: it goes only when it expires, when a match takes it, or when a request cleans up
   after its failed send; and it is replaced only by the hash of the code that another request stores.
   */
  lemma CodeIsTouchedOnlyBy(h: Hash, s: State, step: Step, email: string)
    requires Inv(s) && Enabled(s, step) && email in s.records
    ensures var s' := Apply(h, s, step);
            && (email !in s'.records ==>
                  || step == Expire(email)
                  || TakesFor(h, s, step, email)
                  || (step.DeleteCode? && step.link != Down && s.At(step.r) == Deleting(email)))
            && (email in s'.records && s'.records[email] != s.records[email] ==>
                  step.StoreCode? && step.link != Down && s.At(step.r).email == email
                  && s'.records[email] == h(s.At(step.r).code))
  {
    hide U.Exec, RecordInv, IssueInv;
  }

  /** A send that succeeds leaves codes, users and identities alone; only one that fails goes on to clean up. */
  lemma SendLeavesTheCode(h: Hash, s: State, step: Step)
    requires Inv(s) && Enabled(s, step) && step.SendEmail?
    ensures var s' := Apply(h, s, step);
            && s'.records == s.records && s'.log == s.log && s'.db == s.db && s'.issued == s.issued
            && s'.At(step.r) == if step.sent then Idle else Deleting(s.At(step.r).email)
  {}

  /** Storing and consuming where a command or its answer may be lost: the effect is there unless the command was. */
  lemma LostAnswers(h: Hash, s: State, step: Step)
    requires Inv(s) && Enabled(s, step) && (step.StoreCode? || step.ConsumeCode?)
    ensures var s', email, code := Apply(h, s, step), s.At(step.r).email, s.At(step.r).code;
            && (step.StoreCode? ==>
                  && s'.records == (if step.link == Down then s.records else s.records[email := h(code)])
                  && s'.At(step.r) == if step.link == Up then Sending(email) else Idle)
            && (step.ConsumeCode? ==>
                  var held := email in s.records && s.records[email] == h(code);
                  && s'.records == (if step.link != Down && held then s.records - {email} else s.records)
                  && s'.At(step.r) == if step.link == Up && held then Finding(email) else Idle)
  {}

  /** A match of a known email identifies the user with that email, if the account may authenticate. */
  lemma KnownUserIsIdentified(h: Hash, s: State, r: nat, user: U.User)
    requires Inv(s) && s.At(r) == Finding(user.email) && user.id in s.db.users && s.db.users[user.id] == user
    ensures Enabled(s, FindUser(r, Up))
    ensures var s' := Apply(h, s, FindUser(r, Up));
            && s'.issued == (if user.status == "active" then s.issued + [Identity(user.id, user.email)] else s.issued)
            && s'.db == s.db && s'.At(r) == Idle
  {
    U.LookupsAreExact(s.db, user.id, user.email, user);
  }

  ghost predicate Unknown(db: U.Tables, email: string) {
    forall i :: i in db.users ==> db.users[i].email != email
  }

  lemma UnknownIsNotFound(db: U.Tables, email: string)
    requires db.Valid()
    ensures Unknown(db, email) <==> email !in db.emails
  {
    U.EmailIsTaken(db, email);
    if email in db.emails {
      assert db.emails[email] in db.users;
    }
  }

  /** A match of an unknown email goes on to create the user. */
  lemma UnknownUserIsCreated(h: Hash, s: State, r: nat, email: string)
    requires Inv(s) && s.At(r) == Finding(email) && Unknown(s.db, email)
    ensures var s' := Apply(h, s, FindUser(r, Up));
            s'.At(r) == Creating(email) && s'.issued == s.issued && s'.db == s.db
  {
    UnknownIsNotFound(s.db, email);
    hide Unknown;
  }

  /** Which identifies it, unless another request has taken the email meanwhile. */
  lemma NewUserIsIdentified(h: Hash, s: State, r: nat, email: string, id: int)
    requires Inv(s) && s.At(r) == Creating(email) && id >= s.db.nextId
    ensures var s' := Apply(h, s, CreateUser(r, id, Up));
            && s'.At(r) == Idle
            && (Unknown(s.db, email) ==>
                  && s'.issued == s.issued + [Identity(id, email)]
                  && s'.db.users == s.db.users[id := U.User(id, email, "active")])
            && (!Unknown(s.db, email) ==> s'.issued == s.issued && s'.db.users == s.db.users)
  {
    UnknownIsNotFound(s.db, email);
    hide Unknown, U.Tables.Valid;
  }

  lemma FinishKnown(h: Hash, steps: seq<Step>, s: State, r: nat, email: string, id: int) returns (s': State)
    requires After(h, steps) == Some(s) && s.At(r) == Finding(email)
    requires id in s.db.users && s.db.users[id].email == email && s.db.users[id].status == "active"
    ensures After(h, steps + [FindUser(r, Up)]) == Some(s')
    ensures s'.issued == s.issued + [Identity(id, email)] && s'.At(r) == Idle && s'.records == s.records
  {
    InvAfter(h, steps);
    hide After, Inv, Apply, Enabled, U.Tables.Valid;
    KnownUserAt(s, id);
    KnownUserIsIdentified(h, s, r, s.db.users[id]);
    FindLeavesRecords(h, s, r);
    var all;
    s', all := Take(h, s, steps, FindUser(r, Up));
  }

  lemma FinishNew(h: Hash, steps: seq<Step>, s: State, r: nat, email: string, id: int) returns (s': State)
    requires After(h, steps) == Some(s) && s.At(r) == Finding(email) && Unknown(s.db, email) && id == s.db.nextId
    ensures After(h, steps + [FindUser(r, Up)] + [CreateUser(r, id, Up)]) == Some(s')
    ensures s'.issued == s.issued + [Identity(id, email)] && s'.At(r) == Idle && s'.records == s.records
  {
    InvAfter(h, steps);
    hide After, Inv, Apply, Enabled, U.Tables.Valid, Unknown;
    FindingIsEnabled(s, r);
    UnknownUserIsCreated(h, s, r, email);
    FindLeavesRecords(h, s, r);
    var found, all := Take(h, s, steps, FindUser(r, Up));
    InvAfter(h, all);
    NewUserIsIdentified(h, found, r, email, id);
    CreateLeavesRecords(h, found, r, id);
    s', all := Take(h, found, all, CreateUser(r, id, Up));
  }

  /**
   From any reachable state, a request that presents the code whose hash is live gets an identity with that email once
   its calls are answered: the existing user, if that account may authenticate, or a new one.
   */
  lemma MatchingVerificationIdentifies(h: Hash, steps: seq<Step>, r: nat) returns (more: seq<Step>, id: int)
    requires After(h, steps).Some?
    requires var s := After(h, steps).value;
             s.At(r).Consuming? && s.At(r).email in s.records && s.records[s.At(r).email] == h(s.At(r).code)
    requires var s := After(h, steps).value;
             forall i :: i in s.db.users && s.db.users[i].email == s.At(r).email ==> s.db.users[i].status == "active"
    ensures After(h, steps + more).Some?
    ensures var s, s' := After(h, steps).value, After(h, steps + more).value;
            && s'.issued == s.issued + [Identity(id, s.At(r).email)] && s'.At(r) == Idle
            && s.At(r).email !in s'.records
            && (forall i :: i in s.db.users && s.db.users[i].email == s.At(r).email ==> i == id)
  {
    var s := After(h, steps).value;
    var email := s.At(r).email;
    Consumed(h, s, r);
    hide After, Inv, Apply, Enabled, U.Tables.Valid;
    var consumed, all := Take(h, s, steps, ConsumeCode(r, Up));
    if known :| known in s.db.users && s.db.users[known].email == email {
      id := known;
      InvAfter(h, steps);
      OnlyOne(s, email, known);
      var s' := FinishKnown(h, all, consumed, r, email, id);
      more := [ConsumeCode(r, Up), FindUser(r, Up)];
      assert steps + more == all + [FindUser(r, Up)];
    } else {
      id := s.db.nextId;
      var s' := FinishNew(h, all, consumed, r, email, id);
      more := [ConsumeCode(r, Up), FindUser(r, Up), CreateUser(r, id, Up)];
      assert steps + more == all + [FindUser(r, Up)] + [CreateUser(r, id, Up)];
    }
  }

  lemma InvAfter(h: Hash, steps: seq<Step>)
    requires After(h, steps).Some?
    ensures Inv(After(h, steps).value)
  {}

  lemma Consumed(h: Hash, s: State, r: nat)
    requires Inv(s) && s.At(r).Consuming? && s.At(r).email in s.records
    requires s.records[s.At(r).email] == h(s.At(r).code)
    ensures Enabled(s, ConsumeCode(r, Up))
    ensures var s' := Apply(h, s, ConsumeCode(r, Up));
            && s'.At(r) == Finding(s.At(r).email) && s'.db == s.db && s'.issued == s.issued
            && s.At(r).email !in s'.records
  {}

  lemma KnownUserAt(s: State, id: int)
    requires Inv(s) && id in s.db.users
    ensures s.db.users[id].id == id
  {}

  lemma OnlyOne(s: State, email: string, id: int)
    requires Inv(s) && id in s.db.users && s.db.users[id].email == email
    ensures forall i :: i in s.db.users && s.db.users[i].email == email ==> i == id
  {
    forall i | i in s.db.users && s.db.users[i].email == email ensures i == id {
      U.EmailsAreUnique(s.db, i, id);
    }
  }

  lemma FindingIsEnabled(s: State, r: nat)
    requires s.At(r).Finding?
    ensures Enabled(s, FindUser(r, Up))
  {}

  lemma FindLeavesRecords(h: Hash, s: State, r: nat)
    requires Inv(s) && s.At(r).Finding?
    ensures Apply(h, s, FindUser(r, Up)).records == s.records
  {}

  lemma CreateLeavesRecords(h: Hash, s: State, r: nat, id: int)
    requires Inv(s) && s.At(r).Creating? && id >= s.db.nextId
    ensures Enabled(s, CreateUser(r, id, Up)) && Apply(h, s, CreateUser(r, id, Up)).records == s.records
  {}
}
