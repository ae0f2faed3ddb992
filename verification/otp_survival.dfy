/** When a stored one-time password stays usable: exactly when no SendCode for its email is still under way. */
module OtpSurvival {
  import opened Wrappers
  import opened OneTimeRecords
  import opened OtpProtocol

  /** The request is inside SendCode for that email. */
  predicate Sends(pc: Pc, email: string) {
    (pc.Storing? || pc.Sending? || pc.Deleting?) && pc.email == email
  }

  ghost predicate SendPending(s: State, email: string) {
    exists r :: r in s.requests && Sends(s.requests[r], email)
  }

  /** The step neither starts another SendCode for that email nor lets its record expire. */
  predicate LeavesAlone(step: Step, email: string) {
    (step.CallSend? || step.Expire?) ==> step.email != email
  }

  ghost predicate Undisturbed(steps: seq<Step>, email: string) {
    forall i :: 0 <= i < |steps| ==> LeavesAlone(steps[i], email)
  }

  /** The record of that email is still what it was, or one matching verification has taken it. */
  ghost predicate Survives(s: State, s': State, email: string)
    requires email in s.records
  {
    if email in s'.records then
      s'.records[email] == s.records[email] && TakesOf(s'.log, email) == TakesOf(s.log, email)
    else TakesOf(s'.log, email) == TakesOf(s.log, email) + 1
  }

  lemma SendStaysAway(h: Hash, s: State, step: Step, email: string)
    requires Inv(s) && Enabled(s, step) && LeavesAlone(step, email) && !SendPending(s, email)
    ensures !SendPending(Apply(h, s, step), email)
  {
    var s' := Apply(h, s, step);
    hide U.Exec, CompareAndTake, RecordInv, IssueInv;
    forall r | r in s'.requests ensures !Sends(s'.requests[r], email) {
      assert r in s.requests ==> !Sends(s.requests[r], email);
      assert !step.Expire? ==> !Sends(s.At(step.r), email);
    }
  }

  /** With no SendCode under way, only a matching verification touches the record. */
  lemma RecordStays(h: Hash, s: State, step: Step, email: string)
    requires Inv(s) && Enabled(s, step) && LeavesAlone(step, email) && !SendPending(s, email)
    ensures var s' := Apply(h, s, step);
            if TakesFor(h, s, step, email) then email in s.records && email !in s'.records
            else (email in s'.records <==> email in s.records)
                 && (email in s.records ==> s'.records[email] == s.records[email])
  {
    hide U.Exec, RecordInv, IssueInv;
    assert !step.Expire? ==> !Sends(s.At(step.r), email);
  }

  lemma {:induction false} CodeSurvives(h: Hash, steps: seq<Step>, more: seq<Step>, email: string)
    requires After(h, steps).Some? && email in After(h, steps).value.records
    requires !SendPending(After(h, steps).value, email)
    requires After(h, steps + more).Some? && Undisturbed(more, email)
    ensures Survives(After(h, steps).value, After(h, steps + more).value, email)
    ensures !SendPending(After(h, steps + more).value, email)
    decreases |more|
  {
    hide Apply, Enabled, Inv, TakesFor, SendPending;
    if more == [] {
      assert steps + more == steps;
    } else {
      var n := |more| - 1;
      assert (steps + more)[..|steps| + n] == steps + more[..n];
      assert LeavesAlone(more[n], email);
      CodeSurvives(h, steps, more[..n], email);
      var s := After(h, steps + more[..n]).value;
      RecordStays(h, s, more[n], email);
      LogKept(h, s, more[n], email);
      SendStaysAway(h, s, more[n], email);
    }
  }

  /** One more step that neither matches a code nor disturbs the email. */
  lemma Extend(h: Hash, steps: seq<Step>, more: seq<Step>, s: State, step: Step, email: string)
    returns (s': State, more': seq<Step>)
    requires After(h, steps + more) == Some(s) && Enabled(s, step) && Undisturbed(more, email)
    requires LeavesAlone(step, email) && !step.ConsumeCode?
    ensures s.db.Valid() && s' == Apply(h, s, step) && After(h, steps + more') == Some(s')
    ensures Undisturbed(more', email) && TakesOf(s'.log, email) == TakesOf(s.log, email)
  {
    more' := more + [step];
    assert steps + more' == (steps + more) + [step];
    var all;
    s', all := Take(h, s, steps + more, step);
    LogKept(h, s, step, email);
  }

  /** A SendCode under way can remove the record: its email fails and it cleans up. */
  lemma CodeCanVanish(h: Hash, steps: seq<Step>, email: string) returns (more: seq<Step>)
    requires After(h, steps).Some? && SendPending(After(h, steps).value, email)
    ensures Undisturbed(more, email) && After(h, steps + more).Some?
    ensures var s, s' := After(h, steps).value, After(h, steps + more).value;
            email !in s'.records && TakesOf(s'.log, email) == TakesOf(s.log, email)
  {
    var s := After(h, steps).value;
    var r :| r in s.requests && Sends(s.requests[r], email);
    more := [];
    assert steps + more == steps;
    hide After, Inv, U.Exec, CompareAndTake, U.Tables.Valid, Issued;
    if s.At(r).Storing? {
      s, more := Extend(h, steps, more, s, StoreCode(r, Up), email);
    }
    if s.At(r).Sending? {
      s, more := Extend(h, steps, more, s, SendEmail(r, false), email);
    }
    s, more := Extend(h, steps, more, s, DeleteCode(r, Up), email);
  }

  /**
   A live code stays usable until it is matched, through everything but a further SendCode for its email and its own
   expiry, if and only if no SendCode for that email is still under way.
   */
  lemma CodeSurvivesIffNoSendIsPending(h: Hash, steps: seq<Step>, email: string)
    requires After(h, steps).Some? && email in After(h, steps).value.records
    ensures !SendPending(After(h, steps).value, email) <==>
            forall more :: After(h, steps + more).Some? && Undisturbed(more, email) ==>
              Survives(After(h, steps).value, After(h, steps + more).value, email)
  {
    if SendPending(After(h, steps).value, email) {
      var more := CodeCanVanish(h, steps, email);
      assert !Survives(After(h, steps).value, After(h, steps + more).value, email);
    } else {
      forall more | After(h, steps + more).Some? && Undisturbed(more, email)
        ensures Survives(After(h, steps).value, After(h, steps + more).value, email)
      {
        CodeSurvives(h, steps, more, email);
      }
    }
  }
}
