/** One-time records under string keys: the stores that keep them, and the log that every history of them obeys. */
module OneTimeRecords {
  import opened Wrappers

  datatype Event =
    | Stored(key: string, value: string)
    | Taken(key: string, value: string)
    | Removed(key: string)

  type Records = map<string, string>

  function Effect(records: Records, e: Event): Records {
    if e.Stored? then records[e.key := e.value] else records - {e.key}
  }

  /** The records that a history of events leaves. */
  function Live(log: seq<Event>): Records {
    if log == [] then map[] else Effect(Live(log[..|log| - 1]), log[|log| - 1])
  }

  /** Only a live record is taken, with the value it has, and only a live record is removed. */
  predicate Lawful(records: Records, e: Event) {
    e.Stored? || (e.key in records && (e.Taken? ==> records[e.key] == e.value))
  }

  predicate LawfulLog(log: seq<Event>) {
    log == [] || (LawfulLog(log[..|log| - 1]) && Lawful(Live(log[..|log| - 1]), log[|log| - 1]))
  }

  function StoresOf(log: seq<Event>, key: string): nat {
    if log == [] then 0
    else StoresOf(log[..|log| - 1], key) + var e := log[|log| - 1]; if e.Stored? && e.key == key then 1 else 0
  }

  function TakesOf(log: seq<Event>, key: string): nat {
    if log == [] then 0
    else TakesOf(log[..|log| - 1], key) + var e := log[|log| - 1]; if e.Taken? && e.key == key then 1 else 0
  }

  /** Records that went unused: removed, or replaced by a later store. */
  function UnusedOf(log: seq<Event>, key: string): nat {
    if log == [] then 0
    else
      var before, e := log[..|log| - 1], log[|log| - 1];
      UnusedOf(before, key) +
      if e.key == key && (e.Removed? || (e.Stored? && key in Live(before))) then 1 else 0
  }

  /** Conservation: every store of a key was taken once, went unused, or is the live record. */
  lemma {:induction false} StoresAreConserved(log: seq<Event>, key: string)
    requires LawfulLog(log)
    ensures StoresOf(log, key) == TakesOf(log, key) + UnusedOf(log, key) + if key in Live(log) then 1 else 0
  {
    if log != [] {
      StoresAreConserved(log[..|log| - 1], key);
    }
  }

  /** The event at i is the last one about its key before position n. */
  ghost predicate LatestOf(log: seq<Event>, i: int, n: int) {
    0 <= i < n <= |log| && forall j :: i < j < n ==> log[j].key != log[i].key
  }

  /** A live record was put there by the last event about its key. */
  lemma {:induction false} LiveIsLatestStore(log: seq<Event>, key: string) returns (i: int)
    requires LawfulLog(log) && key in Live(log)
    ensures LatestOf(log, i, |log|) && log[i] == Stored(key, Live(log)[key])
  {
    var n := |log| - 1;
    if log[n].key == key {
      i := n;
    } else {
      i := LiveIsLatestStore(log[..n], key);
      forall j | i < j < |log| ensures log[j].key != key {
        assert j < n ==> log[..n][j].key != key;
      }
    }
  }

  /** And a store that is the last event about its key is live. */
  lemma {:induction false} LatestStoreIsLive(log: seq<Event>, i: int)
    requires LatestOf(log, i, |log|) && log[i].Stored?
    ensures log[i].key in Live(log) && Live(log)[log[i].key] == log[i].value
  {
    var n := |log| - 1;
    if i < n {
      assert log[..n][i] == log[i];
      forall j | i < j < n ensures log[..n][j].key != log[..n][i].key {
        assert log[j].key != log[i].key;
      }
      LatestStoreIsLive(log[..n], i);
    }
  }

  lemma {:induction false} LawfulPrefix(log: seq<Event>, n: nat)
    requires LawfulLog(log) && n <= |log|
    ensures LawfulLog(log[..n])
    decreases |log|
  {
    if n == |log| {
      assert log[..n] == log;
    } else {
      LawfulPrefix(log[..|log| - 1], n);
      assert log[..|log| - 1][..n] == log[..n];
    }
  }

  /** Whatever was taken is what the latest store of that key stored, and nothing happened to the key in between. */
  lemma TakenWasLatestStored(log: seq<Event>, n: nat) returns (i: int)
    requires LawfulLog(log) && n < |log| && log[n].Taken?
    ensures LatestOf(log, i, n) && log[i] == Stored(log[n].key, log[n].value)
  {
    LawfulPrefix(log, n + 1);
    assert log[..n + 1][..n] == log[..n];
    i := LiveIsLatestStore(log[..n], log[n].key);
    forall j | i < j < n ensures log[j].key != log[i].key {
      assert log[..n][j].key != log[..n][i].key;
    }
  }

  /** No replay: between two takings of one key there is a store of it, of the value the second one took. */
  lemma TakingsNeedStoreBetween(log: seq<Event>, i: nat, j: nat) returns (k: nat)
    requires LawfulLog(log) && i < j < |log|
    requires log[i].Taken? && log[j].Taken? && log[i].key == log[j].key
    ensures i < k < j && log[k] == Stored(log[j].key, log[j].value)
  {
    k := TakenWasLatestStored(log, j);
  }

  /** A record that a taking took is gone: until the next store of its key there is none. */
  lemma {:induction false} TakenIsGone(log: seq<Event>, i: nat)
    requires LawfulLog(log) && i < |log| && !log[i].Stored?
    requires forall k :: i < k < |log| && log[k].key == log[i].key ==> !log[k].Stored?
    ensures log[i].key !in Live(log)
  {
    var n := |log| - 1;
    if i < n {
      assert log[..n][i] == log[i];
      TakenIsGone(log[..n], i);
    }
  }

  lemma Snoc(log: seq<Event>, e: Event)
    requires LawfulLog(log) && Lawful(Live(log), e)
    ensures LawfulLog(log + [e]) && Live(log + [e]) == Effect(Live(log), e)
    ensures forall key :: TakesOf(log + [e], key) == TakesOf(log, key) + if e.Taken? && e.key == key then 1 else 0
  {
    assert (log + [e])[..|log|] == log;
  }

  // ---------------------------------------------------------------- the two stores

  datatype Consumption = Missing | Mismatch | Match

  /** The consume script of a one-time password: delete only on a match. */
  function CompareAndTake(records: Records, key: string, candidate: string): (Records, Consumption) {
    if key !in records then (records, Missing)
    else if records[key] != candidate then (records, Mismatch)
    else (records - {key}, Match)
  }

  /** The consume script of an OAuth state: read and delete. */
  function ReadAndTake(records: Records, key: string): (Records, Option<string>) {
    if key !in records then (records, None) else (records - {key}, Some(records[key]))
  }

  /** What a command on one key adds to the log: nothing, unless it changed the records. */
  function Removal(records: Records, key: string): seq<Event> {
    if key in records then [Removed(key)] else []
  }

  function Taking(records: Records, key: string, taken: bool): seq<Event> {
    if taken && key in records then [Taken(key, records[key])] else []
  }

  lemma Grow(log: seq<Event>, more: seq<Event>)
    requires LawfulLog(log) && |more| <= 1 && (more != [] ==> Lawful(Live(log), more[0]))
    ensures LawfulLog(log + more) && Live(log + more) == if more == [] then Live(log) else Effect(Live(log), more[0])
  {
    if more == [] {
      assert log + more == log;
    } else {
      assert log + more == log + [more[0]];
      hide LawfulLog, Live, Effect, Lawful;
      Snoc(log, more[0]);
    }
  }

  class OTPStore {
    var records: Records
    ghost var log: seq<Event>

    /** The records are what the history of all effective commands leaves, and that history is lawful. */
    ghost predicate Valid()
      reads this
    {
      LawfulLog(log) && records == Live(log)
    }

    constructor ()
      ensures Valid() && log == []
    {
      records, log := map[], [];
    }

    method Store(email: string, hashedCode: string, link: Link) returns (ok: bool)
      requires Valid()
      modifies this
      ensures Valid() && ok == (link == Up)
      ensures log == old(log) + if link == Down then [] else [Stored(email, hashedCode)]
      ensures records == if link == Down then old(records) else old(records)[email := hashedCode]
    {
      Grow(log, if link == Down then [] else [Stored(email, hashedCode)]);
      if link != Down {
        records := records[email := hashedCode];
      }
      log := log + if link == Down then [] else [Stored(email, hashedCode)];
      ok := link == Up;
    }

    /** Some answer says whether the candidate matched; no answer is an error other than not-found. */
    method Consume(email: string, candidateHash: string, link: Link) returns (answer: Option<Consumption>)
      requires Valid()
      modifies this
      ensures Valid()
      ensures answer == if link == Up then Some(CompareAndTake(old(records), email, candidateHash).1) else None
      ensures var held := email in old(records) && old(records)[email] == candidateHash;
              && records == (if link != Down && held then old(records) - {email} else old(records))
              && log == (if link != Down && held then old(log) + [Taken(email, candidateHash)] else old(log))
              && (link == Up ==>
                    && (answer == Some(Match) <==> held)
                    && (answer == Some(Missing) <==> email !in old(records))
                    && (answer == Some(Mismatch) <==> email in old(records) && !held))
    {
      ghost var event := Taking(records, email,
                                link != Down && CompareAndTake(records, email, candidateHash).1 == Match);
      Grow(log, event);
      log := log + event;
      if link == Down {
        return None;
      }
      var status := 0;
      if email in records {
        if records[email] != candidateHash {
          status := 1;
        } else {
          records := records - {email};
          status := 2;
        }
      }
      if link == ReplyLost {
        return None;
      }
      answer := Some(if status == 0 then Missing else if status == 1 then Mismatch else Match);
    }

    method Delete(email: string, link: Link)
      requires Valid()
      modifies this
      ensures Valid()
      ensures log == if link != Down && email in old(records) then old(log) + [Removed(email)] else old(log)
      ensures records == if link == Down then old(records) else old(records) - {email}
    {
      ghost var event := if link == Down then [] else Removal(records, email);
      Grow(log, event);
      if link != Down {
        records := records - {email};
      }
      log := log + event;
    }

    /** Redis drops a record whose time to live has passed. */
    method Expire(email: string)
      requires Valid()
      modifies this
      ensures Valid()
      ensures log == if email in old(records) then old(log) + [Removed(email)] else old(log)
      ensures records == old(records) - {email}
    {
      Delete(email, Up);
    }
  }

  class OAuthStateStore {
    var records: Records
    ghost var log: seq<Event>

    ghost predicate Valid()
      reads this
    {
      LawfulLog(log) && records == Live(log)
    }

    constructor ()
      ensures Valid() && log == []
    {
      records, log := map[], [];
    }

    method Store(state: string, bindingHash: string, link: Link) returns (ok: bool)
      requires Valid()
      modifies this
      ensures Valid() && ok == (link == Up)
      ensures log == old(log) + if link == Down then [] else [Stored(state, bindingHash)]
      ensures records == if link == Down then old(records) else old(records)[state := bindingHash]
    {
      Grow(log, if link == Down then [] else [Stored(state, bindingHash)]);
      if link != Down {
        records := records[state := bindingHash];
      }
      log := log + if link == Down then [] else [Stored(state, bindingHash)];
      ok := link == Up;
    }

    /** Failure is an error; a missing or expired state is Success(None). */
    method Consume(state: string, link: Link) returns (answer: Result<Option<string>, ()>)
      requires Valid()
      modifies this
      ensures Valid()
      ensures log == if link != Down && state in old(records)
                     then old(log) + [Taken(state, old(records)[state])] else old(log)
      ensures answer == if link == Up then Success(ReadAndTake(old(records), state).1) else Failure(())
      ensures records == if link == Down then old(records) else old(records) - {state}
      ensures link == Up ==>
                answer == Success(if state in old(records) then Some(old(records)[state]) else None)
    {
      ghost var event := Taking(records, state, link != Down);
      Grow(log, event);
      log := log + event;
      if link == Down {
        return Failure(());
      }
      var value := None;
      if state in records {
        value := Some(records[state]);
        records := records - {state};
      }
      answer := if link == Up then Success(value) else Failure(());
    }

    /** Redis drops a record whose time to live has passed. */
    method Expire(state: string)
      requires Valid()
      modifies this
      ensures Valid()
      ensures log == if state in old(records) then old(log) + [Removed(state)] else old(log)
      ensures records == old(records) - {state}
    {
      ghost var event := Removal(records, state);
      Grow(log, event);
      records := records - {state};
      log := log + event;
    }
  }
}
