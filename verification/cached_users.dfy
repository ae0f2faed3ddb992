/** The cache-aside user store: its methods one at a time, and every interleaving of their steps. */
module CachedUsers {
  import opened Wrappers
  import opened Users

  /** Every cached user is the row with that id. */
  ghost predicate Coherent(cache: map<int, User>, db: Tables) {
    forall id :: id in cache ==> id in db.users && cache[id] == db.users[id]
  }

  class UserCacheStore {
    var entries: map<int, User>

    constructor ()
      ensures entries == map[]
    {
      entries := map[];
    }

    /** found is false both for a missing key and for a failed read. */
    method GetByID(id: int, link: Link) returns (user: Option<User>)
      ensures user == if link == Up && id in entries then Some(entries[id]) else None
    {
      if link != Up || id !in entries {
        return None;
      }
      return Some(entries[id]);
    }

    method SetByID(id: int, user: User, link: Link)
      modifies this
      ensures entries == if link == Down then old(entries) else old(entries)[id := user]
    {
      if link != Down {
        entries := entries[id := user];
      }
    }

    method DeleteByID(id: int, link: Link)
      modifies this
      ensures entries == if link == Down then old(entries) else old(entries) - {id}
    {
      if link != Down {
        entries := entries - {id};
      }
    }
  }

  class CachedUserStore {
    const base: UserTables
    const cache: UserCacheStore

    ghost predicate Valid()
      reads this, base, cache
    {
      base.Valid() && Coherent(cache.entries, base.Contents())
    }

    constructor (base: UserTables, cache: UserCacheStore)
      requires base.Valid() && cache.entries == map[]
      ensures this.base == base && this.cache == cache && Valid()
    {
      this.base, this.cache := base, cache;
    }

    /** An answer is always the base's answer; only a failed load behind a failed or empty read gives none. */
    method GetByID(id: int, read: Link, load: Link, fill: Link) returns (result: Result<User, Error>)
      requires Valid()
      modifies cache
      ensures Valid()
      ensures var hit := read == Up && id in old(cache.entries);
              && result == (if hit || load == Up then base.Contents().GetByID(id) else Failure(Unavailable))
              && cache.entries == if hit || result.Failure? || fill == Down then old(cache.entries)
                                  else old(cache.entries)[id := base.users[id]]
    {
      var cached := cache.GetByID(id, read);
      if cached.Some? {
        return Success(cached.value);
      }
      if load != Up {
        return Failure(Unavailable);
      }
      result := base.Contents().GetByID(id);
      if result.Success? {
        cache.SetByID(id, result.value, fill);
      }
    }

    method CreateByEmail(email: string, skipped: nat, link: Link) returns (result: Result<User, Error>)
      requires Valid()
      modifies base
      ensures Valid()
      ensures (base.Contents(), result) ==
              Exec(old(base.Contents()), Create(email, old(base.nextId) + skipped, link))
      ensures Preserves(old(base.Contents()), base.Contents())
    {
      hide Tables.Valid, Tables.UpsertOAuthConnection, Tables.CreateUser;
      StatementPreserves(base.Contents(), Create(email, base.nextId + skipped, link));
      if link == Down {
        return Failure(Unavailable);
      }
      result := base.CreateUser(email, skipped);
      if link == ReplyLost {
        return Failure(Unavailable);
      }
    }

    method UpsertOAuthUser(account: Account, email: string, skipped: nat, link: Link, invalidate: Link)
      returns (result: Result<User, Error>)
      requires Valid()
      modifies base, cache
      ensures Valid()
      ensures (base.Contents(), result) ==
              Exec(old(base.Contents()), Upsert(account, email, old(base.nextId) + skipped, link))
      ensures Preserves(old(base.Contents()), base.Contents())
      ensures cache.entries == if result.Failure? || invalidate == Down then old(cache.entries)
                               else old(cache.entries) - {result.value.id}
    {
      hide Tables.Valid, Tables.UpsertOAuthConnection, Tables.CreateUser;
      StatementPreserves(base.Contents(), Upsert(account, email, base.nextId + skipped, link));
      if link == Down {
        return Failure(Unavailable);
      }
      result := base.UpsertOAuthConnection(account, email, skipped);
      if link == ReplyLost {
        return Failure(Unavailable);
      }
      cache.DeleteByID(result.value.id, invalidate);
    }
  }

  // ---------------------------------------------------------------- every interleaving

  /** Where one request handler stands inside a store method. */
  datatype Pc =
    | Idle
    | ReadingCache(id: int)
    | Loading(id: int)
    | Filling(id: int, user: User)
    | Creating(email: string)
    | Upserting(account: Account, email: string)
    | Invalidating(user: User)

  datatype State = State(db: Tables, cache: map<int, User>, handlers: map<nat, Pc>) {
    function At(h: nat): Pc {
      if h in handlers then handlers[h] else Idle
    }
  }

  /** One atomic step: a call, one command to Redis or one statement to PostgreSQL, or the loss of a cache entry. */
  datatype Step =
    | Call(h: nat, pc: Pc)
    | ReadCache(h: nat, link: Link)
    | Load(h: nat, link: Link)
    | Fill(h: nat, link: Link)
    | CreateRow(h: nat, id: int, link: Link)
    | UpsertRow(h: nat, id: int, link: Link)
    | Invalidate(h: nat, link: Link)
    | Expire(key: int)

  predicate Enabled(s: State, step: Step) {
    match step
    case Call(h, pc) => s.At(h).Idle? && (pc.ReadingCache? || pc.Creating? || pc.Upserting?)
    case ReadCache(h, _) => s.At(h).ReadingCache?
    case Load(h, _) => s.At(h).Loading?
    case Fill(h, _) => s.At(h).Filling?
    case CreateRow(h, id, _) => s.At(h).Creating? && id >= s.db.nextId
    case UpsertRow(h, id, _) => s.At(h).Upserting? && id >= s.db.nextId
    case Invalidate(h, _) => s.At(h).Invalidating?
    case Expire(_) => true
  }

  /** What a finished GetByID hands to its caller. */
  datatype Answer = Answer(id: int, result: Result<User, Error>)

  function Moved(s: State, h: nat, pc: Pc): State {
    s.(handlers := s.handlers[h := pc])
  }

  function Apply(s: State, step: Step): (State, Option<Answer>)
    requires s.db.Valid() && Enabled(s, step)
  {
    match step
    case Call(h, pc) => (Moved(s, h, pc), None)
    case ReadCache(h, link) =>
      var id := s.At(h).id;
      if link == Up && id in s.cache then (Moved(s, h, Idle), Some(Answer(id, Success(s.cache[id]))))
      else (Moved(s, h, Loading(id)), None)
    case Load(h, link) =>
      var id := s.At(h).id;
      var result := if link == Up then s.db.GetByID(id) else Failure(Unavailable);
      if result.Success? then (Moved(s, h, Filling(id, result.value)), None)
      else (Moved(s, h, Idle), Some(Answer(id, result)))
    case Fill(h, link) =>
      var Filling(id, user) := s.At(h);
      var cache := if link == Down then s.cache else s.cache[id := user];
      (Moved(s, h, Idle).(cache := cache), Some(Answer(id, Success(user))))
    case CreateRow(h, id, link) =>
      (Moved(s, h, Idle).(db := Exec(s.db, Create(s.At(h).email, id, link)).0), None)
    case UpsertRow(h, id, link) =>
      var (db, result) := Exec(s.db, Upsert(s.At(h).account, s.At(h).email, id, link));
      (Moved(s, h, if result.Success? then Invalidating(result.value) else Idle).(db := db), None)
    case Invalidate(h, link) =>
      var user := s.At(h).user;
      (Moved(s, h, Idle).(cache := if link == Down then s.cache else s.cache - {user.id}), None)
    case Expire(key) => (s.(cache := s.cache - {key}), None)
  }

  // ---------------------------------------------------------------- one handler alone

  /** The steps of GetByID with nothing in between. */
  function GetByIDAlone(s: State, h: nat, id: int, read: Link, load: Link, fill: Link): (State, Option<Answer>)
    requires s.db.Valid() && s.At(h).Idle?
  {
    var called := Apply(s, Call(h, ReadingCache(id))).0;
    var (looked, hit) := Apply(called, ReadCache(h, read));
    if hit.Some? then (looked, hit)
    else
      var (loaded, failed) := Apply(looked, Load(h, load));
      if failed.Some? then (loaded, failed) else Apply(loaded, Fill(h, fill))
  }

  /** The steps of UpsertOAuthUser with nothing in between. */
  function UpsertAlone(s: State, h: nat, account: Account, email: string, id: int, link: Link, invalidate: Link): State
    requires s.db.Valid() && s.At(h).Idle? && id >= s.db.nextId
  {
    var called := Apply(s, Call(h, Upserting(account, email))).0;
    StatementPreserves(s.db, Upsert(account, email, id, link));
    var linked := Apply(called, UpsertRow(h, id, link)).0;
    if linked.At(h).Idle? then linked else Apply(linked, Invalidate(h, invalidate)).0
  }

  /** Taken one after another, the steps of GetByID do to the cache, and answer, what the method promises. */
  lemma GetByIDStepsAreTheMethod(s: State, h: nat, id: int, read: Link, load: Link, fill: Link)
    requires Inv(s) && s.At(h).Idle?
    ensures var (got, answer) := GetByIDAlone(s, h, id, read, load, fill);
            var hit := read == Up && id in s.cache;
            var result := if hit || load == Up then s.db.GetByID(id) else Failure(Unavailable);
            && answer == Some(Answer(id, result)) && got.db == s.db && got.At(h).Idle?
            && got.cache == if hit || result.Failure? || fill == Down then s.cache else s.cache[id := s.db.users[id]]
  {
    assert id in s.cache ==> id in s.db.users && s.cache[id] == s.db.users[id];
    hide Inv, Tables.Valid, Exec, Coherent;
  }

  lemma UpsertRowStep(s: State, h: nat, account: Account, email: string, id: int, link: Link)
    requires s.db.Valid() && s.At(h) == Upserting(account, email) && id >= s.db.nextId
    ensures var linked, (db, result) := Apply(s, UpsertRow(h, id, link)).0, Exec(s.db, Upsert(account, email, id, link));
            && linked.db == db && linked.cache == s.cache
            && linked.At(h) == if result.Success? then Invalidating(result.value) else Idle
  {
    hide Exec, Tables.Valid;
  }

  /** And so do the steps of UpsertOAuthUser. */
  lemma UpsertStepsAreTheMethod(s: State, h: nat, account: Account, email: string, id: int, link: Link,
                                invalidate: Link)
    requires Inv(s) && s.At(h).Idle? && id >= s.db.nextId
    ensures var upserted := UpsertAlone(s, h, account, email, id, link, invalidate);
            var (db, result) := Exec(s.db, Upsert(account, email, id, link));
            && upserted.db == db && upserted.At(h).Idle?
            && upserted.cache == if result.Failure? || invalidate == Down then s.cache
                                 else s.cache - {result.value.id}
  {
    hide Exec, Tables.Valid, Coherent;
    StatementPreserves(s.db, Upsert(account, email, id, link));
    UpsertRowStep(Apply(s, Call(h, Upserting(account, email))).0, h, account, email, id, link);
  }

  /** And so does the one step of CreateByEmail; the cache is not asked. */
  lemma CreateStepIsTheMethod(s: State, h: nat, email: string, id: int, link: Link)
    requires Inv(s) && s.At(h).Idle? && id >= s.db.nextId
    ensures var called := Apply(s, Call(h, Creating(email))).0;
            var created := Apply(called, CreateRow(h, id, link)).0;
            created.db == Exec(s.db, Create(email, id, link)).0 && created.cache == s.cache && created.At(h).Idle?
  {
    hide Exec, Tables.Valid, Coherent;
  }

  // ---------------------------------------------------------------- invariants

  /** Cached users and users on their way into the cache are rows of the table as it is now. */
  ghost predicate Inv(s: State) {
    && s.db.Valid()
    && Coherent(s.cache, s.db)
    && forall h :: h in s.handlers && s.handlers[h].Filling? ==>
         s.db.GetByID(s.handlers[h].id) == Success(s.handlers[h].user)
  }

  const START := State(EMPTY, map[], map[])

  lemma StepKeepsInv(s: State, step: Step)
    requires Inv(s) && Enabled(s, step)
    ensures Inv(Apply(s, step).0) && Preserves(s.db, Apply(s, step).0.db)
  {
    match step
    case CreateRow(h, id, link) => StatementPreserves(s.db, Create(s.At(h).email, id, link));
    case UpsertRow(h, id, link) => StatementPreserves(s.db, Upsert(s.At(h).account, s.At(h).email, id, link));
    case _ =>
  }

  /** A finished GetByID answers as the base would at that moment, unless the database could not be reached. */
  lemma AnswerIsBaseAnswer(s: State, step: Step)
    requires Inv(s) && Enabled(s, step) && Apply(s, step).1.Some?
    ensures var answer := Apply(s, step).1.value;
            || answer.result == s.db.GetByID(answer.id)
            || (answer.result == Failure(Unavailable) && step.Load? && step.link != Up)
  {}

  /** The state after a schedule of steps, or nothing if some step was not enabled. */
  ghost function After(steps: seq<Step>): (s: Option<State>)
    ensures s.Some? ==> Inv(s.value)
  {
    if steps == [] then Some(START)
    else
      var before, step := After(steps[..|steps| - 1]), steps[|steps| - 1];
      if before.None? || !Enabled(before.value, step) then None
      else
        StepKeepsInv(before.value, step);
        Some(Apply(before.value, step).0)
  }

  lemma {:induction false} RowsStay(steps: seq<Step>, more: seq<Step>)
    requires After(steps + more).Some?
    ensures After(steps).Some? && Preserves(After(steps).value.db, After(steps + more).value.db)
    decreases |more|
  {
    hide Apply, Enabled, Inv, Tables.Valid;
    if more == [] {
      assert steps + more == steps;
    } else {
      var n := |more| - 1;
      assert (steps + more)[..|steps| + n] == steps + more[..n];
      RowsStay(steps, more[..n]);
      StepKeepsInv(After(steps + more[..n]).value, more[n]);
    }
  }

  /**
   The cached store refines the base store: under every interleaving of all methods, with failing caches and databases
   and entries lost at any time, every cache entry equals its row, and every GetByID that answers, answers what the
   base returns at the moment of answering and, once it found a user, ever after.
   */
  lemma CachedStoreRefinesBase(steps: seq<Step>, step: Step, more: seq<Step>)
    requires After(steps + [step] + more).Some?
    ensures After(steps).Some? && Enabled(After(steps).value, step)
    ensures var s, later := After(steps).value, After(steps + [step] + more).value;
            var answer := Apply(s, step).1;
            && Coherent(later.cache, later.db)
            && (answer.Some? && answer.value.result != Failure(Unavailable) ==>
                  s.db.GetByID(answer.value.id) == answer.value.result)
            && (answer.Some? && answer.value.result.Success? ==>
                  later.db.GetByID(answer.value.id) == answer.value.result)
  {
    RowsStay(steps + [step], more);
    assert (steps + [step])[..|steps|] == steps;
    var s := After(steps).value;
    StepKeepsInv(s, step);
    if Apply(s, step).1.Some? {
      AnswerIsBaseAnswer(s, step);
    }
  }
}
