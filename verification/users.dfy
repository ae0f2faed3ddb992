/** The users and oauth_connections tables, one SQL statement at a time. */
module Users {
  import opened Wrappers

  const ACTIVE := "active"

  datatype User = User(id: int, email: string, status: string) {
    predicate CanAuthenticate() {
      status == ACTIVE
    }
  }

  datatype Error = NotFound | DuplicateKey | Unavailable

  /** A provider's name and its own id for a user. */
  datatype Account = Account(provider: string, userId: string)

  /** Both tables; emails is the unique index on users.email, nextId bounds what the identity column has handed out. */
  datatype Tables = Tables(users: map<int, User>, emails: map<string, int>, links: map<Account, int>, nextId: int) {
    ghost predicate Valid() {
      && (forall id :: id in users ==>
            && users[id].id == id && id < nextId
            && users[id].email in emails && emails[users[id].email] == id)
      && (forall email :: email in emails ==> emails[email] in users && users[emails[email]].email == email)
      && (forall account :: account in links ==> links[account] in users)
    }

    function GetByID(id: int): Result<User, Error> {
      if id in users then Success(users[id]) else Failure(NotFound)
    }

    function GetByEmail(email: string): Result<User, Error>
      requires email in emails ==> emails[email] in users
    {
      if email in emails then Success(users[emails[email]]) else Failure(NotFound)
    }

    function Inserted(email: string, id: int): Tables {
      Tables(users[id := User(id, email, ACTIVE)], emails[email := id], links, id + 1)
    }

    /** INSERT INTO users; the identity value is spent even when the email is taken. */
    function CreateUser(email: string, id: int): (Tables, Result<User, Error>) {
      if email in emails then (this.(nextId := id + 1), Failure(DuplicateKey))
      else (Inserted(email, id), Success(User(id, email, ACTIVE)))
    }

    /** The upsert: the linked user if there is one, else the user with that email or a new one, who is then linked. */
    function UpsertOAuthConnection(account: Account, email: string, id: int): (Tables, Result<User, Error>)
      requires account in links ==> links[account] in users
      requires email in emails ==> emails[email] in users
    {
      if account in links then (this, Success(users[links[account]]))
      else if email in emails then
        (this.(links := links[account := emails[email]], nextId := id + 1), Success(users[emails[email]]))
      else
        (Inserted(email, id).(links := links[account := id]), Success(User(id, email, ACTIVE)))
    }
  }

  const EMPTY := Tables(map[], map[], map[], 1)

  class UserTables {
    var users: map<int, User>
    var emails: map<string, int>
    var links: map<Account, int>
    var nextId: int

    function Contents(): Tables
      reads this
    {
      Tables(users, emails, links, nextId)
    }

    ghost predicate Valid()
      reads this
    {
      Contents().Valid()
    }

    constructor ()
      ensures Valid() && Contents() == EMPTY
    {
      users, emails, links, nextId := map[], map[], map[], 1;
    }

    /** Values that the identity column lost to failed statements are skipped. */
    method CreateUser(email: string, skipped: nat) returns (result: Result<User, Error>)
      requires Valid()
      modifies this
      ensures Valid()
      ensures (Contents(), result) == old(Contents()).CreateUser(email, old(nextId) + skipped)
      ensures var taken := exists id :: id in old(users) && old(users)[id].email == email;
              var row := User(old(nextId) + skipped, email, "active");
              && links == old(links)
              && (if taken then result == Failure(DuplicateKey) && users == old(users)
                  else result == Success(row) && row.id !in old(users) && users == old(users)[row.id := row])
    {
      EmailIsTaken(Contents(), email);
      var id := nextId + skipped;
      nextId := id + 1;
      if email in emails {
        return Failure(DuplicateKey);
      }
      var user := User(id, email, ACTIVE);
      users, emails := users[id := user], emails[email := id];
      return Success(user);
    }

    method UpsertOAuthConnection(account: Account, email: string, skipped: nat) returns (result: Result<User, Error>)
      requires Valid()
      modifies this
      ensures Valid() && result.Success?
      ensures (Contents(), result) == old(Contents()).UpsertOAuthConnection(account, email, old(nextId) + skipped)
      ensures Linked(old(Contents()), Contents(), account, email, User(old(nextId) + skipped, email, "active"),
                     result.value)
    {
      UpsertLinks(Contents(), account, email, nextId + skipped);
      hide Linked;
      var target: User;
      if account in links {
        // existing
        target := users[links[account]];
      } else {
        // new_user: ON CONFLICT (email) touches only updated_at and returns the row
        var id := nextId + skipped;
        nextId := id + 1;
        if email in emails {
          target := users[emails[email]];
          assert target.id == emails[email];
        } else {
          target := User(id, email, ACTIVE);
          users, emails := users[id := target], emails[email := id];
        }
        // ensure_connection
        links := links[account := target.id];
        assert Contents() == old(Contents()).UpsertOAuthConnection(account, email, id).0;
      }
      return Success(target);
    }
  }

  /**
   What an upsert of an account amounts to: the account leads to the user it answers with, a row of the users table;
   that is the user it led to before, else the one with the passed email, else the new row; and no other link changes.
   */
  ghost predicate Linked(was: Tables, now: Tables, account: Account, email: string, newRow: User, user: User) {
    && user.id in now.users && now.users[user.id] == user
    && now.links == was.links[account := user.id]
    && (account in was.links ==> user.id == was.links[account] && now.users == was.users)
    && (account !in was.links ==>
          && user.email == email
          && if exists id :: id in was.users && was.users[id].email == email then now.users == was.users
             else user == newRow && newRow.id !in was.users && now.users == was.users[newRow.id := newRow])
  }

  lemma UpsertLinks(db: Tables, account: Account, email: string, id: int)
    requires db.Valid() && id >= db.nextId
    ensures var (db', result) := db.UpsertOAuthConnection(account, email, id);
            result.Success? && Linked(db, db', account, email, User(id, email, "active"), result.value)
  {
    EmailIsTaken(db, email);
    if account in db.links {
      assert db.users[db.links[account]].id == db.links[account];
      assert db.links[account := db.links[account]] == db.links;
    }
    hide Tables.Valid;
  }

  /** The unique index knows every email in use. */
  lemma EmailIsTaken(db: Tables, email: string)
    requires db.Valid()
    ensures email in db.emails <==> exists id :: id in db.users && db.users[id].email == email
    ensures email in db.emails ==>
              db.users[db.emails[email]].email == email && db.users[db.emails[email]].id == db.emails[email]
  {
    if email in db.emails {
      assert db.users[db.emails[email]].id == db.emails[email];
    }
  }

  /** A lookup finds the row there is, and fails only when there is none. */
  lemma LookupsAreExact(db: Tables, id: int, email: string, user: User)
    requires db.Valid()
    ensures db.GetByID(id) == Success(user) <==> id in db.users && db.users[id] == user
    ensures db.GetByID(id).Failure? ==> db.GetByID(id) == Failure(NotFound)
    ensures db.GetByEmail(email) == Success(user) <==>
            user.email == email && user.id in db.users && db.users[user.id] == user
    ensures db.GetByEmail(email).Failure? ==> db.GetByEmail(email) == Failure(NotFound)
  {
    EmailIsTaken(db, email);
    if user.id in db.users && db.users[user.id] == user && user.email == email {
      EmailsAreUnique(db, user.id, db.emails[email]);
    }
  }

  // ---------------------------------------------------------------- sequences of statements

  datatype Op =
    | Create(email: string, id: int, link: Link)
    | Upsert(account: Account, email: string, id: int, link: Link)

  /** A statement that never arrives changes nothing; one whose answer is lost has its effect. */
  function Exec(db: Tables, op: Op): (Tables, Result<User, Error>)
    requires db.Valid()
  {
    if op.link == Down then (db, Failure(Unavailable))
    else
      var (db', result) := if op.Create? then db.CreateUser(op.email, op.id)
                           else db.UpsertOAuthConnection(op.account, op.email, op.id);
      (db', if op.link == ReplyLost then Failure(Unavailable) else result)
  }

  /** Every row that was there is there unchanged, and every link still leads to the same user. */
  ghost predicate Preserves(db: Tables, db': Tables) {
    && (forall id :: id in db.users ==> id in db'.users && db'.users[id] == db.users[id])
    && (forall account :: account in db.links ==> account in db'.links && db'.links[account] == db.links[account])
  }

  /** No statement changes a row's id, email or status, takes a row away, or moves a link. */
  lemma StatementPreserves(db: Tables, op: Op)
    requires db.Valid() && op.id >= db.nextId
    ensures Exec(db, op).0.Valid() && Preserves(db, Exec(db, op).0)
    ensures Exec(db, op).0.nextId >= db.nextId
  {
    if op.Create? {
      CreatePreserves(db, op.email, op.id);
    } else {
      UpsertPreserves(db, op.account, op.email, op.id);
    }
    hide Tables.Valid, Tables.CreateUser, Tables.UpsertOAuthConnection;
  }

  /** A lost answer hides the effect of a statement, and a lost request has none. */
  lemma LinkHidesOnly(db: Tables, op: Op)
    requires db.Valid()
    ensures var (up, answer) := Exec(db, op.(link := Up));
            && Exec(db, op.(link := ReplyLost)) == (up, Failure(Unavailable))
            && Exec(db, op.(link := Down)) == (db, Failure(Unavailable))
            && answer != Failure(Unavailable)
  {}

  lemma CreatePreserves(db: Tables, email: string, id: int)
    requires db.Valid() && id >= db.nextId
    ensures var db' := db.CreateUser(email, id).0;
            db'.Valid() && Preserves(db, db') && db'.nextId >= db.nextId
  {}

  lemma UpsertPreserves(db: Tables, account: Account, email: string, id: int)
    requires db.Valid() && id >= db.nextId
    ensures var db' := db.UpsertOAuthConnection(account, email, id).0;
            db'.Valid() && Preserves(db, db') && db'.nextId >= db.nextId
  {}

  /** A user that a statement answers with is a row of the tables it leaves. */
  lemma AnswerIsRow(db: Tables, op: Op)
    requires db.Valid() && op.id >= db.nextId && Exec(db, op).1.Success?
    ensures var (db', answer) := Exec(db, op);
            && db'.GetByID(answer.value.id) == Success(answer.value)
            && (op.Create? || op.account !in db.links ==> answer.value.email == op.email)
            && (op.Upsert? ==> op.account in db'.links && db'.links[op.account] == answer.value.id)
  {
    if op.Upsert? {
      FoundIsRow(db, op.email);
      if op.account in db.links {
        assert db.users[db.links[op.account]].id == db.links[op.account];
      }
    }
  }

  /** A lookup by email finds the row with that email, under its own id. */
  lemma FoundIsRow(db: Tables, email: string)
    requires db.Valid()
    ensures var found := db.GetByEmail(email);
            found.Success? ==> found.value.email == email && db.GetByID(found.value.id) == found
  {
    if email in db.emails {
      assert db.users[db.emails[email]].id == db.emails[email];
    }
  }

  /** Emails are unique in valid tables. */
  lemma EmailsAreUnique(db: Tables, a: int, b: int)
    requires db.Valid() && a in db.users && b in db.users && db.users[a].email == db.users[b].email
    ensures a == b
  {
    assert db.emails[db.users[a].email] == a && db.emails[db.users[b].email] == b;
  }

  /** Identity values are handed out in growing order. */
  ghost predicate FreshIds(db: Tables, ops: seq<Op>)
    requires db.Valid()
    decreases |ops|, 1
  {
    ops == [] ||
    (FreshIds(db, ops[..|ops| - 1]) && ops[|ops| - 1].id >= After(db, ops[..|ops| - 1]).nextId)
  }

  ghost function After(db: Tables, ops: seq<Op>): (db': Tables)
    requires db.Valid() && FreshIds(db, ops)
    ensures db'.Valid()
    decreases |ops|, 2
  {
    if ops == [] then db
    else
      var before, op := After(db, ops[..|ops| - 1]), ops[|ops| - 1];
      StatementPreserves(before, op);
      Exec(before, op).0
  }

  lemma {:induction false} RunPreserves(db: Tables, ops: seq<Op>)
    requires db.Valid() && FreshIds(db, ops)
    ensures Preserves(db, After(db, ops)) && After(db, ops).nextId >= db.nextId
    decreases |ops|
  {
    if ops != [] {
      var n := |ops| - 1;
      RunPreserves(db, ops[..n]);
      StatementPreserves(After(db, ops[..n]), ops[n]);
    }
  }

  /**
   Account linking is stable: once an upsert for a provider account took effect, the account leads to one user for
   good, and every later upsert of that account that answers returns that same user, whatever email it passes.
   */
  lemma AccountLinkIsStable(db: Tables, first: Op, ops: seq<Op>, again: Op)
    requires db.Valid() && first.Upsert? && first.id >= db.nextId && first.link != Down
    requires FreshIds(Exec(db, first).0, ops) && again.Upsert? && again.account == first.account
    ensures var linked := Exec(db, first).0;
            var later := After(linked, ops);
            && linked.Valid() && later.Valid()
            && first.account in linked.links && linked.links[first.account] in linked.users
            && var user := linked.users[linked.links[first.account]];
            && (first.link == Up ==> Exec(db, first).1 == Success(user))
            && (again.link == Up ==> Exec(later, again) == (later, Success(user)))
            && later.GetByID(user.id) == Success(user)
  {
    StatementPreserves(db, first);
    RunPreserves(Exec(db, first).0, ops);
  }
}
