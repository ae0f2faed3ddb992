/** Six stores on one Redis client: their keys never collide, so each may be thought of as having a map of its own. */
module KeySpace {
  import opened Wrappers

  datatype Family = Otp | OAuthState | Session | TokenBucket | SlidingWindow | UserCache

  function Prefix(f: Family): string {
    match f
    case Otp => "otp:"
    case OAuthState => "oauth_state:"
    case Session => "session:"
    case TokenBucket => "ratelimit:tb:"
    case SlidingWindow => "ratelimit:sw:"
    case UserCache => "user:id:"
  }

  function Key(f: Family, suffix: string): string {
    Prefix(f) + suffix
  }

  /** Of two different prefixes neither starts with the other: they differ at some common position. */
  lemma PrefixesDiffer(f: Family, g: Family) returns (i: nat)
    requires f != g
    ensures i < |Prefix(f)| && i < |Prefix(g)| && Prefix(f)[i] != Prefix(g)[i]
  {
    if {f, g} == {Otp, OAuthState} {
      i := 1;
    } else if {f, g} == {TokenBucket, SlidingWindow} {
      i := 10;
      assert Prefix(TokenBucket)[10] == 't' && Prefix(SlidingWindow)[10] == 's';
    } else {
      i := 0;
    }
  }

  /** A key tells its family and its suffix, whatever the suffix contains. */
  lemma KeysNeverCollide(f: Family, a: string, g: Family, b: string)
    ensures Key(f, a) == Key(g, b) <==> f == g && a == b
  {
    if f == g {
      if Key(f, a) == Key(f, b) {
        assert a == Key(f, a)[|Prefix(f)|..] == Key(f, b)[|Prefix(f)|..] == b;
      }
    } else {
      var i := PrefixesDiffer(f, g);
      assert Key(f, a)[i] == Prefix(f)[i] && Key(g, b)[i] == Prefix(g)[i];
    }
  }

  // ---------------------------------------------------------------- user ids as suffixes

  const DIGITS := "0123456789"

  function Decimal(n: nat): (s: string)
    ensures s != []
    ensures forall i :: 0 <= i < |s| ==> s[i] in DIGITS
  {
    if n < 10 then [DIGITS[n]] else Decimal(n / 10) + [DIGITS[n % 10]]
  }

  /** strconv.FormatInt in base ten. */
  function FormatInt(n: int): string {
    if n < 0 then "-" + Decimal(-n) else Decimal(n)
  }

  /** The number that a decimal notation stands for. */
  function Value(s: string): nat {
    if s == [] then 0
    else 10 * Value(s[..|s| - 1]) + DigitValue(s[|s| - 1])
  }

  function DigitValue(c: char): nat {
    if '0' <= c <= '9' then (c - '0') as int else 0
  }

  lemma DigitReadsBack(d: int)
    requires 0 <= d < 10
    ensures DigitValue(DIGITS[d]) == d
  {}

  /** Round trip: a number's decimal notation stands for that number, and so no other number has it. */
  lemma {:induction false} DecimalReadsBack(n: nat)
    ensures Value(Decimal(n)) == n
  {
    DigitReadsBack(n % 10);
    if n < 10 {
      assert [DIGITS[n]][..0] == [];
    } else {
      DecimalReadsBack(n / 10);
      assert Decimal(n)[..|Decimal(n)| - 1] == Decimal(n / 10);
    }
  }

  lemma DecimalIsInjective(m: nat, n: nat)
    requires Decimal(m) == Decimal(n)
    ensures m == n
  {
    DecimalReadsBack(m);
    DecimalReadsBack(n);
  }

  /** Different user ids have different cache keys, and no other store's key is ever one of them. */
  lemma UserKeysAreInjective(m: int, n: int)
    ensures Key(UserCache, FormatInt(m)) == Key(UserCache, FormatInt(n)) <==> m == n
  {
    KeysNeverCollide(UserCache, FormatInt(m), UserCache, FormatInt(n));
    if FormatInt(m) == FormatInt(n) {
      if m < 0 && n < 0 {
        assert FormatInt(m)[1..] == Decimal(-m) && FormatInt(n)[1..] == Decimal(-n);
        DecimalIsInjective(-m, -n);
      } else if m >= 0 && n >= 0 {
        DecimalIsInjective(m, n);
      } else {
        SignTells(if m < 0 then m else n, if m < 0 then n else m);
      }
    }
  }

  lemma SignTells(negative: int, n: int)
    requires negative < 0 <= n
    ensures FormatInt(negative) != FormatInt(n)
  {
    assert Decimal(n)[0] in DIGITS;
  }

  // ---------------------------------------------------------------- runs

  /**
   A command or script on one key: it reads the entry, leaves an entry or none, and replies. Every operation of the
   six stores is of this form, the expiry of a key included; a tiered script is several in a row.
   */
  datatype Op<!V, !R> = Op(family: Family, suffix: string, act: Option<V> -> (Option<V>, R))

  function Lookup<K, V>(m: map<K, V>, k: K): Option<V> {
    if k in m then Some(m[k]) else None
  }

  function Put<K, V>(m: map<K, V>, k: K, v: Option<V>): map<K, V> {
    if v.Some? then m[k := v.value] else m - {k}
  }

  /** All stores on the one client. */
  function RunShared<V, R>(ops: seq<Op<V, R>>): (map<string, V>, seq<R>) {
    if ops == [] then (map[], [])
    else
      var (data, replies) := RunShared(ops[..|ops| - 1]);
      var op := ops[|ops| - 1];
      var (entry, reply) := op.act(Lookup(data, Key(op.family, op.suffix)));
      (Put(data, Key(op.family, op.suffix), entry), replies + [reply])
  }

  /** Each store on a map of its own, under its own suffixes. */
  function RunSeparate<V, R>(ops: seq<Op<V, R>>): (Family -> map<string, V>, seq<R>) {
    if ops == [] then (_ => map[], [])
    else
      var (stores, replies) := RunSeparate(ops[..|ops| - 1]);
      var op := ops[|ops| - 1];
      var (entry, reply) := op.act(Lookup(stores(op.family), op.suffix));
      var store := Put(stores(op.family), op.suffix, entry);
      (f => if f == op.family then store else stores(f), replies + [reply])
  }

  /** The one client holds under each key what the store of its family holds. */
  ghost predicate Agree<V>(data: map<string, V>, stores: Family -> map<string, V>) {
    forall f, suffix :: Lookup(data, Key(f, suffix)) == Lookup(stores(f), suffix)
  }

  lemma PutAgrees<V>(data: map<string, V>, stores: Family -> map<string, V>,
                     data': map<string, V>, stores': Family -> map<string, V>,
                     f: Family, suffix: string, entry: Option<V>)
    requires Agree(data, stores)
    requires data' == Put(data, Key(f, suffix), entry)
    requires forall g :: stores'(g) == if g == f then Put(stores(f), suffix, entry) else stores(g)
    ensures Agree(data', stores')
  {
    forall g, s ensures Lookup(data', Key(g, s)) == Lookup(stores'(g), s) {
      assert Lookup(data, Key(g, s)) == Lookup(stores(g), s);
      KeysNeverCollide(g, s, f, suffix);
    }
  }

  /** Every run on the one client gives each operation the reply, and each key the entry, of the run on six maps. */
  lemma {:induction false} SharedRunIsSixRuns<V, R>(ops: seq<Op<V, R>>)
    ensures RunShared(ops).1 == RunSeparate(ops).1
    ensures Agree(RunShared(ops).0, RunSeparate(ops).0)
  {
    hide Key, Put;
    if ops != [] {
      var before, op := ops[..|ops| - 1], ops[|ops| - 1];
      SharedRunIsSixRuns(before);
      var data, stores := RunShared(before).0, RunSeparate(before).0;
      assert Lookup(data, Key(op.family, op.suffix)) == Lookup(stores(op.family), op.suffix);
      var entry := op.act(Lookup(stores(op.family), op.suffix)).0;
      PutAgrees(data, stores, RunShared(ops).0, RunSeparate(ops).0, op.family, op.suffix, entry);
    }
  }

  /** And nothing else is on the client: every key belongs to one of the six stores. */
  lemma {:induction false} EveryKeyHasAFamily<V, R>(ops: seq<Op<V, R>>, key: string) returns (f: Family, suffix: string)
    requires key in RunShared(ops).0
    ensures key == Key(f, suffix) && suffix in RunSeparate(ops).0(f)
  {
    var before, op := ops[..|ops| - 1], ops[|ops| - 1];
    if key == Key(op.family, op.suffix) {
      f, suffix := op.family, op.suffix;
    } else {
      f, suffix := EveryKeyHasAFamily(before, key);
    }
    SharedRunIsSixRuns(ops);
    assert Lookup(RunShared(ops).0, Key(f, suffix)) == Lookup(RunSeparate(ops).0(f), suffix);
  }
}
