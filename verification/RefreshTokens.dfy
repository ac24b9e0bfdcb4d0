/** auth.py and account.py: refresh tokens that rotate, and what deletion does to them. Each service
    method is one transaction on the two tables; hashes, families and user ids are drawn fresh. */
module RefreshTokens {
  import opened Prelude
  import opened Text

  type Hash = int
  type Family = int
  type User = int

  const REFRESH_TTL: real := 2592000.0

  datatype Token = Token(user: User, family: Family, expiresAt: real, revokedAt: Option<real>)

  /** `deleted` holds the `deleted_at` column of `users`. */
  datatype Store = Store(deleted: map<User, Option<real>>, tokens: map<Hash, Token>)

  datatype AuthError = Invalid | Reused | Expired | BadCredentials

  predicate Active(s: Store, user: User) {
    user in s.deleted && s.deleted[user].None?
  }

  predicate Live(s: Store, h: Hash) {
    h in s.tokens && s.tokens[h].revokedAt.None?
  }

  function Revoked(t: Token, now: real): Token {
    if t.revokedAt.None? then t.(revokedAt := Some(now)) else t
  }

  function RevokeFamily(s: Store, family: Family, now: real): Store {
    s.(tokens := map h | h in s.tokens :: if s.tokens[h].family == family then Revoked(s.tokens[h], now) else s.tokens[h])
  }

  function RevokeUser(s: Store, user: User, now: real): Store {
    s.(tokens := map h | h in s.tokens :: if s.tokens[h].user == user then Revoked(s.tokens[h], now) else s.tokens[h])
  }

  function RevokeOne(s: Store, h: Hash, now: real): Store {
    if h in s.tokens then s.(tokens := s.tokens[h := Revoked(s.tokens[h], now)]) else s
  }

  function Issue(s: Store, user: User, family: Family, h: Hash, now: real): Store {
    s.(tokens := s.tokens[h := Token(user, family, now + REFRESH_TTL, None)])
  }

  /** The three refusals of an exchange, or success. */
  function Verdict(s: Store, h: Hash, now: real): Result<Token, AuthError> {
    if h !in s.tokens || !Active(s, s.tokens[h].user) then Err(Invalid)
    else if s.tokens[h].revokedAt.Some? then Err(Reused)
    else if s.tokens[h].expiresAt <= now then Err(Expired)
    else Ok(s.tokens[h])
  }

  function Rotated(s: Store, h: Hash, next: Hash, now: real): Store {
    match Verdict(s, h, now)
    case Ok(t) => Issue(s.(tokens := s.tokens[h := t.(revokedAt := Some(now))]), t.user, t.family, next, now)
    case Err(e) => if e == Reused then RevokeFamily(s, s.tokens[h].family, now) else s
  }

  /** What is left of an exchange after its caller: a successful one is committed, and the revocation that goes
      with a refusal only when the caller commits in spite of the refusal. */
  function Settled(s: Store, h: Hash, next: Hash, now: real, kept: bool): Store {
    if Verdict(s, h, now).Ok? || kept then Rotated(s, h, next, now) else s
  }

  function Deleted(s: Store, user: User, now: real): Store {
    RevokeUser(if Active(s, user) then s.(deleted := s.deleted[user := Some(now)]) else s, user, now)
  }

  function Erased(s: Store, user: User): Store {
    Store(map u | u in s.deleted && u != user :: s.deleted[u],
          map h | h in s.tokens && s.tokens[h].user != user :: s.tokens[h])
  }

  function LiveOf(s: Store, user: User): set<Hash> {
    set h | h in s.tokens && s.tokens[h].user == user && s.tokens[h].revokedAt.None?
  }

  // ---- what the tables must show ----

  /** The tables differ in the revocation of those tokens only that were not revoked before. */
  ghost predicate RevokesOnly(s: Store, t: Store, hit: set<Hash>, now: real) {
    && t.deleted == s.deleted && t.tokens.Keys == s.tokens.Keys
    && forall h :: h in s.tokens ==>
         t.tokens[h] == if h in hit && s.tokens[h].revokedAt.None? then s.tokens[h].(revokedAt := Some(now)) else s.tokens[h]
  }

  function OfFamily(s: Store, family: Family): set<Hash> {
    set h | h in s.tokens && s.tokens[h].family == family
  }

  function OfUser(s: Store, user: User): set<Hash> {
    set h | h in s.tokens && s.tokens[h].user == user
  }

  /** The token exists, and its user has not been deleted. */
  predicate Recognised(s: Store, h: Hash) {
    h in s.tokens && s.tokens[h].user in s.deleted && s.deleted[s.tokens[h].user].None?
  }

  /** What an exchange answers and does, the transaction being committed. */
  ghost predicate Exchanges(s: Store, t: Store, h: Hash, next: Hash, now: real, r: Result<Hash, AuthError>) {
    if !Recognised(s, h) then r == Err(Invalid) && t == s
    else if s.tokens[h].revokedAt.Some? then r == Err(Reused) && RevokesOnly(s, t, OfFamily(s, s.tokens[h].family), now)
    else if s.tokens[h].expiresAt <= now then r == Err(Expired) && t == s
    else
      && r == Ok(next) && t.deleted == s.deleted && t.tokens.Keys == s.tokens.Keys + {next}
      && t.tokens[next] == Token(s.tokens[h].user, s.tokens[h].family, now + 2592000.0, None)
      && forall g :: g in s.tokens && g != next ==>
           t.tokens[g] == if g == h then s.tokens[g].(revokedAt := Some(now)) else s.tokens[g]
  }

  // ---- the service, in place ----

  datatype Account = Account(email: string, passwordHash: string)

  /** What the password hasher offers. */
  datatype Hasher = Hasher(verify: (string, string) -> bool, isDated: string -> bool, hash: string -> string)

  /** The rows that a login with this e-mail address looks at. */
  predicate Signs(accounts: map<User, Account>, s: Store, lower: string -> string, email: string, user: User) {
    user in accounts && accounts[user].email == lower(Strip(email)) && Active(s, user)
  }

  /** The constraint on the column. */
  ghost predicate UniqueEmails(accounts: map<User, Account>) {
    forall u, v :: u in accounts && v in accounts && accounts[u].email == accounts[v].email ==> u == v
  }

  function Rehashed(accounts: map<User, Account>, user: User, password: string, hasher: Hasher): map<User, Account>
    requires user in accounts
  {
    if hasher.isDated(accounts[user].passwordHash)
    then accounts[user := accounts[user].(passwordHash := hasher.hash(password))] else accounts
  }

  class AuthService {
    var store: Store
    var accounts: map<User, Account>
    const hasher: Hasher
    const lower: string -> string

    constructor (hasher: Hasher, lower: string -> string)
      ensures store == START.store && accounts == map[] && this.hasher == hasher && this.lower == lower
    {
      store, accounts, this.hasher, this.lower := START.store, map[], hasher, lower;
    }

    /** One refusal, whether the address is unknown, its account deleted or the password wrong. */
    method Authenticate(email: string, password: string) returns (r: Result<User, AuthError>)
      requires UniqueEmails(accounts)
      modifies this`accounts
      ensures forall user :: r == Ok(user) <==>
        user in old(accounts) && old(accounts)[user].email == lower(Strip(email)) &&
        user in store.deleted && store.deleted[user].None? && hasher.verify(old(accounts)[user].passwordHash, password)
      ensures r.Err? ==> r == Err(BadCredentials) && accounts == old(accounts)
      ensures r.Ok? ==>
        r.value in old(accounts) &&
        accounts == if hasher.isDated(old(accounts)[r.value].passwordHash)
          then old(accounts)[r.value := Account(old(accounts)[r.value].email, hasher.hash(password))] else old(accounts)
      ensures UniqueEmails(accounts)
    {
      if user :| user in accounts && Signs(accounts, store, lower, email, user) {
        if !hasher.verify(accounts[user].passwordHash, password) {
          return Err(BadCredentials);
        }
        accounts := Rehashed(accounts, user, password, hasher);
        r := Ok(user);
      } else {
        r := Err(BadCredentials);
      }
    }

    /** The endpoint: credentials first, then a new family. */
    method Login(email: string, password: string, h: Hash, family: Family, now: real) returns (r: Result<User, AuthError>)
      requires UniqueEmails(accounts)
      modifies this
      ensures r.Err? ==> store == old(store)
      ensures forall user :: r == Ok(user) <==>
        user in old(accounts) && old(accounts)[user].email == lower(Strip(email)) &&
        user in old(store).deleted && old(store).deleted[user].None? &&
        hasher.verify(old(accounts)[user].passwordHash, password)
      ensures r.Ok? ==> forall w: World :: w.store == old(store) && h !in w.hashes && family !in w.families ==>
        Enabled(w, Event.Login(r.value, h, family, now)) && store == Next(w, Event.Login(r.value, h, family, now)).store
    {
      r := Authenticate(email, password);
      if r.Ok? {
        IssueTokens(r.value, None, family, h, now);
      }
    }

    method IssueTokens(user: User, family: Option<Family>, newFamily: Family, h: Hash, now: real)
      modifies this
      ensures store.deleted == old(store).deleted
      ensures store.tokens == old(store).tokens[h :=
        Token(user, if family.Some? then family.value else newFamily, now + 2592000.0, None)]
    {
      store := Issue(store, user, if family.Some? then family.value else newFamily, h, now);
    }

    method Rotate(h: Hash, next: Hash, now: real) returns (r: Result<Hash, AuthError>)
      modifies this
      ensures Exchanges(old(store), store, h, next, now, r)
      ensures store == Rotated(old(store), h, next, now)
      ensures match Verdict(old(store), h, now) case Ok(_) => r == Ok(next) case Err(e) => r == Err(e)
    {
      if h !in store.tokens || !Active(store, store.tokens[h].user) {
        return Err(Invalid);
      }
      var t := store.tokens[h];
      if t.revokedAt.Some? {
        store := RevokeFamily(store, t.family, now);
        return Err(Reused);
      }
      if t.expiresAt <= now {
        return Err(Expired);
      }
      store := store.(tokens := store.tokens[h := t.(revokedAt := Some(now))]);
      IssueTokens(t.user, Some(t.family), t.family, next, now);
      r := Ok(next);
    }

    /** The endpoint: a refusal becomes an HTTP error, on which the request's transaction is rolled back. */
    method Refresh(h: Hash, next: Hash, now: real) returns (r: Result<Hash, AuthError>)
      modifies this
      ensures if r.Ok? then Exchanges(old(store), store, h, next, now, r) else store == old(store)
      ensures exists committed :: Exchanges(old(store), committed, h, next, now, r)
      ensures store == Settled(old(store), h, next, now, false)
    {
      var before := store;
      r := Rotate(h, next, now);
      if r.Err? {
        store := before;
      }
    }

    method RevokeRefreshToken(h: Hash, now: real) returns (hit: bool)
      modifies this
      ensures RevokesOnly(old(store), store, {h}, now)
      ensures hit <==> h in old(store).tokens && old(store).tokens[h].revokedAt.None?
    {
      hit := Live(store, h);
      store := RevokeOne(store, h, now);
    }

    method RevokeAll(user: User, now: real) returns (count: nat)
      modifies this
      ensures RevokesOnly(old(store), store, OfUser(old(store), user), now)
      ensures store == RevokeUser(old(store), user, now)
      ensures count == |set h | h in OfUser(old(store), user) && old(store).tokens[h].revokedAt.None?|
    {
      assert LiveOf(store, user) == set h | h in OfUser(store, user) && store.tokens[h].revokedAt.None?;
      count := |LiveOf(store, user)|;
      store := RevokeUser(store, user, now);
    }

    method RequestDeletion(user: User, now: real) returns (sessions: nat)
      modifies this
      ensures RevokesOnly(old(store).(deleted := store.deleted), store, OfUser(old(store), user), now)
      ensures store.deleted ==
        if user in old(store).deleted && old(store).deleted[user].None? then old(store).deleted[user := Some(now)]
        else old(store).deleted
      ensures sessions == |set h | h in OfUser(old(store), user) && old(store).tokens[h].revokedAt.None?|
    {
      if Active(store, user) {
        store := store.(deleted := store.deleted[user := Some(now)]);
      }
      sessions := RevokeAll(user, now);
    }
  }

  // ---- runs ----

  /** `kept` says whether the caller of an exchange commits after a refusal too. */
  datatype Event =
    | Register(user: User)
    | Login(user: User, hash: Hash, family: Family, now: real)
    | Rotate(presented: Hash, next: Hash, now: real, kept: bool)
    | Logout(presented: Hash, now: real)
    | LogoutAll(user: User, now: real)
    | Delete(user: User, now: real)
    | Erase(user: User)

  /** The store with the history that freshness is about. */
  datatype World = World(store: Store, hashes: set<Hash>, families: set<Family>, users: set<User>)

  const START := World(Store(map[], map[]), {}, {}, {})

  predicate Enabled(w: World, e: Event) {
    match e
    case Register(user) => user !in w.users
    case Login(user, hash, family, _) => Active(w.store, user) && hash !in w.hashes && family !in w.families
    case Rotate(_, next, _, _) => next !in w.hashes
    case _ => true
  }

  function Next(w: World, e: Event): World {
    match e
    case Register(user) => w.(store := w.store.(deleted := w.store.deleted[user := None]), users := w.users + {user})
    case Login(user, hash, family, now) =>
      World(Issue(w.store, user, family, hash, now), w.hashes + {hash}, w.families + {family}, w.users)
    case Rotate(presented, next, now, kept) =>
      w.(store := Settled(w.store, presented, next, now, kept), hashes := w.hashes + {next})
    case Logout(presented, now) => w.(store := RevokeOne(w.store, presented, now))
    case LogoutAll(user, now) => w.(store := RevokeUser(w.store, user, now))
    case Delete(user, now) => w.(store := Deleted(w.store, user, now))
    case Erase(user) => w.(store := Erased(w.store, user))
  }

  function After(events: seq<Event>): World {
    if events == [] then START else Next(After(events[..|events| - 1]), events[|events| - 1])
  }

  predicate Legal(events: seq<Event>) {
    events == [] ||
    (Legal(events[..|events| - 1]) && Enabled(After(events[..|events| - 1]), events[|events| - 1]))
  }

  // ---- the invariant ----

  predicate Known(w: World, h: Hash)
    requires h in w.store.tokens
  {
    var t := w.store.tokens[h];
    h in w.hashes && t.family in w.families && t.user in w.users && t.user in w.store.deleted &&
    (t.revokedAt.None? ==> Active(w.store, t.user))
  }

  ghost predicate OneLivePerFamily(s: Store) {
    forall g, h :: Live(s, g) && Live(s, h) && s.tokens[g].family == s.tokens[h].family ==> g == h
  }

  ghost predicate OneUserPerFamily(s: Store) {
    forall g, h :: g in s.tokens && h in s.tokens && s.tokens[g].family == s.tokens[h].family ==>
      s.tokens[g].user == s.tokens[h].user
  }

  ghost predicate Inv(w: World) {
    && w.store.deleted.Keys <= w.users
    && (forall h :: h in w.store.tokens ==> Known(w, h))
    && OneLivePerFamily(w.store) && OneUserPerFamily(w.store)
  }

  lemma StepKeepsKnown(w: World, e: Event)
    requires Inv(w) && Enabled(w, e)
    ensures forall h :: h in Next(w, e).store.tokens ==> Known(Next(w, e), h)
  {
    hide OneLivePerFamily, OneUserPerFamily;
    var v := Next(w, e);
    forall h | h in v.store.tokens ensures Known(v, h) {
      if h in w.store.tokens {
        assert Known(w, h);
      }
      if e.Rotate? && e.presented in w.store.tokens {
        assert Known(w, e.presented);
      }
    }
  }

  lemma StepKeepsFamilies(w: World, e: Event)
    requires Inv(w) && Enabled(w, e)
    ensures OneUserPerFamily(Next(w, e).store)
  {
    var v := Next(w, e);
    forall g, h | g in v.store.tokens && h in v.store.tokens && v.store.tokens[g].family == v.store.tokens[h].family
      ensures v.store.tokens[g].user == v.store.tokens[h].user
    {
      if g in w.store.tokens {
        assert Known(w, g);
      }
      if h in w.store.tokens {
        assert Known(w, h);
      }
    }
  }

  lemma StepKeepsOneLive(w: World, e: Event)
    requires Inv(w) && Enabled(w, e)
    ensures OneLivePerFamily(Next(w, e).store)
  {
    var v := Next(w, e);
    forall g, h | Live(v.store, g) && Live(v.store, h) && v.store.tokens[g].family == v.store.tokens[h].family
      ensures g == h
    {
      if g in w.store.tokens {
        assert Known(w, g);
      }
      if h in w.store.tokens {
        assert Known(w, h);
      }
    }
  }

  lemma {:induction false} RunsKeepInv(events: seq<Event>)
    requires Legal(events)
    ensures Inv(After(events))
  {
    if events == [] {
    } else {
      var w, e := After(events[..|events| - 1]), events[|events| - 1];
      RunsKeepInv(events[..|events| - 1]);
      StepKeepsKnown(w, e);
      StepKeepsFamilies(w, e);
      StepKeepsOneLive(w, e);
    }
  }

  /** Over any run a family never has two unrevoked tokens. */
  lemma FamilyHasOneLiveToken(events: seq<Event>, g: Hash, h: Hash)
    requires Legal(events)
    ensures var s := After(events).store;
            Live(s, g) && Live(s, h) && s.tokens[g].family == s.tokens[h].family ==> g == h
  {
    RunsKeepInv(events);
  }

  // ---- nothing comes back ----

  ghost predicate FamilyDead(w: World, family: Family) {
    family in w.families && forall h :: h in w.store.tokens && w.store.tokens[h].family == family ==> !Live(w.store, h)
  }

  lemma DeadFamilyStep(w: World, e: Event, family: Family)
    requires Inv(w) && Enabled(w, e) && FamilyDead(w, family)
    ensures FamilyDead(Next(w, e), family)
  {
    hide OneLivePerFamily, OneUserPerFamily;
  }

  /** A family without a live token never regains one. */
  lemma {:induction false} DeadFamilyStaysDead(events: seq<Event>, k: nat, family: Family)
    requires Legal(events) && k <= |events| && FamilyDead(After(events[..k]), family)
    ensures FamilyDead(After(events), family)
  {
    if k == |events| {
      assert events[..k] == events;
    } else {
      var n := |events| - 1;
      assert events[..n][..k] == events[..k];
      DeadFamilyStaysDead(events[..n], k, family);
      RunsKeepInv(events[..n]);
      DeadFamilyStep(After(events[..n]), events[n], family);
    }
  }

  /** An exchange that succeeded at step `k`. */
  predicate Exchanged(events: seq<Event>, k: nat)
    requires k < |events|
  {
    events[k].Rotate? && Verdict(After(events[..k]).store, events[k].presented, events[k].now).Ok?
  }

  lemma {:induction false} LegalPrefix(events: seq<Event>, k: nat)
    requires Legal(events) && k <= |events|
    ensures Legal(events[..k])
  {
    if k == |events| {
      assert events[..k] == events;
    } else {
      assert events[..|events| - 1][..k] == events[..k];
      LegalPrefix(events[..|events| - 1], k);
    }
  }

  predicate Spent(w: World, h: Hash) {
    h in w.hashes && !Live(w.store, h)
  }

  lemma {:induction false} SpentStaysSpent(events: seq<Event>, k: nat, h: Hash)
    requires Legal(events) && k <= |events| && Spent(After(events[..k]), h)
    ensures Spent(After(events), h)
  {
    if k == |events| {
      assert events[..k] == events;
    } else {
      var n := |events| - 1;
      assert events[..n][..k] == events[..k];
      SpentStaysSpent(events[..n], k, h);
    }
  }

  lemma StepAt(events: seq<Event>, k: nat)
    requires k < |events|
    ensures After(events[..k + 1]) == Next(After(events[..k]), events[k])
  {
    assert events[..k + 1][..k] == events[..k];
  }

  lemma ExchangeSpends(events: seq<Event>, k: nat)
    requires Legal(events) && k < |events| && Exchanged(events, k)
    ensures Spent(After(events[..k + 1]), events[k].presented)
  {
    LegalPrefix(events, k);
    LegalPrefix(events, k + 1);
    RunsKeepInv(events[..k]);
    assert events[..k + 1][..k] == events[..k] && events[..k + 1][k] == events[k];
    assert Enabled(After(events[..k]), events[k]);
    assert Known(After(events[..k]), events[k].presented);
    StepAt(events, k);
  }

  /** Single use: no token is exchanged twice in any run. */
  lemma TokenExchangedOnce(events: seq<Event>, i: nat, j: nat)
    requires Legal(events) && i < j < |events| && Exchanged(events, i) && Exchanged(events, j)
    ensures events[i].presented != events[j].presented
  {
    ExchangeSpends(events, i);
    LegalPrefix(events, j);
    assert events[..j][..i + 1] == events[..i + 1];
    SpentStaysSpent(events[..j], i + 1, events[i].presented);
  }

  predicate IsRevoked(s: Store, h: Hash) {
    h in s.tokens && s.tokens[h].revokedAt.Some?
  }

  /** Presenting a revoked token leaves its whole family without a live one if and only if the revocation is kept,
      or there was none left. */
  lemma ReplayKillsFamilyIff(w: World, h: Hash, next: Hash, now: real, kept: bool)
    requires Inv(w) && IsRevoked(w.store, h) && next !in w.hashes
    ensures var family := w.store.tokens[h].family;
            FamilyDead(Next(w, Rotate(h, next, now, kept)), family) <==> kept || FamilyDead(w, family)
  {
    hide OneLivePerFamily;
    assert Known(w, h);
    var v := Next(w, Rotate(h, next, now, kept));
    forall g | g in v.store.tokens && v.store.tokens[g].family == w.store.tokens[h].family && kept ensures !Live(v.store, g) {
      assert g in w.store.tokens && Known(w, g);
    }
  }

  /** Some token of the family could be exchanged. */
  ghost predicate Exchangeable(w: World, family: Family) {
    exists h, now :: Verdict(w.store, h, now).Ok? && w.store.tokens[h].family == family
  }

  lemma DeadIffNoExchange(w: World, family: Family)
    requires Inv(w) && family in w.families
    ensures FamilyDead(w, family) <==> !Exchangeable(w, family)
  {
    if h :| h in w.store.tokens && w.store.tokens[h].family == family && Live(w.store, h) {
      assert Known(w, h);
      assert Verdict(w.store, h, w.store.tokens[h].expiresAt - 1.0).Ok?;
    }
  }

  /** A run in which the token of step `i` is a revoked one. */
  predicate Replayed(events: seq<Event>, i: nat)
    requires i < |events|
  {
    events[i].Rotate? && IsRevoked(After(events[..i]).store, events[i].presented)
  }

  /** Reuse detection: once a revoked token is presented and the revocation kept, no token of its family is ever
      exchanged again. */
  lemma ReplayEndsFamily(events: seq<Event>, i: nat, j: nat)
    requires Legal(events) && i < j < |events| && Replayed(events, i) && events[i].kept
    requires Exchanged(events, j)
    ensures After(events[..j]).store.tokens[events[j].presented].family !=
            After(events[..i]).store.tokens[events[i].presented].family
  {
    var family := After(events[..i]).store.tokens[events[i].presented].family;
    LegalPrefix(events, i);
    LegalPrefix(events, i + 1);
    assert events[..i + 1][..i] == events[..i] && events[..i + 1][i] == events[i];
    RunsKeepInv(events[..i]);
    StepAt(events, i);
    ReplayKillsFamilyIff(After(events[..i]), events[i].presented, events[i].next, events[i].now, true);
    LegalPrefix(events, j);
    assert events[..j][..i + 1] == events[..i + 1];
    DeadFamilyStaysDead(events[..j], i + 1, family);
  }

  /** The same as a condition: in any run, after a replay the family can still be exchanged if and only if the
      revocation was rolled back and the family had a live token. */
  lemma FamilySurvivesReplayIff(events: seq<Event>)
    requires Legal(events) && events != [] && Replayed(events, |events| - 1)
    ensures var before, e := After(events[..|events| - 1]), events[|events| - 1];
            var family := before.store.tokens[e.presented].family;
            Exchangeable(After(events), family) <==> !e.kept && Exchangeable(before, family)
  {
    var n := |events| - 1;
    var before, e := After(events[..n]), events[n];
    RunsKeepInv(events[..n]);
    RunsKeepInv(events);
    assert Known(before, e.presented);
    ReplayKillsFamilyIff(before, e.presented, e.next, e.now, e.kept);
    DeadIffNoExchange(before, before.store.tokens[e.presented].family);
    DeadIffNoExchange(After(events), before.store.tokens[e.presented].family);
  }

  /** Through the endpoint: the token is exchanged, presented again, refused and rolled back, and its successor is
      exchanged all the same. */
  function ReplayByRequest(): seq<Event> {
    [Register(1), Login(1, 11, 7, 0.0), Rotate(11, 12, 1.0, false), Rotate(11, 13, 2.0, false), Rotate(12, 14, 3.0, false)]
  }

  lemma ReplayByRequestLeavesFamily()
    ensures var run := ReplayByRequest();
            Legal(run) && Replayed(run, 3) && Exchanged(run, 4) &&
            After(run[..4]).store.tokens.Keys == {11, 12} &&
            After(run[..4]).store.tokens[12].family == After(run[..3]).store.tokens[11].family
  {
    var run := ReplayByRequest();
    var a := Token(1, 7, REFRESH_TTL, None);
    var s0 := Store(map[1 := None], map[]);
    var s1 := s0.(tokens := map[11 := a]);
    var s2 := s0.(tokens := map[11 := a.(revokedAt := Some(1.0)), 12 := Token(1, 7, 1.0 + REFRESH_TTL, None)]);
    assert run[..0] == [];
    StepAt(run, 0);
    assert After(run[..1]) == World(s0, {}, {}, {1});
    StepAt(run, 1);
    assert After(run[..2]) == World(s1, {11}, {7}, {1});
    StepAt(run, 2);
    assert After(run[..3]) == World(s2, {11, 12}, {7}, {1});
    StepAt(run, 3);
    assert After(run[..4]) == World(s2, {11, 12, 13}, {7}, {1});
    LegalSteps(run);
  }

  lemma LegalSteps(run: seq<Event>)
    requires forall k :: 0 <= k < |run| ==> Enabled(After(run[..k]), run[k])
    ensures Legal(run)
  {
    hide Enabled, After;
    if run == [] {
    } else {
      var n := |run| - 1;
      forall k | 0 <= k < n ensures Enabled(After(run[..n][..k]), run[..n][k]) {
        assert run[..n][..k] == run[..k];
      }
      LegalSteps(run[..n]);
    }
  }

  // ---- when an exchange succeeds, told from the history ----

  /** The event ends the live token `h`: it is exchanged or logged out, its user logs out everywhere or goes, or a
      revoked token of its family is presented and the revocation kept. */
  predicate EndsIn(s: Store, e: Event, h: Hash) {
    h in s.tokens &&
    match e
    case Rotate(g, _, now, kept) =>
      (g == h && Verdict(s, h, now).Ok?) ||
      (kept && Recognised(s, g) && s.tokens[g].revokedAt.Some? && s.tokens[g].family == s.tokens[h].family)
    case Logout(g, _) => g == h
    case LogoutAll(user, _) => user == s.tokens[h].user
    case Delete(user, _) => user == s.tokens[h].user
    case Erase(user) => user == s.tokens[h].user
    case _ => false
  }

  predicate Ends(events: seq<Event>, m: nat, h: Hash)
    requires m < |events|
  {
    EndsIn(After(events[..m]).store, events[m], h)
  }

  predicate EndedOrKept(s: Store, t: Store, e: Event, h: Hash)
    requires h in s.tokens
  {
    if EndsIn(s, e, h) then !Live(t, h) else h in t.tokens && t.tokens[h] == s.tokens[h]
  }

  lemma EventEnds(w: World, e: Event, h: Hash)
    requires Inv(w) && Enabled(w, e) && Live(w.store, h) && !e.Rotate?
    ensures EndedOrKept(w.store, Next(w, e).store, e, h)
  {
    hide OneLivePerFamily, OneUserPerFamily;
    assert Known(w, h);
  }

  lemma ExchangeEnds(w: World, e: Event, h: Hash)
    requires Inv(w) && Enabled(w, e) && Live(w.store, h) && e.Rotate?
    ensures EndedOrKept(w.store, Next(w, e).store, e, h)
  {
    hide OneLivePerFamily, OneUserPerFamily;
    assert Known(w, h);
    if e.presented in w.store.tokens {
      assert Known(w, e.presented);
    }
  }

  lemma StepEnds(events: seq<Event>, m: nat, h: Hash)
    requires Legal(events) && m < |events| && Live(After(events[..m]).store, h)
    ensures var s, t := After(events[..m]).store, After(events[..m + 1]).store;
            if Ends(events, m, h) then !Live(t, h) else h in t.tokens && t.tokens[h] == s.tokens[h]
  {
    hide After, Next, Inv, EndsIn, Enabled;
    LegalPrefix(events, m + 1);
    LegalPrefix(events, m);
    assert events[..m + 1][..m] == events[..m] && events[..m + 1][m] == events[m];
    hide Legal;
    StepAt(events, m);
    RunsKeepInv(events[..m]);
    if events[m].Rotate? {
      ExchangeEnds(After(events[..m]), events[m], h);
    } else {
      EventEnds(After(events[..m]), events[m], h);
    }
  }

  lemma Issues(events: seq<Event>, i: nat, h: Hash)
    requires Legal(events) && IssuedAt(events, i, h)
    ensures var s := After(events[..i + 1]).store;
            h in s.tokens && s.tokens[h].revokedAt.None? && s.tokens[h].expiresAt == Clock(events[i]) + 2592000.0
    ensures h in After(events[..i + 1]).hashes
  {
    StepAt(events, i);
  }

  /** A token is live exactly until something ends it. */
  lemma {:induction false} LiveUntilEnded(events: seq<Event>, i: nat, n: nat, h: Hash)
    requires Legal(events) && IssuedAt(events, i, h) && i < n <= |events|
    ensures var s := After(events[..n]).store;
            (Live(s, h) <==> forall m :: i < m < n ==> !Ends(events, m, h)) &&
            (Live(s, h) ==> s.tokens[h].expiresAt == Clock(events[i]) + 2592000.0) && h in After(events[..n]).hashes
  {
    hide Legal, After, IssuedAt, Ends, Clock;
    if n == i + 1 {
      Issues(events, i, h);
    } else {
      LiveUntilEnded(events, i, n - 1, h);
      HashStays(events, n - 1, h);
      if Live(After(events[..n - 1]).store, h) {
        StepEnds(events, n - 1, h);
      } else {
        LegalPrefix(events, n);
        assert events[..n][..n - 1] == events[..n - 1];
        SpentStaysSpent(events[..n], n - 1, h);
      }
    }
  }

  lemma HashStays(events: seq<Event>, m: nat, h: Hash)
    requires m < |events| && h in After(events[..m]).hashes
    ensures h in After(events[..m + 1]).hashes
  {
    StepAt(events, m);
  }

  /** Step `i` issued `h` less than thirty days before `now`, and nothing up to step `j` has ended it. */
  ghost predicate Usable(events: seq<Event>, i: nat, j: nat, h: Hash, now: real)
    requires j <= |events|
  {
    i < j && IssuedAt(events, i, h) && now < Clock(events[i]) + 2592000.0 && forall m :: i < m < j ==> !Ends(events, m, h)
  }

  /** Over any run: an exchange succeeds if and only if the token was issued, by a login or an exchange, less than
      thirty days before, and nothing has ended it since. */
  lemma ExchangeSucceedsIff(events: seq<Event>, j: nat)
    requires Legal(events) && j < |events| && events[j].Rotate?
    ensures Exchanged(events, j) <==>
            exists i: nat :: Usable(events, i, j, events[j].presented, events[j].now)
  {
    hide Legal, After, Ends, IssuedAt, Clock;
    var h := events[j].presented;
    LegalPrefix(events, j);
    RunsKeepInv(events[..j]);
    if Exchanged(events, j) {
      var i := WasIssued(events, j, h);
      LiveUntilEnded(events, i, j, h);
      assert Usable(events, i, j, h, events[j].now);
    }
    if i: nat :| Usable(events, i, j, h, events[j].now) {
      LiveUntilEnded(events, i, j, h);
      assert Known(After(events[..j]), h);
    }
  }

  lemma WasIssued(events: seq<Event>, j: nat, h: Hash) returns (i: nat)
    requires Legal(events) && j <= |events| && h in After(events[..j]).store.tokens
    ensures i < j && IssuedAt(events, i, h)
  {
    hide Legal, After;
    LegalPrefix(events, j);
    TokensWereIssued(events[..j], h);
    i :| IssuedUntil(events[..j], i, h, After(events[..j]).store.tokens[h].expiresAt);
    assert events[..j][..i] == events[..i] && events[..j][i] == events[i];
  }

  // ---- logging out ----

  /** Logging out revokes that token and changes nothing else. */
  lemma LogoutRevokesOne(events: seq<Event>, k: nat)
    requires k < |events| && events[k].Logout?
    ensures RevokesOnly(After(events[..k]).store, After(events[..k + 1]).store, {events[k].presented}, events[k].now)
  {
    StepAt(events, k);
  }

  /** Logging out everywhere revokes that user's tokens and nobody else's. */
  lemma LogoutAllRevokesUser(events: seq<Event>, k: nat)
    requires k < |events| && events[k].LogoutAll?
    ensures var s := After(events[..k]).store;
            RevokesOnly(s, After(events[..k + 1]).store, OfUser(s, events[k].user), events[k].now)
  {
    StepAt(events, k);
  }

  /** A deletion request revokes that user's tokens, closes the account, and touches nobody else. */
  lemma DeletionRevokesUser(events: seq<Event>, k: nat)
    requires k < |events| && events[k].Delete?
    ensures var s, t, user := After(events[..k]).store, After(events[..k + 1]).store, events[k].user;
            RevokesOnly(s.(deleted := t.deleted), t, OfUser(s, user), events[k].now) &&
            t.deleted == if user in s.deleted && s.deleted[user].None? then s.deleted[user := Some(events[k].now)] else s.deleted
  {
    StepAt(events, k);
  }

  /** Erasure removes the user and that user's tokens, and nothing else. */
  lemma ErasureRemovesUser(events: seq<Event>, k: nat)
    requires k < |events| && events[k].Erase?
    ensures var s, t, user := After(events[..k]).store, After(events[..k + 1]).store, events[k].user;
            && t.deleted.Keys == s.deleted.Keys - {user} && t.tokens.Keys == s.tokens.Keys - OfUser(s, user)
            && (forall u :: u in t.deleted ==> t.deleted[u] == s.deleted[u])
            && forall h :: h in t.tokens ==> t.tokens[h] == s.tokens[h]
  {
    StepAt(events, k);
  }

  /** After the logout of a token that was ever issued no later step exchanges it, and none of its family if it was
      the live one. */
  lemma LogoutEndsSession(events: seq<Event>, k: nat, j: nat)
    requires Legal(events) && k < j < |events| && events[k].Logout? && Exchanged(events, j)
    requires events[k].presented in After(events[..k]).hashes
    ensures events[j].presented != events[k].presented
    ensures Live(After(events[..k]).store, events[k].presented) ==>
      After(events[..j]).store.tokens[events[j].presented].family !=
      After(events[..k]).store.tokens[events[k].presented].family
  {
    hide Legal, After, FamilyDead;
    LogoutSpends(events, k);
    LegalPrefix(events, j);
    assert events[..j][..k + 1] == events[..k + 1];
    SpentStaysSpent(events[..j], k + 1, events[k].presented);
    ExchangedIsLive(events, j);
    assert Spent(After(events[..j]), events[k].presented);
    if Live(After(events[..k]).store, events[k].presented) {
      DeadFamilyStaysDead(events[..j], k + 1, After(events[..k]).store.tokens[events[k].presented].family);
    }
  }

  lemma ExchangedIsLive(events: seq<Event>, j: nat)
    requires Legal(events) && j < |events| && Exchanged(events, j)
    ensures var w := After(events[..j]);
            var h := events[j].presented;
            h in w.store.tokens && Live(w.store, h) && !FamilyDead(w, w.store.tokens[h].family)
  {
  }

  lemma LogoutSpends(events: seq<Event>, k: nat)
    requires Legal(events) && k < |events| && events[k].Logout?
    ensures var w, v, h := After(events[..k]), After(events[..k + 1]), events[k].presented;
            !Live(v.store, h) && (h in w.hashes ==> Spent(v, h)) &&
            (Live(w.store, h) ==> FamilyDead(v, w.store.tokens[h].family))
  {
    LegalPrefix(events, k);
    RunsKeepInv(events[..k]);
    StepAt(events, k);
    var w, h := After(events[..k]), events[k].presented;
    hide Legal, After;
    if h in w.store.tokens {
      assert Known(w, h);
    }
  }

  predicate Gone(w: World, user: User) {
    user in w.users && !Active(w.store, user)
  }

  lemma {:induction false} GoneStaysGone(events: seq<Event>, k: nat, user: User)
    requires Legal(events) && k <= |events| && Gone(After(events[..k]), user)
    ensures Gone(After(events), user)
  {
    if k == |events| {
      assert events[..k] == events;
    } else {
      var n := |events| - 1;
      assert events[..n][..k] == events[..k];
      GoneStaysGone(events[..n], k, user);
    }
  }

  /** After a deletion request no token of that user is ever exchanged, and none is live. */
  lemma DeletionEndsSessions(events: seq<Event>, i: nat, j: nat)
    requires Legal(events) && i < j < |events| && events[i].Delete?
    requires events[i].user in After(events[..i]).users
    ensures Exchanged(events, j) ==> After(events[..j]).store.tokens[events[j].presented].user != events[i].user
    ensures forall h :: Live(After(events[..j]).store, h) ==> After(events[..j]).store.tokens[h].user != events[i].user
  {
    StepAt(events, i);
    LegalPrefix(events, j);
    assert events[..j][..i + 1] == events[..i + 1];
    GoneStaysGone(events[..j], i + 1, events[i].user);
    RunsKeepInv(events[..j]);
    forall h | Live(After(events[..j]).store, h) ensures After(events[..j]).store.tokens[h].user != events[i].user {
      assert Known(After(events[..j]), h);
    }
  }

  /** An exchange hands the family on: exactly the new token is live in it, with the same user. */
  lemma ExchangeHandsOver(events: seq<Event>, k: nat)
    requires Legal(events) && k < |events| && Exchanged(events, k)
    ensures var s, e := After(events[..k + 1]).store, events[k];
      && Live(s, e.next) && s.tokens[e.next].expiresAt == e.now + 2592000.0
      && e.presented in s.tokens && s.tokens[e.next].family == s.tokens[e.presented].family
      && s.tokens[e.next].user == s.tokens[e.presented].user
      && forall h :: Live(s, h) && s.tokens[h].family == s.tokens[e.next].family ==> h == e.next
  {
    LegalPrefix(events, k + 1);
    LegalPrefix(events, k);
    RunsKeepInv(events[..k]);
    RunsKeepInv(events[..k + 1]);
    StepAt(events, k);
    assert events[..k + 1][..k] == events[..k] && events[..k + 1][k] == events[k];
    assert Known(After(events[..k]), events[k].presented);
  }

  // ---- sessions lapse ----

  /** Step `i` created the token `h`, by login or by exchange. */
  predicate IssuedAt(events: seq<Event>, i: nat, h: Hash) {
    i < |events| && ((events[i].Login? && events[i].hash == h) || (events[i].Rotate? && events[i].next == h && Exchanged(events, i)))
  }

  function Clock(e: Event): real
    requires e.Login? || e.Rotate?
  {
    e.now
  }

  /** One step keeps every stored token's user, family and expiry, and creates at most the one it names. */
  lemma StepKeepsExpiry(w: World, e: Event, h: Hash)
    requires Inv(w) && Enabled(w, e) && h in Next(w, e).store.tokens
    ensures h in w.store.tokens ==> Next(w, e).store.tokens[h].expiresAt == w.store.tokens[h].expiresAt
    ensures h !in w.store.tokens ==>
      ((e.Login? && e.hash == h) || (e.Rotate? && e.next == h && Verdict(w.store, e.presented, e.now).Ok?)) &&
      Next(w, e).store.tokens[h].expiresAt == Clock(e) + REFRESH_TTL
  {
    hide OneLivePerFamily, OneUserPerFamily;
    if h in w.store.tokens {
      assert Known(w, h);
    }
  }

  /** Step `i` created `h`, to expire at `end`. */
  predicate IssuedUntil(events: seq<Event>, i: nat, h: Hash, end: real) {
    IssuedAt(events, i, h) && end == Clock(events[i]) + REFRESH_TTL
  }

  lemma {:induction false} TokensWereIssued(events: seq<Event>, h: Hash)
    requires Legal(events) && h in After(events).store.tokens
    ensures exists i: nat :: IssuedUntil(events, i, h, After(events).store.tokens[h].expiresAt)
  {
    hide Inv, Next, Enabled, Verdict;
    if events == [] {
    } else {
      var n := |events| - 1;
      RunsKeepInv(events[..n]);
      StepKeepsExpiry(After(events[..n]), events[n], h);
      if h in After(events[..n]).store.tokens {
        var end := After(events[..n]).store.tokens[h].expiresAt;
        TokensWereIssued(events[..n], h);
        var i: nat :| IssuedUntil(events[..n], i, h, end);
        assert events[..n][..i] == events[..i] && events[..n][i] == events[i];
        assert IssuedUntil(events, i, h, end);
      } else {
        assert IssuedUntil(events, n, h, After(events).store.tokens[h].expiresAt);
      }
    }
  }

  /** A session lives only by being refreshed: every exchange presents a token that a login or an exchange issued
      less than the lifetime of a refresh token before. */
  lemma SessionsLapse(events: seq<Event>, j: nat)
    requires Legal(events) && j < |events| && Exchanged(events, j)
    ensures exists i: nat :: i < j && IssuedAt(events, i, events[j].presented) &&
                        events[j].now < Clock(events[i]) + 2592000.0
  {
    hide Legal, After;
    LegalPrefix(events, j);
    var h := events[j].presented;
    TokensWereIssued(events[..j], h);
    var i: nat :| IssuedUntil(events[..j], i, h, After(events[..j]).store.tokens[h].expiresAt);
    assert events[..j][..i] == events[..i] && events[..j][i] == events[i];
    assert IssuedAt(events, i, h);
  }
}
