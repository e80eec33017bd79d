/**
 * The account lifecycle as transitions of the login-keyed user table and the
 * series-keyed token table, with the invariants those transitions keep.
 * The service's methods are proved to perform exactly these transitions.
 */
module Lifecycle {
  import opened Wrappers
  import opened Authorities
  import opened Records

  type Users = map<string, User>
  type Tokens = map<string, PersistentToken>

  /** Every user is stored under its own login. */
  ghost predicate LoginKeyed(users: Users)
  {
    forall l :: l in users ==> users[l].login == l
  }

  /** Every token is stored under its own series. */
  ghost predicate SeriesKeyed(tokens: Tokens)
  {
    forall s :: s in tokens ==> tokens[s].series == s
  }

  /** An active account holds no activation key: `active` is reached only by consuming the key. */
  ghost predicate ActiveAccountsKeyless(users: Users)
  {
    forall l :: l in users && users[l].activated ==> users[l].activationKey.None?
  }

  /** No activation key is held by two accounts. */
  ghost predicate ActivationKeysUnique(users: Users)
  {
    forall l, m :: l in users && m in users && l != m && users[l].activationKey.Some? ==>
      users[l].activationKey != users[m].activationKey
  }

  /** The lifecycle invariants of the user table. */
  ghost predicate UsersConsistent(users: Users)
  {
    ActiveAccountsKeyless(users) && ActivationKeysUnique(users)
  }

  /** `r` keeps some of the entries of `m`, unchanged. */
  ghost predicate SubMap<K, V>(r: map<K, V>, m: map<K, V>)
  {
    forall k :: k in r ==> k in m && r[k] == m[k]
  }

  /** The logins whose pending registration carries `key` (what findOneByActivationKey chooses from). */
  function KeyHolders(users: Users, key: string): set<string>
  {
    set l | l in users && users[l].activationKey == Some(key)
  }

  /** The table after saving `u`: the record is stored under its login, replacing any record there. */
  function Stored(users: Users, u: User): (r: Users)
    ensures r.Keys == users.Keys + {u.login}
    ensures r[u.login] == u
    ensures forall m :: m in users && m != u.login ==> r[m] == users[m]
  {
    users[u.login := u]
  }

  /** The pending → active transition of account `l`. */
  function ActivateUser(users: Users, l: string): (r: Users)
    requires l in users
    ensures r.Keys == users.Keys
    ensures r[l].activated && r[l].activationKey.None?
    ensures r[l].(activated := users[l].activated, activationKey := users[l].activationKey) == users[l]
    ensures forall m :: m in users && m != l ==> r[m] == users[m]
  {
    users[l := users[l].(activated := true, activationKey := None)]
  }

  /** The profile edit of account `login`, a no-op when there is no such account. */
  function UpdateInformation(users: Users, login: string, firstName: string, lastName: string, email: string): (r: Users)
    ensures r.Keys == users.Keys
    ensures login in users ==>
      r[login].firstName == firstName && r[login].lastName == lastName && r[login].email == email &&
      r[login].(firstName := users[login].firstName, lastName := users[login].lastName,
                email := users[login].email) == users[login]
    ensures forall m :: m in users && m != login ==> r[m] == users[m]
    ensures login !in users ==> r == users
  {
    if login in users then
      users[login := users[login].(firstName := firstName, lastName := lastName, email := email)]
    else users
  }

  /** The credential change of account `login`, a no-op when there is no such account. */
  function WithPassword(users: Users, login: string, encoded: string): (r: Users)
    ensures r.Keys == users.Keys
    ensures login in users ==>
      r[login].password == encoded && r[login].(password := users[login].password) == users[login]
    ensures forall m :: m in users && m != login ==> r[m] == users[m]
    ensures login !in users ==> r == users
  {
    if login in users then users[login := users[login].(password := encoded)] else users
  }

  /**
   * The role grant to account `login`. `granted` is the authority found by name;
   * `None` (no such authority) leaves the table as it is.
   */
  function GrantRole(users: Users, login: string, granted: Option<AuthorityRef>): (r: Users)
    ensures r.Keys == users.Keys
    ensures login in users && granted.Some? ==>
      r[login].authorities == users[login].authorities + {granted.value} &&
      r[login].(authorities := users[login].authorities) == users[login]
    ensures forall m :: m in users && m != login ==> r[m] == users[m]
    ensures login !in users || granted.None? ==> r == users
  {
    if login in users && granted.Some? then
      users[login := users[login].(authorities := users[login].authorities + {granted.value})]
    else users
  }

  /** A token the expiry sweep removes. */
  predicate OldToken(t: PersistentToken, cutoff: int)
  {
    t.tokenDate < cutoff
  }

  /** An account the stale-registration sweep removes. */
  predicate StaleRegistration(u: User, cutoff: int)
  {
    !u.activated && u.createdDate < cutoff
  }

  /** The token table after the expiry sweep. */
  function WithoutOldTokens(tokens: Tokens, cutoff: int): (r: Tokens)
    ensures SubMap(r, tokens)
    ensures forall s :: s in r ==> r[s].tokenDate >= cutoff
    ensures forall s :: s in tokens && tokens[s].tokenDate >= cutoff ==> s in r
  {
    map s | s in tokens && !OldToken(tokens[s], cutoff) :: tokens[s]
  }

  /** The user table after the stale-registration sweep. */
  function WithoutStaleRegistrations(users: Users, cutoff: int): (r: Users)
    ensures SubMap(r, users)
    ensures forall l :: l in r ==> r[l].activated || r[l].createdDate >= cutoff
    ensures forall l :: l in users && (users[l].activated || users[l].createdDate >= cutoff) ==> l in r
  {
    map l | l in users && !StaleRegistration(users[l], cutoff) :: users[l]
  }

  // ---- Activation ----

  /** A consumed activation key resolves to no account afterwards. */
  lemma ActivationKeySingleUse(users: Users, l: string, key: string)
    requires ActivationKeysUnique(users)
    requires l in KeyHolders(users, key)
    ensures KeyHolders(ActivateUser(users, l), key) == {}
  {
  }

  lemma ActivationPreservesConsistency(users: Users, l: string)
    requires l in users && UsersConsistent(users)
    ensures UsersConsistent(ActivateUser(users, l))
    ensures LoginKeyed(users) ==> LoginKeyed(ActivateUser(users, l))
  {
  }

  // ---- Edits of one account ----

  /** `r` has the same accounts as `users`, each in the same activation state. */
  ghost predicate SameActivationState(r: Users, users: Users)
  {
    r.Keys == users.Keys &&
    forall l :: l in r ==> r[l].activated == users[l].activated && r[l].activationKey == users[l].activationKey
  }

  lemma SameActivationStateKeepsConsistency(r: Users, users: Users)
    requires SameActivationState(r, users) && UsersConsistent(users)
    ensures UsersConsistent(r)
  {
  }

  /** Profile edits, password changes and role grants leave the activation state alone. */
  lemma EditsPreserveConsistency(users: Users, login: string, firstName: string, lastName: string,
                                 email: string, encoded: string, granted: Option<AuthorityRef>)
    requires UsersConsistent(users)
    ensures UsersConsistent(UpdateInformation(users, login, firstName, lastName, email))
    ensures UsersConsistent(WithPassword(users, login, encoded))
    ensures UsersConsistent(GrantRole(users, login, granted))
  {
    SameActivationStateKeepsConsistency(UpdateInformation(users, login, firstName, lastName, email), users);
    SameActivationStateKeepsConsistency(WithPassword(users, login, encoded), users);
    SameActivationStateKeepsConsistency(GrantRole(users, login, granted), users);
  }

  lemma EditsPreserveLoginKeys(users: Users, login: string, firstName: string, lastName: string,
                               email: string, encoded: string, granted: Option<AuthorityRef>)
    requires LoginKeyed(users)
    ensures LoginKeyed(UpdateInformation(users, login, firstName, lastName, email))
    ensures LoginKeyed(WithPassword(users, login, encoded))
    ensures LoginKeyed(GrantRole(users, login, granted))
  {
  }

  /** Storing a newly created, already active account keeps the invariants. */
  lemma CreationPreservesConsistency(users: Users, u: User)
    requires UsersConsistent(users) && LoginKeyed(users)
    requires u.activated && u.activationKey.None?
    ensures UsersConsistent(Stored(users, u)) && LoginKeyed(Stored(users, u))
  {
  }

  /** Granting the same role twice is the same as granting it once. */
  lemma GrantRoleIdempotent(users: Users, login: string, granted: Option<AuthorityRef>)
    ensures GrantRole(GrantRole(users, login, granted), login, granted) == GrantRole(users, login, granted)
  {
  }

  /** Granting an authority equal (by name) to one already granted changes nothing. */
  lemma GrantEqualAuthorityIsNoOp(users: Users, login: string, a: Authority, b: Authority)
    requires a.Equals(AuthorityArg(b))
    ensures GrantRole(GrantRole(users, login, Some(RefOf(a))), login, Some(RefOf(b)))
         == GrantRole(users, login, Some(RefOf(a)))
  {
  }

  /** Repeating a profile edit changes nothing more. */
  lemma UpdateInformationIdempotent(users: Users, login: string, firstName: string, lastName: string, email: string)
    ensures UpdateInformation(UpdateInformation(users, login, firstName, lastName, email), login, firstName, lastName, email)
         == UpdateInformation(users, login, firstName, lastName, email)
  {
  }

  /** The last password change wins. */
  lemma LastPasswordWins(users: Users, login: string, first: string, second: string)
    ensures WithPassword(WithPassword(users, login, first), login, second) == WithPassword(users, login, second)
  {
  }

  // ---- Sweeps ----

  /** Two expiry sweeps remove what one sweep with the later cutoff removes. */
  lemma TokenSweepsCompose(tokens: Tokens, c1: int, c2: int)
    ensures WithoutOldTokens(WithoutOldTokens(tokens, c1), c2) == WithoutOldTokens(tokens, if c1 < c2 then c2 else c1)
  {
  }

  lemma TokenSweepIdempotent(tokens: Tokens, cutoff: int)
    ensures WithoutOldTokens(WithoutOldTokens(tokens, cutoff), cutoff) == WithoutOldTokens(tokens, cutoff)
  {
    TokenSweepsCompose(tokens, cutoff, cutoff);
  }

  /** Two stale-registration sweeps remove what one sweep with the later cutoff removes. */
  lemma RegistrationSweepsCompose(users: Users, c1: int, c2: int)
    ensures WithoutStaleRegistrations(WithoutStaleRegistrations(users, c1), c2)
         == WithoutStaleRegistrations(users, if c1 < c2 then c2 else c1)
  {
  }

  lemma RegistrationSweepIdempotent(users: Users, cutoff: int)
    ensures WithoutStaleRegistrations(WithoutStaleRegistrations(users, cutoff), cutoff)
         == WithoutStaleRegistrations(users, cutoff)
  {
    RegistrationSweepsCompose(users, cutoff, cutoff);
  }

  /** Removing entries keeps every invariant of the tables. */
  lemma SweepsPreserveConsistency(users: Users, tokens: Tokens, cutoff: int)
    ensures UsersConsistent(users) ==> UsersConsistent(WithoutStaleRegistrations(users, cutoff))
    ensures LoginKeyed(users) ==> LoginKeyed(WithoutStaleRegistrations(users, cutoff))
    ensures SeriesKeyed(tokens) ==> SeriesKeyed(WithoutOldTokens(tokens, cutoff))
  {
  }

  /** Tokens dated 40, 29 and 31 days back, swept with a cutoff 30 days back: only the 29-day one stays. */
  lemma TokenSweepExample(now: int)
    ensures var t := map["a" := PersistentToken("a", "u", now - 40),
                         "b" := PersistentToken("b", "u", now - 29),
                         "c" := PersistentToken("c", "u", now - 31)];
            WithoutOldTokens(t, now - 30) == map["b" := t["b"]]
  {
  }
}
