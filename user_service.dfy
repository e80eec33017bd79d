/**
 * UserService: the account lifecycle operations over the three repositories it is
 * given, modelled as maps held by the service and updated in place.
 */
module Service {
  import opened Wrappers
  import opened Authorities
  import opened Records
  import opened Lifecycle

  /** The exception getUserWithAuthorities throws when the current login has no account. */
  datatype ServiceError = NoSuchElement

  /** The default role of a new account. */
  const RoleUser: string := "ROLE_USER"

  /** The default permission of a new account. */
  const PermUserExample: string := "PERM_USER_EXAMPLE"

  class UserService {
    /** The injected PasswordEncoder: a one-way function, left uninterpreted. */
    const passwordEncoder: string -> string
    /** The user repository, keyed by login. */
    var users: Users
    /** The persistent-token repository, keyed by series. */
    var tokens: Tokens
    /** The authority repository, keyed by role name. */
    var authorities: map<string, Authority>

    /** Each repository stores a document under its own id. */
    ghost predicate Valid()
      reads this, authorities.Values
    {
      && LoginKeyed(users)
      && SeriesKeyed(tokens)
      && (forall n :: n in authorities ==> authorities[n].name == Some(n))
    }

    constructor (passwordEncoder: string -> string, users: Users, tokens: Tokens, authorities: map<string, Authority>)
      requires LoginKeyed(users) && SeriesKeyed(tokens)
      requires forall n :: n in authorities ==> authorities[n].name == Some(n)
      ensures Valid()
      ensures this.passwordEncoder == passwordEncoder
      ensures this.users == users && this.tokens == tokens && this.authorities == authorities
    {
      this.passwordEncoder := passwordEncoder;
      this.users := users;
      this.tokens := tokens;
      this.authorities := authorities;
    }

    /** userRepository.save: stores the record under its login, replacing any record there. */
    method SaveUser(u: User)
      modifies this
      ensures users == Stored(old(users), u)
      ensures tokens == old(tokens) && authorities == old(authorities)
    {
      users := users[u.login := u];
    }

    /** userRepository.delete: removes the record stored under the user's login. */
    method DeleteUser(u: User)
      modifies this
      ensures users == old(users) - {u.login}
      ensures tokens == old(tokens) && authorities == old(authorities)
    {
      users := users - {u.login};
    }

    /** persistentTokenRepository.delete: removes the token stored under its series. */
    method DeleteToken(t: PersistentToken)
      modifies this
      ensures tokens == old(tokens) - {t.series}
      ensures users == old(users) && authorities == old(authorities)
    {
      tokens := tokens - {t.series};
    }

    /**
     * The activation as the lambda passed to `map` computes it: find an account by its
     * key, activate it, save it, and return it.
     */
    method ActivateRegistrationReturningUser(key: string) returns (activated: Option<User>)
      requires Valid()
      modifies this
      ensures Valid() && tokens == old(tokens) && authorities == old(authorities)
      ensures activated.None? <==> KeyHolders(old(users), key) == {}
      ensures activated.None? ==> users == old(users)
      ensures activated.Some? ==>
        && activated.value.login in KeyHolders(old(users), key)
        && users == ActivateUser(old(users), activated.value.login)
        && activated.value == users[activated.value.login]
      ensures UsersConsistent(old(users)) ==> UsersConsistent(users)
    {
      if l :| l in users && users[l].activationKey == Some(key) {
        assert l in KeyHolders(old(users), key);
        var user := users[l];
        user := user.(activated := true);
        user := user.(activationKey := None);
        SaveUser(user);
        activated := Some(user);
        if UsersConsistent(old(users)) {
          ActivationPreservesConsistency(old(users), l);
        }
      } else {
        assert KeyHolders(old(users), key) == {} by {
          forall m | m in users ensures users[m].activationKey != Some(key) { }
        }
        activated := None;
      }
    }

    /** activateRegistration as written: the activated account is computed and then discarded. */
    method ActivateRegistration(key: string) returns (r: Option<User>)
      requires Valid()
      modifies this
      ensures Valid() && tokens == old(tokens) && authorities == old(authorities)
      ensures r.None?
      ensures KeyHolders(old(users), key) == {} ==> users == old(users)
      ensures KeyHolders(old(users), key) != {} ==>
        exists l :: l in KeyHolders(old(users), key) && users == ActivateUser(old(users), l)
      ensures UsersConsistent(old(users)) ==> UsersConsistent(users)
    {
      var discarded := ActivateRegistrationReturningUser(key);
      if discarded.Some? {
        assert discarded.value.login in KeyHolders(old(users), key);
      }
      r := None;
    }

    /**
     * createUserInformation: a new account, already active, with the default role, the
     * default permission and the given project. `createdDate` is the timestamp the new
     * record carries.
     */
    method CreateUserInformation(login: string, password: string, firstName: string, lastName: string,
                                 email: string, ldapUser: string, langKey: string, project: string,
                                 createdDate: int) returns (newUser: User)
      requires Valid()
      modifies this
      ensures Valid() && tokens == old(tokens) && authorities == old(authorities)
      ensures users == Stored(old(users), newUser)
      ensures newUser.login == login && newUser.password == passwordEncoder(password)
      ensures newUser.firstName == firstName && newUser.lastName == lastName && newUser.email == email
      ensures newUser.ldapUser == ldapUser && newUser.langKey == langKey && newUser.createdDate == createdDate
      ensures newUser.activated && newUser.activationKey.None?
      ensures newUser.authorities == {if RoleUser in old(authorities) then Ref(Some(RoleUser)) else NullRef}
      ensures newUser.permissions == {PermUserExample}
      ensures newUser.projects == {project} && newUser.defaultProject == project
      ensures UsersConsistent(old(users)) ==> UsersConsistent(users)
    {
      var authority: Option<Authority> := if RoleUser in authorities then Some(authorities[RoleUser]) else None;
      // HashSet.add of the looked-up reference, which is null when the role is missing.
      var roles: set<AuthorityRef> := {if authority.Some? then RefOf(authority.value) else NullRef};
      var encryptedPassword := passwordEncoder(password);
      newUser := User(login, encryptedPassword, firstName, lastName, email, ldapUser, langKey,
                      true, None, createdDate, roles, {PermUserExample}, {project}, project);
      SaveUser(newUser);
      if UsersConsistent(old(users)) {
        CreationPreservesConsistency(old(users), newUser);
      }
    }

    /** updateUserInformation for the account of `currentLogin`. */
    method UpdateUserInformation(currentLogin: string, firstName: string, lastName: string, email: string)
      requires Valid()
      modifies this
      ensures Valid() && tokens == old(tokens) && authorities == old(authorities)
      ensures users == UpdateInformation(old(users), currentLogin, firstName, lastName, email)
      ensures UsersConsistent(old(users)) ==> UsersConsistent(users)
    {
      if currentLogin in users {
        var u := users[currentLogin];
        u := u.(firstName := firstName, lastName := lastName, email := email);
        SaveUser(u);
      }
      if UsersConsistent(old(users)) {
        EditsPreserveConsistency(old(users), currentLogin, firstName, lastName, email, "", None);
      }
    }

    /**
     * updateUserRoles: grants the authority named `authority` to the account `username`.
     * The lookup of the authority is not guarded: when no authority has that name the
     * record is saved back with its authority set unchanged.
     */
    method UpdateUserRoles(username: string, authority: string)
      requires Valid()
      modifies this
      ensures Valid() && tokens == old(tokens) && authorities == old(authorities)
      ensures users == GrantRole(old(users), username,
                                 if authority in old(authorities) then Some(Ref(Some(authority))) else None)
      ensures UsersConsistent(old(users)) ==> UsersConsistent(users)
    {
      ghost var granted := if authority in authorities then Some(Ref(Some(authority))) else None;
      if username in users {
        var u := users[username];
        var a: Option<Authority> := if authority in authorities then Some(authorities[authority]) else None;
        if a.Some? {
          assert RefOf(a.value) == granted.value;
          u := u.(authorities := u.authorities + {RefOf(a.value)});
        }
        assert u.login == username && u == GrantRole(users, username, granted)[username];
        SaveUser(u);
        assert users == GrantRole(old(users), username, granted);
      }
      if UsersConsistent(old(users)) {
        EditsPreserveConsistency(old(users), username, "", "", "", "", granted);
      }
    }

    /** changePassword for the account of `currentLogin`: stores the encoded new password. */
    method ChangePassword(currentLogin: string, password: string)
      requires Valid()
      modifies this
      ensures Valid() && tokens == old(tokens) && authorities == old(authorities)
      ensures users == WithPassword(old(users), currentLogin, passwordEncoder(password))
      ensures UsersConsistent(old(users)) ==> UsersConsistent(users)
    {
      if currentLogin in users {
        var u := users[currentLogin];
        var encryptedPassword := passwordEncoder(password);
        u := u.(password := encryptedPassword);
        SaveUser(u);
      }
      if UsersConsistent(old(users)) {
        EditsPreserveConsistency(old(users), currentLogin, "", "", "", passwordEncoder(password), None);
      }
    }

    /** getUserWithAuthorities: the account of `currentLogin`; `Optional.get` throws when there is none. */
    method GetUserWithAuthorities(currentLogin: string) returns (r: Result<User, ServiceError>)
      requires Valid()
      ensures r.Success? <==> currentLogin in users
      ensures r.Success? ==> r.value == users[currentLogin] && r.value.login == currentLogin
    {
      if currentLogin in users {
        r := Success(users[currentLogin]);
      } else {
        r := Failure(NoSuchElement);
      }
    }

    /** persistentTokenRepository.findByTokenDateBefore: every token dated before `cutoff`, each once. */
    method FindByTokenDateBefore(cutoff: int) returns (found: seq<PersistentToken>)
      requires Valid()
      ensures forall i :: 0 <= i < |found| ==>
        found[i].series in tokens && tokens[found[i].series] == found[i] && OldToken(found[i], cutoff)
      ensures forall s :: s in tokens && OldToken(tokens[s], cutoff) ==>
        exists i :: 0 <= i < |found| && found[i].series == s
      ensures forall i, j :: 0 <= i < j < |found| ==> found[i].series != found[j].series
    {
      found := [];
      var unscanned := tokens.Keys;
      while unscanned != {}
        invariant unscanned <= tokens.Keys
        invariant forall i :: 0 <= i < |found| ==>
          && found[i].series in tokens && tokens[found[i].series] == found[i]
          && OldToken(found[i], cutoff) && found[i].series !in unscanned
        invariant forall s :: s in tokens && s !in unscanned && OldToken(tokens[s], cutoff) ==>
          exists i :: 0 <= i < |found| && found[i].series == s
        invariant forall i, j :: 0 <= i < j < |found| ==> found[i].series != found[j].series
        decreases unscanned
      {
        var s :| s in unscanned;
        if OldToken(tokens[s], cutoff) {
          ghost var before := found;
          found := found + [tokens[s]];
          assert forall i :: 0 <= i < |before| ==> found[i] == before[i];
          assert found[|found| - 1].series == s;
        }
        unscanned := unscanned - {s};
      }
    }

    /** removeOldPersistentTokens: deletes every token dated before `cutoff`, one by one. */
    method RemoveOldPersistentTokens(cutoff: int)
      requires Valid()
      modifies this
      ensures Valid() && users == old(users) && authorities == old(authorities)
      ensures tokens == WithoutOldTokens(old(tokens), cutoff)
    {
      var found := FindByTokenDateBefore(cutoff);
      ghost var deleted: set<string> := {};
      var i := 0;
      while i < |found|
        invariant 0 <= i <= |found|
        invariant users == old(users) && authorities == old(authorities)
        invariant forall j :: 0 <= j < i ==> found[j].series in deleted
        invariant forall s :: s in deleted ==> s in old(tokens) && OldToken(old(tokens)[s], cutoff)
        invariant tokens == old(tokens) - deleted
      {
        DeleteToken(found[i]);
        deleted := deleted + {found[i].series};
        i := i + 1;
      }
      assert tokens.Keys == WithoutOldTokens(old(tokens), cutoff).Keys;
    }

    /**
     * userRepository.findAllByActivatedIsFalseAndCreatedDateBefore: every account not
     * activated and created before `cutoff`, each once.
     */
    method FindAllByActivatedIsFalseAndCreatedDateBefore(cutoff: int) returns (found: seq<User>)
      requires Valid()
      ensures forall i :: 0 <= i < |found| ==>
        found[i].login in users && users[found[i].login] == found[i] && StaleRegistration(found[i], cutoff)
      ensures forall l :: l in users && StaleRegistration(users[l], cutoff) ==>
        exists i :: 0 <= i < |found| && found[i].login == l
      ensures forall i, j :: 0 <= i < j < |found| ==> found[i].login != found[j].login
    {
      found := [];
      var unscanned := users.Keys;
      while unscanned != {}
        invariant unscanned <= users.Keys
        invariant forall i :: 0 <= i < |found| ==>
          && found[i].login in users && users[found[i].login] == found[i]
          && StaleRegistration(found[i], cutoff) && found[i].login !in unscanned
        invariant forall l :: l in users && l !in unscanned && StaleRegistration(users[l], cutoff) ==>
          exists i :: 0 <= i < |found| && found[i].login == l
        invariant forall i, j :: 0 <= i < j < |found| ==> found[i].login != found[j].login
        decreases unscanned
      {
        var l :| l in unscanned;
        if StaleRegistration(users[l], cutoff) {
          ghost var before := found;
          found := found + [users[l]];
          assert forall i :: 0 <= i < |before| ==> found[i] == before[i];
          assert found[|found| - 1].login == l;
        }
        unscanned := unscanned - {l};
      }
    }

    /** removeNotActivatedUsers: deletes every account not activated and created before `cutoff`. */
    method RemoveNotActivatedUsers(cutoff: int)
      requires Valid()
      modifies this
      ensures Valid() && tokens == old(tokens) && authorities == old(authorities)
      ensures users == WithoutStaleRegistrations(old(users), cutoff)
      ensures UsersConsistent(old(users)) ==> UsersConsistent(users)
    {
      var found := FindAllByActivatedIsFalseAndCreatedDateBefore(cutoff);
      ghost var deleted: set<string> := {};
      for i := 0 to |found|
        invariant tokens == old(tokens) && authorities == old(authorities)
        invariant forall j :: 0 <= j < i ==> found[j].login in deleted
        invariant forall l :: l in deleted ==> l in old(users) && StaleRegistration(old(users)[l], cutoff)
        invariant users == old(users) - deleted
      {
        DeleteUser(found[i]);
        deleted := deleted + {found[i].login};
      }
      assert users.Keys == WithoutStaleRegistrations(old(users), cutoff).Keys;
      SweepsPreserveConsistency(old(users), tokens, cutoff);
    }
  }

  /**
   * A pending account "alice" with key "k": activateRegistration as written activates
   * it and still answers `None`; the corrected activation answers with the account.
   */
  method ActivationResultIsDiscarded() returns (asWritten: Option<User>, activatedAnyway: bool, corrected: Option<User>)
    ensures asWritten.None? && activatedAnyway
    ensures corrected.Some? && corrected.value.login == "alice" && corrected.value.activated
  {
    var pending := User("alice", "secret-hash", "Alice", "Liddell", "alice@example.org", "false", "en",
                        false, Some("k"), 0, {}, {}, {}, "");
    var asIs := new UserService(p => p, map["alice" := pending], map[], map[]);
    asWritten := asIs.ActivateRegistration("k");
    assert KeyHolders(map["alice" := pending], "k") == {"alice"};
    activatedAnyway := "alice" in asIs.users && asIs.users["alice"].activated;
    var fixed := new UserService(p => p, map["alice" := pending], map[], map[]);
    corrected := fixed.ActivateRegistrationReturningUser("k");
  }
}
