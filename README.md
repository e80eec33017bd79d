# Account lifecycle of the spade user service

This project models the account-lifecycle core of the spade application's `UserService`
together with the identity rule of its `Authority` role class, and proves properties of
the model in Dafny.

The service works on three repositories. Here they are maps held by a `UserService` object and
updated in place:

- users keyed by login,
- persistent (remember-me) tokens keyed by series,
- authorities keyed by role name.

The operations are:

- creating an already active account;
- activating a pending registration by its one-time key;
- editing the profile and the password of the current account;
- granting a role;
- reading the current account;
- two cleanup sweeps: one deletes tokens dated before a cutoff, the other deletes accounts
  that were never activated and were created before a cutoff.

The service's operations are proved against pure functions in module `Lifecycle`. Each
state-changing operation but the two sweeps is proved to perform one `Lifecycle` transition of the
user table. `CreateUserInformation` performs `Stored`, the save of the new record. Each sweep is
proved equal to the `Lifecycle` function that gives its resulting table. The three repository
helpers `SaveUser`, `DeleteUser` and `DeleteToken` are the exception: each states its map update
directly (`SaveUser` through `Stored`). Each function's contract says which
records and fields change and that nothing else does. Lemmas then prove what the
transitions keep and how they combine:

- an active account holds no activation key;
- activation keys are unique, and a consumed key resolves to no account;
- granting the same role twice is a no-op;
- sweeps are idempotent, and two sweeps compose into one with the later cutoff.

`Authority.equals` and `hashCode` are modelled exactly, including Java's null handling
and `String.hashCode` with 32-bit wrap-around. A lemma proves that equal authorities become
the same element of a user's authority set. That element is the role's name, so permissions
play no part in a role's identity.

Files:

- `wrappers.dfy`: Option and Result.
- `authority.dfy`: module `Authorities`.
- `records.dfy`: module `Records`, the `User` and `PersistentToken` records.
- `lifecycle.dfy`: module `Lifecycle`, the table transitions and their lemmas.
- `user_service.dfy`: module `Service`, the service class.

Where the intended design and the code differ, the model follows the code:

- `activateRegistration` answers `None` even when it activates an account (see Findings).
- A missing `ROLE_USER` authority does not raise an error. The new account's authority set
  then holds the null reference, as `HashSet.add(null)` does.
- Granting a role to an unknown login is a silent no-op, not an error.

## Model

| member | source | states |
|---|---|---|
| Authorities.ToJavaInt | src/main/java/com/nwt/spade/domain/Authority.java:64-67 | the Java `int` a hash arithmetic result narrows to: in 32-bit range and congruent to it modulo 2^32 |
| Authorities.StringHash | src/main/java/com/nwt/spade/domain/Authority.java:66 | the `name.hashCode()` call: Java's string hash, computed with wrap-around at every step, equals the documented polynomial s[0]*31^(n-1)+...+s[n-1] narrowed once to `int` |
| Authorities.Authority.constructor | src/main/java/com/nwt/spade/domain/Authority.java:25-28 | a new authority has a null name and an empty permission set |
| Authorities.Authority.SetName | src/main/java/com/nwt/spade/domain/Authority.java:34-36 | replaces the name and leaves the permissions alone |
| Authorities.Authority.SetAuthorities | src/main/java/com/nwt/spade/domain/Authority.java:42-44 | replaces the permission set and leaves the name alone |
| Authorities.Authority.Equals | src/main/java/com/nwt/spade/domain/Authority.java:46-62 | true exactly when the argument is an Authority whose name equals this one's, null equal to null; false for null and for other classes |
| Authorities.Authority.HashCode | src/main/java/com/nwt/spade/domain/Authority.java:64-67 | 0 for a null name, otherwise the Java string hash of the name |
| Authorities.EqualsIsReflexive | src/main/java/com/nwt/spade/domain/Authority.java:48-50 | every authority equals itself |
| Authorities.EqualsRejectsNullAndForeign | src/main/java/com/nwt/spade/domain/Authority.java:51-53 | no authority equals null or an object of another class |
| Authorities.EqualsIsSymmetric | src/main/java/com/nwt/spade/domain/Authority.java:55-61 | equals is symmetric |
| Authorities.EqualsIsTransitive | src/main/java/com/nwt/spade/domain/Authority.java:55-61 | equals is transitive |
| Authorities.EqualsIffSameRef | src/main/java/com/nwt/spade/domain/Authority.java:46-62 | two authorities are equal exactly when they are the same element of a Set of authorities |
| Authorities.HashCodeOfNullName | src/main/java/com/nwt/spade/domain/Authority.java:66 | an authority with a null name hashes to 0 |
| Authorities.HashCodeConsistentWithEquals | src/main/java/com/nwt/spade/domain/Authority.java:46-67 | equal authorities have equal hash codes |
| Authorities.PermissionsIgnoredByIdentity | src/main/java/com/nwt/spade/domain/Authority.java:27-67 | authorities with the same name are equal and hash alike, whatever their permissions |
| Lifecycle.Stored | src/main/java/com/nwt/spade/service/UserService.java:89 | saving a record stores it under its login and replaces any record there; every other account is unchanged, and no other account is added |
| Lifecycle.ActivateUser | src/main/java/com/nwt/spade/service/UserService.java:51-57 | the activated account ends active with no key, its other fields unchanged; every other account unchanged; no account added or removed |
| Lifecycle.UpdateInformation | src/main/java/com/nwt/spade/service/UserService.java:94-102 | only the first name, last name and email of the given account change; an unknown login leaves the table unchanged |
| Lifecycle.WithPassword | src/main/java/com/nwt/spade/service/UserService.java:113-120 | only the credential of the given account changes, to the given encoded value; an unknown login leaves the table unchanged |
| Lifecycle.GrantRole | src/main/java/com/nwt/spade/service/UserService.java:104-111 | the granted role is added to the account's authority set and no other field or account changes; an unknown login or unknown role leaves the table unchanged |
| Lifecycle.WithoutOldTokens | src/main/java/com/nwt/spade/service/UserService.java:136-143 | keeps exactly the tokens dated at or after the cutoff, unchanged, and no token older |
| Lifecycle.WithoutStaleRegistrations | src/main/java/com/nwt/spade/service/UserService.java:152-160 | keeps exactly the accounts that are activated or created at or after the cutoff, unchanged |
| Lifecycle.ActivationKeySingleUse | src/main/java/com/nwt/spade/service/UserService.java:48-59 | with unique keys, after activating the key's holder no account holds that key, so a second activation finds nobody |
| Lifecycle.ActivationPreservesConsistency | src/main/java/com/nwt/spade/service/UserService.java:51-57 | activation keeps "active accounts hold no key", key uniqueness and login keying |
| Lifecycle.EditsPreserveConsistency | src/main/java/com/nwt/spade/service/UserService.java:94-120 | profile edits, password changes and role grants keep both activation invariants |
| Lifecycle.EditsPreserveLoginKeys | src/main/java/com/nwt/spade/service/UserService.java:94-120 | profile edits, password changes and role grants keep every account under its own login |
| Lifecycle.CreationPreservesConsistency | src/main/java/com/nwt/spade/service/UserService.java:78-89 | saving an already active, keyless account keeps the invariants |
| Lifecycle.GrantRoleIdempotent | src/main/java/com/nwt/spade/service/UserService.java:104-111 | granting the same role twice equals granting it once |
| Lifecycle.GrantEqualAuthorityIsNoOp | src/main/java/com/nwt/spade/service/UserService.java:104-111 | granting an authority equal by name to one already granted changes nothing |
| Lifecycle.UpdateInformationIdempotent | src/main/java/com/nwt/spade/service/UserService.java:94-102 | repeating a profile edit changes nothing more |
| Lifecycle.LastPasswordWins | src/main/java/com/nwt/spade/service/UserService.java:113-120 | two password changes leave the second credential |
| Lifecycle.TokenSweepsCompose | src/main/java/com/nwt/spade/service/UserService.java:136-143 | two token sweeps equal one sweep with the later cutoff |
| Lifecycle.TokenSweepIdempotent | src/main/java/com/nwt/spade/service/UserService.java:136-143 | running the token sweep twice equals running it once |
| Lifecycle.RegistrationSweepsCompose | src/main/java/com/nwt/spade/service/UserService.java:152-160 | two stale-registration sweeps equal one sweep with the later cutoff |
| Lifecycle.RegistrationSweepIdempotent | src/main/java/com/nwt/spade/service/UserService.java:152-160 | running the stale-registration sweep twice equals running it once |
| Lifecycle.SweepsPreserveConsistency | src/main/java/com/nwt/spade/service/UserService.java:136-160 | the sweeps keep the activation invariants and the keying of both tables |
| Lifecycle.TokenSweepExample | src/main/java/com/nwt/spade/service/UserService.java:128-143 | tokens 40, 29 and 31 days old, swept with a 30-day cutoff, leave only the 29-day token |
| Service.UserService.constructor | src/main/java/com/nwt/spade/service/UserService.java:36-46 | the service holds the given encoder and repositories |
| Service.UserService.SaveUser | src/main/java/com/nwt/spade/service/UserService.java:55 | `userRepository.save` (also at lines 89, 99, 108 and 117): the user table becomes `Stored` of the old one, which replaces the record under that login; the other repositories are unchanged |
| Service.UserService.DeleteUser | src/main/java/com/nwt/spade/service/UserService.java:158 | `userRepository.delete`: removes exactly the record under the user's login; the other repositories are unchanged |
| Service.UserService.DeleteToken | src/main/java/com/nwt/spade/service/UserService.java:141 | `persistentTokenRepository.delete`: removes exactly the token under its series; the other repositories are unchanged |
| Service.UserService.ActivateRegistrationReturningUser | src/main/java/com/nwt/spade/service/UserService.java:50-58 | answers the activated account exactly when some account holds the key; the store then differs only by that account's activation; otherwise the store is unchanged |
| Service.UserService.ActivateRegistration | src/main/java/com/nwt/spade/service/UserService.java:48-60 | always answers `None`; activates one holder of the key if there is one, otherwise leaves the store unchanged |
| Service.UserService.CreateUserInformation | src/main/java/com/nwt/spade/service/UserService.java:62-92 | saves (`Stored`) and returns an active, keyless account. The credential is the encoded password. The profile fields are the arguments. The account has the ROLE_USER role (the null element if that role is missing), PERM_USER_EXAMPLE, and the project as its only project and its default |
| Service.UserService.UpdateUserInformation | src/main/java/com/nwt/spade/service/UserService.java:94-102 | the user table becomes `UpdateInformation` of the old one; the other repositories are unchanged |
| Service.UserService.UpdateUserRoles | src/main/java/com/nwt/spade/service/UserService.java:104-111 | the user table becomes `GrantRole` of the old one with the role found by name, if any |
| Service.UserService.ChangePassword | src/main/java/com/nwt/spade/service/UserService.java:113-120 | the user table becomes `WithPassword` of the old one with the encoded new password |
| Service.UserService.GetUserWithAuthorities | src/main/java/com/nwt/spade/service/UserService.java:122-126 | answers the account whose login is the current login when it exists, and the `Optional.get` failure otherwise; the store is unchanged |
| Service.UserService.FindByTokenDateBefore | src/main/java/com/nwt/spade/service/UserService.java:139 | lists every stored token dated before the cutoff, each once, as stored |
| Service.UserService.RemoveOldPersistentTokens | src/main/java/com/nwt/spade/service/UserService.java:136-143 | deleting the listed tokens one by one leaves the token table as `WithoutOldTokens` of the old one |
| Service.UserService.FindAllByActivatedIsFalseAndCreatedDateBefore | src/main/java/com/nwt/spade/service/UserService.java:155 | lists every account that is not activated and was created before the cutoff, each once, as stored |
| Service.UserService.RemoveNotActivatedUsers | src/main/java/com/nwt/spade/service/UserService.java:152-160 | deleting the listed accounts one by one leaves the user table as `WithoutStaleRegistrations` of the old one |
| Service.ActivationResultIsDiscarded | src/main/java/com/nwt/spade/service/UserService.java:48-60 | for a pending account with key "k", the method as written activates it and answers `None`; the corrected activation answers with the activated account |

## Left out

- Spring wiring, logging, JSON and serialization annotations, `toString`, and the unused
  imports: they have no counterpart in the model.
- The cron scheduling of the two sweeps: the sweeps are plain methods.
- Joda date arithmetic (`minusMonths(1)`, `minusDays(3)`, the current date and time): time
  is an integer, and each sweep takes its cutoff as a parameter.
- `SecurityUtils.getCurrentLogin()`: the current login is a parameter.
- `PasswordEncoder`: an arbitrary function fixed when the service is built. That the
  stored credential differs from the plaintext is a property of the encoder, not of this code.
- The Mongo repositories: they are maps.
  - `save` stores a record under its key and replaces any record already there.
  - `delete` removes a record by its key.
  - Login uniqueness, atomicity and per-item failure handling belong to the store and are
    not modelled.
- Service.UserService.CreateUserInformation: the creation timestamp comes from `User`'s own
  construction, and User.java is not part of this model. The model takes it as the
  parameter `createdDate`.
- Service.UserService.UpdateUserRoles: the authority lookup is not guarded, and
  `User.addAuthority` is not part of this model. When no authority has the given name,
  the model chooses to save the record with its authority set unchanged. That is also
  what a guarded lookup would do, so in the model the missing guard has no visible
  effect. This differs on purpose from `CreateUserInformation`. There the null from a
  missing `ROLE_USER` goes into a `HashSet` through `add`, which the code shows. The model
  therefore puts the null element `NullRef` in the new account's role set.
- Service.UserService.ActivateRegistration: when several accounts hold the same key, the
  model does not say which one is activated. It says only that exactly one of them is.
- `getName` and `getPermissions`: they are plain reads of the fields.
- The `@NotNull` and `@Size(max = 50)` constraints on `Authority.name`: a validation
  framework enforces them, not this code.
- The contents of `Permission`: only its identity is modelled.
- Null string arguments, other than a null authority name and a missing activation key,
  are not modelled.
- Authorities.StringHash: each Dafny character stands for one Java `char`.
  A character outside the Basic Multilingual Plane is two UTF-16 units in Java, and the
  model does not split it.
- The eager loading in `getUserWithAuthorities` (`getAuthorities().size()`): a map lookup
  already returns the whole record.

## Findings

| source | as written | input that shows it | evidently intended | confidence | as-written member | corrected member |
|---|---|---|---|---|---|---|
| src/main/java/com/nwt/spade/service/UserService.java:50-59 | the account activated inside `map` is discarded, and the method always returns `Optional.empty()` | a pending account "alice" with activation key "k", and the call `activateRegistration("k")` | return the activated account when the key resolves, and empty otherwise | high (not executed) | Service.UserService.ActivateRegistration, exhibited by Service.ActivationResultIsDiscarded | Service.UserService.ActivateRegistrationReturningUser |
