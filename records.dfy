/**
 * The persisted records the account lifecycle works on. The User and PersistentToken
 * classes are not part of this model; these are the fields the service reads and writes.
 */
module Records {
  import opened Wrappers
  import opened Authorities

  /** A user account, keyed by its login. */
  datatype User = User(
    login: string,
    password: string,               // the encoded credential, never the plaintext
    firstName: string,
    lastName: string,
    email: string,
    ldapUser: string,
    langKey: string,
    activated: bool,
    activationKey: Option<string>,  // the pending registration's one-time key
    createdDate: int,
    authorities: set<AuthorityRef>,
    permissions: set<string>,
    projects: set<string>,
    defaultProject: string)

  /** A remember-me token, keyed by its series. */
  datatype PersistentToken = PersistentToken(series: string, userLogin: string, tokenDate: int)
}
