/**
 * The admin auth provider: a small state machine over the browser's
 * key-value storage and four pieces of state (authenticated, admin, user,
 * loading). Storage is a map; the clock and the build-time credentials are
 * parameters.
 */
module Auth {
  import opened Wrappers
  import opened Strings

  type Storage = map<string, string>

  const TokenKey: string := "admin_token"
  const UsernameKey: string := "admin_username"
  const TokenPrefix: string := "temp_token_"
  const CredentialsRequired: string := "Username and password are required"
  const InvalidCredentials: string := "Invalid credentials"

  datatype User = User(username: string, name: string)

  datatype AuthState = AuthState(isAuthenticated: bool, isAdmin: bool, user: Option<User>, loading: bool)

  /** The two public environment variables; either may be unset. */
  datatype Env = Env(adminUsername: Option<string>, adminPassword: Option<string>)

  /** The provider's state before the first check. */
  const InitialState: AuthState := AuthState(false, false, None, true)

  /** The flags agree with each other and with the presence of a user. */
  predicate Consistent(s: AuthState) {
    s.isAuthenticated == s.isAdmin && (s.isAuthenticated <==> s.user.Some?)
  }

  /** A stored value counts only when present and non-empty (truthy). */
  predicate HasValue(storage: Storage, key: string) {
    key in storage && storage[key] != ""
  }

  /**
   * `checkAuth`: restores the session from storage when both keys hold
   * non-empty values, whatever the token says; otherwise keeps the flags.
   * Loading ends on every path.
   */
  function CheckAuth(s: AuthState, storage: Storage): (r: AuthState)
    ensures !r.loading
    ensures HasValue(storage, TokenKey) && HasValue(storage, UsernameKey) ==>
      r.isAuthenticated && r.isAdmin &&
      r.user == Some(User(storage[UsernameKey], storage[UsernameKey]))
    ensures !(HasValue(storage, TokenKey) && HasValue(storage, UsernameKey)) ==>
      r == s.(loading := false)
  {
    if HasValue(storage, TokenKey) && HasValue(storage, UsernameKey) then
      var name := storage[UsernameKey];
      AuthState(true, true, Some(User(name, name)), false)
    else
      s.(loading := false)
  }

  /** What a login attempt leaves behind: new state and storage, or an error and both unchanged. */
  datatype LoginOutcome = LoginOutcome(state: AuthState, storage: Storage, error: Option<string>)

  /** `username !== adminUsername`, where an unset variable never equals a string. */
  predicate Matches(given: string, expected: Option<string>) {
    expected == Some(given)
  }

  /**
   * `login`: empty inputs are refused first, then any mismatch with the
   * configured credentials; a success stores a token stamped with the time
   * and the user name, and signs the user in.
   */
  function Login(s: AuthState, storage: Storage, env: Env, username: string, password: string, now: int)
    : (r: LoginOutcome)
    ensures r.error.Some? ==> r.state == s && r.storage == storage
    ensures (username == "" || password == "") <==> r.error == Some(CredentialsRequired)
    ensures r.error == Some(InvalidCredentials) <==>
      username != "" && password != "" && !(Matches(username, env.adminUsername) && Matches(password, env.adminPassword))
    ensures r.error.None? <==>
      username != "" && password != "" && Matches(username, env.adminUsername) && Matches(password, env.adminPassword)
    ensures r.error.None? ==>
      r.state == AuthState(true, true, Some(User(username, username)), s.loading) &&
      r.storage == storage[TokenKey := TokenPrefix + IntToString(now)][UsernameKey := username]
  {
    if username == "" || password == "" then
      LoginOutcome(s, storage, Some(CredentialsRequired))
    else if !Matches(username, env.adminUsername) || !Matches(password, env.adminPassword) then
      LoginOutcome(s, storage, Some(InvalidCredentials))
    else
      var storage' := storage[TokenKey := TokenPrefix + IntToString(now)][UsernameKey := username];
      LoginOutcome(s.(user := Some(User(username, username)), isAuthenticated := true, isAdmin := true), storage', None)
  }

  /** `logout`: both keys removed, user cleared, both flags reset. */
  function Logout(s: AuthState, storage: Storage): (r: (AuthState, Storage))
    ensures TokenKey !in r.1 && UsernameKey !in r.1
    ensures forall k :: k != TokenKey && k != UsernameKey ==> (k in r.1 <==> k in storage)
    ensures forall k :: k in r.1 ==> r.1[k] == storage[k]
    ensures !r.0.isAuthenticated && !r.0.isAdmin && r.0.user.None? && r.0.loading == s.loading
  {
    (s.(user := None, isAuthenticated := false, isAdmin := false), storage - {TokenKey, UsernameKey})
  }

  /** The initial state is consistent and every operation keeps the flags in step. */
  lemma ConsistentInvariant(s: AuthState, storage: Storage, env: Env, username: string, password: string, now: int)
    requires Consistent(s)
    ensures Consistent(InitialState)
    ensures Consistent(CheckAuth(s, storage))
    ensures Consistent(Login(s, storage, env, username, password, now).state)
    ensures Consistent(Logout(s, storage).0)
  {
  }

  /** With either credential unset, no login succeeds. */
  lemma UnsetEnvBlocksLogin(s: AuthState, storage: Storage, env: Env, username: string, password: string, now: int)
    requires env.adminUsername.None? || env.adminPassword.None?
    ensures Login(s, storage, env, username, password, now).error.Some?
  {
  }

  /**
   * The token written at login is the fixed prefix followed by the time in
   * decimal: the time can be read back from it.
   */
  lemma LoginToken(s: AuthState, storage: Storage, env: Env, username: string, password: string, now: int)
    requires Login(s, storage, env, username, password, now).error.None?
    ensures var st := Login(s, storage, env, username, password, now).storage;
      TokenKey in st && |st[TokenKey]| > |TokenPrefix| && st[TokenKey][..|TokenPrefix|] == TokenPrefix
    ensures var st := Login(s, storage, env, username, password, now).storage;
      var stamp := st[TokenKey][|TokenPrefix|..];
      now >= 0 ==> (forall i :: 0 <= i < |stamp| ==> IsDigit(stamp[i])) && DigitsValue(stamp) == now
    ensures var st := Login(s, storage, env, username, password, now).storage;
      var stamp := st[TokenKey][|TokenPrefix|..];
      now < 0 ==>
        |stamp| > 1 && stamp[0] == '-' &&
        (forall i :: 1 <= i < |stamp| ==> IsDigit(stamp[i])) && DigitsValue(stamp[1..]) == -now
  {
    var st := Login(s, storage, env, username, password, now).storage;
    assert TokenKey != UsernameKey by {
      assert TokenKey[6] != UsernameKey[6];
    }
    assert st[TokenKey] == TokenPrefix + IntToString(now);
    assert st[TokenKey][|TokenPrefix|..] == IntToString(now);
    IntToStringReadsBack(now);
  }

  /** A successful login survives a reload: checking storage afterwards restores the same user. */
  lemma LoginSurvivesReload(s: AuthState, storage: Storage, env: Env, username: string, password: string, now: int)
    requires Login(s, storage, env, username, password, now).error.None?
    ensures var r := CheckAuth(InitialState, Login(s, storage, env, username, password, now).storage);
      r.isAuthenticated && r.isAdmin && r.user == Some(User(username, username)) && !r.loading
  {
    var st := Login(s, storage, env, username, password, now).storage;
    assert TokenKey != UsernameKey by {
      assert TokenKey[6] != UsernameKey[6];
    }
    assert st[TokenKey] == TokenPrefix + IntToString(now);
    assert HasValue(st, TokenKey);
    assert HasValue(st, UsernameKey);
  }

  /** After logout a reload finds no session. */
  lemma LogoutSurvivesReload(s: AuthState, storage: Storage)
    ensures var r := CheckAuth(InitialState, Logout(s, storage).1);
      !r.isAuthenticated && !r.isAdmin && r.user.None? && !r.loading
  {
  }
}
