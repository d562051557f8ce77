/**
 * The session store (`store/slices/user/userSlice.ts`): the signed-in user
 * restored from storage, logout, the pending registration email, and the
 * login and registration requests' steps. Browser storage is a map from
 * key to text; reducers that write it return the new map.
 */
module UserSlice {
  import opened Wrappers
  import opened Strings

  const TokenKey := "token"
  const UserIdKey := "userId"
  const LoginFailedMessage := "Помилка логіну"
  const RegisterFailedMessage := "Помилка реєстрації"

  type AuthStorage = map<string, string>

  datatype User = User(token: string, userId: string, name: string, email: string)

  datatype UserState = UserState(user: Option<User>, loading: bool, error: Option<string>, pendingEmail: Option<string>)

  /** A reducer's new state and the storage it leaves. */
  datatype Step = Step(state: UserState, storage: AuthStorage)

  /** `localStorage.getItem(key) || ''`. */
  function StoredOrEmpty(storage: AuthStorage, key: string): (r: string)
    ensures key in storage ==> r == storage[key]
    ensures key !in storage ==> r == ""
  {
    if key in storage then storage[key] else ""
  }

  /**
   * The state at start-up: a user object whose token and id come from
   * storage ('' when absent) and whose name and email are empty; not
   * loading, no error, no pending email.
   */
  function InitialUserState(storage: AuthStorage): (r: UserState)
    ensures r.user.Some?
    ensures r.user.value.token == StoredOrEmpty(storage, TokenKey)
    ensures r.user.value.userId == StoredOrEmpty(storage, UserIdKey)
    ensures r.user.value.name == "" && r.user.value.email == ""
    ensures !r.loading && r.error.None? && r.pendingEmail.None?
  {
    UserState(Some(User(StoredOrEmpty(storage, TokenKey), StoredOrEmpty(storage, UserIdKey), "", "")), false, None, None)
  }

  /** `logout`: no user, not loading, no pending email; token and id leave storage, the error stays. */
  function Logout(s: UserState, storage: AuthStorage): (r: Step)
    ensures r.state.user.None? && !r.state.loading && r.state.pendingEmail.None?
    ensures r.state.error == s.error
    ensures TokenKey !in r.storage && UserIdKey !in r.storage
    ensures forall k :: k != TokenKey && k != UserIdKey ==> (k in r.storage <==> k in storage)
    ensures forall k :: k in r.storage ==> r.storage[k] == storage[k]
  {
    Step(s.(user := None, loading := false, pendingEmail := None), storage - {TokenKey, UserIdKey})
  }

  /** `clearError`: only the error goes. */
  function ClearError(s: UserState): (r: UserState)
    ensures r.error.None? && r.(error := s.error) == s
  {
    s.(error := None)
  }

  /** `setPendingEmail`: only the pending email changes. */
  function SetPendingEmail(s: UserState, email: string): (r: UserState)
    ensures r.pendingEmail == Some(email) && r.(pendingEmail := s.pendingEmail) == s
  {
    s.(pendingEmail := Some(email))
  }

  /** `clearPendingEmail`: only the pending email changes. */
  function ClearPendingEmail(s: UserState): (r: UserState)
    ensures r.pendingEmail.None? && r.(pendingEmail := s.pendingEmail) == s
  {
    s.(pendingEmail := None)
  }

  /** Clearing undoes setting: the state is back as it was when nothing was pending. */
  lemma SetThenClearPendingEmail(s: UserState, email: string)
    requires s.pendingEmail.None?
    ensures ClearPendingEmail(SetPendingEmail(s, email)) == s
  {
  }

  /** The pending cases of login and registration: loading, no error. */
  function RequestPending(s: UserState): (r: UserState)
    ensures r.loading && r.error.None?
    ensures r.user == s.user && r.pendingEmail == s.pendingEmail
  {
    s.(loading := true, error := None)
  }

  /** The login reply. */
  datatype LoginResponse = LoginResponse(token: string, userId: string, name: string, email: string)

  /** `loginUser.fulfilled`: the user from the reply, and token and id written to storage. */
  function LoginFulfilled(s: UserState, storage: AuthStorage, resp: LoginResponse): (r: Step)
    ensures !r.state.loading && r.state.error == s.error && r.state.pendingEmail == s.pendingEmail
    ensures r.state.user == Some(User(resp.token, resp.userId, resp.name, resp.email))
    ensures TokenKey in r.storage && r.storage[TokenKey] == resp.token
    ensures UserIdKey in r.storage && r.storage[UserIdKey] == resp.userId
    ensures forall k :: k != TokenKey && k != UserIdKey ==> (k in r.storage <==> k in storage)
    ensures forall k :: k in storage && k != TokenKey && k != UserIdKey ==> r.storage[k] == storage[k]
  {
    var user := User(resp.token, resp.userId, resp.name, resp.email);
    Step(s.(loading := false, user := Some(user)), storage[TokenKey := resp.token][UserIdKey := resp.userId])
  }

  /** `loginUser.rejected` and `registerUser.rejected`: not loading, and the rejection's message or the given text. */
  function RequestRejected(s: UserState, payload: Option<string>, fallback: string): (r: UserState)
    requires fallback != ""
    ensures !r.loading && r.error.Some? && r.error.value != ""
    ensures payload.Some? && payload.value != "" ==> r.error == payload
    ensures payload.None? || payload.value == "" ==> r.error == Some(fallback)
    ensures r.user == s.user && r.pendingEmail == s.pendingEmail
  {
    s.(loading := false, error := Some(OrElse(payload, fallback)))
  }

  /** `registerUser.fulfilled`: not loading and no error; the user is left alone. */
  function RegisterFulfilled(s: UserState): (r: UserState)
    ensures !r.loading && r.error.None?
    ensures r.user == s.user && r.pendingEmail == s.pendingEmail
  {
    s.(loading := false, error := None)
  }

  /**
   * A reload after login restores the token and the id, but not the name
   * and the email.
   */
  lemma ReloadAfterLogin(s: UserState, storage: AuthStorage, resp: LoginResponse)
    ensures var reloaded := InitialUserState(LoginFulfilled(s, storage, resp).storage);
      reloaded.user == Some(User(resp.token, resp.userId, "", ""))
  {
  }

  /**
   * A reload after logout does not come back signed out: it starts with a
   * user object whose token and id are empty.
   */
  lemma ReloadAfterLogout(s: UserState, storage: AuthStorage)
    ensures var reloaded := InitialUserState(Logout(s, storage).storage);
      reloaded.user == Some(User("", "", "", ""))
  {
  }
}
