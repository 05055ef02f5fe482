/** The client's session state (frontend/src/contexts/AuthContext.js):
    `initialState` and the reducer `authReducer` that the provider's
    dispatches drive. */
module AuthContext {
  import opened Wrappers
  import opened Json

  /** A JavaScript object as the server sends it. */
  type Record = map<string, Json>

  datatype AuthState = AuthState(
    user: Option<Record>,
    company: Option<Record>,
    token: Option<string>,
    isAuthenticated: bool,
    isLoading: bool,
    error: Option<string>)

  /** The actions the reducer knows, plus any other action type, which it
      ignores. */
  datatype Action =
    | SetLoading(loading: bool)
    | LoginSuccess(user: Option<Record>, company: Option<Record>, token: Option<string>)
    | LoginFailure(message: string)
    | Logout
    | UpdateUser(changes: Record)
    | SetError(message: string)
    | ClearError
    | Unknown(actionType: string)

  /** `initialState`: nobody is signed in and the session is being restored. */
  const InitialState: AuthState := AuthState(None, None, None, false, true, None)

  /** The state both `LOGOUT` and a failed login leave, but for the error. */
  function SignedOut(error: Option<string>): AuthState {
    AuthState(None, None, None, false, false, error)
  }

  /** `authReducer`: each action's new state, built as a copy of the old one
      with some fields overwritten. */
  function Reduce(s: AuthState, a: Action): (r: AuthState)
    // the fields each action leaves alone
    ensures a.SetLoading? ==> r.(isLoading := s.isLoading) == s
    ensures a.UpdateUser? ==> r.(user := s.user) == s
    ensures a.SetError? ==> r.(error := s.error, isLoading := s.isLoading) == s
    ensures a.ClearError? ==> r.(error := s.error) == s
    ensures a.Unknown? ==> r == s
    // the fields each action sets
    ensures a.SetLoading? ==> r.isLoading == a.loading
    ensures a.LoginSuccess? ==> r == AuthState(a.user, a.company, a.token, true, false, None)
    ensures a.LoginFailure? ==> r == SignedOut(Some(a.message))
    ensures a.Logout? ==> r == SignedOut(None)
    ensures a.UpdateUser? ==> r.user.Some? && r.user.value.Keys == s.user.GetOr(map[]).Keys + a.changes.Keys
    ensures a.UpdateUser? ==> forall k :: k in r.user.value ==>
              r.user.value[k] == if k in a.changes then a.changes[k] else s.user.value[k]
    ensures a.SetError? ==> r.error == Some(a.message) && !r.isLoading
    ensures a.ClearError? ==> r.error == None
  {
    match a
    case SetLoading(loading) => s.(isLoading := loading)
    case LoginSuccess(user, company, token) =>
      s.(user := user, company := company, token := token, isAuthenticated := true, isLoading := false, error := None)
    case LoginFailure(message) =>
      s.(user := None, company := None, token := None, isAuthenticated := false, isLoading := false, error := Some(message))
    case Logout =>
      s.(user := None, company := None, token := None, isAuthenticated := false, isLoading := false, error := None)
    case UpdateUser(changes) => s.(user := Some(s.user.GetOr(map[]) + changes))
    case SetError(message) => s.(error := Some(message), isLoading := false)
    case ClearError => s.(error := None)
    case Unknown(_) => s
  }

  /** The state after a sequence of dispatches, oldest first. */
  function Run(s: AuthState, actions: seq<Action>): AuthState
    decreases |actions|
  {
    if actions == [] then s else Run(Reduce(s, actions[0]), actions[1..])
  }

  /** Signed out means no token and no company: only a successful login
      brings them in, and every action that clears `isAuthenticated` clears
      them too. */
  predicate Consistent(s: AuthState) {
    !s.isAuthenticated ==> s.token.None? && s.company.None?
  }

  lemma InitialStateConsistent()
    ensures Consistent(InitialState)
  {
  }

  /** Every action keeps the state consistent. */
  lemma ReducePreservesConsistent(s: AuthState, a: Action)
    requires Consistent(s)
    ensures Consistent(Reduce(s, a))
  {
  }

  /** Consistency holds after any sequence of dispatches. */
  lemma {:induction false} RunPreservesConsistent(s: AuthState, actions: seq<Action>)
    requires Consistent(s)
    ensures Consistent(Run(s, actions))
    decreases |actions|
  {
    if actions != [] {
      ReducePreservesConsistent(s, actions[0]);
      RunPreservesConsistent(Reduce(s, actions[0]), actions[1..]);
    }
  }

  /** Dispatches compose: running two sequences one after the other is
      running their concatenation. */
  lemma {:induction false} RunAppend(s: AuthState, xs: seq<Action>, ys: seq<Action>)
    ensures Run(s, xs + ys) == Run(Run(s, xs), ys)
    decreases |xs|
  {
    if xs != [] {
      assert (xs + ys)[0] == xs[0] && (xs + ys)[1..] == xs[1..] + ys;
      RunAppend(Reduce(s, xs[0]), xs[1..], ys);
    } else {
      assert xs + ys == ys;
    }
  }

  /** Logging out forgets the whole session: the result does not depend on
      the state it started from, so a second logout changes nothing. */
  lemma LogoutForgetsSession(s: AuthState, t: AuthState)
    ensures Reduce(s, Logout) == Reduce(t, Logout)
    ensures Reduce(Reduce(s, Logout), Logout) == Reduce(s, Logout)
  {
  }

  /** After a login, success or failure, the session is fully determined by
      the outcome: whatever happened before is forgotten. */
  lemma LoginOverwritesSession(s: AuthState, t: AuthState, a: Action)
    requires a.LoginSuccess? || a.LoginFailure?
    ensures Reduce(s, a) == Reduce(t, a)
  {
  }

  /** `CLEAR_ERROR` undoes `SET_ERROR` on the error alone; loading stays
      finished. */
  lemma ClearErrorAfterSetError(s: AuthState, message: string)
    ensures Reduce(Reduce(s, SetError(message)), ClearError) == s.(error := None, isLoading := false)
  {
  }

  /** An update on a signed-out state yields a user record but leaves the
      session signed out: `isAuthenticated` is not touched. */
  lemma UpdateUserKeepsAuthentication(s: AuthState, changes: Record)
    ensures Reduce(s, UpdateUser(changes)).isAuthenticated == s.isAuthenticated
    ensures s.user.None? ==> Reduce(s, UpdateUser(changes)).user == Some(changes)
  {
    assert map[] + changes == changes;
  }
}
