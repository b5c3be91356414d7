/** composables/useNotificationState.ts: the shared notification settings
    shown in the interface, and the three setters, each of which writes one
    field. */
module NotificationState {
  datatype State = State(email: bool, push: bool, isLoading: bool)

  /** The initial settings: everything off, not loading. */
  function Initial(): (s: State)
    ensures !s.email && !s.push && !s.isLoading
  {
    State(false, false, false)
  }

  function SetLoading(s: State, loading: bool): (r: State)
    ensures r.isLoading == loading && r.email == s.email && r.push == s.push
  {
    s.(isLoading := loading)
  }

  function UpdateEmailState(s: State, enabled: bool): (r: State)
    ensures r.email == enabled && r.push == s.push && r.isLoading == s.isLoading
  {
    s.(email := enabled)
  }

  function UpdatePushState(s: State, enabled: bool): (r: State)
    ensures r.push == enabled && r.email == s.email && r.isLoading == s.isLoading
  {
    s.(push := enabled)
  }

  /** The setters write disjoint fields, so they commute, and a later write
      of the same field replaces an earlier one. */
  lemma SettersCommute(s: State, a: bool, b: bool, c: bool)
    ensures UpdateEmailState(UpdatePushState(s, b), a) == UpdatePushState(UpdateEmailState(s, a), b)
    ensures SetLoading(UpdateEmailState(s, a), c) == UpdateEmailState(SetLoading(s, c), a)
    ensures UpdateEmailState(UpdateEmailState(s, a), b) == UpdateEmailState(s, b)
  {
  }
}

/** composables/useAuthState.ts: whether someone is signed in, plus a loading
    flag and an error message. */
module AuthState {
  import opened Base
  import opened Records

  datatype State = State(user: Option<User>, isLoading: bool, error: Option<string>)

  /** `!!user.value`: a user object is always truthy. */
  function IsAuthenticated(s: State): (r: bool)
    ensures r <==> s.user.Some?
  {
    s.user.Some?
  }

  /** The state when the composable is created for the current `user`. */
  function Initial(user: Option<User>): (s: State)
    ensures s.user == user && !s.isLoading && s.error.None?
    ensures IsAuthenticated(s) <==> user.Some?
  {
    State(user, false, None)
  }

  function SetLoading(s: State, value: bool): (r: State)
    ensures r.isLoading == value && r.user == s.user && r.error == s.error
  {
    s.(isLoading := value)
  }

  function SetError(s: State, value: Option<string>): (r: State)
    ensures r.error == value && r.user == s.user && r.isLoading == s.isLoading
  {
    s.(error := value)
  }

  /** Neither setter changes whether the user is signed in. */
  lemma SettersKeepAuthentication(s: State, loading: bool, error: Option<string>)
    ensures IsAuthenticated(SetLoading(s, loading)) == IsAuthenticated(s)
    ensures IsAuthenticated(SetError(s, error)) == IsAuthenticated(s)
  {
  }
}
