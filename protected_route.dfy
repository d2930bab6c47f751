/** The client's route guard: what a protected page shows for the current
    authentication state. `Guard` is the guard as written; `GuardCorrected`
    sends a signed-out visitor to the login page instead of a spinner that
    never ends. */
module ProtectedRoute {
  import opened Common
  import opened Models
  import opened AuthContext

  /** What the guard renders. */
  datatype View = Spinner | RedirectToLogin | RedirectToDashboard | Children

  /** `user.role === "admin"` */
  predicate IsAdminProfile(p: Profile) {
    "role" in p && p["role"] == JString("admin")
  }

  /** `ProtectedRoute` as written: the spinner while the start-up load runs
      or while there is no user object. */
  function Guard(isAuthLoading: bool, isAuthenticated: bool, user: Option<Profile>, adminOnly: bool): (v: View)
    ensures isAuthLoading || user.None? ==> v == Spinner
    ensures v == RedirectToLogin <==> !isAuthLoading && user.Some? && !isAuthenticated
    ensures v == Children <==>
              !isAuthLoading && user.Some? && isAuthenticated && (!adminOnly || IsAdminProfile(user.value))
  {
    if isAuthLoading || user.None? then Spinner
    else if !isAuthenticated then RedirectToLogin
    else if adminOnly && !IsAdminProfile(user.value) then RedirectToDashboard
    else Children
  }

  /** The reducer's states in which a user object is present exactly when
      signed in. */
  predicate UserIffSignedIn(s: AuthState) {
    s.user.Some? <==> s.isAuthenticated
  }

  /** Every action but `UPDATE_USER` keeps a user object present exactly
      when signed in. */
  lemma {:induction false} RunKeepsUserIffSignedIn(s: AuthState, actions: seq<Action>)
    requires UserIffSignedIn(s)
    requires forall i :: 0 <= i < |actions| ==> !actions[i].UpdateUser?
    ensures UserIffSignedIn(Run(s, actions))
    decreases |actions|
  {
    if actions != [] {
      assert !actions[0].UpdateUser?;
      RunKeepsUserIffSignedIn(Reduce(s, actions[0]), actions[1..]);
    }
  }

  /** As written, a visitor who is not signed in once the start-up load is
      over (no stored token, or a token that no longer loads a user) sees the
      spinner, and keeps seeing it: no sign-in attempt that fails, no logout
      and no further load ever gives the login redirect. That redirect needs
      a user object while signed out, which only `UPDATE_USER` on a
      signed-out state produces. */
  lemma SignedOutSpinsForever(storedToken: Option<string>, load: LoadReply, actions: seq<Action>, adminOnly: bool)
    requires forall i :: 0 <= i < |actions| ==> !actions[i].UpdateUser?
    requires !Run(Mounted(storedToken, load), actions).isAuthenticated
    ensures Guard(false, Run(Mounted(storedToken, load), actions).isAuthenticated,
                  Run(Mounted(storedToken, load), actions).user, adminOnly) == Spinner
  {
    RunKeepsUserIffSignedIn(Mounted(storedToken, load), actions);
  }

  /** The plainest case: a first visit with nothing stored. */
  lemma FirstVisitSpins(load: LoadReply, adminOnly: bool)
    ensures Guard(false, Mounted(None, load).isAuthenticated, Mounted(None, load).user, adminOnly) == Spinner
    ensures !Mounted(None, load).isAuthenticated
  {
  }

  /** The guard as evidently intended: wait only for the start-up load, then
      send anyone not signed in to the login page. */
  function GuardCorrected(isAuthLoading: bool, isAuthenticated: bool, user: Option<Profile>, adminOnly: bool): (v: View)
    ensures isAuthLoading <==> v == Spinner
    ensures v == RedirectToLogin <==> !isAuthLoading && (user.None? || !isAuthenticated)
    ensures v == Children <==>
              !isAuthLoading && user.Some? && isAuthenticated && (!adminOnly || IsAdminProfile(user.value))
  {
    if isAuthLoading then Spinner
    else if user.None? || !isAuthenticated then RedirectToLogin
    else if adminOnly && !IsAdminProfile(user.value) then RedirectToDashboard
    else Children
  }

  /** The correction changes only the signed-out case: with a user object
      both guards agree, and they render the page for exactly the same
      states. */
  lemma CorrectionOnlyRedirects(isAuthLoading: bool, isAuthenticated: bool, user: Option<Profile>, adminOnly: bool)
    ensures user.Some? ==> GuardCorrected(isAuthLoading, isAuthenticated, user, adminOnly)
                           == Guard(isAuthLoading, isAuthenticated, user, adminOnly)
    ensures GuardCorrected(isAuthLoading, isAuthenticated, user, adminOnly) == Children
            <==> Guard(isAuthLoading, isAuthenticated, user, adminOnly) == Children
    ensures !isAuthLoading && user.None? ==> GuardCorrected(isAuthLoading, isAuthenticated, user, adminOnly) == RedirectToLogin
  {
  }

  /** With the correction, every signed-out state after start-up is sent to
      the login page, whatever was dispatched since. */
  lemma SignedOutRedirected(storedToken: Option<string>, load: LoadReply, actions: seq<Action>, adminOnly: bool)
    requires !Run(Mounted(storedToken, load), actions).isAuthenticated
    ensures GuardCorrected(false, Run(Mounted(storedToken, load), actions).isAuthenticated,
                           Run(Mounted(storedToken, load), actions).user, adminOnly) == RedirectToLogin
  {
  }

  /** An admin-only page never renders for a non-admin user, with either guard. */
  lemma AdminPagesNeedAdmin(isAuthLoading: bool, isAuthenticated: bool, user: Option<Profile>)
    requires user.Some? && !IsAdminProfile(user.value)
    ensures Guard(isAuthLoading, isAuthenticated, user, true) != Children
    ensures GuardCorrected(isAuthLoading, isAuthenticated, user, true) != Children
    ensures !isAuthLoading && isAuthenticated ==> Guard(isAuthLoading, isAuthenticated, user, true) == RedirectToDashboard
  {
  }
}
