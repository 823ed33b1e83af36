/**
 * The authentication context: a provider that holds the current session, its user, whether
 * that user holds the admin role, and whether the first session lookup is still pending.
 *
 * The provider is a class whose fields are its React state, plus `mounted`, the flag its
 * effect keeps to ignore callbacks that arrive after unmount. The session lookups and the
 * role check are replaced by their results, given to the event methods. Events are taken one
 * at a time, as a sequential trace.
 */
module Auth {
  import opened Wrappers
  import opened JsValues

  datatype AuthUser = AuthUser(id: string, email: string)

  datatype Session = Session(accessToken: string, user: AuthUser)

  /** The answer of the `has_role` call: its data, an error object, or a thrown exception. */
  datatype RoleCheck = RoleData(data: JsValue) | RoleError(message: string) | RoleThrew(message: string)

  /** What a component reading the context sees. */
  datatype AuthContext = AuthContext(user: Option<AuthUser>, session: Option<Session>, isAdmin: bool, loading: bool)

  /** `session?.user ?? null`. */
  function UserOf(session: Option<Session>): Option<AuthUser> {
    match session
    case Some(s) => Some(s.user)
    case None => None
  }

  /** `checkAdmin`'s decision: `Boolean(data)` when the call answered without error, false on
      an error or an exception. */
  function Granted(role: RoleCheck): bool {
    match role
    case RoleData(data) => Truthy(data)
    case RoleError(_) => false
    case RoleThrew(_) => false
  }

  const OutsideProvider := "useAuth must be used within AuthProvider"

  /** `useAuth`: the context value, or the error it throws when no provider is above the caller. */
  function UseAuth(provided: Option<AuthContext>): (r: Outcome<AuthContext>)
    ensures r.Threw? <==> provided.None?
    ensures r.Threw? ==> r.message == OutsideProvider
    ensures r.Returned? ==> Some(r.value) == provided
  {
    match provided
    case Some(ctx) => Returned(ctx)
    case None => Threw(OutsideProvider)
  }

  class AuthProvider {
    var user: Option<AuthUser>
    var session: Option<Session>
    var isAdmin: bool
    var loading: bool
    var mounted: bool

    /** The user is the session's user, and only a present user can be an admin. */
    predicate Consistent()
      reads this
    {
      user == UserOf(session) && (isAdmin ==> user.Some?)
    }

    function Context(): AuthContext
      reads this
    {
      AuthContext(user, session, isAdmin, loading)
    }

    /** Mounting: no user, no session, not admin, loading. */
    constructor ()
      ensures user.None? && session.None? && !isAdmin && loading && mounted
      ensures Consistent()
    {
      user, session, isAdmin, loading, mounted := None, None, false, true, true;
    }

    /**
     * `initSession` once `getSession` has answered `found` (and, when it holds a user, the role
     * check has answered `role`). After unmount it does nothing. Otherwise the session and its
     * user are stored, the role check runs for that user's id only, a missing user clears the
     * admin flag, and loading ends. `checked` is the id the role check was asked about.
     */
    method InitSession(found: Option<Session>, role: RoleCheck) returns (checked: Option<string>)
      requires Consistent()
      modifies this
      ensures Consistent() && mounted == old(mounted)
      ensures !old(mounted) ==> checked.None? && Context() == old(Context())
      ensures old(mounted) ==>
        && session == found && user == UserOf(found) && !loading
        && isAdmin == (found.Some? && Granted(role))
        && checked == (if found.Some? then Some(found.value.user.id) else None)
    {
      checked := None;
      if !mounted {
        return;
      }
      session := found;
      user := UserOf(found);
      if found.Some? {
        checked := Some(found.value.user.id);
        isAdmin := Granted(role);
      } else {
        isAdmin := false;
      }
      if mounted {
        loading := false;
      }
    }

    /**
     * The `onAuthStateChange` callback with the new session (and the role check's answer for
     * its user). After unmount it does nothing; otherwise it stores the session and its user
     * and recomputes the admin flag, without touching `loading`.
     */
    method SessionChange(changed: Option<Session>, role: RoleCheck) returns (checked: Option<string>)
      requires Consistent()
      modifies this
      ensures Consistent() && mounted == old(mounted) && loading == old(loading)
      ensures !old(mounted) ==> checked.None? && Context() == old(Context())
      ensures old(mounted) ==>
        && session == changed && user == UserOf(changed)
        && isAdmin == (changed.Some? && Granted(role))
        && checked == (if changed.Some? then Some(changed.value.user.id) else None)
    {
      checked := None;
      if !mounted {
        return;
      }
      session := changed;
      user := UserOf(changed);
      if changed.Some? {
        checked := Some(changed.value.user.id);
        isAdmin := Granted(role);
      } else {
        isAdmin := false;
      }
    }

    /** `signOut`: the admin flag is cleared at once; the session itself is cleared by the
        change event that follows. */
    method SignOut()
      requires Consistent()
      modifies this
      ensures Consistent() && !isAdmin
      ensures user == old(user) && session == old(session) && loading == old(loading) && mounted == old(mounted)
    {
      isAdmin := false;
    }

    /** The effect's cleanup. */
    method Unmount()
      modifies this
      ensures !mounted && Context() == old(Context())
    {
      mounted := false;
    }
  }
}
