/**
 * The guard around the admin pages: it reads the authentication context and shows a loading
 * screen, redirects, or renders the page it wraps.
 */
module ProtectedRoute {
  import opened Wrappers
  import opened Auth

  const LoginPath := "/admin/login"
  const HomePath := "/"

  datatype Guarded = ShowLoading | Redirect(to: string) | RenderChildren

  /** The guard's decision on a context. Redirects replace the current history entry. */
  function Guard(ctx: AuthContext): (g: Guarded)
    ensures ctx.loading ==> g == ShowLoading
    ensures !ctx.loading && ctx.user.None? ==> g == Redirect(LoginPath)
    ensures !ctx.loading && ctx.user.Some? && !ctx.isAdmin ==> g == Redirect(HomePath)
    ensures g == RenderChildren <==> !ctx.loading && ctx.user.Some? && ctx.isAdmin
  {
    if ctx.loading then ShowLoading
    else if ctx.user.None? then Redirect(LoginPath)
    else if !ctx.isAdmin then Redirect(HomePath)
    else RenderChildren
  }

  /** The component as rendered: it reads the context with `useAuth`, so outside a provider it
      throws before deciding anything. */
  function Render(provided: Option<AuthContext>): (r: Outcome<Guarded>)
    ensures provided.None? ==> r == Threw(OutsideProvider)
    ensures provided.Some? ==> r == Returned(Guard(provided.value))
  {
    match UseAuth(provided)
    case Threw(m) => Threw(m)
    case Returned(ctx) => Returned(Guard(ctx))
  }

  /** While loading, the same screen is shown whoever is signed in. */
  lemma LoadingHidesIdentity(a: AuthContext, b: AuthContext)
    requires a.loading && b.loading
    ensures Guard(a) == Guard(b) == ShowLoading
  {
  }

  /** The guard never redirects an admin, and never lets anyone else through. */
  lemma GuardOnlyAdmits(ctx: AuthContext)
    requires !ctx.loading
    ensures Guard(ctx).Redirect? <==> ctx.user.None? || !ctx.isAdmin
    ensures Guard(ctx).Redirect? ==> Guard(ctx).to in {LoginPath, HomePath}
  {
  }
}
