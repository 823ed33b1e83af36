/**
 * The application's route table: which page each browser path shows, and which pages are
 * wrapped in the admin guard. Paths are matched the way the router matches a static route by
 * default: the whole path, ignoring ASCII letter case and any trailing slashes.
 */
module AppRoutes {
  import opened Wrappers
  import opened Auth
  import opened ProtectedRoute

  datatype Page =
    | IndexPage | AdminLoginPage | AdminDashboardPage | AdminWebsitesPage
    | AdminStatusesPage | AdminSettingsPage | AdminAccountPage | NotFoundPage

  datatype Element = Plain(page: Page) | Protected(page: Page)

  /** The declared routes in order; any path none of them matches falls to `*`. */
  const Routes: seq<(string, Element)> := [
    ("/", Plain(IndexPage)),
    ("/admin/login", Plain(AdminLoginPage)),
    ("/admin", Protected(AdminDashboardPage)),
    ("/admin/websites", Protected(AdminWebsitesPage)),
    ("/admin/statuses", Protected(AdminStatusesPage)),
    ("/admin/settings", Protected(AdminSettingsPage)),
    ("/admin/account", Protected(AdminAccountPage))
  ]

  const Fallback := Plain(NotFoundPage)

  function Lower(c: char): char {
    if 'A' <= c <= 'Z' then (c as int + 32) as char else c
  }

  /** Equal up to the case of ASCII letters. */
  predicate SameIgnoringCase(a: string, b: string) {
    |a| == |b| && forall i :: 0 <= i < |a| ==> Lower(a[i]) == Lower(b[i])
  }

  /** `s` without the slashes at its end. */
  function DropTrailingSlashes(s: string): (r: string)
    ensures |r| <= |s| && r == s[..|r|]
    ensures r == [] || r[|r| - 1] != '/'
    ensures forall i :: |r| <= i < |s| ==> s[i] == '/'
  {
    if s != [] && s[|s| - 1] == '/' then DropTrailingSlashes(s[..|s| - 1]) else s
  }

  /** A route's path matches a browser path that starts with `/` and equals it up to case and
      trailing slashes. */
  predicate Matches(pattern: string, path: string) {
    path != [] && path[0] == '/' && SameIgnoringCase(DropTrailingSlashes(path), DropTrailingSlashes(pattern))
  }

  /** The element of the first route from `k` on that matches, or the fallback. */
  function ResolveFrom(path: string, k: nat): Element
    requires k <= |Routes|
    decreases |Routes| - k
  {
    if k == |Routes| then Fallback
    else if Matches(Routes[k].0, path) then Routes[k].1
    else ResolveFrom(path, k + 1)
  }

  /** The element the router renders for a path. */
  function Resolve(path: string): Element {
    ResolveFrom(path, 0)
  }

  /** What the user sees at a path: the page, or, for a guarded page, the guard's loading screen
      or redirect. Outside a provider a guarded page throws. */
  datatype Screen = ShowPage(page: Page) | Guarding(outcome: Guarded) | Crash(message: string)

  function Show(path: string, provided: Option<AuthContext>): Screen {
    match Resolve(path)
    case Plain(p) => ShowPage(p)
    case Protected(p) =>
      match Render(provided)
      case Threw(m) => Crash(m)
      case Returned(RenderChildren) => ShowPage(p)
      case Returned(g) => Guarding(g)
  }

  // ---------------------------------------------------------------------------
  // Properties of the table
  // ---------------------------------------------------------------------------

  /** The router renders the not-found page exactly when no declared route matches, and
      otherwise the element of a route that matches. */
  lemma ResolveSpec(path: string)
    ensures Resolve(path) == Fallback <==> forall i :: 0 <= i < |Routes| ==> !Matches(Routes[i].0, path)
    ensures Resolve(path) != Fallback ==>
      exists i :: 0 <= i < |Routes| && Matches(Routes[i].0, path) && Resolve(path) == Routes[i].1
  {
    ResolveFromSpec(path, 0);
  }

  lemma {:induction false} ResolveFromSpec(path: string, k: nat)
    requires k <= |Routes|
    ensures ResolveFrom(path, k) == Fallback <==> forall i :: k <= i < |Routes| ==> !Matches(Routes[i].0, path)
    ensures ResolveFrom(path, k) != Fallback ==>
      exists i :: k <= i < |Routes| && Matches(Routes[i].0, path) && ResolveFrom(path, k) == Routes[i].1
    decreases |Routes| - k
  {
    if k < |Routes| {
      ResolveFromSpec(path, k + 1);
      assert Routes[k].1 != Fallback;
    }
  }

  /** No path matches two declared routes, so their order does not decide anything. */
  lemma RoutesDisjoint(path: string, i: nat, j: nat)
    requires i < j < |Routes|
    ensures !(Matches(Routes[i].0, path) && Matches(Routes[j].0, path))
  {
    if Matches(Routes[i].0, path) && Matches(Routes[j].0, path) {
      var p := DropTrailingSlashes(path);
      var a := DropTrailingSlashes(Routes[i].0);
      var b := DropTrailingSlashes(Routes[j].0);
      SameCaseTransitive(a, p, b);
      RoutePatternsDistinct(i, j);
    }
  }

  lemma SameCaseTransitive(a: string, p: string, b: string)
    requires SameIgnoringCase(p, a) && SameIgnoringCase(p, b)
    ensures SameIgnoringCase(a, b)
  {
    forall k | 0 <= k < |a| ensures Lower(a[k]) == Lower(b[k]) {
      assert Lower(p[k]) == Lower(a[k]);
    }
  }

  /** The declared paths differ from each other even ignoring case and trailing slashes. */
  lemma RoutePatternsDistinct(i: nat, j: nat)
    requires i < j < |Routes|
    ensures !SameIgnoringCase(DropTrailingSlashes(Routes[i].0), DropTrailingSlashes(Routes[j].0))
  {
    PatternsNormal();
    var a := DropTrailingSlashes(Routes[i].0);
    var b := DropTrailingSlashes(Routes[j].0);
    if |a| == |b| && |a| > 7 {
      assert Lower(a[7]) != Lower(b[7]) || Lower(a[8]) != Lower(b[8]);
    }
  }

  /** Only the root route ends with a slash. */
  lemma PatternsNormal()
    ensures DropTrailingSlashes(Routes[0].0) == []
    ensures forall i :: 1 <= i < |Routes| ==> DropTrailingSlashes(Routes[i].0) == Routes[i].0
  {
    assert DropTrailingSlashes("/") == DropTrailingSlashes([]);
    forall i | 1 <= i < |Routes| ensures DropTrailingSlashes(Routes[i].0) == Routes[i].0 {
      var r := Routes[i].0;
      assert r[|r| - 1] != '/';
    }
  }

  /** A path that matches a declared route resolves to that route's element. */
  lemma ResolveMatched(k: nat, path: string)
    requires k < |Routes| && Matches(Routes[k].0, path)
    ensures Resolve(path) == Routes[k].1
  {
    forall i | 0 <= i < k ensures !Matches(Routes[i].0, path) {
      RoutesDisjoint(path, i, k);
    }
    ResolveFirstMatch(path, 0, k);
  }

  lemma {:induction false} ResolveFirstMatch(path: string, from: nat, k: nat)
    requires from <= k < |Routes| && Matches(Routes[k].0, path)
    requires forall i :: from <= i < k ==> !Matches(Routes[i].0, path)
    ensures ResolveFrom(path, from) == Routes[k].1
    decreases k - from
  {
    if from < k {
      ResolveFirstMatch(path, from + 1, k);
    }
  }

  lemma SelfMatch(s: string)
    requires s != [] && s[0] == '/'
    ensures Matches(s, s)
  {
  }

  /** Each declared path, exactly as written, shows its own route's element. */
  lemma DeclaredPaths()
    ensures forall k :: 0 <= k < |Routes| ==> Resolve(Routes[k].0) == Routes[k].1
  {
    forall k | 0 <= k < |Routes| ensures Resolve(Routes[k].0) == Routes[k].1 {
      SelfMatch(Routes[k].0);
      ResolveMatched(k, Routes[k].0);
    }
  }

  /** Trailing slashes make no difference to the page shown. */
  lemma TrailingSlashIgnored(path: string)
    requires path != []
    ensures Resolve(path + "/") == Resolve(path)
  {
    assert DropTrailingSlashes(path + "/") == DropTrailingSlashes(path) by {
      assert (path + "/")[..|path|] == path;
    }
    forall i | 0 <= i < |Routes| ensures Matches(Routes[i].0, path + "/") == Matches(Routes[i].0, path) {
      assert (path + "/")[0] == path[0];
    }
    SameMatchesSameResolve(path + "/", path, 0);
  }

  /** Two paths that match the same routes resolve alike. */
  lemma {:induction false} SameMatchesSameResolve(p: string, q: string, k: nat)
    requires k <= |Routes|
    requires forall i :: 0 <= i < |Routes| ==> Matches(Routes[i].0, p) == Matches(Routes[i].0, q)
    ensures ResolveFrom(p, k) == ResolveFrom(q, k)
    decreases |Routes| - k
  {
    if k < |Routes| {
      SameMatchesSameResolve(p, q, k + 1);
    }
  }

  /** A path that does not start with `/` matches nothing and shows the not-found page. */
  lemma RelativePathNotFound(path: string)
    requires path == [] || path[0] != '/'
    ensures Resolve(path) == Fallback
  {
    ResolveSpec(path);
  }

  predicate IsAdminPage(p: Page) {
    p.AdminDashboardPage? || p.AdminWebsitesPage? || p.AdminStatusesPage? || p.AdminSettingsPage? || p.AdminAccountPage?
  }

  /** Exactly the admin pages are wrapped in the guard: the intake form, the login page and the
      not-found page are reached without it. */
  lemma AdminPagesGuarded(path: string)
    ensures Resolve(path).Protected? <==> IsAdminPage(Resolve(path).page)
  {
    var e := Resolve(path);
    ResolveSpec(path);
    if e != Fallback {
      var i :| 0 <= i < |Routes| && Matches(Routes[i].0, path) && e == Routes[i].1;
      TableGuardsAdminPages(i);
    }
  }

  lemma TableGuardsAdminPages(i: nat)
    requires i < |Routes|
    ensures Routes[i].1.Protected? <==> IsAdminPage(Routes[i].1.page)
  {
  }

  /** An admin page is shown only when loading has ended and the context holds an admin user. */
  lemma AdminPageNeedsAdmin(path: string, provided: Option<AuthContext>)
    requires Show(path, provided).ShowPage? && Resolve(path).Protected?
    ensures provided.Some? && !provided.value.loading && provided.value.user.Some? && provided.value.isAdmin
  {
  }
}
