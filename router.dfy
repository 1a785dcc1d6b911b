/** The client's routes and its navigation guard. `/` and every unknown path lead to the
    questionnaire; the reports page needs the respondent credential; the login page sends
    an authenticated visitor on to the reports. Before deciding, the guard loads the
    stored credential, which discards one that has expired. */
module Router {
  import opened Wrappers
  import opened Storage
  import opened Questionnaire

  datatype Meta = Meta(title: Option<string>, requiresAuth: bool, hideForAuthenticated: bool)

  /** A route record; `path` is `None` for the catch-all `/:pathMatch(.*)*`. */
  datatype Route = Route(path: Option<string>, name: string, redirect: Option<string>, meta: Meta)

  const NO_META := Meta(None, false, false)
  const DEFAULT_TITLE := "Diagnóstico de Talento"
  const QUESTIONNAIRE_PATH := "/cuestionario"
  const LOGIN_PATH := "/login"
  const REPORTS_PATH := "/reportes"

  const HOME := Route(Some("/"), "Home", Some(QUESTIONNAIRE_PATH), NO_META)
  const QUESTIONNAIRE := Route(Some(QUESTIONNAIRE_PATH), "Cuestionario", None,
                               Meta(Some("Diagnóstico de Talento - Cuestionario"), false, false))
  const LOGIN := Route(Some(LOGIN_PATH), "Login", None, Meta(Some("Iniciar Sesión - Reportes"), false, true))
  const REPORTS := Route(Some(REPORTS_PATH), "Reportes", None, Meta(Some("Reportes - Diagnóstico de Talento"), true, false))
  const NOT_FOUND := Route(None, "NotFound", Some(QUESTIONNAIRE_PATH), NO_META)

  /** The route table, in declaration order. */
  const ROUTES := [HOME, QUESTIONNAIRE, LOGIN, REPORTS, NOT_FOUND]

  /** An ASCII letter in lower case; any other character as is. */
  function LowerChar(c: char): char {
    if 'A' <= c <= 'Z' then (c as int + 32) as char else c
  }

  /** The form in which the router compares a path with its records. It is created
      without `sensitive` or `strict`, so letter case and one trailing slash are ignored. */
  function Normalize(path: string): (n: string)
    ensures |path| > 1 && path[|path| - 1] == '/' ==> |n| == |path| - 1
    ensures !(|path| > 1 && path[|path| - 1] == '/') ==> |n| == |path|
    ensures forall i :: 0 <= i < |n| ==> n[i] == LowerChar(path[i])
  {
    var l := seq(|path|, i requires 0 <= i < |path| => LowerChar(path[i]));
    if |l| > 1 && l[|l| - 1] == '/' then l[..|l| - 1] else l
  }

  /** A path already in lower case and without a trailing slash is its own normal form. */
  lemma NormalizeKeeps(path: string)
    requires forall i :: 0 <= i < |path| ==> !('A' <= path[i] <= 'Z')
    requires |path| <= 1 || path[|path| - 1] != '/'
    ensures Normalize(path) == path
  {
  }

  /** The record paths are in normal form. */
  lemma RecordPathsNormal()
    ensures Normalize("/") == "/" && Normalize(QUESTIONNAIRE_PATH) == QUESTIONNAIRE_PATH
    ensures Normalize(LOGIN_PATH) == LOGIN_PATH && Normalize(REPORTS_PATH) == REPORTS_PATH
  {
    NormalizeKeeps("/");
    NormalizeKeeps(QUESTIONNAIRE_PATH);
    NormalizeKeeps(LOGIN_PATH);
    NormalizeKeeps(REPORTS_PATH);
  }

  /** The first record of `routes` whose path is `path`, the catch-all matching any. */
  function MatchIn(routes: seq<Route>, path: string): (r: Option<Route>)
    ensures r.Some? ==> r.value in routes && (r.value.path.None? || r.value.path.value == path)
    ensures r.None? ==> forall i :: 0 <= i < |routes| ==> routes[i].path.Some? && routes[i].path.value != path
  {
    if routes == [] then None
    else if routes[0].path.None? || routes[0].path.value == path then Some(routes[0])
    else MatchIn(routes[1..], path)
  }

  /** The record a path lands on before redirects; the catch-all guarantees one. */
  function Match(path: string): (r: Route)
    ensures r in ROUTES
    ensures r.path.Some? ==> r.path.value == Normalize(path)
  {
    var m := MatchIn(ROUTES, Normalize(path));
    if m.Some? then m.value else assert NOT_FOUND.path.None?; NOT_FOUND
  }

  /** Which record each path matches: the four fixed paths, in any letter case and with
      or without a trailing slash, their own, any other the catch-all. */
  lemma {:induction false} MatchTable(path: string)
    ensures Normalize(path) == "/" ==> Match(path) == HOME
    ensures Normalize(path) == QUESTIONNAIRE_PATH ==> Match(path) == QUESTIONNAIRE
    ensures Normalize(path) == LOGIN_PATH ==> Match(path) == LOGIN
    ensures Normalize(path) == REPORTS_PATH ==> Match(path) == REPORTS
    ensures Normalize(path) !in {"/", QUESTIONNAIRE_PATH, LOGIN_PATH, REPORTS_PATH} ==> Match(path) == NOT_FOUND
  {
    var rs, n := ROUTES, Normalize(path);
    assert rs[1..] == [QUESTIONNAIRE, LOGIN, REPORTS, NOT_FOUND];
    assert rs[1..][1..] == [LOGIN, REPORTS, NOT_FOUND];
    assert rs[1..][1..][1..] == [REPORTS, NOT_FOUND];
    assert rs[1..][1..][1..][1..] == [NOT_FOUND];
    assert MatchIn([NOT_FOUND], n) == Some(NOT_FOUND);
    if n != "/" {
      assert MatchIn(rs, n) == MatchIn(rs[1..], n);
      if n != QUESTIONNAIRE_PATH {
        assert MatchIn(rs[1..], n) == MatchIn(rs[1..][1..], n);
        if n != LOGIN_PATH {
          assert MatchIn(rs[1..][1..], n) == MatchIn(rs[1..][1..][1..], n);
        }
      }
    }
  }

  /** The record a path lands on after following its redirect. */
  function Resolve(path: string): (r: Route)
    ensures r in ROUTES && r.redirect.None?
  {
    MatchTable(path);
    MatchTable(QUESTIONNAIRE_PATH);
    RecordPathsNormal();
    var m := Match(path);
    if m.redirect.Some? then Match(m.redirect.value) else m
  }

  /** What the guard tells the router. */
  datatype Decision = Proceed | ToLogin(redirect: string) | ToReports

  /** The guard's decision for a route's metadata, whether the visitor is authenticated,
      and the full path asked for. */
  function Decide(meta: Meta, authenticated: bool, fullPath: string): (d: Decision)
    ensures d.ToLogin? <==> meta.requiresAuth && !authenticated
    ensures d.ToLogin? ==> d.redirect == fullPath
    ensures d.ToReports? <==> authenticated && meta.hideForAuthenticated
    ensures d.Proceed? <==> (!meta.requiresAuth || authenticated) && !(authenticated && meta.hideForAuthenticated)
  {
    if meta.requiresAuth && !authenticated then ToLogin(fullPath)
    else if meta.hideForAuthenticated && authenticated then ToReports
    else Proceed
  }

  /** `to.meta.title || 'Diagnóstico de Talento'`: the page always gets a title. */
  function Title(meta: Meta): (t: string)
    ensures t != ""
    ensures meta.title.Some? && meta.title.value != "" ==> t == meta.title.value
  {
    if meta.title.Some? && meta.title.value != "" then meta.title.value else DEFAULT_TITLE
  }

  /** Only the reports page needs the credential, only the login page is hidden from an
      authenticated visitor, and `/` and unknown paths show the questionnaire. */
  lemma RouteTable(path: string)
    ensures Resolve(path).meta.requiresAuth <==> Normalize(path) == REPORTS_PATH
    ensures Resolve(path).meta.hideForAuthenticated <==> Normalize(path) == LOGIN_PATH
    ensures Normalize(path) !in {QUESTIONNAIRE_PATH, LOGIN_PATH, REPORTS_PATH} ==> Resolve(path) == QUESTIONNAIRE
    ensures Normalize(path) == "/" ==> Resolve(path) == QUESTIONNAIRE
  {
    MatchTable(path);
    MatchTable(QUESTIONNAIRE_PATH);
    RecordPathsNormal();
  }

  /** Two spellings of the reports path and their normal form. */
  lemma ReportsSpellings()
    ensures Normalize("/Reportes") == REPORTS_PATH && Normalize("/reportes/") == REPORTS_PATH
  {
    var a, b := Normalize("/Reportes"), Normalize("/reportes/");
    assert a[1] == LowerChar('R') == 'r';
    assert forall i :: 0 <= i < 9 ==> a[i] == REPORTS_PATH[i];
    assert forall i :: 0 <= i < 9 ==> b[i] == REPORTS_PATH[i];
  }

  /** The reports page needs the credential however its path is written: `/Reportes`
      and `/reportes/` land on it as `/reportes` does, while `/reportes//` is an unknown
      path. */
  lemma ReportsPathVariants()
    ensures Resolve("/Reportes").meta.requiresAuth
    ensures Resolve("/reportes/").meta.requiresAuth
    ensures !Resolve("/reportes//").meta.requiresAuth
  {
    ReportsSpellings();
    RouteTable("/Reportes");
    RouteTable("/reportes/");
    assert |Normalize("/reportes//")| == 10;
    RouteTable("/reportes//");
  }

  /** No unauthenticated navigation reaches a page that needs the credential, and no
      authenticated one reaches the login page. */
  lemma GuardProtects(path: string, authenticated: bool, fullPath: string)
    ensures Decide(Resolve(path).meta, authenticated, fullPath).Proceed? ==>
              authenticated || Normalize(path) != REPORTS_PATH
    ensures Decide(Resolve(path).meta, authenticated, fullPath).Proceed? ==>
              !authenticated || Normalize(path) != LOGIN_PATH
  {
    RouteTable(path);
  }

  /** The guard's redirects end at once: the login page lets an unauthenticated visitor
      in, and the reports page lets an authenticated one in. */
  lemma GuardRedirectsSettle(path: string, authenticated: bool, fullPath: string, next: string)
    ensures Decide(Resolve(path).meta, authenticated, fullPath).ToLogin? ==>
              Decide(Resolve(LOGIN_PATH).meta, authenticated, next).Proceed?
    ensures Decide(Resolve(path).meta, authenticated, fullPath).ToReports? ==>
              Decide(Resolve(REPORTS_PATH).meta, authenticated, next).Proceed?
  {
    RecordPathsNormal();
    MatchTable(LOGIN_PATH);
    MatchTable(REPORTS_PATH);
  }

  /** `router.beforeEach`: loads the stored respondent credential into a fresh
      questionnaire (clearing it first when it has expired), then titles the page and
      decides with the credential the load found valid. */
  method BeforeEach(store: BrowserStorage, path: string, fullPath: string, now: int)
    returns (title: string, d: Decision)
    modifies store
    ensures title == Title(Resolve(path).meta)
    ensures d == Decide(Resolve(path).meta, CredentialValid(old(store.local), now), fullPath)
    ensures HasCredential(old(store.local)) && !CredentialFresh(old(store.local), now) ==>
              store.local == WithoutCredential(old(store.local)) && store.session == WithoutAnswerRecords(old(store.session))
    ensures !(HasCredential(old(store.local)) && !CredentialFresh(old(store.local), now)) ==>
              store.local == old(store.local) && store.session == old(store.session)
  {
    var q := new Questionnaire(store);
    q.Load(now);
    var to := Resolve(path);
    title := Title(to.meta);
    d := Decide(to.meta, q.isAuthenticated, fullPath);
  }
}
