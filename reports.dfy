/** The reports side of the client: the administrator's credential, valid for 20
    hours, held in memory and in localStorage next to (and independent of) the
    respondent's. */
module Reports {
  import opened Wrappers
  import opened Numerals
  import opened JsValues
  import opened Storage
  import opened SessionClock

  /** What a reports login returns: the token and the user under any of three names, as
      JSON text; an empty token or `None` is falsy. */
  datatype ReportAuthData = ReportAuthData(token: string, adminUser: Option<string>, user: Option<string>,
                                           usuario: Option<string>)

  /** The user stored when the login response names none: `{id: 1, name: 'Usuario Test'}`. */
  const PLACEHOLDER_USER := "{\"id\":1,\"name\":\"Usuario Test\"}"

  /** `adminUser || user || usuario || {id: 1, name: 'Usuario Test'}`. */
  function ReportUserOf(auth: ReportAuthData): (u: string)
    ensures auth.adminUser.Some? ==> u == auth.adminUser.value
    ensures auth.adminUser.None? && auth.user.Some? ==> u == auth.user.value
    ensures auth.adminUser.None? && auth.user.None? && auth.usuario.Some? ==> u == auth.usuario.value
    ensures auth.adminUser.None? && auth.user.None? && auth.usuario.None? ==> u == PLACEHOLDER_USER
  {
    if auth.adminUser.Some? then auth.adminUser.value
    else if auth.user.Some? then auth.user.value
    else if auth.usuario.Some? then auth.usuario.value
    else PLACEHOLDER_USER
  }

  /** All three parts of the reports credential are stored and truthy. */
  predicate HasReportCredential(local: map<string, string>) {
    Present(local, REPORT_TOKEN) && Present(local, REPORT_USER) && Present(local, REPORT_TIMESTAMP)
  }

  /** The stored reports timestamp is less than 20 hours old; NaN never is. */
  predicate ReportFresh(local: map<string, string>, now: int)
    requires Present(local, REPORT_TIMESTAMP)
  {
    var saved := ParseInt(local[REPORT_TIMESTAMP]);
    saved.Some? && now - saved.value < REPORT_LIFETIME_MS
  }

  /** The stored reports timestamp is at least 20 hours old; NaN never is. */
  predicate ReportExpired(local: map<string, string>, now: int)
    requires Present(local, REPORT_TIMESTAMP)
  {
    var saved := ParseInt(local[REPORT_TIMESTAMP]);
    saved.Some? && now - saved.value >= REPORT_LIFETIME_MS
  }

  /** Loading and checking read a NaN timestamp differently: a load discards it, a
      check keeps it. */
  lemma NaNTimestamp(local: map<string, string>, now: int)
    requires Present(local, REPORT_TIMESTAMP) && ParseInt(local[REPORT_TIMESTAMP]).None?
    ensures !ReportFresh(local, now) && !ReportExpired(local, now)
  {
  }

  /** localStorage without the reports credential. */
  function WithoutReportCredential(local: map<string, string>): (r: map<string, string>)
    ensures forall k :: k in r <==> k in local && k !in {REPORT_TOKEN, REPORT_USER, REPORT_TIMESTAMP}
    ensures forall k :: k in r ==> r[k] == local[k]
  {
    local - {REPORT_TOKEN, REPORT_USER, REPORT_TIMESTAMP}
  }

  /** A user record as the reports view reads it. */
  datatype User = User(id: Value, name: Value, nombre: Value, email: Value, role: Value, rol: Value)
  datatype UserInfo = UserInfo(id: Value, name: Value, email: Value, role: Value)

  /** `reportUserInfo`: nothing without a user; otherwise its id and email, its `name`
      or else `nombre`, and its `role`, else `rol`, else 'Admin', so a role is always
      shown. */
  function Info(u: Option<User>): (r: Option<UserInfo>)
    ensures r.Some? <==> u.Some?
    ensures r.Some? ==> r.value.id == u.value.id && r.value.email == u.value.email
    ensures r.Some? ==> r.value.name == (if Truthy(u.value.name) then u.value.name else u.value.nombre)
    ensures r.Some? ==> Truthy(r.value.role)
    ensures r.Some? && Truthy(u.value.role) ==> r.value.role == u.value.role
    ensures r.Some? && !Truthy(u.value.role) && Truthy(u.value.rol) ==> r.value.role == u.value.rol
    ensures r.Some? && !Truthy(u.value.role) && !Truthy(u.value.rol) ==> r.value.role == Str("Admin")
  {
    if u.None? then None
    else
      var x := u.value;
      Some(UserInfo(x.id, if Truthy(x.name) then x.name else x.nombre, x.email,
                    if Truthy(x.role) then x.role else if Truthy(x.rol) then x.rol else Str("Admin")))
  }

  class ReportSession {
    var reportToken: Option<string>
    var reportUser: Option<string>
    var isReportAuthenticated: bool
    const store: BrowserStorage

    /** `useReportes()`: starts empty and loads the stored credential at once. */
    constructor (store: BrowserStorage, now: int)
      modifies store`local
      ensures this.store == store && store.session == old(store.session)
      ensures HasReportCredential(old(store.local)) && ReportFresh(old(store.local), now) ==>
                reportToken == Some(old(store.local)[REPORT_TOKEN]) && reportUser == Some(old(store.local)[REPORT_USER]) &&
                isReportAuthenticated && store.local == old(store.local)
      ensures !(HasReportCredential(old(store.local)) && ReportFresh(old(store.local), now)) ==>
                reportToken.None? && reportUser.None? && !isReportAuthenticated
      ensures HasReportCredential(old(store.local)) && !ReportFresh(old(store.local), now) ==>
                store.local == WithoutReportCredential(old(store.local))
      ensures !HasReportCredential(old(store.local)) ==> store.local == old(store.local)
    {
      this.store := store;
      reportToken, reportUser, isReportAuthenticated := None, None, false;
      new;
      Load(now);
    }

    /** `cerrarSesionReportes`: forgets the reports credential in memory and removes
        exactly its three keys. */
    method Logout()
      modifies this, store`local
      ensures reportToken.None? && reportUser.None? && !isReportAuthenticated
      ensures store.local == WithoutReportCredential(old(store.local))
    {
      reportToken, reportUser, isReportAuthenticated := None, None, false;
      store.local := store.local - {REPORT_TOKEN, REPORT_USER, REPORT_TIMESTAMP};
    }

    /** `cargarDatosReportes`: restores a complete credential younger than 20 hours,
        clears a complete one that is older (or whose time is unreadable), and does
        nothing when a part is missing. */
    method Load(now: int)
      modifies this, store`local
      ensures HasReportCredential(old(store.local)) && ReportFresh(old(store.local), now) ==>
                reportToken == Some(old(store.local)[REPORT_TOKEN]) && reportUser == Some(old(store.local)[REPORT_USER]) &&
                isReportAuthenticated && store.local == old(store.local)
      ensures HasReportCredential(old(store.local)) && !ReportFresh(old(store.local), now) ==>
                reportToken.None? && reportUser.None? && !isReportAuthenticated &&
                store.local == WithoutReportCredential(old(store.local))
      ensures !HasReportCredential(old(store.local)) ==>
                reportToken == old(reportToken) && reportUser == old(reportUser) &&
                isReportAuthenticated == old(isReportAuthenticated) && store.local == old(store.local)
    {
      var local := store.local;
      if Present(local, REPORT_TOKEN) && Present(local, REPORT_USER) && Present(local, REPORT_TIMESTAMP) {
        var saved := ParseInt(local[REPORT_TIMESTAMP]);
        if saved.Some? && now - saved.value < REPORT_LIFETIME_MS {
          reportToken, reportUser, isReportAuthenticated := Some(local[REPORT_TOKEN]), Some(local[REPORT_USER]), true;
        } else {
          Logout();
        }
      }
    }

    /** `autenticarReportes`: succeeds exactly when a token came back; then the
        credential is taken, with a user in any case, and stored with the current time,
        so that it loads and checks as valid for the next 20 hours. */
    method Authenticate(auth: ReportAuthData, now: int) returns (ok: bool)
      modifies this, store`local
      ensures ok <==> auth.token != ""
      ensures ok ==> reportToken == Some(auth.token) && reportUser == Some(ReportUserOf(auth)) && isReportAuthenticated &&
                     store.local == old(store.local)[REPORT_TOKEN := auth.token][REPORT_USER := ReportUserOf(auth)]
                                                    [REPORT_TIMESTAMP := IntToString(now)]
      ensures !ok ==> reportToken == old(reportToken) && reportUser == old(reportUser) &&
                      isReportAuthenticated == old(isReportAuthenticated) && store.local == old(store.local)
      ensures ok && ReportUserOf(auth) != "" ==>
                forall later :: now <= later < now + REPORT_LIFETIME_MS ==>
                  HasReportCredential(store.local) && ReportFresh(store.local, later) && !ReportExpired(store.local, later)
    {
      if auth.token == "" {
        return false;
      }
      var user := ReportUserOf(auth);
      reportToken, reportUser, isReportAuthenticated := Some(auth.token), Some(user), true;
      store.local := store.local[REPORT_TOKEN := auth.token][REPORT_USER := user][REPORT_TIMESTAMP := IntToString(now)];
      ParseIntToString(now);
      return true;
    }

    /** `verificarSesionReportes`: false, changing nothing, without a truthy token in
        memory or a stored timestamp; false after logging out once 20 hours have
        passed; true otherwise, an unreadable timestamp included. */
    method Verify(now: int) returns (valid: bool)
      modifies this, store`local
      ensures !(old(reportToken).Some? && old(reportToken).value != "" && Present(old(store.local), REPORT_TIMESTAMP)) ==>
                !valid && reportToken == old(reportToken) && reportUser == old(reportUser) &&
                isReportAuthenticated == old(isReportAuthenticated) && store.local == old(store.local)
      ensures old(reportToken).Some? && old(reportToken).value != "" && Present(old(store.local), REPORT_TIMESTAMP) ==>
                (valid <==> !ReportExpired(old(store.local), now)) &&
                (valid ==> reportToken == old(reportToken) && reportUser == old(reportUser) &&
                           isReportAuthenticated == old(isReportAuthenticated) && store.local == old(store.local)) &&
                (!valid ==> reportToken.None? && reportUser.None? && !isReportAuthenticated &&
                            store.local == WithoutReportCredential(old(store.local)))
    {
      if !(reportToken.Some? && reportToken.value != "" && Present(store.local, REPORT_TIMESTAMP)) {
        return false;
      }
      var saved := ParseInt(store.local[REPORT_TIMESTAMP]);
      if saved.Some? && now - saved.value >= REPORT_LIFETIME_MS {
        Logout();
        return false;
      }
      return true;
    }
  }
}
