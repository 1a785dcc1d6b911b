/** The session monitor of the reports view: a periodic check of the reports
    credential that warns once when at most 2 hours (and more than none) are left and
    closes the session, clearing the reports credential and the recorded answer ids and
    going to the login page, once 20 hours have passed. Timers and navigation are kept
    as state: the armed intervals by handle with their period, and the pages navigated
    to. */
module SessionMonitor {
  import opened Wrappers
  import opened Numerals
  import opened Storage
  import opened SessionClock
  import Reports

  const LOGIN_PATH := "/login"
  /** The warning shows when at most 2 hours are left. */
  const WARNING_MS: int := 2 * HOUR_MS
  /** `iniciarMonitoreo()` checks every 5 minutes unless told otherwise. */
  const DEFAULT_INTERVAL_MINUTES: int := 5

  /** A reports token and a timestamp are stored, both truthy. */
  predicate HasSession(local: map<string, string>) {
    Present(local, REPORT_TOKEN) && Present(local, REPORT_TIMESTAMP)
  }

  /** `veinteHoras - (now - saved)`, unclamped; NaN for an unreadable timestamp. */
  function TimeLeft(local: map<string, string>, now: int): Option<int>
    requires HasSession(local)
  {
    var saved := ParseInt(local[REPORT_TIMESTAMP]);
    if saved.Some? then Some(REPORT_LIFETIME_MS - (now - saved.value)) else None
  }

  /** Less than the warning time, but some, is left. */
  predicate NearExpiry(local: map<string, string>, now: int)
    requires HasSession(local)
  {
    var left := TimeLeft(local, now);
    left.Some? && 0 < left.value <= WARNING_MS
  }

  /** The warning window ends where expiry begins: a session near expiry is not expired. */
  lemma WarningBeforeExpiry(local: map<string, string>, now: int)
    requires HasSession(local)
    ensures NearExpiry(local, now) ==> !Reports.ReportExpired(local, now)
    ensures Reports.ReportExpired(local, now) ==> TimeLeft(local, now).Some? && TimeLeft(local, now).value <= 0
  {
  }

  /** The displayed time left says "Sesión expirada" exactly when the check would close
      the session; an unreadable timestamp is neither. */
  lemma DisplayAgreesWithCheck(local: map<string, string>, now: int)
    requires HasSession(local)
    ensures RemainingTime(local, now) == Some(0) <==> Reports.ReportExpired(local, now)
    ensures Format(RemainingTime(local, now)) == EXPIRED <==> Reports.ReportExpired(local, now)
  {
  }

  /** A closed session stays closed: after `CloseSession` there is nothing to check. */
  lemma ClosedSessionIsGone(local: map<string, string>)
    ensures !HasSession(Reports.WithoutReportCredential(local))
    ensures !Reports.HasReportCredential(Reports.WithoutReportCredential(local))
  {
  }

  class Monitor {
    /** `intervalId`: the handle of the armed interval; null is `None`, and a 0 handle is
        falsy too. */
    var intervalId: Option<int>
    var sessionActive: bool
    var notified: bool
    /** The intervals the browser runs: handle to period in milliseconds. */
    var timers: map<int, int>
    /** The paths `router.push` was called with, in order. */
    var navigations: seq<string>
    const store: BrowserStorage

    constructor (store: BrowserStorage)
      ensures this.store == store && intervalId.None? && sessionActive && !notified
      ensures timers == map[] && navigations == []
    {
      this.store := store;
      intervalId, sessionActive, notified := None, true, false;
      timers, navigations := map[], [];
    }

    /** `cerrarSesionCompleta` (and `cerrarSesionManual`, which only calls it): removes
        the reports credential and every recorded answer id, leaves the respondent
        credential alone, marks the session inactive and goes to the login page. */
    method CloseSession()
      modifies this`sessionActive, this`navigations, store
      ensures store.local == Reports.WithoutReportCredential(old(store.local))
      ensures store.session == WithoutAnswerRecords(old(store.session))
      ensures !sessionActive && navigations == old(navigations) + [LOGIN_PATH]
      ensures forall k :: k in {AUTH_TOKEN, AUTH_USER, AUTH_TIMESTAMP, GENERAL_DATA_ID} && k in old(store.local) ==>
                k in store.local && store.local[k] == old(store.local)[k]
    {
      store.local := store.local - {REPORT_TOKEN, REPORT_USER, REPORT_TIMESTAMP};
      store.ClearAnswerRecords();
      sessionActive := false;
      navigations := navigations + [LOGIN_PATH];
    }

    /** `verificarSesion`: without a token or a timestamp the session is inactive and
        nothing else changes; the warning is raised (never lowered) when 0 < left <= 2 h;
        at 20 hours the session is closed; otherwise it is active. */
    method Check(now: int) returns (active: bool)
      modifies this`sessionActive, this`notified, this`navigations, store
      ensures !HasSession(old(store.local)) ==>
                !active && !sessionActive && notified == old(notified) && navigations == old(navigations) &&
                store.local == old(store.local) && store.session == old(store.session)
      ensures HasSession(old(store.local)) ==>
                notified == (old(notified) || NearExpiry(old(store.local), now))
      ensures HasSession(old(store.local)) && Reports.ReportExpired(old(store.local), now) ==>
                !active && !sessionActive && navigations == old(navigations) + [LOGIN_PATH] &&
                store.local == Reports.WithoutReportCredential(old(store.local)) &&
                store.session == WithoutAnswerRecords(old(store.session))
      ensures HasSession(old(store.local)) && !Reports.ReportExpired(old(store.local), now) ==>
                active && sessionActive && navigations == old(navigations) &&
                store.local == old(store.local) && store.session == old(store.session)
    {
      var local := store.local;
      if !(Present(local, REPORT_TOKEN) && Present(local, REPORT_TIMESTAMP)) {
        sessionActive := false;
        return false;
      }
      var saved := ParseInt(local[REPORT_TIMESTAMP]);
      if saved.Some? {
        var elapsed := now - saved.value;
        var left := REPORT_LIFETIME_MS - elapsed;
        if left <= WARNING_MS && left > 0 && !notified {
          notified := true;
        }
        if elapsed >= REPORT_LIFETIME_MS {
          CloseSession();
          return false;
        }
      }
      sessionActive := true;
      return true;
    }

    /** `iniciarMonitoreo`: one check at once, then an interval of `minutes` minutes
        under the new handle, which becomes the current one. An interval armed before is
        left running. */
    method Start(minutes: int, handle: int, now: int)
      modifies this, store
      ensures intervalId == Some(handle)
      ensures timers == old(timers)[handle := minutes * MINUTE_MS]
      ensures forall h :: h in old(timers) && h != handle ==> h in timers && timers[h] == old(timers)[h]
      ensures !HasSession(old(store.local)) ==>
                !sessionActive && notified == old(notified) && navigations == old(navigations) &&
                store.local == old(store.local) && store.session == old(store.session)
      ensures HasSession(old(store.local)) ==>
                notified == (old(notified) || NearExpiry(old(store.local), now))
      ensures HasSession(old(store.local)) && Reports.ReportExpired(old(store.local), now) ==>
                !sessionActive && navigations == old(navigations) + [LOGIN_PATH] &&
                store.local == Reports.WithoutReportCredential(old(store.local)) &&
                store.session == WithoutAnswerRecords(old(store.session))
      ensures HasSession(old(store.local)) && !Reports.ReportExpired(old(store.local), now) ==>
                sessionActive && navigations == old(navigations) &&
                store.local == old(store.local) && store.session == old(store.session)
    {
      var _ := Check(now);
      timers := timers[handle := minutes * MINUTE_MS];
      intervalId := Some(handle);
    }

    /** The `onMounted` hook: `iniciarMonitoreo()` with its default period of 5 minutes. */
    method Mount(handle: int, now: int)
      modifies this, store
      ensures intervalId == Some(handle)
      ensures timers == old(timers)[handle := 300_000]
      ensures !HasSession(old(store.local)) ==>
                !sessionActive && notified == old(notified) && navigations == old(navigations) &&
                store.local == old(store.local) && store.session == old(store.session)
      ensures HasSession(old(store.local)) ==>
                notified == (old(notified) || NearExpiry(old(store.local), now))
      ensures HasSession(old(store.local)) && Reports.ReportExpired(old(store.local), now) ==>
                !sessionActive && navigations == old(navigations) + [LOGIN_PATH] &&
                store.local == Reports.WithoutReportCredential(old(store.local)) &&
                store.session == WithoutAnswerRecords(old(store.session))
      ensures HasSession(old(store.local)) && !Reports.ReportExpired(old(store.local), now) ==>
                sessionActive && navigations == old(navigations) &&
                store.local == old(store.local) && store.session == old(store.session)
    {
      Start(DEFAULT_INTERVAL_MINUTES, handle, now);
    }

    /** `detenerMonitoreo`: clears the current interval if a truthy handle is set and
        forgets it; afterwards no truthy handle is set, so a second stop does nothing. */
    method Stop()
      modifies this`intervalId, this`timers
      ensures old(intervalId).Some? && old(intervalId).value != 0 ==>
                intervalId.None? && timers == old(timers) - {old(intervalId).value}
      ensures !(old(intervalId).Some? && old(intervalId).value != 0) ==>
                intervalId == old(intervalId) && timers == old(timers)
      ensures !(intervalId.Some? && intervalId.value != 0)
    {
      if intervalId.Some? && intervalId.value != 0 {
        timers := timers - {intervalId.value};
        intervalId := None;
      }
    }
  }
}
