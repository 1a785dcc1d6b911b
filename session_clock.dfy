/** The reports credential's clock: how much of its 20-hour lifetime is left and how the
    client words it. The reports view and the session monitor compute both the same
    way. Times are integer milliseconds; `None` is NaN, which an unparseable stored
    timestamp produces. */
module SessionClock {
  import opened Wrappers
  import opened Numerals
  import opened Storage

  const HOUR_MS: int := 60 * 60 * 1000
  const MINUTE_MS: int := 60 * 1000
  /** The reports credential lives 20 hours. */
  const REPORT_LIFETIME_MS: int := 20 * HOUR_MS
  /** The respondent credential lives 2 hours. */
  const RESPONDENT_LIFETIME_MS: int := 2 * HOUR_MS

  /** `Math.max(0, lifetime - (now - saved))`, NaN when the saved time is NaN. */
  function Left(lifetime: int, saved: Option<int>, now: int): (r: Option<int>)
    ensures r.Some? <==> saved.Some?
    ensures r.Some? ==> 0 <= r.value && r.value >= lifetime - (now - saved.value)
    ensures r.Some? && now - saved.value >= lifetime ==> r.value == 0
    ensures r.Some? && now - saved.value < lifetime ==> r.value == lifetime - (now - saved.value)
  {
    if saved.None? then None
    else if lifetime - (now - saved.value) > 0 then Some(lifetime - (now - saved.value))
    else Some(0)
  }

  /** `obtenerTiempoRestante`: 0 without a stored timestamp, else what is left of the 20
      hours counted from it. */
  function RemainingTime(local: map<string, string>, now: int): (r: Option<int>)
    ensures !Present(local, REPORT_TIMESTAMP) ==> r == Some(0)
    ensures Present(local, REPORT_TIMESTAMP) ==> r == Left(REPORT_LIFETIME_MS, ParseInt(local[REPORT_TIMESTAMP]), now)
  {
    if !Present(local, REPORT_TIMESTAMP) then Some(0)
    else Left(REPORT_LIFETIME_MS, ParseInt(local[REPORT_TIMESTAMP]), now)
  }

  /** A timestamp that is not in the future leaves between 0 and 20 hours. */
  lemma RemainingTimeRange(local: map<string, string>, now: int)
    requires Present(local, REPORT_TIMESTAMP) ==>
               ParseInt(local[REPORT_TIMESTAMP]).Some? && ParseInt(local[REPORT_TIMESTAMP]).value <= now
    ensures RemainingTime(local, now).Some?
    ensures 0 <= RemainingTime(local, now).value <= REPORT_LIFETIME_MS
  {
  }

  /** Whole hours and the minutes past them: `Math.floor(r / 3600000)` and
      `Math.floor((r % 3600000) / 60000)`. */
  function Hours(r: nat): nat {
    r / HOUR_MS
  }

  function Minutes(r: nat): nat {
    (r % HOUR_MS) / MINUTE_MS
  }

  /** The hours and minutes never overstate the time left, and the minutes are below 60. */
  lemma HoursMinutesBounds(r: nat)
    ensures 0 <= Minutes(r) < 60
    ensures Hours(r) * HOUR_MS + Minutes(r) * MINUTE_MS <= r < Hours(r) * HOUR_MS + (Minutes(r) + 1) * MINUTE_MS
  {
    var h, rest := r / HOUR_MS, r % HOUR_MS;
    assert r == h * HOUR_MS + rest;
    var m, sec := rest / MINUTE_MS, rest % MINUTE_MS;
    assert rest == m * MINUTE_MS + sec;
  }

  const EXPIRED := "Sesión expirada"

  /** `obtenerTiempoRestanteFormateado`: "Sesión expirada" when nothing is left,
      "<H>h <M>m restantes" otherwise; NaN is not `<= 0` and prints as "NaN". */
  function Format(r: Option<int>): (s: string)
    ensures s == EXPIRED <==> r.Some? && r.value <= 0
    ensures r.Some? && r.value > 0 ==>
              s == IntToString(Hours(r.value)) + "h " + IntToString(Minutes(r.value)) + "m restantes"
    ensures r.None? ==> s == "NaNh NaNm restantes"
  {
    if r.Some? && r.value <= 0 then EXPIRED
    else
      var (h, m) := if r.Some? then (IntToString(Hours(r.value)), IntToString(Minutes(r.value))) else ("NaN", "NaN");
      var text := h + "h " + m + "m restantes";
      assert text[0] == h[0] != 'S' == EXPIRED[0];
      text
  }
}
