# Talent diagnostic survey client — a Dafny model

The client lets a respondent log in with an access code, answer a questionnaire of
categorised questions, and see a weighted score. Each answer is sent to the backend as
soon as it is given; a per-tab record of server ids decides whether to update an answer
(PUT) or create it (POST). An administrator logs in separately to see reports. The two
credentials live side by side in `localStorage`:

- the respondent's credential is valid for 2 hours;
- the administrator's reports credential is valid for 20 hours.

A session monitor checks the reports credential periodically. It warns once when at most
2 hours (and more than none) are left, and it closes the session when the time is up. A
navigation guard protects the reports page.

The model, one module per concern:

- `Wrappers`: an `Option` type.
- `Numerals`: the decimal text of integers, and JavaScript's `parseInt` and `Number` on that text.
- `JsValues`: answer values, truthiness, `Number(x)` (NaN is `None`), and `toString` equality.
- `Storage`: the storage keys, and a `BrowserStorage` object holding `localStorage` and
  `sessionStorage` as maps. Every component shares the one object, so one component's
  write is seen by the others.
- `Sums`: sums over sequences, and weighted-average bounds.
- `Scoring`: answer points, category averages and the weighted total, with
  loop-based methods proved against those functions.
- `MockScoring`: the mock backend's percentage scoring and its qualitative grades.
- `Reconciliation`: the PUT/POST decision, the id extraction and the loading of saved answers.
- `Questionnaire`: a class holding the questionnaire's state and the respondent credential.
- `SessionClock`: the remaining-time arithmetic and its text.
- `Reports`: a class holding the reports credential.
- `SessionMonitor`: a class holding the monitor's flags, its timers and its navigations.
- `Router`: the route table and the `beforeEach` guard.

The clock is a parameter `now` in milliseconds. Backend replies are parameters: a PUT
succeeds or throws; a POST throws or returns an optional response body. `setInterval`
handles are parameters too, and the armed intervals are a map from handle to period.
`router.push` appends to a list of navigations.

Three behaviours of the client deserve a note:

- Closing the reports session (`useSessionManager.js:50-56`) also removes the
  respondent's `respuesta_` records, so the two credential flows are not fully
  independent.
- The "expiring soon" flag belongs to the monitor instance and is never reset, not even
  by a new login.
- "En Parte" is worth 3 points in the questionnaire's label table
  (`useCuestionario.js:228`) and 2.5 in the mock scorer (`api.js:94`). Each module keeps
  its own value.

Some behaviours are modelled as written:

- A NaN stored timestamp makes the credential fail to load (`cargarDatosReportes`), yet
  a later check never expires it (`verificarSesionReportes`, `verificarSesion`).
- A second `iniciarMonitoreo` leaves the first interval running.
- `obtenerTiempoRestante` and its formatter appear twice in the source, identically, in
  `src/composables/useReportes.js:108-136` and `src/composables/useSessionManager.js:70-98`.
  `SessionClock` defines them once.

## Model

| member | source | states |
|---|---|---|
| JsValues.ToNumber | src/composables/useCuestionario.js:223 | `Number` of a number is itself, of `null` is 0, of `undefined` is NaN |
| JsValues.NumberOrZero | src/composables/useCuestionario.js:223 | `Number(x) \|\| 0` turns NaN into 0 and otherwise keeps the number |
| JsValues.SameText | src/composables/useCuestionario.js:347 | comparing `toString` texts throws exactly when either side is `undefined` or `null`; equal texts of two numbers, or of two strings, mean equal values |
| JsValues.SameTextIntegerAndNumeral | src/composables/useCuestionario.js:347 | an integer option value and the answer text of that integer match by text, either way round |
| Numerals.IntToString | src/composables/useCuestionario.js:72 | `toString` of an integer is non-empty and starts with a digit exactly when the integer is not negative |
| Numerals.ParseInt | src/composables/useCuestionario.js:37 | `parseInt` gives a number exactly when the text starts with a digit, or with a sign followed by a digit |
| Numerals.ParseIntToString | src/composables/useCuestionario.js:69-72 | a time or id stored with `toString` is read back by `parseInt` as the same integer |
| Storage.AnswerKey | src/composables/useCuestionario.js:289 | the record key of an answer always starts with `respuesta_` |
| Storage.WithoutAnswerRecords | src/composables/useCuestionario.js:91-97 | exactly the keys starting with `respuesta_` are removed, and every other entry keeps its value |
| Storage.BrowserStorage.ClearAnswerRecords | src/composables/useCuestionario.js:92-97 | the loop over the keys present on entry leaves sessionStorage without its answer records and with everything else unchanged |
| Storage.AnswerKeyInjective | src/composables/useCuestionario.js:289 | distinct (form instance, category, question) triples of integers never share a record key |
| Scoring.LabelPoints | src/composables/useCuestionario.js:226-231 | the label table gives 0, 1, 3 or 5 points, and points only to a text answer |
| Scoring.FirstMatch | src/composables/useCuestionario.js:220 | finds the first option strictly equal to the answer, or reports that none is |
| Scoring.QuestionPointsSource | src/composables/useCuestionario.js:219-224 | when an option matches, the points are those of the first matching option: its `points` if defined, else its `value`, through `Number(..) \|\| 0` |
| Scoring.QuestionPointsWithoutMatch | src/composables/useCuestionario.js:226-231 | with no matching option the label table decides |
| Scoring.QuestionPointsBounds | src/composables/useCuestionario.js:219-232 | an answer scores at most a bound that covers every option and the label table; with non-negative option points it scores at least 0 |
| Scoring.FilterMembers | src/composables/useCuestionario.js:9-15 | a category's group holds exactly the questions whose `categoryId` is that category |
| Scoring.Group | src/composables/useCuestionario.js:235 | an id that names no category gets the empty group |
| Scoring.EffectiveWeight | src/composables/useCuestionario.js:273 | `weight \|\| peso \|\| 25` is positive whenever the given weights are not negative, a zero weight falling through |
| Scoring.SumAnsweredPoints | src/composables/useCuestionario.js:240-245 | the loop's total equals the sum of the points of the truthy answers |
| Scoring.CategoryScore | src/composables/useCuestionario.js:234-249 | the score is the average of the category's questions, unanswered ones counting 0; an unknown or empty category scores 0 |
| Scoring.TotalScore | src/composables/useCuestionario.js:251-284 | the loop's result equals the weighted average Σ(avg·w/100)/Σ(w/100) over categories with questions, 0 when there are none |
| Scoring.PointsSumBounds | src/composables/useCuestionario.js:238-245 | a category's point sum is at most the question count times the largest point value, and not negative with non-negative options |
| Scoring.CategoryAverageBounds | src/composables/useCuestionario.js:247 | a category average never exceeds the largest point value and is not negative with non-negative options |
| Scoring.PointsSumAllAt | src/composables/useCuestionario.js:240-245 | when every question adds the same points, the sum is the count times those points |
| Scoring.CategoryAverageAllAt | src/composables/useCuestionario.js:247 | a category whose questions are all answered with the same points averages exactly those points |
| Scoring.WeightTotalWithoutQuestions | src/composables/useCuestionario.js:259 | categories without questions add no weight |
| Scoring.TotalAverageWithoutQuestions | src/composables/useCuestionario.js:280 | the total is 0 when no category has questions |
| Scoring.WeightTotalPositive | src/composables/useCuestionario.js:273-276 | with non-negative weights and one category with questions, the weight total is positive |
| Scoring.TotalAverageBounds | src/composables/useCuestionario.js:251-284 | the total lies between the smallest and the largest average of the categories with questions |
| Scoring.TotalAverageOrderIrrelevant | src/composables/useCuestionario.js:257-278 | listing the categories in another order gives the same total |
| Scoring.HalfAnsweredScenario | src/composables/useCuestionario.js:251-284 | two categories of weight 50, one fully answered "Si" and one not at all, average 5 and 0 and total 2.5 |
| MockScoring.AnswerWeight | src/services/api.js:92-96 | only "Si", "En Parte" and "No" have a weight, between 1 and 5, and only "Si" has the top weight 5 |
| MockScoring.Add | src/services/api.js:126 | a sum is a number exactly when both operands are |
| MockScoring.Valoracion | src/services/api.js:158-164 | each grade holds exactly on its threshold band (≥90, ≥75, ≥60, ≥40, else); NaN gets the lowest |
| MockScoring.LabelsDistinct | src/services/api.js:158-164 | each grade is reported under its own text |
| MockScoring.ValoracionMonotone | src/services/api.js:158-164 | a higher percentage never gets a lower grade |
| MockScoring.ResultOf | src/services/api.js:122-137 | a category result carries the category's id and weight, and the grade of its own percentage |
| MockScoring.Results | src/services/api.js:122-138 | one result per category, in category order |
| MockScoring.Submit | src/services/api.js:117-155 | the submission holds a result for each of the four categories and grades its global score |
| MockScoring.WeightSumBounds | src/services/api.js:126 | the answer sum is a number exactly when every answer is a known label, and then lies between the count and 5 times the count |
| MockScoring.WeightSumAllTop | src/services/api.js:126-127 | answering "Si" throughout reaches the maximum score |
| MockScoring.PercentageOfTop | src/services/api.js:127-128 | the maximum score is 100 percent |
| MockScoring.PercentageBounds | src/services/api.js:127-128 | a fully answered category lies between 20 and 100 percent |
| MockScoring.AllTopScoresHundred | src/services/api.js:122-137 | a category answered "Si" throughout scores 100 percent and "Excelente" |
| MockScoring.CategoryPercentageBounds | src/services/api.js:122-137 | a category's percentage is a number exactly when all its answers are known labels, and then lies in [20, 100] |
| MockScoring.GlobalScoreSum | src/services/api.js:141-143 | the global score is NaN if any percentage is, and otherwise the unnormalised sum of percentage·weight/100 |
| MockScoring.GlobalScoreBounds | src/services/api.js:141-143 | with non-negative weights summing to 100, the global score lies within the percentages' bounds |
| MockScoring.MockWeightsTotal | src/services/api.js:2-27 | the four mock weights sum to 100 |
| MockScoring.SubmitAllAnswered | src/services/api.js:117-155 | with every mock question answered with a known label, the global score is a number in [20, 100] |
| MockScoring.MockCategoryAnswered | src/services/api.js:29-90 | every mock category has questions, and its answers are the answers to its own questions |
| Reconciliation.KeyOf | src/composables/useCuestionario.js:289 | the key of an answer is an answer-record key |
| Reconciliation.ExtractId | src/composables/useCuestionario.js:311-318 | an extracted id is never empty text |
| Reconciliation.FirstTruthy | src/composables/useCuestionario.js:313 | gives a truthy candidate exactly when one exists |
| Reconciliation.ExtractIdPriority | src/composables/useCuestionario.js:311-318 | the id is the first truthy field among id, ID, answer_id, answerId, data.id, data.ID, data.answer_id, and none when all are falsy |
| Reconciliation.Submit | src/composables/useCuestionario.js:287-327 | only the answer's own key can change, a recorded key stays recorded, and a changed record is never empty |
| Reconciliation.RecordedAnswerUpdates | src/composables/useCuestionario.js:292-304 | a recorded answer is first PUT with the recorded id, and is POSTed only after the PUT throws; a successful PUT keeps the record, and after the fallback POST only a truthy top-level `id` of the response replaces it |
| Reconciliation.UnrecordedAnswerCreates | src/composables/useCuestionario.js:305-326 | an unrecorded answer is POSTed once without an id, and the extracted id, if any, is recorded |
| Reconciliation.ResubmissionUpdates | src/composables/useCuestionario.js:287-327 | after a creation that recorded an integer id, resubmitting the same answer PUTs with that id, and does not POST while the PUT succeeds |
| Reconciliation.SubmitKeepsOtherRecords | src/composables/useCuestionario.js:289-302 | submitting one answer never changes the record of another question, category or form instance |
| Reconciliation.SavedKey | src/composables/useCuestionario.js:155 | the key of a saved answer is an answer-record key |
| Reconciliation.LoadAllEffect | src/composables/useCuestionario.js:146-163 | loading saved answers keeps every earlier answer, changes only questions that a usable saved answer mentions, and in sessionStorage adds or changes only answer records |
| Reconciliation.LoadAllTakesLast | src/composables/useCuestionario.js:149-153 | every question a usable saved answer mentions ends with the value of the last usable saved answer to it |
| Reconciliation.LoadOneRecord | src/composables/useCuestionario.js:150-158 | one saved answer sets its own record to its id when it is usable with a truthy id, and leaves every other record as it was |
| Reconciliation.LoadAllRecordsLast | src/composables/useCuestionario.js:149-158 | every record key ends with the id of the last usable saved answer that has a truthy id and that key |
| Reconciliation.LoadAllKeepsUnnamed | src/composables/useCuestionario.js:149-158 | a record that no usable saved answer with a truthy id names keeps its value |
| Reconciliation.SavedKeyQuestion | src/composables/useCuestionario.js:155 | saved answers that share a record key answer the same question |
| Reconciliation.LoadAllRecordsLastId | src/composables/useCuestionario.js:149-158 | the last usable saved answer to a question, when its id is truthy, leaves that id in its record |
| Reconciliation.LoadedAnswerIsRecorded | src/composables/useCuestionario.js:150-158 | a loaded answer with an id is recorded under the key that submitting the same answer looks up |
| Questionnaire.WithoutCredential | src/composables/useCuestionario.js:86-89 | exactly the respondent keys and the form instance are removed from localStorage |
| Questionnaire.TextSearch | src/composables/useCuestionario.js:347 | `find` by text stops at the first option equal as text, every earlier one comparing unequal; it finds none only when every option compares unequal; it throws at the first option whose `toString` throws, every earlier one comparing unequal |
| Questionnaire.FindQuestion | src/composables/useCuestionario.js:336 | finds the first question with the id, or shows that no question has it |
| Questionnaire.AnswerNumber | src/composables/useCuestionario.js:343-371 | the number sent is `Number` of the value of the first option strictly equal to the answer; without one, of the first option equal as text; with neither, nothing is sent |
| Questionnaire.AutoData | src/composables/useCuestionario.js:330-379 | data is sent exactly when the form instance is truthy, the question is known and the answer yields a number; it carries that instance, that question, the category of the first question with that id, and that number; a strictly matching option with a numeric value always sends |
| Questionnaire.Questionnaire.constructor | src/composables/useCuestionario.js:6-24 | a new questionnaire has no data and no credential |
| Questionnaire.Questionnaire.Logout | src/composables/useCuestionario.js:79-98 | clears the credential and the form instance in memory, removes exactly the four respondent keys and every answer record, and keeps the questionnaire data |
| Questionnaire.Questionnaire.Load | src/composables/useCuestionario.js:27-55 | restores a complete credential younger than 2 hours (with a stored form instance), logs out on an expired or unreadable one, and changes nothing when a part is missing |
| Questionnaire.Questionnaire.Authenticate | src/composables/useCuestionario.js:58-76 | takes and stores a credential only when a token and a user are given, and then it loads as valid for 2 hours; otherwise nothing changes |
| Questionnaire.Questionnaire.SetGeneralDataId | src/composables/useCuestionario.js:101-109 | a truthy id is stored and reads back as itself; a falsy one removes the stored id |
| Questionnaire.Questionnaire.LoadSavedAnswers | src/composables/useCuestionario.js:140-172 | an array response is applied in order, as the loading function specifies; a failed or non-array response changes nothing and reports failure |
| Questionnaire.Questionnaire.SubmitAnswer | src/composables/useCuestionario.js:287-327 | the requests issued and the new sessionStorage are those the reconciliation function specifies |
| Questionnaire.Questionnaire.SaveAnswer | src/composables/useCuestionario.js:426-433 | the answer is always written, whatever the submission does; a submission happens only with a form instance set and then follows the reconciliation |
| Questionnaire.AnswerKeepsComplete | src/composables/useCuestionario.js:439-442 | a truthy answer keeps a complete form complete |
| Questionnaire.FalsyAnswerIncompletes | src/composables/useCuestionario.js:439-442 | a falsy answer (0, empty text, null) to any question makes the form incomplete |
| Questionnaire.CompletingTheLastQuestion | src/composables/useCuestionario.js:439-442 | answering the last open question truthily completes the form |
| SessionClock.Left | src/composables/useReportes.js:115-121 | the time left is clamped at 0, is 0 once the lifetime has passed and the exact difference before, and NaN for an unreadable timestamp |
| SessionClock.RemainingTime | src/composables/useReportes.js:108-122 | 0 without a stored timestamp, else what is left of 20 hours from it |
| SessionClock.RemainingTimeRange | src/composables/useReportes.js:108-122 | with a readable timestamp that is not in the future, the time left lies in [0, 20 h] |
| SessionClock.HoursMinutesBounds | src/composables/useReportes.js:132-133 | the minutes are below 60, and the hours and minutes shown round the time left down to the minute |
| SessionClock.Format | src/composables/useReportes.js:125-136 | the text is "Sesión expirada" exactly when the time left is a number that is not positive; a positive time left reads "<H>h <M>m restantes" with the whole hours and the whole minutes past them, and NaN reads "NaNh NaNm restantes" |
| Reports.ReportUserOf | src/composables/useReportes.js:48 | the user falls back from adminUser to user to usuario to the placeholder user |
| Reports.NaNTimestamp | src/composables/useReportes.js:21 | an unreadable timestamp is neither fresh on load nor expired on check |
| Reports.WithoutReportCredential | src/composables/useReportes.js:78-80 | exactly the three reports keys are removed |
| Reports.Info | src/composables/useReportes.js:139-146 | no info without a user; otherwise the id and email are kept, the name falls back to nombre, and the role falls back to rol and then 'Admin', so it is always truthy |
| Reports.ReportSession.constructor | src/composables/useReportes.js:5-7 | creating the reports state loads a fresh stored credential, clears an expired one, and leaves the storage alone without one |
| Reports.ReportSession.Logout | src/composables/useReportes.js:72-83 | clears the reports state and removes only the three reports keys |
| Reports.ReportSession.Load | src/composables/useReportes.js:10-33 | restores a complete credential younger than 20 hours, logs out on an expired or unreadable one, and changes nothing when a part is missing |
| Reports.ReportSession.Authenticate | src/composables/useReportes.js:36-69 | succeeds exactly when a token is given; then stores all three keys with the current time, and the credential loads as valid and never checks as expired for 20 hours |
| Reports.ReportSession.Verify | src/composables/useReportes.js:86-105 | false and no change without a token or timestamp; false with a logout once 20 hours have passed; true otherwise |
| SessionMonitor.WarningBeforeExpiry | src/composables/useSessionManager.js:27-37 | a session in the warning window is not expired, and an expired one has no time left |
| SessionMonitor.DisplayAgreesWithCheck | src/composables/useSessionManager.js:70-98 | the display shows "Sesión expirada" exactly when the check would close the session |
| SessionMonitor.ClosedSessionIsGone | src/composables/useSessionManager.js:46-48 | after the reports keys are removed, neither the monitor nor the reports view finds a session |
| SessionMonitor.Monitor.constructor | src/composables/useSessionManager.js:6-8 | a new monitor is active, has not warned and has no interval |
| SessionMonitor.Monitor.CloseSession | src/composables/useSessionManager.js:44-67 | removes the reports keys and every answer record, keeps the respondent keys, deactivates and navigates to /login |
| SessionMonitor.Monitor.Check | src/composables/useSessionManager.js:11-41 | without a session: inactive and nothing cleared; the warning is raised only with 0 < left ≤ 2 h and never lowered; expired: closed and false; otherwise active and true |
| SessionMonitor.Monitor.Start | src/composables/useSessionManager.js:101-110 | checks once, with the check's whole effect on the flags, the storage and the navigations, then arms an interval of minutes·60000 ms under the new handle and makes it current, leaving other intervals armed |
| SessionMonitor.Monitor.Mount | src/composables/useSessionManager.js:121-123 | mounting starts the monitor with the default period of 5 minutes (300000 ms), with the same check effect |
| SessionMonitor.Monitor.Stop | src/composables/useSessionManager.js:113-128 | clears only a truthy current handle and forgets it; afterwards no truthy handle is set, so stopping again does nothing |
| Router.Normalize | src/router/index.js:50-53 | the router compares paths without letter case and without one trailing slash, as a router created without `sensitive` or `strict` does |
| Router.NormalizeKeeps | src/router/index.js:50-53 | a lower-case path without a trailing slash is compared as written |
| Router.RecordPathsNormal | src/router/index.js:9-48 | the record paths are compared as written |
| Router.MatchTable | src/router/index.js:9-53 | each of the four fixed paths, in any letter case and with or without one trailing slash, matches its own route, and any other path the catch-all |
| Router.Resolve | src/router/index.js:9-48 | after following a redirect, every path lands on a route that does not redirect |
| Router.Decide | src/router/index.js:65-77 | the guard sends to Login with the requested full path exactly when the route needs the credential and it is missing, to Reportes exactly when an authenticated visitor asks for a hidden route, and proceeds otherwise |
| Router.Title | src/router/index.js:63 | the page always gets a non-empty title, the route's own when it has one |
| Router.RouteTable | src/router/index.js:9-53 | only /reportes (in any case, with or without a trailing slash) needs the credential, only /login hides from authenticated visitors, and / and unknown paths show the questionnaire |
| Router.ReportsSpellings | src/router/index.js:34-53 | `/Reportes` and `/reportes/` are compared as `/reportes` |
| Router.ReportsPathVariants | src/router/index.js:34-53 | `/Reportes` and `/reportes/` need the credential too, while `/reportes//` is an unknown path |
| Router.GuardProtects | src/router/index.js:56-78 | an unauthenticated visitor never proceeds to /reportes, and an authenticated one never proceeds to /login |
| Router.GuardRedirectsSettle | src/router/index.js:66-74 | the page the guard redirects to lets the same visitor in, so redirects do not loop |
| Router.BeforeEach | src/router/index.js:56-78 | an expired respondent credential is cleared first; the decision uses whether a valid one was stored; the title is the route's |

## Left out

- Vue reactivity (`ref`, `computed`), rendering, the app bootstrap and console logging: none of it decides behaviour.
- The fetches (`fetchCategorias`, `fetchPreguntas`, `cargarDatosGenerales`, the mock service's delays): the questionnaire data is taken as given sequences, and backend replies are parameters. The ordering of the data by `order` is not modelled.
- The import of `categoriesApi`, `questionsApi` and `optionsApi`, which the service module does not export. It is not behaviour.
- The write to the computed `preguntasPorCategoria` in `fetchPreguntas`, which has no effect. The grouping is the filter that defines it.
- The duplicate copy of the reconciliation inside `enviarRespuestaAutomatica` is modelled once, by `Reconciliation.Submit`. With integer ids both copies build the same key.
- The concurrency of the fire-and-forget submissions, and real timer callbacks: each submission and each check is one atomic step.
- `toFixed(2)` and floating point: scores are exact reals. `Scoring.CategoryScore` and `Scoring.TotalScore` return the real value, not the two-decimal text.
- JSON parsing and writing of user records: a stored user is opaque text, and `Reports.Info` works on an already parsed record. A `JSON.parse` that throws on a corrupt stored user is not modelled.
- Questionnaire.Questionnaire.Load: `usuario` holds the stored text rather than the parsed object, so a corrupt stored user does not make the load throw.
- Reports.ReportSession.Load: `reportUser` holds the stored text rather than the parsed object, so a corrupt stored user does not make the load throw.
- Numerals.ParseInt: leading whitespace, `0x` prefixes, and digits beyond 2^53 are not modelled; the text read is always one this client wrote.
- JsValues.ToNumber: `Number` of text covers the empty text and plain decimal numerals; whitespace, exponents, hexadecimal and `Infinity` are not modelled.
- Answers are keyed by integer question id. JavaScript object keys are strings, and `question_id` in a saved answer is taken to be an integer.
- Scoring.EffectiveWeight: weights are numbers or absent; a non-numeric weight text is not modelled. The label table ignores inherited object properties such as `toString`.
- `cargarRespuestasGuardadas` catches a rejected fetch; the model reads it as a missing response, like a non-array one.
- The unmount hook of the session monitor only calls `detenerMonitoreo`, which `SessionMonitor.Monitor.Stop` models.
- Router.Normalize: only ASCII letters are folded to lower case, percent-encoded characters are not decoded, and query and hash parts are taken to be split off already.
- Reconciliation.Submit: a POST that throws in the fallback after a failed PUT surfaces as an unhandled rejection in the source. The model keeps the storage unchanged and lists both requests.
