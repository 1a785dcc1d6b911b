/** The respondent's side of the client: the questionnaire object with its reference
    data, the answers given so far, the current form instance and the respondent
    credential, kept in memory and mirrored in the browser storage it shares with the
    rest of the client. */
module Questionnaire {
  import opened Wrappers
  import opened Numerals
  import opened JsValues
  import opened Storage
  import opened Scoring
  import opened Reconciliation
  import SessionClock

  /** What a login returns: the token and the user under its newer (`adminUser`) or
      older (`user`) name, as JSON text; an empty token or `None` is falsy. */
  datatype AuthData = AuthData(token: string, adminUser: Option<string>, user: Option<string>)

  /** `authData.adminUser || authData.user`. */
  function UserOf(auth: AuthData): Option<string> {
    if auth.adminUser.Some? then auth.adminUser else auth.user
  }

  /** All three parts of the respondent credential are stored and truthy. */
  predicate HasCredential(local: map<string, string>) {
    Present(local, AUTH_TOKEN) && Present(local, AUTH_USER) && Present(local, AUTH_TIMESTAMP)
  }

  /** The stored timestamp is less than 2 hours old; a NaN timestamp never is. */
  predicate CredentialFresh(local: map<string, string>, now: int)
    requires HasCredential(local)
  {
    var saved := ParseInt(local[AUTH_TIMESTAMP]);
    saved.Some? && now - saved.value < SessionClock.RESPONDENT_LIFETIME_MS
  }

  /** A respondent credential that a load restores. */
  predicate CredentialValid(local: map<string, string>, now: int) {
    HasCredential(local) && CredentialFresh(local, now)
  }

  /** localStorage without the respondent credential and the form instance. */
  function WithoutCredential(local: map<string, string>): (r: map<string, string>)
    ensures forall k :: k in r <==> k in local && k !in {AUTH_TOKEN, AUTH_USER, AUTH_TIMESTAMP, GENERAL_DATA_ID}
    ensures forall k :: k in r ==> r[k] == local[k]
  {
    local - {AUTH_TOKEN, AUTH_USER, AUTH_TIMESTAMP, GENERAL_DATA_ID}
  }

  /** `if (generalDataId.value)`: null, NaN and 0 are falsy. */
  predicate IdSet(id: Option<int>) {
    id.Some? && id.value != 0
  }

  /** How `find(opt => opt.value.toString() === respuesta.toString())` ends: at an
      index, without a match, or with `toString` throwing on `undefined` or `null`. */
  datatype Search = Found(index: nat) | NotFound | Throws

  /** Option `i` equals `answer` as text, and every option before it compares unequal
      without throwing: the one `find` stops at. */
  predicate FirstText(options: seq<AnswerOption>, answer: Value, i: int) {
    0 <= i < |options| && SameText(options[i].value, answer) == Some(true) &&
    forall j :: 0 <= j < i ==> SameText(options[j].value, answer) == Some(false)
  }

  /** Option `i` is the first one strictly equal to `answer`. */
  predicate FirstStrict(options: seq<AnswerOption>, answer: Value, i: int) {
    0 <= i < |options| && options[i].value == answer &&
    forall j :: 0 <= j < i ==> options[j].value != answer
  }

  function TextSearch(options: seq<AnswerOption>, answer: Value): (r: Search)
    ensures r.Found? ==> FirstText(options, answer, r.index)
    ensures r.NotFound? ==> forall i :: 0 <= i < |options| ==> SameText(options[i].value, answer) == Some(false)
    ensures r.Throws? ==> exists i :: 0 <= i < |options| && SameText(options[i].value, answer).None? &&
                                     forall j :: 0 <= j < i ==> SameText(options[j].value, answer) == Some(false)
  {
    if options == [] then NotFound
    else match SameText(options[0].value, answer)
      case None => Throws
      case Some(true) => Found(0)
      case Some(false) =>
        match TextSearch(options[1..], answer)
        case Found(k) => Found(k + 1)
        case NotFound => NotFound
        case Throws => Throws
  }

  /** The first question with the given id. */
  function FindQuestion(questions: seq<Question>, id: int): (r: Option<Question>)
    ensures r.Some? ==> r.value in questions && r.value.id == id
    ensures r.Some? ==> exists i :: 0 <= i < |questions| && questions[i] == r.value &&
                                   forall j :: 0 <= j < i ==> questions[j].id != id
    ensures r.None? ==> forall i :: 0 <= i < |questions| ==> questions[i].id != id
  {
    if questions == [] then None
    else if questions[0].id == id then Some(questions[0])
    else FindQuestion(questions[1..], id)
  }

  /** The number `enviarRespuestaAutomatica` sends for an answer: `Number` of the value
      of the option strictly equal to it, else of the first option equal as text;
      `None` when there is no such option, `toString` throws, or the number is NaN. */
  function AnswerNumber(options: seq<AnswerOption>, answer: Value): (r: Option<real>)
    ensures r.Some? ==> exists i :: 0 <= i < |options| && ToNumber(options[i].value) == r
    ensures forall i :: FirstStrict(options, answer, i) ==> r == ToNumber(options[i].value)
    ensures (forall i :: 0 <= i < |options| ==> options[i].value != answer) ==>
              forall i :: FirstText(options, answer, i) ==> r == ToNumber(options[i].value)
    ensures ((forall i :: 0 <= i < |options| ==> options[i].value != answer) &&
             (forall i :: !FirstText(options, answer, i))) ==> r.None?
  {
    match FirstMatch(options, answer)
    case Some(i) => ToNumber(options[i].value)
    case None =>
      match TextSearch(options, answer)
      case Found(i) => ToNumber(options[i].value)
      case _ => None
  }

  /** The answer data sent for an answer to question `questionId`, if any is sent. */
  function AutoData(questions: seq<Question>, options: seq<AnswerOption>, generalDataId: Option<int>,
                    questionId: int, answer: Value): (r: Option<AnswerData>)
    ensures r.Some? ==> IdSet(generalDataId) && r.value.generalDataId == generalDataId.value
    ensures r.Some? ==> r.value.questionId == questionId && FindQuestion(questions, questionId).Some? &&
                        r.value.categoryId == FindQuestion(questions, questionId).value.categoryId
    ensures (IdSet(generalDataId) && FindQuestion(questions, questionId).Some? &&
             FirstMatch(options, answer).Some? && ToNumber(options[FirstMatch(options, answer).value].value).Some?) ==> r.Some?
    ensures r.Some? <==> IdSet(generalDataId) && FindQuestion(questions, questionId).Some? &&
                         AnswerNumber(options, answer).Some?
    ensures r.Some? ==> Some(r.value.value) == AnswerNumber(options, answer)
  {
    if !IdSet(generalDataId) then None
    else match FindQuestion(questions, questionId)
      case None => None
      case Some(q) =>
        match AnswerNumber(options, answer)
        case None => None
        case Some(v) => Some(AnswerData(generalDataId.value, q.categoryId, questionId, v))
  }

  class Questionnaire {
    var categories: seq<Category>
    var questions: seq<Question>
    var options: seq<AnswerOption>
    var answers: Answers
    var generalDataId: Option<int>
    var token: Option<string>
    var usuario: Option<string>
    var isAuthenticated: bool
    const store: BrowserStorage

    /** A fresh questionnaire: nothing loaded, nobody authenticated. */
    constructor (store: BrowserStorage)
      ensures this.store == store
      ensures categories == [] && questions == [] && options == [] && answers == map[]
      ensures generalDataId.None? && token.None? && usuario.None? && !isAuthenticated
    {
      this.store := store;
      categories, questions, options, answers := [], [], [], map[];
      generalDataId, token, usuario, isAuthenticated := None, None, None, false;
    }

    /** `cerrarSesion`: forgets the credential and the form instance, in memory and in
        localStorage, and drops every recorded answer id from sessionStorage. */
    method Logout()
      modifies this, store
      ensures token.None? && usuario.None? && !isAuthenticated && generalDataId.None?
      ensures store.local == WithoutCredential(old(store.local))
      ensures store.session == WithoutAnswerRecords(old(store.session))
      ensures categories == old(categories) && questions == old(questions)
      ensures options == old(options) && answers == old(answers)
    {
      token, usuario, isAuthenticated, generalDataId := None, None, false, None;
      store.local := store.local - {AUTH_TOKEN, AUTH_USER, AUTH_TIMESTAMP, GENERAL_DATA_ID};
      store.ClearAnswerRecords();
    }

    /** `cargarDatosGuardados`: restores a complete credential younger than 2 hours,
        with the form instance when one is stored; logs out when a complete credential
        has expired; does nothing when a part is missing. */
    method Load(now: int)
      modifies this, store
      ensures CredentialValid(old(store.local), now) ==>
                token == Some(old(store.local)[AUTH_TOKEN]) && usuario == Some(old(store.local)[AUTH_USER]) &&
                isAuthenticated && store.local == old(store.local) && store.session == old(store.session) &&
                generalDataId == (if Present(old(store.local), GENERAL_DATA_ID)
                                  then ParseInt(old(store.local)[GENERAL_DATA_ID]) else old(generalDataId))
      ensures HasCredential(old(store.local)) && !CredentialFresh(old(store.local), now) ==>
                token.None? && usuario.None? && !isAuthenticated && generalDataId.None? &&
                store.local == WithoutCredential(old(store.local)) &&
                store.session == WithoutAnswerRecords(old(store.session))
      ensures !HasCredential(old(store.local)) ==>
                token == old(token) && usuario == old(usuario) && isAuthenticated == old(isAuthenticated) &&
                generalDataId == old(generalDataId) && store.local == old(store.local) && store.session == old(store.session)
      ensures categories == old(categories) && questions == old(questions)
      ensures options == old(options) && answers == old(answers)
    {
      var local := store.local;
      if Present(local, AUTH_TOKEN) && Present(local, AUTH_USER) && Present(local, AUTH_TIMESTAMP) {
        var saved := ParseInt(local[AUTH_TIMESTAMP]);
        if saved.Some? && now - saved.value < SessionClock.RESPONDENT_LIFETIME_MS {
          token := Some(local[AUTH_TOKEN]);
          usuario := Some(local[AUTH_USER]);
          isAuthenticated := true;
          if Present(local, GENERAL_DATA_ID) {
            generalDataId := ParseInt(local[GENERAL_DATA_ID]);
          }
        } else {
          Logout();
        }
      }
    }

    /** `autenticar`: with a token and a user (the newer name first) the credential is
        taken and stored with the current time; otherwise nothing changes. A credential
        stored this way is restored by any load within the next 2 hours. */
    method Authenticate(auth: AuthData, now: int)
      modifies this, store`local
      ensures var user := UserOf(auth);
              if auth.token != "" && user.Some? then
                token == Some(auth.token) && usuario == user && isAuthenticated &&
                store.local == old(store.local)[AUTH_TOKEN := auth.token][AUTH_USER := user.value]
                                               [AUTH_TIMESTAMP := IntToString(now)]
              else
                token == old(token) && usuario == old(usuario) && isAuthenticated == old(isAuthenticated) &&
                store.local == old(store.local)
      ensures auth.token != "" && UserOf(auth).Some? && UserOf(auth).value != "" ==>
                forall later :: now <= later < now + SessionClock.RESPONDENT_LIFETIME_MS ==> CredentialValid(store.local, later)
      ensures generalDataId == old(generalDataId) && answers == old(answers)
      ensures categories == old(categories) && questions == old(questions) && options == old(options)
    {
      var user := UserOf(auth);
      if auth.token != "" && user.Some? {
        token, usuario, isAuthenticated := Some(auth.token), user, true;
        store.local := store.local[AUTH_TOKEN := auth.token][AUTH_USER := user.value][AUTH_TIMESTAMP := IntToString(now)];
        ParseIntToString(now);
      }
    }

    /** `setGeneralDataId`: remembers the form instance and persists it when truthy,
        forgets the stored one otherwise; what is stored reads back as the same id. */
    method SetGeneralDataId(id: Option<int>)
      modifies this`generalDataId, store`local
      ensures generalDataId == id
      ensures IdSet(id) ==> store.local == old(store.local)[GENERAL_DATA_ID := IntToString(id.value)]
      ensures !IdSet(id) ==> store.local == old(store.local) - {GENERAL_DATA_ID}
      ensures IdSet(id) ==> Present(store.local, GENERAL_DATA_ID) && ParseInt(store.local[GENERAL_DATA_ID]) == id
    {
      generalDataId := id;
      if IdSet(id) {
        store.local := store.local[GENERAL_DATA_ID := IntToString(id.value)];
        ParseIntToString(id.value);
      } else {
        store.local := store.local - {GENERAL_DATA_ID};
      }
    }

    /** `cargarRespuestasGuardadas`: with an array of saved answers, applies them in order
        to the answers and to the recorded ids and reports success; without one (a
        failed fetch or a non-array response) changes nothing and reports failure. */
    method LoadSavedAnswers(response: Option<seq<SavedAnswer>>) returns (ok: bool)
      modifies this`answers, store`session
      ensures ok <==> response.Some?
      ensures response.Some? ==> (answers, store.session) == LoadAll(old(answers), old(store.session), response.value)
      ensures response.None? ==> answers == old(answers) && store.session == old(store.session)
    {
      if response.None? {
        return false;
      }
      var rs := response.value;
      var loaded := answers;
      var i := 0;
      while i < |rs|
        invariant 0 <= i <= |rs|
        invariant (loaded, store.session) == LoadAll(old(answers), old(store.session), rs[..i])
      {
        var r := rs[i];
        if Usable(r) {
          loaded := loaded[r.question_id := r.value];
          if IdTruthy(r.id) {
            store.session := store.session[SavedKey(r) := TextOf(r.id)];
          }
        }
        assert rs[..i + 1][..i] == rs[..i];
        i := i + 1;
      }
      assert rs[..|rs|] == rs;
      answers := loaded;
      return true;
    }

    /** `enviarRespuestaDatos` run against sessionStorage. */
    method SubmitAnswer(d: AnswerData, put: PutOutcome, post: PostOutcome) returns (calls: seq<Call>)
      modifies store`session
      ensures Exchange(store.session, calls) == Submit(old(store.session), d, put, post)
    {
      var key := KeyOf(d);
      if key in store.session && store.session[key] != "" {
        var withId := Slot(ParseInt(store.session[key]));
        if put == PutSucceeds {
          return [Put(d, withId)];
        }
        calls := [Put(d, withId), Post(d, withId)];
        if post.PostReturns? && post.resultado.Some? && IdTruthy(post.resultado.value.id) {
          store.session := store.session[key := TextOf(post.resultado.value.id)];
        }
      } else {
        calls := [Post(d, Absent)];
        if post.PostReturns? {
          var found := ExtractId(post.resultado);
          if found.Some? {
            store.session := store.session[key := found.value];
          }
        }
      }
    }

    /** `guardarRespuesta`: the answer is always kept locally; with a form instance set,
        the answer is sent when its question is known and it maps to a number. A failed
        submission never undoes the local write. */
    method SaveAnswer(questionId: int, answer: Value, put: PutOutcome, post: PostOutcome) returns (calls: seq<Call>)
      modifies this`answers, store`session
      ensures answers == old(answers)[questionId := answer]
      ensures var d := AutoData(questions, options, generalDataId, questionId, answer);
              if d.Some? then Exchange(store.session, calls) == Submit(old(store.session), d.value, put, post)
              else calls == [] && store.session == old(store.session)
      ensures !IdSet(generalDataId) ==> calls == [] && store.session == old(store.session)
    {
      answers := answers[questionId := answer];
      calls := [];
      if IdSet(generalDataId) {
        var d := AutoData(questions, options, generalDataId, questionId, answer);
        if d.Some? {
          calls := SubmitAnswer(d.value, put, post);
        }
      }
    }
  }

  // ---------------------------------------------------------------------------
  // Properties

  /** A truthy answer keeps a complete form complete. */
  lemma AnswerKeepsComplete(questions: seq<Question>, answers: Answers, questionId: int, answer: Value)
    requires FormComplete(questions, answers) && Truthy(answer)
    ensures FormComplete(questions, answers[questionId := answer])
  {
  }

  /** A falsy answer (empty text, 0, null) to a question of the form leaves it
      incomplete, as if unanswered. */
  lemma FalsyAnswerIncompletes(questions: seq<Question>, answers: Answers, i: nat, answer: Value)
    requires i < |questions| && !Truthy(answer)
    ensures !FormComplete(questions, answers[questions[i].id := answer])
  {
    assert AnswerOf(answers[questions[i].id := answer], questions[i].id) == answer;
  }

  /** The form is complete exactly when, after answering the last open question with a
      truthy value, every question has a truthy answer. */
  lemma CompletingTheLastQuestion(questions: seq<Question>, answers: Answers, questionId: int, answer: Value)
    requires |questions| > 0 && Truthy(answer)
    requires forall i :: 0 <= i < |questions| && questions[i].id != questionId ==> Truthy(AnswerOf(answers, questions[i].id))
    ensures FormComplete(questions, answers[questionId := answer])
  {
  }
}
