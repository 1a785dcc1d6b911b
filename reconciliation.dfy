/** Reconciliation of answers with the backend. The client remembers, in sessionStorage
    under one key per (form instance, category, question), the server id of each answer
    it created, so that a later change of the same answer updates the record (PUT)
    instead of creating a duplicate (POST). These functions say what one submission and
    one load of saved answers do to that store and which requests they issue; the
    questionnaire object runs them against the shared browser storage. */
module Reconciliation {
  import opened Wrappers
  import opened Numerals
  import opened JsValues
  import opened Storage

  /** The body of a create or update response: the id may come under several names, at
      the top level or inside `data`. `None` stands for a falsy response. */
  datatype DataPart = DataPart(id: IdField, ID: IdField, answer_id: IdField)
  datatype Payload = Payload(id: IdField, ID: IdField, answer_id: IdField, answerId: IdField, data: Option<DataPart>)

  /** The answer sent to the backend, without its record id. */
  datatype AnswerData = AnswerData(generalDataId: int, categoryId: int, questionId: int, value: real)

  /** The request's `id` field: absent, or set from the recorded text (`None` is NaN). */
  datatype IdSlot = Absent | Slot(parsed: Option<int>)

  datatype Call = Put(data: AnswerData, id: IdSlot) | Post(data: AnswerData, id: IdSlot)

  datatype PutOutcome = PutSucceeds | PutThrows
  datatype PostOutcome = PostThrows | PostReturns(resultado: Option<Payload>)

  /** The sessionStorage after a submission, and the requests it issued in order. */
  datatype Exchange = Exchange(session: map<string, string>, calls: seq<Call>)

  function KeyOf(d: AnswerData): (k: string)
    ensures IsAnswerKey(k)
  {
    AnswerKeyOf(d.generalDataId, d.categoryId, d.questionId)
  }

  /** `a || b` on identifier fields. */
  function Or(a: IdField, b: IdField): IdField {
    if IdTruthy(a) then a else b
  }

  /** The text of an identifier that is truthy is never empty. */
  lemma TruthyTextOf(f: IdField)
    requires IdTruthy(f)
    ensures TextOf(f) != ""
  {
    if f.IdNum? {
      assert |IntToString(f.n)| >= 1;
    }
  }

  /** The id of a created answer, as the client digs it out of the response: `id || ID
      || answer_id || answerId`, then, if that is falsy and `data` is present,
      `data.id || data.ID || data.answer_id`; recorded only when truthy. */
  function ExtractId(resultado: Option<Payload>): (r: Option<string>)
    ensures r.Some? ==> r.value != ""
  {
    if resultado.None? then None
    else
      var p := resultado.value;
      var top := OrAll([p.id, p.ID, p.answer_id, p.answerId]);
      var v := if !IdTruthy(top) && p.data.Some? then OrAll([p.data.value.id, p.data.value.ID, p.data.value.answer_id]) else top;
      if IdTruthy(v) then
        TruthyTextOf(v);
        Some(TextOf(v))
      else None
  }

  /** The places the id is looked for, in priority order. */
  function Candidates(p: Payload): seq<IdField> {
    [p.id, p.ID, p.answer_id, p.answerId] +
    (if p.data.Some? then [p.data.value.id, p.data.value.ID, p.data.value.answer_id] else [])
  }

  /** The first truthy field of `fs`. */
  function FirstTruthy(fs: seq<IdField>): (r: Option<IdField>)
    ensures r.Some? ==> IdTruthy(r.value) && r.value in fs
    ensures r.Some? <==> exists i :: 0 <= i < |fs| && IdTruthy(fs[i])
  {
    if fs == [] then None
    else if IdTruthy(fs[0]) then Some(fs[0])
    else FirstTruthy(fs[1..])
  }

  /** The nested `||` chain picks the first truthy candidate in priority order, and
      records nothing when there is none. */
  lemma ExtractIdPriority(p: Payload)
    ensures ExtractId(Some(p)) == (match FirstTruthy(Candidates(p))
                                   case Some(f) => Some(TextOf(f))
                                   case None => None)
  {
    var top := [p.id, p.ID, p.answer_id, p.answerId];
    var rest := if p.data.Some? then [p.data.value.id, p.data.value.ID, p.data.value.answer_id] else [];
    FirstTruthyAppend(top, rest);
    OrChain(top);
    if p.data.Some? {
      OrChain(rest);
    }
  }

  /** The first truthy field of a concatenation. */
  lemma {:induction false} FirstTruthyAppend(a: seq<IdField>, b: seq<IdField>)
    ensures FirstTruthy(a + b) == if FirstTruthy(a).Some? then FirstTruthy(a) else FirstTruthy(b)
  {
    if a != [] {
      assert (a + b)[1..] == a[1..] + b;
      FirstTruthyAppend(a[1..], b);
    } else {
      assert a + b == b;
    }
  }

  /** `a || b || ...` gives the first truthy operand, or a falsy last operand. */
  lemma {:induction false} OrChain(fs: seq<IdField>)
    requires |fs| >= 1
    ensures FirstTruthy(fs).Some? ==> OrAll(fs) == FirstTruthy(fs).value
    ensures FirstTruthy(fs).None? ==> !IdTruthy(OrAll(fs))
  {
    if |fs| > 1 {
      var init := fs[..|fs| - 1];
      OrChain(init);
      FirstTruthyAppend(init, [fs[|fs| - 1]]);
      assert init + [fs[|fs| - 1]] == fs;
      assert [fs[|fs| - 1]][1..] == [];
    }
  }

  /** `fs[0] || fs[1] || ...`, evaluated left to right. */
  function OrAll(fs: seq<IdField>): IdField
    requires |fs| >= 1
  {
    if |fs| == 1 then fs[0] else Or(OrAll(fs[..|fs| - 1]), fs[|fs| - 1])
  }

  /** `enviarRespuestaDatos`. With a truthy recorded id the answer is updated with that
      id; only when the update throws is it created again, and then only a top-level
      `id` of the response is recorded. Without one the answer is created and the id
      found in the response recorded. A create that throws records nothing. */
  function Submit(session: map<string, string>, d: AnswerData, put: PutOutcome, post: PostOutcome): (e: Exchange)
    ensures forall k :: k != KeyOf(d) && k in session ==> k in e.session && e.session[k] == session[k]
    ensures forall k :: k in e.session ==> k in session || k == KeyOf(d)
    ensures Present(session, KeyOf(d)) ==> Present(e.session, KeyOf(d))
    ensures KeyOf(d) in e.session && !(KeyOf(d) in session && e.session[KeyOf(d)] == session[KeyOf(d)]) ==>
              e.session[KeyOf(d)] != ""
  {
    var key := KeyOf(d);
    if Present(session, key) then
      var withId := Slot(ParseInt(session[key]));
      var calls := if put == PutSucceeds then [Put(d, withId)] else [Put(d, withId), Post(d, withId)];
      if put == PutThrows && post.PostReturns? && post.resultado.Some? && IdTruthy(post.resultado.value.id) then
        TruthyTextOf(post.resultado.value.id);
        Exchange(session[key := TextOf(post.resultado.value.id)], calls)
      else Exchange(session, calls)
    else
      var calls := [Post(d, Absent)];
      if post.PostReturns? && ExtractId(post.resultado).Some? then
        Exchange(session[key := ExtractId(post.resultado).value], calls)
      else Exchange(session, calls)
  }

  /** A recorded answer is always updated first, with the recorded id, and is created
      again only if the update throws. A successful update keeps the record; after the
      fallback creation only a truthy top-level `id` of the response replaces it, the
      other id fields being ignored. */
  lemma RecordedAnswerUpdates(session: map<string, string>, d: AnswerData, put: PutOutcome, post: PostOutcome)
    requires Present(session, KeyOf(d))
    ensures var e := Submit(session, d, put, post);
            |e.calls| >= 1 && e.calls[0] == Put(d, Slot(ParseInt(session[KeyOf(d)]))) &&
            ((exists i :: 0 <= i < |e.calls| && e.calls[i].Post?) <==> put == PutThrows)
    ensures var e := Submit(session, d, put, post);
            put == PutSucceeds ==> e.session == session
    ensures var e := Submit(session, d, put, post);
            put == PutThrows && post.PostReturns? && post.resultado.Some? && IdTruthy(post.resultado.value.id) ==>
              e.session == session[KeyOf(d) := TextOf(post.resultado.value.id)]
    ensures var e := Submit(session, d, put, post);
            put == PutThrows && !(post.PostReturns? && post.resultado.Some? && IdTruthy(post.resultado.value.id)) ==>
              e.session == session
  {
    var e := Submit(session, d, put, post);
    if put == PutThrows {
      assert e.calls[1].Post?;
    }
  }

  /** An unrecorded answer is created with no id, and the id of the response, if any, is
      recorded under its key. */
  lemma UnrecordedAnswerCreates(session: map<string, string>, d: AnswerData, put: PutOutcome, post: PostOutcome)
    requires !Present(session, KeyOf(d))
    ensures var e := Submit(session, d, put, post);
            e.calls == [Post(d, Absent)] &&
            (post.PostReturns? && ExtractId(post.resultado).Some? ==> e.session == session[KeyOf(d) := ExtractId(post.resultado).value]) &&
            (post.PostThrows? || ExtractId(post.resultado).None? ==> e.session == session)
  {
  }

  /** Submitting the same answer twice: the first submission creates it and records
      the numeric id the server returned; the second, whatever the backend does, never
      creates it again unless the update throws, and updates the record with that id. */
  lemma ResubmissionUpdates(session: map<string, string>, d: AnswerData, first: Option<Payload>, n: int,
                            d2: AnswerData, put: PutOutcome, post: PostOutcome)
    requires !Present(session, KeyOf(d))
    requires ExtractId(first) == Some(IntToString(n))
    requires KeyOf(d2) == KeyOf(d)
    ensures var e1 := Submit(session, d, put, PostReturns(first));
            var e2 := Submit(e1.session, d2, put, post);
            e2.calls[0] == Put(d2, Slot(Some(n))) &&
            (put == PutSucceeds ==> e2.calls == [Put(d2, Slot(Some(n)))] && e2.session == e1.session)
  {
    ParseIntToString(n);
  }

  /** Two answers that differ in form instance, category or question never share a
      record: submitting one leaves the other's recorded id alone. */
  lemma SubmitKeepsOtherRecords(session: map<string, string>, d: AnswerData, other: AnswerData,
                                put: PutOutcome, post: PostOutcome)
    requires (other.generalDataId, other.categoryId, other.questionId) != (d.generalDataId, d.categoryId, d.questionId)
    requires KeyOf(other) in session
    ensures var e := Submit(session, d, put, post);
            KeyOf(other) in e.session && e.session[KeyOf(other)] == session[KeyOf(other)]
  {
    if KeyOf(other) == KeyOf(d) {
      AnswerKeyInjective(other.generalDataId, other.categoryId, other.questionId,
                         d.generalDataId, d.categoryId, d.questionId);
    }
  }

  // ---------------------------------------------------------------------------
  // Loading saved answers

  /** One answer as the backend returns it when the saved answers are loaded; a
      `question_id` of 0 is falsy. */
  datatype SavedAnswer = SavedAnswer(question_id: int, value: Value, general_data_id: IdField,
                                     category_id: IdField, id: IdField)

  /** `respuesta.question_id && respuesta.value !== undefined`: the answer is applied. */
  predicate Usable(r: SavedAnswer) {
    r.question_id != 0 && r.value != Undefined
  }

  /** The record key of a saved answer, the fields rendered as text. */
  function SavedKey(r: SavedAnswer): (k: string)
    ensures IsAnswerKey(k)
  {
    AnswerKey(TextOf(r.general_data_id), TextOf(r.category_id), IntToString(r.question_id))
  }

  /** The answers map and sessionStorage after loading one saved answer: skipped when
      its `question_id` is falsy or its `value` is `undefined`; otherwise the answer is
      taken and, when its id is truthy, the id is recorded under its key. */
  function LoadOne(answers: map<int, Value>, session: map<string, string>, r: SavedAnswer): (map<int, Value>, map<string, string>) {
    if Usable(r) then
      (answers[r.question_id := r.value], if IdTruthy(r.id) then session[SavedKey(r) := TextOf(r.id)] else session)
    else (answers, session)
  }

  /** The saved answers applied in order, later ones overriding earlier ones. */
  function LoadAll(answers: map<int, Value>, session: map<string, string>, rs: seq<SavedAnswer>): (map<int, Value>, map<string, string>) {
    if rs == [] then (answers, session)
    else
      var prev := LoadAll(answers, session, rs[..|rs| - 1]);
      LoadOne(prev.0, prev.1, rs[|rs| - 1])
  }

  /** Loading keeps every answer not mentioned by a usable saved answer and touches only
      answer-id records in sessionStorage. */
  lemma {:induction false} LoadAllEffect(answers: map<int, Value>, session: map<string, string>, rs: seq<SavedAnswer>)
    ensures var (a, s) := LoadAll(answers, session, rs);
            (forall q :: q in answers ==> q in a) &&
            (forall q :: q in a && (forall i :: 0 <= i < |rs| ==> !(Usable(rs[i]) && rs[i].question_id == q)) ==>
               q in answers && a[q] == answers[q]) &&
            (forall k :: k in session ==> k in s) &&
            (forall k :: k in s && !IsAnswerKey(k) ==> k in session && s[k] == session[k])
  {
    if rs != [] {
      var init := rs[..|rs| - 1];
      LoadAllEffect(answers, session, init);
      assert forall i :: 0 <= i < |init| ==> init[i] == rs[i];
    }
  }

  /** `rs[j]` is the last usable saved answer to question `q`. */
  predicate LastUsableFor(rs: seq<SavedAnswer>, q: int, j: int) {
    0 <= j < |rs| && Usable(rs[j]) && rs[j].question_id == q &&
    forall i :: j < i < |rs| ==> !(Usable(rs[i]) && rs[i].question_id == q)
  }

  /** `rs[j]` is the last usable saved answer with a truthy id whose record key is `k`. */
  predicate LastRecordedFor(rs: seq<SavedAnswer>, k: string, j: int) {
    0 <= j < |rs| && Usable(rs[j]) && IdTruthy(rs[j].id) && SavedKey(rs[j]) == k &&
    forall i :: j < i < |rs| ==> !(Usable(rs[i]) && IdTruthy(rs[i].id) && SavedKey(rs[i]) == k)
  }

  /** Loading takes, for every question, the value of the last usable saved answer to it. */
  lemma {:induction false} LoadAllTakesLast(answers: map<int, Value>, session: map<string, string>, rs: seq<SavedAnswer>)
    ensures var a := LoadAll(answers, session, rs).0;
            forall q, j :: LastUsableFor(rs, q, j) ==> q in a && a[q] == rs[j].value
  {
    if rs != [] {
      var init := rs[..|rs| - 1];
      LoadAllTakesLast(answers, session, init);
      forall q, j | LastUsableFor(rs, q, j) && j < |init|
        ensures LastUsableFor(init, q, j)
      {
        assert forall i :: j < i < |init| ==> init[i] == rs[i];
      }
    }
  }

  /** Loading records under every key the id of the last usable saved answer with a
      truthy id and that key. */
  lemma {:induction false} LoadAllRecordsLast(answers: map<int, Value>, session: map<string, string>, rs: seq<SavedAnswer>)
    ensures var s := LoadAll(answers, session, rs).1;
            forall k, j :: LastRecordedFor(rs, k, j) ==> k in s && s[k] == TextOf(rs[j].id)
  {
    if rs != [] {
      var init := rs[..|rs| - 1];
      LoadAllRecordsLast(answers, session, init);
      var prev := LoadAll(answers, session, init);
      var r := rs[|rs| - 1];
      forall k, j | LastRecordedFor(rs, k, j)
        ensures var s := LoadOne(prev.0, prev.1, r).1; k in s && s[k] == TextOf(rs[j].id)
      {
        LoadOneRecord(prev.0, prev.1, r, k);
        if j < |init| {
          assert !(Usable(r) && IdTruthy(r.id) && SavedKey(r) == k);
          assert forall i :: j < i < |init| ==> init[i] == rs[i];
          assert LastRecordedFor(init, k, j);
          assert k in prev.1 && prev.1[k] == TextOf(rs[j].id);
        } else {
          assert r == rs[j];
        }
      }
    }
  }

  /** What loading one saved answer does to one sessionStorage key. */
  lemma LoadOneRecord(answers: map<int, Value>, session: map<string, string>, r: SavedAnswer, k: string)
    ensures var s := LoadOne(answers, session, r).1;
            if Usable(r) && IdTruthy(r.id) && SavedKey(r) == k then k in s && s[k] == TextOf(r.id)
            else (k in s <==> k in session) && (k in s ==> s[k] == session[k])
  {
  }

  /** Loading leaves every record that no usable saved answer with a truthy id names as
      it was. */
  lemma {:induction false} LoadAllKeepsUnnamed(answers: map<int, Value>, session: map<string, string>, rs: seq<SavedAnswer>)
    ensures var s := LoadAll(answers, session, rs).1;
            forall k :: k in session &&
                        (forall i :: 0 <= i < |rs| ==> !(Usable(rs[i]) && IdTruthy(rs[i].id) && SavedKey(rs[i]) == k)) ==>
                        k in s && s[k] == session[k]
  {
    if rs != [] {
      var init := rs[..|rs| - 1];
      LoadAllKeepsUnnamed(answers, session, init);
      assert forall i :: 0 <= i < |init| ==> init[i] == rs[i];
    }
  }

  /** The record key of a saved answer ends in its question id, so saved answers to
      different questions never share a record. */
  lemma SavedKeyQuestion(r1: SavedAnswer, r2: SavedAnswer)
    requires SavedKey(r1) == SavedKey(r2)
    ensures r1.question_id == r2.question_id
  {
    var Q1, Q2 := IntToString(r1.question_id), IntToString(r2.question_id);
    NoSeparatorInIntText(r1.question_id);
    NoSeparatorInIntText(r2.question_id);
    var x := ANSWER_PREFIX + TextOf(r1.general_data_id) + "_" + TextOf(r1.category_id);
    var y := ANSWER_PREFIX + TextOf(r2.general_data_id) + "_" + TextOf(r2.category_id);
    assert SavedKey(r1) == x + "_" + Q1;
    assert SavedKey(r2) == y + "_" + Q2;
    SeparatedTail(x, Q1, y, Q2);
    IntToStringInjective(r1.question_id, r2.question_id);
  }

  /** The text after the last separator of a key is determined by the key. */
  lemma SeparatedTail(x: string, a: string, y: string, b: string)
    requires forall i :: 0 <= i < |a| ==> a[i] != '_'
    requires forall i :: 0 <= i < |b| ==> b[i] != '_'
    requires x + "_" + a == y + "_" + b
    ensures a == b
  {
    var w := x + "_" + a;
    assert w[|w| - |a| - 1] == '_';
    assert w[|w| - |b| - 1] == '_';
    assert forall i :: 0 <= i < |a| ==> w[|w| - |a| + i] == a[i];
    assert forall i :: 0 <= i < |b| ==> w[|w| - |b| + i] == b[i];
    assert |a| == |b|;
    assert a == w[|w| - |a|..] == b;
  }

  /** The last usable saved answer to a question, when its id is truthy, leaves that id
      recorded under its key: no later saved answer to another question shares the key. */
  lemma LoadAllRecordsLastId(answers: map<int, Value>, session: map<string, string>, rs: seq<SavedAnswer>, j: int)
    requires 0 <= j < |rs| && LastUsableFor(rs, rs[j].question_id, j) && IdTruthy(rs[j].id)
    ensures var s := LoadAll(answers, session, rs).1;
            SavedKey(rs[j]) in s && s[SavedKey(rs[j])] == TextOf(rs[j].id)
  {
    forall i | j < i < |rs| && Usable(rs[i]) && IdTruthy(rs[i].id)
      ensures SavedKey(rs[i]) != SavedKey(rs[j])
    {
      if SavedKey(rs[i]) == SavedKey(rs[j]) {
        SavedKeyQuestion(rs[i], rs[j]);
      }
    }
    assert LastRecordedFor(rs, SavedKey(rs[j]), j);
    LoadAllRecordsLast(answers, session, rs);
  }

  /** A saved answer whose identifiers are the integers of an answer records its id under
      the very key a later submission of that answer looks up, so the submission updates
      it instead of creating a duplicate. */
  lemma LoadedAnswerIsRecorded(answers: map<int, Value>, session: map<string, string>, r: SavedAnswer,
                               d: AnswerData, n: int, put: PutOutcome, post: PostOutcome)
    requires Usable(r)
    requires r.general_data_id == IdNum(d.generalDataId) && r.category_id == IdNum(d.categoryId)
    requires r.question_id == d.questionId
    requires r.id == IdNum(n) && n != 0
    ensures var s := LoadOne(answers, session, r).1;
            Present(s, KeyOf(d)) && Submit(s, d, put, post).calls[0] == Put(d, Slot(Some(n)))
  {
    ParseIntToString(n);
    TruthyTextOf(r.id);
  }
}
