/** The scorer of the mock questionnaire service: every answer label carries a fixed
    weight, each category gets a percentage of its maximum, and the global score adds the
    percentages scaled by the category weights. JavaScript's NaN is `None`. */
module MockScoring {
  import opened Wrappers
  import opened JsValues
  import opened Sums
  import Scoring

  datatype MockCategory = MockCategory(id: int, peso: real)

  datatype MockQuestion = MockQuestion(id: int, categoriaId: int)

  /** The four categories the mock service serves, with their weights. */
  const MOCK_CATEGORIES: seq<MockCategory> :=
    [MockCategory(1, 25.0), MockCategory(2, 20.0), MockCategory(3, 30.0), MockCategory(4, 25.0)]

  /** Three questions per category, numbered 1 to 12. */
  const MOCK_QUESTIONS: seq<MockQuestion> :=
    [MockQuestion(1, 1), MockQuestion(2, 1), MockQuestion(3, 1),
     MockQuestion(4, 2), MockQuestion(5, 2), MockQuestion(6, 2),
     MockQuestion(7, 3), MockQuestion(8, 3), MockQuestion(9, 3),
     MockQuestion(10, 4), MockQuestion(11, 4), MockQuestion(12, 4)]

  /** The weight of the top answer, the per-question maximum. */
  const TOP_WEIGHT: real := 5.0

  predicate IsLabel(v: Value) {
    v == Str("Si") || v == Str("En Parte") || v == Str("No")
  }

  /** `PESOS_RESPUESTAS[resp]`: Si 5, En Parte 2.5, No 1; any other answer, an unanswered
      question included, looks up nothing and turns the sum into NaN. */
  function AnswerWeight(v: Value): (w: Option<real>)
    ensures w.Some? <==> IsLabel(v)
    ensures w.Some? ==> 1.0 <= w.value <= TOP_WEIGHT
    ensures w == Some(TOP_WEIGHT) <==> v == Str("Si")
  {
    if v == Str("Si") then Some(5.0)
    else if v == Str("En Parte") then Some(2.5)
    else if v == Str("No") then Some(1.0)
    else None
  }

  /** Addition on numbers where NaN absorbs everything. */
  function Add(a: Option<real>, b: Option<real>): (r: Option<real>)
    ensures r.Some? <==> a.Some? && b.Some?
  {
    if a.Some? && b.Some? then Some(a.value + b.value) else None
  }

  /** `reduce((sum, resp) => sum + PESOS_RESPUESTAS[resp], 0)`, left to right. */
  function WeightSum(rs: seq<Value>): Option<real> {
    if rs == [] then Some(0.0) else Add(WeightSum(rs[..|rs| - 1]), AnswerWeight(rs[|rs| - 1]))
  }

  /** The answers given to the questions of category `cid`, in question order. */
  function CategoryAnswers(questions: seq<MockQuestion>, answers: Scoring.Answers, cid: int): (rs: seq<Value>)
    ensures |rs| <= |questions|
  {
    if questions == [] then []
    else
      var rest := CategoryAnswers(questions[..|questions| - 1], answers, cid);
      var q := questions[|questions| - 1];
      if q.categoriaId == cid then rest + [Scoring.AnswerOf(answers, q.id)] else rest
  }

  /** `(puntajeTotal / (n * 5)) * 100`; 0 / 0 is NaN for a category without questions. */
  function Percentage(total: Option<real>, n: nat): Option<real> {
    if total.None? || n == 0 then None else Some(total.value / (n as real * TOP_WEIGHT) * 100.0)
  }

  /** The qualitative grades, from lowest to highest. */
  datatype Rating = NecesitaMejorar | Regular | Bueno | MuyBueno | Excelente

  /** The text `obtenerValoracionCualitativa` returns for a grade. */
  function Label(r: Rating): string {
    match r
    case NecesitaMejorar => "Necesita Mejorar"
    case Regular => "Regular"
    case Bueno => "Bueno"
    case MuyBueno => "Muy Bueno"
    case Excelente => "Excelente"
  }

  /** Every grade is reported under its own text. */
  lemma LabelsDistinct(r1: Rating, r2: Rating)
    ensures Label(r1) == Label(r2) <==> r1 == r2
  {
  }

  function Level(r: Rating): nat {
    match r
    case NecesitaMejorar => 0
    case Regular => 1
    case Bueno => 2
    case MuyBueno => 3
    case Excelente => 4
  }

  /** `obtenerValoracionCualitativa`: thresholds 90, 75, 60 and 40; every comparison with
      NaN is false, so NaN grades lowest. */
  function Valoracion(p: Option<real>): (r: Rating)
    ensures r == Excelente <==> p.Some? && p.value >= 90.0
    ensures r == MuyBueno <==> p.Some? && 75.0 <= p.value < 90.0
    ensures r == Bueno <==> p.Some? && 60.0 <= p.value < 75.0
    ensures r == Regular <==> p.Some? && 40.0 <= p.value < 60.0
    ensures r == NecesitaMejorar <==> p.None? || p.value < 40.0
  {
    if p.None? then NecesitaMejorar
    else if p.value >= 90.0 then Excelente
    else if p.value >= 75.0 then MuyBueno
    else if p.value >= 60.0 then Bueno
    else if p.value >= 40.0 then Regular
    else NecesitaMejorar
  }

  datatype CategoryResult = CategoryResult(categoriaId: int, puntaje: Option<real>, porcentaje: Option<real>,
                                           pesoCategoria: real, valoracion: Rating)

  /** The result of one category. */
  function ResultOf(c: MockCategory, questions: seq<MockQuestion>, answers: Scoring.Answers): (r: CategoryResult)
    ensures r.categoriaId == c.id && r.pesoCategoria == c.peso
    ensures r.valoracion == Valoracion(r.porcentaje)
  {
    var rs := CategoryAnswers(questions, answers, c.id);
    var total := WeightSum(rs);
    var p := Percentage(total, |rs|);
    CategoryResult(c.id, total, p, c.peso, Valoracion(p))
  }

  function Results(cats: seq<MockCategory>, questions: seq<MockQuestion>, answers: Scoring.Answers): (rs: seq<CategoryResult>)
    ensures |rs| == |cats|
    ensures forall i :: 0 <= i < |cats| ==> rs[i] == ResultOf(cats[i], questions, answers)
  {
    if cats == [] then []
    else Results(cats[..|cats| - 1], questions, answers) + [ResultOf(cats[|cats| - 1], questions, answers)]
  }

  /** `reduce((sum, res) => sum + res.porcentaje * (res.pesoCategoria / 100), 0)`. */
  function GlobalScore(rs: seq<CategoryResult>): Option<real> {
    if rs == [] then Some(0.0)
    else
      var last := rs[|rs| - 1];
      Add(GlobalScore(rs[..|rs| - 1]),
          if last.porcentaje.Some? then Some(last.porcentaje.value * (last.pesoCategoria / 100.0)) else None)
  }

  datatype Submission = Submission(resultadosPorCategoria: seq<CategoryResult>, puntaje: Option<real>, valoracion: Rating)

  /** `enviarRespuestas`: scores the answers against the mock categories and questions. */
  function Submit(answers: Scoring.Answers): (s: Submission)
    ensures |s.resultadosPorCategoria| == |MOCK_CATEGORIES|
    ensures s.valoracion == Valoracion(s.puntaje)
  {
    var rs := Results(MOCK_CATEGORIES, MOCK_QUESTIONS, answers);
    var g := GlobalScore(rs);
    Submission(rs, g, Valoracion(g))
  }

  // ---------------------------------------------------------------------------
  // Properties

  /** The grade never drops as the percentage grows. */
  lemma ValoracionMonotone(p: real, q: real)
    requires p <= q
    ensures Level(Valoracion(Some(p))) <= Level(Valoracion(Some(q)))
  {
  }

  /** The sum of the weights is a number exactly when every answer is a known label, and
      then lies between 1 and 5 per answer. */
  lemma {:induction false} WeightSumBounds(rs: seq<Value>)
    ensures WeightSum(rs).Some? <==> forall i :: 0 <= i < |rs| ==> IsLabel(rs[i])
    ensures WeightSum(rs).Some? ==> |rs| as real <= WeightSum(rs).value <= |rs| as real * TOP_WEIGHT
  {
    if rs != [] {
      var init := rs[..|rs| - 1];
      WeightSumBounds(init);
      assert forall i :: 0 <= i < |init| ==> init[i] == rs[i];
      if WeightSum(rs).Some? {
        var w := AnswerWeight(rs[|rs| - 1]).value;
        AddBound(WeightSum(init).value, w, |rs|, TOP_WEIGHT);
      }
    }
  }

  /** Answering every question with "Si" gives the maximum weight sum. */
  lemma {:induction false} WeightSumAllTop(rs: seq<Value>)
    requires forall i :: 0 <= i < |rs| ==> rs[i] == Str("Si")
    ensures WeightSum(rs) == Some(|rs| as real * TOP_WEIGHT)
  {
    if rs != [] {
      var init := rs[..|rs| - 1];
      assert forall i :: 0 <= i < |init| ==> init[i] == rs[i];
      WeightSumAllTop(init);
      AllAtStep(WeightSum(init).value, |rs|, TOP_WEIGHT);
    }
  }

  lemma PercentageOfTop(n: nat)
    requires n > 0
    ensures Percentage(Some(n as real * TOP_WEIGHT), n) == Some(100.0)
  {
    DivExact(n as real * TOP_WEIGHT, n as real * TOP_WEIGHT, 1.0);
  }

  lemma PercentageBounds(total: real, n: nat)
    requires n > 0 && n as real <= total <= n as real * TOP_WEIGHT
    ensures Percentage(Some(total), n).Some?
    ensures 20.0 <= Percentage(Some(total), n).value <= 100.0
  {
    var m := n as real * TOP_WEIGHT;
    DivWithin(total, m, 0.2, 1.0);
  }

  /** A category whose questions are all answered "Si" scores 100 percent. */
  lemma AllTopScoresHundred(c: MockCategory, questions: seq<MockQuestion>, answers: Scoring.Answers)
    requires |CategoryAnswers(questions, answers, c.id)| > 0
    requires forall v :: v in CategoryAnswers(questions, answers, c.id) ==> v == Str("Si")
    ensures ResultOf(c, questions, answers).porcentaje == Some(100.0)
    ensures ResultOf(c, questions, answers).valoracion == Excelente
  {
    var rs := CategoryAnswers(questions, answers, c.id);
    assert forall i :: 0 <= i < |rs| ==> rs[i] in rs;
    WeightSumAllTop(rs);
    PercentageOfTop(|rs|);
  }

  /** A category whose questions are all answered with a known label scores between 20
      and 100 percent; one unanswered or unknown answer makes it NaN. */
  lemma CategoryPercentageBounds(c: MockCategory, questions: seq<MockQuestion>, answers: Scoring.Answers)
    requires |CategoryAnswers(questions, answers, c.id)| > 0
    ensures ResultOf(c, questions, answers).porcentaje.Some? <==>
            forall v :: v in CategoryAnswers(questions, answers, c.id) ==> IsLabel(v)
    ensures ResultOf(c, questions, answers).porcentaje.Some? ==>
            20.0 <= ResultOf(c, questions, answers).porcentaje.value <= 100.0
  {
    var rs := CategoryAnswers(questions, answers, c.id);
    WeightSumBounds(rs);
    if WeightSum(rs).Some? {
      PercentageBounds(WeightSum(rs).value, |rs|);
    }
  }

  /** The contribution of one result to the global score, NaN read as 0. */
  function Contribution(r: CategoryResult): real {
    r.porcentaje.GetOr(0.0) * (r.pesoCategoria / 100.0)
  }

  function Share(r: CategoryResult): real {
    r.pesoCategoria / 100.0
  }

  function PercentOf(r: CategoryResult): real {
    r.porcentaje.GetOr(0.0)
  }

  /** Without NaN percentages the global score is the sum of the contributions; with one
      it is NaN. */
  lemma {:induction false} GlobalScoreSum(rs: seq<CategoryResult>)
    ensures GlobalScore(rs).Some? <==> forall i :: 0 <= i < |rs| ==> rs[i].porcentaje.Some?
    ensures GlobalScore(rs).Some? ==> GlobalScore(rs).value == SumOver(rs, Contribution)
  {
    if rs != [] {
      var init := rs[..|rs| - 1];
      assert forall i :: 0 <= i < |init| ==> init[i] == rs[i];
      GlobalScoreSum(init);
    }
  }

  /** With non-negative category weights summing to 100 and every percentage within
      `[lo, hi]`, the global score is within `[lo, hi]`: a weighted average. */
  lemma GlobalScoreBounds(rs: seq<CategoryResult>, lo: real, hi: real)
    requires forall i :: 0 <= i < |rs| ==> rs[i].pesoCategoria >= 0.0
    requires SumOver(rs, Share) == 1.0
    requires forall i :: 0 <= i < |rs| ==> rs[i].porcentaje.Some? && lo <= rs[i].porcentaje.value <= hi
    ensures GlobalScore(rs).Some?
    ensures lo <= GlobalScore(rs).value <= hi
  {
    GlobalScoreSum(rs);
    WeightedBounds(rs, Contribution, Share, PercentOf, lo, hi);
  }

  /** The mock category weights add up to 100. */
  lemma MockWeightsTotal(answers: Scoring.Answers)
    ensures SumOver(Results(MOCK_CATEGORIES, MOCK_QUESTIONS, answers), Share) == 1.0
  {
    var rs := Results(MOCK_CATEGORIES, MOCK_QUESTIONS, answers);
    assert rs[..3][..2] == rs[..2] && rs[..2][..1] == rs[..1] && rs[..1][..0] == [];
    assert rs[..4] == rs;
    assert SumOver(rs[..1], Share) == 0.25;
    assert SumOver(rs[..2], Share) == 0.45;
    assert SumOver(rs[..3], Share) == 0.75;
  }

  /** With every mock question answered with a known label, every category and the
      global score lie between 20 and 100. */
  lemma SubmitAllAnswered(answers: Scoring.Answers)
    requires forall i :: 0 <= i < |MOCK_QUESTIONS| ==> IsLabel(Scoring.AnswerOf(answers, MOCK_QUESTIONS[i].id))
    ensures Submit(answers).puntaje.Some?
    ensures 20.0 <= Submit(answers).puntaje.value <= 100.0
  {
    var rs := Results(MOCK_CATEGORIES, MOCK_QUESTIONS, answers);
    forall i | 0 <= i < |rs|
      ensures rs[i].porcentaje.Some? && 20.0 <= rs[i].porcentaje.value <= 100.0
    {
      MockCategoryAnswered(MOCK_CATEGORIES[i], answers);
      CategoryPercentageBounds(MOCK_CATEGORIES[i], MOCK_QUESTIONS, answers);
    }
    MockWeightsTotal(answers);
    GlobalScoreBounds(rs, 20.0, 100.0);
  }

  /** Every mock category has questions, and each of its answers is one of the answers
      to the mock questions. */
  lemma MockCategoryAnswered(c: MockCategory, answers: Scoring.Answers)
    requires c in MOCK_CATEGORIES
    ensures |CategoryAnswers(MOCK_QUESTIONS, answers, c.id)| > 0
    ensures forall v :: v in CategoryAnswers(MOCK_QUESTIONS, answers, c.id) ==>
              exists i :: 0 <= i < |MOCK_QUESTIONS| && v == Scoring.AnswerOf(answers, MOCK_QUESTIONS[i].id)
  {
    CategoryAnswersFrom(MOCK_QUESTIONS, answers, c.id);
    var i := 3 * (c.id - 1);
    assert 0 <= i < |MOCK_QUESTIONS| && MOCK_QUESTIONS[i].categoriaId == c.id;
    CategoryAnswersNonEmpty(MOCK_QUESTIONS, answers, c.id, i);
  }

  /** The answers of a category come from its questions. */
  lemma {:induction false} CategoryAnswersFrom(questions: seq<MockQuestion>, answers: Scoring.Answers, cid: int)
    ensures forall v :: v in CategoryAnswers(questions, answers, cid) ==>
              exists i :: 0 <= i < |questions| && v == Scoring.AnswerOf(answers, questions[i].id)
  {
    if questions != [] {
      var init := questions[..|questions| - 1];
      CategoryAnswersFrom(init, answers, cid);
      assert forall i :: 0 <= i < |init| ==> init[i] == questions[i];
    }
  }

  /** A category with at least one question has at least one answer slot. */
  lemma {:induction false} CategoryAnswersNonEmpty(questions: seq<MockQuestion>, answers: Scoring.Answers, cid: int, i: nat)
    requires i < |questions| && questions[i].categoriaId == cid
    ensures |CategoryAnswers(questions, answers, cid)| > 0
  {
    if i < |questions| - 1 {
      var init := questions[..|questions| - 1];
      assert init[i] == questions[i];
      CategoryAnswersNonEmpty(init, answers, cid, i);
    }
  }
}
