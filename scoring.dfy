/** Scoring of the questionnaire: points per answer, the average per category and the
    weight-normalised average across categories. The reactive state the client reads
    (categories, questions, options, answers) is passed in as values. */
module Scoring {
  import opened Wrappers
  import opened JsValues
  import opened Sums

  /** A selectable answer; `points` is `Undefined` when the option carries none. */
  datatype AnswerOption = AnswerOption(value: Value, points: Value)

  /** A category with its optional `weight` and older-named `peso` fields. */
  datatype Category = Category(id: int, weight: Option<real>, peso: Option<real>)

  datatype Question = Question(id: int, categoryId: int)

  /** Question id to the answer given. */
  type Answers = map<int, Value>

  const DEFAULT_WEIGHT: real := 25.0

  /** The label table used when no option matches: Si 5, En Parte 3, No 1, else 0. */
  function LabelPoints(answer: Value): (p: real)
    ensures p == 0.0 || p == 1.0 || p == 3.0 || p == 5.0
    ensures p != 0.0 ==> answer.Str?
  {
    if answer == Str("Si") then 5.0
    else if answer == Str("En Parte") then 3.0
    else if answer == Str("No") then 1.0
    else 0.0
  }

  /** The option's `points` when defined, else its `value`, as `Number(..) || 0`. */
  function OptionPoints(o: AnswerOption): real {
    NumberOrZero(if o.points != Undefined then o.points else o.value)
  }

  /** Index of the first option whose value is strictly equal to `answer`. */
  function FirstMatch(options: seq<AnswerOption>, answer: Value): (r: Option<nat>)
    ensures r.Some? ==> r.value < |options| && options[r.value].value == answer
    ensures r.Some? ==> forall j :: 0 <= j < r.value ==> options[j].value != answer
    ensures r.None? ==> forall j :: 0 <= j < |options| ==> options[j].value != answer
  {
    if options == [] then None
    else if options[0].value == answer then Some(0)
    else match FirstMatch(options[1..], answer)
      case None => None
      case Some(k) => Some(k + 1)
  }

  /** Points of one answer against the option list. */
  function QuestionPoints(answer: Value, options: seq<AnswerOption>): real {
    match FirstMatch(options, answer)
    case Some(i) => OptionPoints(options[i])
    case None => LabelPoints(answer)
  }

  /** The points come from the first option whose value is strictly equal to the
      answer, and from the label table only when no option matches. */
  lemma QuestionPointsSource(answer: Value, options: seq<AnswerOption>, i: nat)
    requires i < |options| && options[i].value == answer
    requires forall j :: 0 <= j < i ==> options[j].value != answer
    ensures QuestionPoints(answer, options) == OptionPoints(options[i])
  {
    var k := FirstMatch(options, answer).value;
    assert !(k < i) && !(i < k);
  }

  lemma QuestionPointsWithoutMatch(answer: Value, options: seq<AnswerOption>)
    requires forall i :: 0 <= i < |options| ==> options[i].value != answer
    ensures QuestionPoints(answer, options) == LabelPoints(answer)
  {
  }

  /** `respuestas[id]`, `undefined` when the question has no entry. */
  function AnswerOf(answers: Answers, id: int): Value {
    if id in answers then answers[id] else Undefined
  }

  /** Points a question adds to its category: an unanswered question (a falsy answer:
      missing, null, 0 or the empty text) adds nothing. */
  function AnsweredPoints(q: Question, answers: Answers, options: seq<AnswerOption>): real {
    var a := AnswerOf(answers, q.id);
    if Truthy(a) then QuestionPoints(a, options) else 0.0
  }

  /** The points a list of questions adds up to. */
  function PointsSum(qs: seq<Question>, answers: Answers, options: seq<AnswerOption>): real {
    SumOver(qs, q => AnsweredPoints(q, answers, options))
  }

  /** The category average: the answered points over the full question count. */
  function CategoryAverage(qs: seq<Question>, answers: Answers, options: seq<AnswerOption>): real {
    if |qs| == 0 then 0.0 else PointsSum(qs, answers, options) / |qs| as real
  }

  /** The questions of category `categoryId`, in their given order. */
  function Filter(questions: seq<Question>, categoryId: int): (r: seq<Question>)
    ensures |r| <= |questions|
  {
    if questions == [] then []
    else
      var rest := Filter(questions[..|questions| - 1], categoryId);
      var last := questions[|questions| - 1];
      assert questions == questions[..|questions| - 1] + [last];
      if last.categoryId == categoryId then rest + [last] else rest
  }

  /** The filtered questions are exactly the questions of the category. */
  lemma {:induction false} FilterMembers(questions: seq<Question>, categoryId: int)
    ensures forall q :: q in Filter(questions, categoryId) <==> q in questions && q.categoryId == categoryId
  {
    if questions != [] {
      var init, last := questions[..|questions| - 1], questions[|questions| - 1];
      FilterMembers(init, categoryId);
      assert questions == init + [last];
    }
  }

  predicate HasCategory(categories: seq<Category>, categoryId: int) {
    exists c :: c in categories && c.id == categoryId
  }

  /** `preguntasPorCategoria[categoryId] || []`: the grouping holds an entry for each
      known category only. */
  function Group(categories: seq<Category>, questions: seq<Question>, categoryId: int): (r: seq<Question>)
    ensures !HasCategory(categories, categoryId) ==> r == []
  {
    if HasCategory(categories, categoryId) then Filter(questions, categoryId) else []
  }

  /** `weight || peso || 25`: a missing or zero weight falls through. */
  function EffectiveWeight(c: Category): (w: real)
    ensures (c.weight.None? || c.weight.value >= 0.0) && (c.peso.None? || c.peso.value >= 0.0) ==> w > 0.0
  {
    if c.weight.Some? && c.weight.value != 0.0 then c.weight.value
    else if c.peso.Some? && c.peso.value != 0.0 then c.peso.value
    else DEFAULT_WEIGHT
  }

  predicate NonNegativeWeights(c: Category) {
    (c.weight.None? || c.weight.value >= 0.0) && (c.peso.None? || c.peso.value >= 0.0)
  }

  /** The average of the questions of category `c`. */
  function AverageOf(c: Category, questions: seq<Question>, answers: Answers, options: seq<AnswerOption>): real {
    CategoryAverage(Filter(questions, c.id), answers, options)
  }

  /** What a category adds to the weight total: its weight / 100, or nothing when it has
      no questions. */
  function WeightTerm(c: Category, questions: seq<Question>): real {
    if |Filter(questions, c.id)| > 0 then EffectiveWeight(c) / 100.0 else 0.0
  }

  /** What a category adds to the weighted sum: its average times its weight term (a
      category without questions adds nothing, as its weight term is 0). */
  function WeightedTerm(c: Category, questions: seq<Question>, answers: Answers, options: seq<AnswerOption>): real {
    AverageOf(c, questions, answers, options) * WeightTerm(c, questions)
  }

  /** `WeightedTerm`, `WeightTerm` and `AverageOf` as functions of the category. */
  function WeightedTerms(questions: seq<Question>, answers: Answers, options: seq<AnswerOption>): Category -> real {
    c => WeightedTerm(c, questions, answers, options)
  }

  function WeightTerms(questions: seq<Question>): Category -> real {
    c => WeightTerm(c, questions)
  }

  function Averages(questions: seq<Question>, answers: Answers, options: seq<AnswerOption>): Category -> real {
    c => AverageOf(c, questions, answers, options)
  }

  function WeightedSum(cats: seq<Category>, questions: seq<Question>, answers: Answers, options: seq<AnswerOption>): real {
    SumOver(cats, WeightedTerms(questions, answers, options))
  }

  function WeightTotal(cats: seq<Category>, questions: seq<Question>): real {
    SumOver(cats, WeightTerms(questions))
  }

  /** The weighted average of the category averages, 0 without categories or when no
      weight accumulates. */
  function TotalAverage(cats: seq<Category>, questions: seq<Question>, answers: Answers, options: seq<AnswerOption>): real {
    if |cats| == 0 then 0.0
    else
      var w := WeightTotal(cats, questions);
      if w == 0.0 then 0.0 else WeightedSum(cats, questions, answers, options) / w
  }

  /** `validarRespuestas`: every question has a truthy answer. */
  predicate AllAnswered(questions: seq<Question>, answers: Answers) {
    forall i :: 0 <= i < |questions| ==> Truthy(AnswerOf(answers, questions[i].id))
  }

  /** `formularioCompleto`: there are questions and every one is answered. */
  predicate FormComplete(questions: seq<Question>, answers: Answers) {
    |questions| > 0 && AllAnswered(questions, answers)
  }

  // ---------------------------------------------------------------------------
  // The loops of the client

  /** Sums the points of the answered questions of `qs`. */
  method SumAnsweredPoints(qs: seq<Question>, answers: Answers, options: seq<AnswerOption>) returns (total: real)
    ensures total == PointsSum(qs, answers, options)
  {
    total := 0.0;
    var i := 0;
    while i < |qs|
      invariant 0 <= i <= |qs|
      invariant total == PointsSum(qs[..i], answers, options)
    {
      var answer := if qs[i].id in answers then answers[qs[i].id] else Undefined;
      if Truthy(answer) {
        total := total + QuestionPoints(answer, options);
      }
      assert qs[..i + 1][..i] == qs[..i];
      i := i + 1;
    }
    assert qs[..|qs|] == qs;
  }

  /** `calcularPuntajeCategoria`: the average of the category, 0 for an unknown or
      empty category. */
  method CategoryScore(categories: seq<Category>, questions: seq<Question>, options: seq<AnswerOption>,
                       answers: Answers, categoryId: int) returns (score: real)
    ensures score == CategoryAverage(Group(categories, questions, categoryId), answers, options)
    ensures !HasCategory(categories, categoryId) ==> score == 0.0
  {
    var qs := Group(categories, questions, categoryId);
    if |qs| == 0 {
      return 0.0;
    }
    var total := SumAnsweredPoints(qs, answers, options);
    score := total / |qs| as real;
  }

  /** `calcularPuntajeTotal`: accumulates average times weight and the weights over the
      categories that have questions, then divides. */
  method TotalScore(categories: seq<Category>, questions: seq<Question>, options: seq<AnswerOption>,
                    answers: Answers) returns (score: real)
    ensures score == TotalAverage(categories, questions, answers, options)
  {
    if |categories| == 0 {
      return 0.0;
    }
    var weighted, weights := 0.0, 0.0;
    for i := 0 to |categories|
      invariant weighted == WeightedSum(categories[..i], questions, answers, options)
      invariant weights == WeightTotal(categories[..i], questions)
    {
      var c := categories[i];
      var qs := Group(categories, questions, c.id);
      GroupOfListed(categories, i, questions);
      if |qs| > 0 {
        var sum := SumAnsweredPoints(qs, answers, options);
        var average := sum / |qs| as real;
        var w := EffectiveWeight(c);
        SumStep(categories, i, questions, answers, options);
        ContributingTerms(c, questions, answers, options);
        weighted := weighted + average * (w / 100.0);
        weights := weights + w / 100.0;
      } else {
        SumStep(categories, i, questions, answers, options);
        SilentTerms(c, questions, answers, options);
      }
    }
    assert categories[..|categories|] == categories;
    if weights == 0.0 {
      return 0.0;
    }
    score := weighted / weights;
  }

  lemma GroupOfListed(cats: seq<Category>, i: nat, questions: seq<Question>)
    requires i < |cats|
    ensures Group(cats, questions, cats[i].id) == Filter(questions, cats[i].id)
  {
  }

  lemma SumStep(cats: seq<Category>, i: nat, questions: seq<Question>, answers: Answers, options: seq<AnswerOption>)
    requires i < |cats|
    ensures WeightedSum(cats[..i + 1], questions, answers, options)
         == WeightedSum(cats[..i], questions, answers, options) + WeightedTerm(cats[i], questions, answers, options)
    ensures WeightTotal(cats[..i + 1], questions) == WeightTotal(cats[..i], questions) + WeightTerm(cats[i], questions)
  {
    assert cats[..i + 1][..i] == cats[..i];
  }

  lemma ContributingTerms(c: Category, questions: seq<Question>, answers: Answers, options: seq<AnswerOption>)
    requires Contributes(c, questions)
    ensures WeightTerm(c, questions) == EffectiveWeight(c) / 100.0
    ensures WeightedTerm(c, questions, answers, options)
         == PointsSum(Filter(questions, c.id), answers, options) / |Filter(questions, c.id)| as real * (EffectiveWeight(c) / 100.0)
  {
  }

  lemma SilentTerms(c: Category, questions: seq<Question>, answers: Answers, options: seq<AnswerOption>)
    requires !Contributes(c, questions)
    ensures WeightTerm(c, questions) == 0.0 && WeightedTerm(c, questions, answers, options) == 0.0
  {
  }

  // ---------------------------------------------------------------------------
  // Properties

  /** No answer scores above a bound `m` that covers the label table and every option. */
  lemma QuestionPointsBounds(answer: Value, options: seq<AnswerOption>, m: real)
    requires 5.0 <= m
    requires forall i :: 0 <= i < |options| ==> OptionPoints(options[i]) <= m
    ensures QuestionPoints(answer, options) <= m
    ensures (forall i :: 0 <= i < |options| ==> OptionPoints(options[i]) >= 0.0) ==> QuestionPoints(answer, options) >= 0.0
  {
    match FirstMatch(options, answer)
    case Some(i) =>
    case None =>
  }

  /** A category's point sum is at most the question count times a bound on every
      answer's points, and not negative when no option gives negative points. */
  lemma PointsSumBounds(qs: seq<Question>, answers: Answers, options: seq<AnswerOption>, m: real)
    requires 5.0 <= m
    requires forall i :: 0 <= i < |options| ==> OptionPoints(options[i]) <= m
    ensures PointsSum(qs, answers, options) <= |qs| as real * m
    ensures (forall i :: 0 <= i < |options| ==> OptionPoints(options[i]) >= 0.0) ==> PointsSum(qs, answers, options) >= 0.0
  {
    var f := q => AnsweredPoints(q, answers, options);
    forall i | 0 <= i < |qs|
      ensures f(qs[i]) <= m
      ensures (forall j :: 0 <= j < |options| ==> OptionPoints(options[j]) >= 0.0) ==> f(qs[i]) >= 0.0
    {
      QuestionPointsBounds(AnswerOf(answers, qs[i].id), options, m);
    }
    SumOverUpper(qs, f, m);
    if forall j :: 0 <= j < |options| ==> OptionPoints(options[j]) >= 0.0 {
      SumOverNonNegative(qs, f);
    }
  }

  /** A category average never exceeds the largest point value, and is not negative
      when no option gives negative points. */
  lemma CategoryAverageBounds(qs: seq<Question>, answers: Answers, options: seq<AnswerOption>, m: real)
    requires 5.0 <= m
    requires forall i :: 0 <= i < |options| ==> OptionPoints(options[i]) <= m
    ensures CategoryAverage(qs, answers, options) <= m
    ensures (forall i :: 0 <= i < |options| ==> OptionPoints(options[i]) >= 0.0) ==> CategoryAverage(qs, answers, options) >= 0.0
  {
    PointsSumBounds(qs, answers, options, m);
    if |qs| > 0 {
      var sum, n := PointsSum(qs, answers, options), |qs| as real;
      DivUpper(sum, n, m);
      if sum >= 0.0 {
        DivLower(sum, n, 0.0);
      }
    }
  }

  /** Questions that all add the same points sum to the count times those points. */
  lemma PointsSumAllAt(qs: seq<Question>, answers: Answers, options: seq<AnswerOption>, m: real)
    requires forall i :: 0 <= i < |qs| ==> AnsweredPoints(qs[i], answers, options) == m
    ensures PointsSum(qs, answers, options) == |qs| as real * m
  {
    SumOverConst(qs, q => AnsweredPoints(q, answers, options), m);
  }

  lemma AverageOfConstant(qs: seq<Question>, answers: Answers, options: seq<AnswerOption>, m: real)
    requires |qs| > 0
    requires forall i :: 0 <= i < |qs| ==> AnsweredPoints(qs[i], answers, options) == m
    ensures CategoryAverage(qs, answers, options) == m
  {
    SumOverConstMean(qs, q => AnsweredPoints(q, answers, options), m);
  }

  /** When every question of a category is answered at `m` points, the category average
      is `m`. */
  lemma CategoryAverageAllAt(qs: seq<Question>, answers: Answers, options: seq<AnswerOption>, m: real)
    requires |qs| > 0
    requires forall i :: 0 <= i < |qs| ==> Truthy(AnswerOf(answers, qs[i].id))
    requires forall i :: 0 <= i < |qs| ==> QuestionPoints(AnswerOf(answers, qs[i].id), options) == m
    ensures CategoryAverage(qs, answers, options) == m
  {
    assert forall i :: 0 <= i < |qs| ==> AnsweredPoints(qs[i], answers, options) == m;
    AverageOfConstant(qs, answers, options, m);
  }

  /** A category without questions scores 0 and adds no weight. */
  lemma WeightTotalWithoutQuestions(cats: seq<Category>, questions: seq<Question>)
    requires forall i :: 0 <= i < |cats| ==> |Filter(questions, cats[i].id)| == 0
    ensures WeightTotal(cats, questions) == 0.0
  {
    SumOverZero(cats, WeightTerms(questions));
  }

  /** The total is 0 when no category has a question. */
  lemma TotalAverageWithoutQuestions(cats: seq<Category>, questions: seq<Question>, answers: Answers, options: seq<AnswerOption>)
    requires forall i :: 0 <= i < |cats| ==> |Filter(questions, cats[i].id)| == 0
    ensures TotalAverage(cats, questions, answers, options) == 0.0
  {
    WeightTotalWithoutQuestions(cats, questions);
  }

  predicate Contributes(c: Category, questions: seq<Question>) {
    |Filter(questions, c.id)| > 0
  }

  lemma WeightTermSign(c: Category, questions: seq<Question>)
    requires NonNegativeWeights(c)
    ensures WeightTerm(c, questions) >= 0.0
    ensures Contributes(c, questions) ==> WeightTerm(c, questions) > 0.0
  {
  }

  /** With non-negative weights the weight total is positive as soon as one category
      has questions. */
  lemma WeightTotalPositive(cats: seq<Category>, questions: seq<Question>)
    requires forall i :: 0 <= i < |cats| ==> NonNegativeWeights(cats[i])
    requires exists i :: 0 <= i < |cats| && Contributes(cats[i], questions)
    ensures WeightTotal(cats, questions) > 0.0
  {
    var g := WeightTerms(questions);
    var i :| 0 <= i < |cats| && Contributes(cats[i], questions);
    assert g(cats[i]) > 0.0;
    SumOverNonNegative(cats, g);
  }

  lemma WeightTermsNonNegative(cats: seq<Category>, questions: seq<Question>)
    requires forall i :: 0 <= i < |cats| ==> NonNegativeWeights(cats[i])
    ensures forall i :: 0 <= i < |cats| ==> WeightTerms(questions)(cats[i]) >= 0.0
  {
    forall i | 0 <= i < |cats|
      ensures WeightTerm(cats[i], questions) >= 0.0
    {
      WeightTermSign(cats[i], questions);
    }
  }

  lemma WeightedWithin(cats: seq<Category>, questions: seq<Question>, answers: Answers,
                       options: seq<AnswerOption>, lo: real, hi: real)
    requires forall i :: 0 <= i < |cats| && Contributes(cats[i], questions) ==>
      lo <= AverageOf(cats[i], questions, answers, options) <= hi
    ensures forall i :: 0 <= i < |cats| && WeightTerms(questions)(cats[i]) > 0.0 ==>
      lo <= Averages(questions, answers, options)(cats[i]) <= hi
  {
  }

  lemma TermsAreProducts(questions: seq<Question>, answers: Answers, options: seq<AnswerOption>)
    ensures forall c :: WeightedTerms(questions, answers, options)(c) ==
                        Averages(questions, answers, options)(c) * WeightTerms(questions)(c)
  {
  }

  lemma RatioBounds(cats: seq<Category>, questions: seq<Question>, answers: Answers,
                    options: seq<AnswerOption>, lo: real, hi: real)
    requires forall c :: WeightedTerms(questions, answers, options)(c) ==
                         Averages(questions, answers, options)(c) * WeightTerms(questions)(c)
    requires forall i :: 0 <= i < |cats| ==> WeightTerms(questions)(cats[i]) >= 0.0
    requires forall i :: 0 <= i < |cats| && WeightTerms(questions)(cats[i]) > 0.0 ==>
      lo <= Averages(questions, answers, options)(cats[i]) <= hi
    requires WeightTotal(cats, questions) > 0.0
    ensures lo <= WeightedSum(cats, questions, answers, options) / WeightTotal(cats, questions) <= hi
  {
    WeightedAverageBounds(cats, WeightedTerms(questions, answers, options), WeightTerms(questions),
                          Averages(questions, answers, options), lo, hi);
  }

  /** With non-negative weights, the total lies between the smallest and the largest
      average of the categories that have questions. */
  lemma TotalAverageBounds(cats: seq<Category>, questions: seq<Question>, answers: Answers,
                           options: seq<AnswerOption>, lo: real, hi: real)
    requires forall i :: 0 <= i < |cats| ==> NonNegativeWeights(cats[i])
    requires forall i :: 0 <= i < |cats| && Contributes(cats[i], questions) ==>
      lo <= AverageOf(cats[i], questions, answers, options) <= hi
    requires exists i :: 0 <= i < |cats| && Contributes(cats[i], questions)
    ensures lo <= TotalAverage(cats, questions, answers, options) <= hi
  {
    WeightTotalPositive(cats, questions);
    WeightTermsNonNegative(cats, questions);
    TermsAreProducts(questions, answers, options);
    WeightedWithin(cats, questions, answers, options, lo, hi);
    RatioBounds(cats, questions, answers, options, lo, hi);
  }

  /** The total does not depend on the order in which the categories are listed. */
  lemma TotalAverageOrderIrrelevant(cats: seq<Category>, reordered: seq<Category>, questions: seq<Question>,
                                    answers: Answers, options: seq<AnswerOption>)
    requires multiset(cats) == multiset(reordered)
    ensures TotalAverage(cats, questions, answers, options) == TotalAverage(reordered, questions, answers, options)
  {
    SumOverPermutation(cats, reordered, WeightedTerms(questions, answers, options));
    SumOverPermutation(cats, reordered, WeightTerms(questions));
    assert |cats| == |multiset(cats)| == |reordered|;
  }

  const HALF_CATS := [Category(1, Some(50.0), None), Category(2, Some(50.0), None)]
  const HALF_QUESTIONS := [Question(10, 1), Question(11, 1), Question(20, 2), Question(21, 2)]
  const HALF_ANSWERS: Answers := map[10 := Str("Si"), 11 := Str("Si")]

  lemma HalfScenarioFilter()
    ensures Filter(HALF_QUESTIONS, 1) == HALF_QUESTIONS[..2]
    ensures Filter(HALF_QUESTIONS, 2) == HALF_QUESTIONS[2..]
  {
    var qs, first := HALF_QUESTIONS, HALF_QUESTIONS[..2];
    assert qs[..3][..2] == qs[..2] == first && qs[..2][..1] == qs[..1] && qs[..1][..0] == [];
    assert Filter(qs[..2], 1) == first && Filter(qs[..2], 2) == [];
    assert Filter(qs[..3], 1) == first && Filter(qs[..3], 2) == [Question(20, 2)];
  }

  lemma HalfScenarioAverages()
    ensures AverageOf(HALF_CATS[0], HALF_QUESTIONS, HALF_ANSWERS, []) == 5.0
    ensures AverageOf(HALF_CATS[1], HALF_QUESTIONS, HALF_ANSWERS, []) == 0.0
  {
    var first, second := HALF_QUESTIONS[..2], HALF_QUESTIONS[2..];
    HalfScenarioFilter();
    assert first == [Question(10, 1), Question(11, 1)] && second == [Question(20, 2), Question(21, 2)];
    assert AnsweredPoints(first[0], HALF_ANSWERS, []) == 5.0 && AnsweredPoints(first[1], HALF_ANSWERS, []) == 5.0;
    PointsSumAllAt(first, HALF_ANSWERS, [], 5.0);
    assert AnsweredPoints(second[0], HALF_ANSWERS, []) == 0.0 && AnsweredPoints(second[1], HALF_ANSWERS, []) == 0.0;
    PointsSumAllAt(second, HALF_ANSWERS, [], 0.0);
  }

  /** Two categories of weight 50 with two questions each: answering both questions of
      the first with "Si" and none of the second scores the first at the maximum 5, the
      second at 0, and the form at half the maximum. */
  lemma HalfAnsweredScenario()
    ensures var cats := [Category(1, Some(50.0), None), Category(2, Some(50.0), None)];
            var qs := [Question(10, 1), Question(11, 1), Question(20, 2), Question(21, 2)];
            var answers := map[10 := Str("Si"), 11 := Str("Si")];
            AverageOf(cats[0], qs, answers, []) == 5.0 &&
            AverageOf(cats[1], qs, answers, []) == 0.0 &&
            TotalAverage(cats, qs, answers, []) == 2.5
  {
    var cats, qs, answers := HALF_CATS, HALF_QUESTIONS, HALF_ANSWERS;
    HalfScenarioAverages();
    HalfScenarioFilter();
    assert cats[..1] == [cats[0]] && cats[..1][..0] == [];
    assert WeightTerm(cats[0], qs) == 0.5 && WeightTerm(cats[1], qs) == 0.5;
    assert WeightedTerm(cats[0], qs, answers, []) == 2.5 && WeightedTerm(cats[1], qs, answers, []) == 0.0;
    var f, g := WeightedTerms(qs, answers, []), WeightTerms(qs);
    assert SumOver(cats[..1][..0], g) == 0.0 && SumOver(cats[..1][..0], f) == 0.0;
    assert SumOver(cats[..1], g) == 0.5 && SumOver(cats[..1], f) == 2.5;
    assert SumOver(cats, g) == 1.0 && SumOver(cats, f) == 2.5;
    assert WeightTotal(cats, qs) == 1.0;
    assert WeightedSum(cats, qs, answers, []) == 2.5;
  }
}
