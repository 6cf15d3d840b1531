/**
 * The quiz page (script.js): a cursor over the loaded questions, one answer
 * record per question, the submit / previous / next handlers, the rendering
 * decisions of `displayQuestion` and `displayFeedback`, and the final score.
 *
 * The DOM is reduced to the values the handlers read and write: the checked
 * state of the rendered inputs is a parameter of `Submit`, and what a
 * rendering shows is returned as a `View`.
 */
module Quiz {
  import opened Wrappers
  import opened JsOrder

  /** A question as the quiz logic sees it: how many options it offers and which are correct. */
  datatype Question = Question(optionCount: nat, correct: seq<int>)

  /** The record `{ selected, submitted }` kept for each question. */
  datatype Answer = Answer(selected: seq<int>, submitted: bool)

  /** The class `displayFeedback` puts on an option. */
  datatype Mark = Unmarked | MarkedCorrect | MarkedIncorrect

  /** One rendered option: its input's `checked` and `disabled`, and the option's mark. */
  datatype OptionView = OptionView(checked: bool, disabled: bool, mark: Mark)

  /**
   * One rendering of a question: the "Question p of n" progress, the options,
   * whether the submit button is shown, and the "Correct!" (true) or
   * "Incorrect." (false) message when there is one.
   */
  datatype View = View(position: nat, total: nat, options: seq<OptionView>,
                       submitVisible: bool, verdict: Option<bool>)

  /** What the next button leads to: another question, or the final score alert. */
  datatype NextOutcome = Moved(view: View) | Completed(score: nat, total: nat)

  /**
   * The comparison `arraysEqual(a, b)`: same length, and `!==` nowhere along
   * the two lists.
   */
  method ArraysEqual(a: seq<int>, b: seq<int>) returns (eq: bool)
    ensures eq <==> |a| == |b| && forall i :: 0 <= i < |a| ==> a[i] == b[i]
    ensures eq <==> a == b
  {
    if |a| != |b| {
      return false;
    }
    var i := 0;
    while i < |a|
      invariant 0 <= i <= |a|
      invariant forall k :: 0 <= k < i ==> a[k] == b[k]
    {
      if a[i] != b[i] {
        return false;
      }
      i := i + 1;
    }
    return true;
  }

  /**
   * The `parseInt` values of the checked inputs, in document order: the
   * indices of the checked options, increasing.
   */
  function CheckedIndices(checked: seq<bool>): (r: seq<int>)
    ensures forall i :: i in r <==> 0 <= i < |checked| && checked[i]
    ensures forall j :: 0 <= j < |r| ==> 0 <= r[j] < |checked|
    ensures forall j, k :: 0 <= j < k < |r| ==> r[j] < r[k]
  {
    if checked == [] then []
    else
      var n := |checked| - 1;
      var front := CheckedIndices(checked[..n]);
      assert forall i :: 0 <= i < n ==> checked[..n][i] == checked[i];
      front + (if checked[n] then [n] else [])
  }

  /**
   * The judgement `arraysEqual(selected.sort(), correct.sort())`: an answer
   * judged correct has as many indices as the correct list, and the same ones.
   */
  function Judged(selected: seq<int>, correct: seq<int>): (judged: bool)
    ensures judged ==> |selected| == |correct|
    ensures judged ==> forall x :: x in selected <==> x in correct
  {
    var sorted := JsSort(selected);
    var sortedCorrect := JsSort(correct);
    if sorted == sortedCorrect then
      SameElements(selected, correct);
      true
    else false
  }

  /** Lists holding the same elements have the same length and the same members. */
  lemma SameElements(a: seq<int>, b: seq<int>)
    requires multiset(a) == multiset(b)
    ensures |a| == |b|
    ensures forall x :: x in a <==> x in b
  {
    assert |a| == |multiset(a)| == |multiset(b)| == |b|;
    forall x
      ensures x in a <==> x in b
    {
      assert x in a <==> x in multiset(a);
      assert x in b <==> x in multiset(b);
    }
  }

  /**
   * Because both sides are sorted by the same order before the elementwise
   * comparison, an answer is judged correct exactly when the selection is a
   * permutation of the correct indices.
   */
  lemma JudgedIffPermutation(selected: seq<int>, correct: seq<int>)
    ensures Judged(selected, correct) <==> multiset(selected) == multiset(correct)
  {
    SortEqualIffPermutation(selected, correct);
  }

  /** The answer record after `selected.sort()` has reordered it in place. */
  function SortAnswer(a: Answer): Answer
  {
    a.(selected := JsSort(a.selected))
  }

  /** The question after `correct.sort()` has reordered it in place. */
  function SortQuestion(q: Question): Question
  {
    q.(correct := JsSort(q.correct))
  }

  /** The highlighting decision of `displayFeedback` for option `i`. */
  function Highlight(q: Question, a: Answer, i: int): (m: Mark)
    ensures m == MarkedCorrect <==> a.submitted && i in q.correct
    ensures m == MarkedIncorrect <==> a.submitted && i !in q.correct && i in a.selected
    ensures m == Unmarked <==> !a.submitted || (i !in q.correct && i !in a.selected)
  {
    if !a.submitted then Unmarked
    else if i in q.correct then MarkedCorrect
    else if i in a.selected then MarkedIncorrect
    else Unmarked
  }

  /** What `displayQuestion` shows for question `q`, number `index`, with answer `a`. */
  function ViewOf(q: Question, a: Answer, index: nat, total: nat): (v: View)
    ensures v.position == index + 1 && v.total == total && |v.options| == q.optionCount
    ensures v.submitVisible <==> !a.submitted
    ensures v.verdict.Some? <==> a.submitted
    ensures forall i :: 0 <= i < q.optionCount ==>
      && (v.options[i].checked <==> i in a.selected)
      && (v.options[i].disabled <==> a.submitted)
  {
    View(index + 1, total,
         seq(q.optionCount, i => OptionView(i in a.selected, a.submitted, Highlight(q, a, i))),
         !a.submitted,
         if a.submitted then Some(Judged(a.selected, q.correct)) else None)
  }

  /**
   * What a rendering means: inputs are disabled and the submit button hidden
   * exactly once the question is submitted; only then is there a verdict,
   * and it is "Correct!" exactly when the selection is a permutation of the
   * correct indices; an option is marked correct iff it is a correct index,
   * marked incorrect iff it is selected but not correct, and otherwise left
   * unmarked.
   */
  lemma FeedbackMeaning(q: Question, a: Answer, index: nat, total: nat)
    ensures var v := ViewOf(q, a, index, total);
      && v.position == index + 1 && v.total == total
      && |v.options| == q.optionCount
      && (v.submitVisible <==> !a.submitted)
      && (v.verdict.Some? <==> a.submitted)
      && (v.verdict == Some(true) <==> a.submitted && multiset(a.selected) == multiset(q.correct))
      && forall i :: 0 <= i < q.optionCount ==>
           && (v.options[i].checked <==> i in a.selected)
           && (v.options[i].disabled <==> a.submitted)
           && (v.options[i].mark == MarkedCorrect <==> a.submitted && i in q.correct)
           && (v.options[i].mark == MarkedIncorrect <==> a.submitted && i !in q.correct && i in a.selected)
  {
    JudgedIffPermutation(a.selected, q.correct);
  }

  /** Whether question `q` with answer `a` adds one to the score. */
  predicate Counts(q: Question, a: Answer)
  {
    a.submitted && Judged(a.selected, q.correct)
  }

  /** The score loop after its first `n` iterations. */
  function CountCorrect(qs: seq<Question>, answers: seq<Answer>, n: nat): (r: nat)
    requires n <= |qs| == |answers|
    ensures r <= n
  {
    if n == 0 then 0
    else CountCorrect(qs, answers, n - 1) + (if Counts(qs[n - 1], answers[n - 1]) then 1 else 0)
  }

  /** The score reported when the next button is pressed on the last question. */
  function Score(qs: seq<Question>, answers: seq<Answer>): (r: nat)
    requires |qs| == |answers|
    ensures 0 <= r <= |qs|
  {
    CountCorrect(qs, answers, |qs|)
  }

  /** The questions among the first `n` that are submitted and answered with a permutation of the correct indices. */
  function CorrectlyAnswered(qs: seq<Question>, answers: seq<Answer>, n: nat): set<nat>
    requires n <= |qs| == |answers|
  {
    set i: nat | i < n && AnsweredCorrectly(qs[i], answers[i])
  }

  /** Question `i` is submitted and answered with a permutation of its correct indices. */
  predicate AnsweredCorrectly(q: Question, a: Answer)
  {
    a.submitted && multiset(a.selected) == multiset(q.correct)
  }

  lemma CountsIffAnsweredCorrectly(q: Question, a: Answer)
    ensures Counts(q, a) <==> AnsweredCorrectly(q, a)
  {
    JudgedIffPermutation(a.selected, q.correct);
  }

  lemma CorrectlyAnsweredStep(qs: seq<Question>, answers: seq<Answer>, n: nat)
    requires 0 < n <= |qs| == |answers|
    ensures |CorrectlyAnswered(qs, answers, n)| ==
      |CorrectlyAnswered(qs, answers, n - 1)| + (if AnsweredCorrectly(qs[n - 1], answers[n - 1]) then 1 else 0)
  {
    var before := CorrectlyAnswered(qs, answers, n - 1);
    assert n - 1 !in before;
    if AnsweredCorrectly(qs[n - 1], answers[n - 1]) {
      assert CorrectlyAnswered(qs, answers, n) == before + {n - 1};
    } else {
      assert CorrectlyAnswered(qs, answers, n) == before;
    }
  }

  /**
   * The score is the number of questions that are submitted and judged
   * correct; unsubmitted questions never count.
   */
  lemma {:induction false} CountCorrectIsCorrectlyAnswered(qs: seq<Question>, answers: seq<Answer>, n: nat)
    requires n <= |qs| == |answers|
    ensures CountCorrect(qs, answers, n) == |CorrectlyAnswered(qs, answers, n)|
  {
    if n > 0 {
      CountCorrectIsCorrectlyAnswered(qs, answers, n - 1);
      CountsIffAnsweredCorrectly(qs[n - 1], answers[n - 1]);
      CorrectlyAnsweredStep(qs, answers, n);
    }
  }

  lemma ScoreIsCorrectlyAnswered(qs: seq<Question>, answers: seq<Answer>)
    requires |qs| == |answers|
    ensures Score(qs, answers) == |CorrectlyAnswered(qs, answers, |qs|)|
  {
    CountCorrectIsCorrectlyAnswered(qs, answers, |qs|);
  }

  /** Two quiz states that differ only in the order of the stored lists. */
  ghost predicate SameUpToOrder(qs: seq<Question>, answers: seq<Answer>, qs': seq<Question>, answers': seq<Answer>)
  {
    && |qs| == |answers| == |qs'| == |answers'|
    && forall i :: 0 <= i < |qs| ==>
         && answers'[i].submitted == answers[i].submitted
         && multiset(answers'[i].selected) == multiset(answers[i].selected)
         && multiset(qs'[i].correct) == multiset(qs[i].correct)
  }

  /**
   * The in-place sorts done while rendering or scoring never change a later
   * score: pressing next on the last question twice reports the same score.
   */
  lemma {:induction false} CountCorrectIgnoresOrder(qs: seq<Question>, answers: seq<Answer>,
                                                    qs': seq<Question>, answers': seq<Answer>, n: nat)
    requires SameUpToOrder(qs, answers, qs', answers')
    requires n <= |qs|
    ensures CountCorrect(qs', answers', n) == CountCorrect(qs, answers, n)
  {
    if n > 0 {
      CountCorrectIgnoresOrder(qs, answers, qs', answers', n - 1);
      JudgedIffPermutation(answers[n - 1].selected, qs[n - 1].correct);
      JudgedIffPermutation(answers'[n - 1].selected, qs'[n - 1].correct);
    }
  }

  /** The effect on the stored lists of rendering question `i`: its lists are sorted once it is submitted. */
  ghost predicate RenderedAt(qs0: seq<Question>, answers0: seq<Answer>, qs: seq<Question>, answers: seq<Answer>, i: nat)
    requires i < |qs0| == |answers0|
  {
    if answers0[i].submitted then
      qs == qs0[i := SortQuestion(qs0[i])] && answers == answers0[i := SortAnswer(answers0[i])]
    else
      qs == qs0 && answers == answers0
  }

  /**
   * The option loop of `displayQuestion`: an input per option, checked when
   * its index is among the selection, disabled once the question is submitted.
   */
  method RenderInputs(q: Question, a: Answer) returns (options: seq<OptionView>)
    ensures |options| == q.optionCount
    ensures forall k :: 0 <= k < q.optionCount ==>
      options[k] == OptionView(k in a.selected, a.submitted, Unmarked)
  {
    options := [];
    var i := 0;
    while i < q.optionCount
      invariant 0 <= i <= q.optionCount
      invariant |options| == i
      invariant forall k :: 0 <= k < i ==> options[k] == OptionView(k in a.selected, a.submitted, Unmarked)
    {
      options := options + [OptionView(i in a.selected, a.submitted, Unmarked)];
      i := i + 1;
    }
  }

  /**
   * The option loop of `displayFeedback`: an option whose index is correct
   * gets the correct mark, else one that was selected gets the incorrect mark;
   * the inputs themselves are left as they are.
   */
  method MarkOptions(options: seq<OptionView>, correct: seq<int>, selected: seq<int>) returns (marked: seq<OptionView>)
    ensures |marked| == |options|
    ensures forall k :: 0 <= k < |options| ==>
      && marked[k].checked == options[k].checked && marked[k].disabled == options[k].disabled
      && marked[k].mark == (if k in correct then MarkedCorrect
                            else if k in selected then MarkedIncorrect
                            else options[k].mark)
  {
    marked := options;
    var i := 0;
    while i < |options|
      invariant 0 <= i <= |options| == |marked|
      invariant forall k :: 0 <= k < i ==>
        && marked[k].checked == options[k].checked && marked[k].disabled == options[k].disabled
        && marked[k].mark == (if k in correct then MarkedCorrect
                              else if k in selected then MarkedIncorrect
                              else options[k].mark)
      invariant forall k :: i <= k < |options| ==> marked[k] == options[k]
    {
      if i in correct {
        marked := marked[i := marked[i].(mark := MarkedCorrect)];
      } else if i in selected {
        marked := marked[i := marked[i].(mark := MarkedIncorrect)];
      }
      i := i + 1;
    }
  }

  /**
   * The effect on the stored lists of the first `n` iterations of the score
   * loop: every submitted question among them has its selection and its
   * correct list sorted; the rest are as they were.
   */
  ghost predicate Scored(qs0: seq<Question>, answers0: seq<Answer>, qs: seq<Question>, answers: seq<Answer>, n: nat)
  {
    && n <= |qs0| == |answers0| == |qs| == |answers|
    && forall k :: 0 <= k < n ==>
         answers[k] == ScoredAnswer(answers0[k]) && qs[k] == ScoredQuestion(qs0[k], answers0[k])
  }

  /** An answer after the score loop: sorted in place when submitted. */
  function ScoredAnswer(a: Answer): Answer
  {
    if a.submitted then SortAnswer(a) else a
  }

  /** A question after the score loop: its correct list sorted in place when its answer is submitted. */
  function ScoredQuestion(q: Question, a: Answer): Question
  {
    if a.submitted then SortQuestion(q) else q
  }

  /** The module-level state of the page: `questions`, `currentIndex` and `userAnswers`. */
  class QuizPage {
    var questions: seq<Question>
    var answers: seq<Answer>
    var currentIndex: int

    /** One answer per question, and the cursor on a question (or at 0 while there is none). */
    ghost predicate Valid()
      reads this
    {
      |answers| == |questions| && 0 <= currentIndex && (currentIndex < |questions| || currentIndex == 0)
    }

    /** The page before the questions arrive. */
    constructor ()
      ensures Valid()
      ensures questions == [] && answers == [] && currentIndex == 0
    {
      questions := [];
      answers := [];
      currentIndex := 0;
    }

    /**
     * The questions have been fetched: one empty, unsubmitted answer per
     * question, then the first question is rendered (which fails when there
     * is no question).
     */
    method Load(data: seq<Question>) returns (v: Option<View>)
      requires Valid() && questions == []
      modifies this
      ensures Valid()
      ensures questions == data && currentIndex == 0
      ensures |answers| == |data| && forall i :: 0 <= i < |answers| ==> answers[i] == Answer([], false)
      ensures v == if data == [] then None else Some(ViewOf(data[0], Answer([], false), 0, |data|))
    {
      questions := data;
      answers := seq(|data|, _ => Answer([], false));
      if data == [] {
        v := None;
      } else {
        var view := Display();
        v := Some(view);
      }
    }

    /**
     * `displayQuestion` followed by `displayFeedback` on the current question.
     * Rendering a submitted question sorts its selection and its correct
     * indices in place.
     */
    method Display() returns (v: View)
      requires Valid() && |questions| > 0
      modifies this
      ensures Valid() && currentIndex == old(currentIndex)
      ensures RenderedAt(old(questions), old(answers), questions, answers, currentIndex)
      ensures v == ViewOf(old(questions[currentIndex]), old(answers[currentIndex]), currentIndex, |questions|)
    {
      var q := questions[currentIndex];
      var a := answers[currentIndex];
      var options := RenderInputs(q, a);
      var verdict: Option<bool> := None;
      if a.submitted {
        var selected := JsSort(a.selected);
        answers := answers[currentIndex := a.(selected := selected)];
        var correct := JsSort(q.correct);
        questions := questions[currentIndex := q.(correct := correct)];
        var same := ArraysEqual(selected, correct);
        verdict := Some(same);
        options := MarkOptions(options, correct, selected);
        forall k | 0 <= k < q.optionCount ensures options[k].mark == Highlight(q, a, k) {
          SortKeepsMembers(q.correct, k);
          SortKeepsMembers(a.selected, k);
        }
      }
      assert options == ViewOf(q, a, currentIndex, |questions|).options;
      v := View(currentIndex + 1, |questions|, options, !a.submitted, verdict);
    }

    /**
     * The submit handler: the checked options become the current question's
     * selection, the question is marked submitted and rendered again. With
     * no question loaded the handler fails and nothing changes.
     */
    method Submit(checked: seq<bool>) returns (v: Option<View>)
      requires Valid()
      modifies this
      ensures Valid() && currentIndex == old(currentIndex)
      ensures old(questions) == [] ==> v == None && questions == old(questions) && answers == old(answers)
      ensures old(questions) != [] ==>
        var selection := CheckedIndices(checked);
        && answers == old(answers)[currentIndex := Answer(JsSort(selection), true)]
        && questions == old(questions)[currentIndex := SortQuestion(old(questions[currentIndex]))]
        && v == Some(ViewOf(old(questions[currentIndex]), Answer(selection, true), currentIndex, |questions|))
      ensures forall j :: 0 <= j < |answers| && j != currentIndex ==> answers[j] == old(answers[j])
    {
      if questions == [] {
        return None;
      }
      var selection := CheckedIndices(checked);
      answers := answers[currentIndex := Answer(selection, true)];
      var view := Display();
      assert view == ViewOf(old(questions[currentIndex]), Answer(selection, true), currentIndex, |questions|);
      v := Some(view);
    }

    /** The previous button: one question back, unless this is the first. */
    method Prev() returns (v: Option<View>)
      requires Valid()
      modifies this
      ensures Valid()
      ensures old(currentIndex) > 0 ==>
        && currentIndex == old(currentIndex) - 1
        && RenderedAt(old(questions), old(answers), questions, answers, currentIndex)
        && v == Some(ViewOf(old(questions)[currentIndex], old(answers)[currentIndex], currentIndex, |questions|))
      ensures old(currentIndex) == 0 ==>
        currentIndex == 0 && v == None && questions == old(questions) && answers == old(answers)
    {
      if currentIndex > 0 {
        currentIndex := currentIndex - 1;
        var view := Display();
        v := Some(view);
      } else {
        v := None;
      }
    }

    /**
     * The score loop of the next handler: counts the submitted questions whose
     * sorted selection equals their sorted correct list, sorting both lists of
     * every submitted question in place on the way.
     */
    method ComputeScore() returns (score: nat)
      requires Valid()
      modifies this
      ensures Valid() && currentIndex == old(currentIndex)
      ensures score == Score(old(questions), old(answers))
      ensures Scored(old(questions), old(answers), questions, answers, |questions|)
    {
      ghost var qs0, answers0 := questions, answers;
      score := 0;
      var i := 0;
      while i < |questions|
        invariant 0 <= i <= |questions| == |qs0| == |answers| == |answers0|
        invariant currentIndex == old(currentIndex)
        invariant score == CountCorrect(qs0, answers0, i)
        invariant Scored(qs0, answers0, questions, answers, i)
        invariant forall k :: i <= k < |questions| ==> answers[k] == answers0[k] && questions[k] == qs0[k]
      {
        var hit := ScoreOne(i);
        if hit {
          score := score + 1;
        }
        i := i + 1;
      }
    }

    /**
     * One iteration of the score loop: `submitted && arraysEqual(selected.sort(),
     * correct.sort())` for question `i`, the sorts done only when submitted.
     */
    method ScoreOne(i: nat) returns (hit: bool)
      requires Valid() && i < |questions|
      modifies this
      ensures Valid() && currentIndex == old(currentIndex)
      ensures hit == Counts(old(questions[i]), old(answers[i]))
      ensures answers == old(answers)[i := ScoredAnswer(old(answers[i]))]
      ensures questions == old(questions)[i := ScoredQuestion(old(questions[i]), old(answers[i]))]
    {
      hit := false;
      if answers[i].submitted {
        var selected := JsSort(answers[i].selected);
        answers := answers[i := answers[i].(selected := selected)];
        var correct := JsSort(questions[i].correct);
        questions := questions[i := questions[i].(correct := correct)];
        hit := ArraysEqual(selected, correct);
      }
    }

    /**
     * The next button: one question forward, unless this is the last; on the
     * last question the score is computed and reported.
     */
    method Next() returns (out: NextOutcome)
      requires Valid()
      modifies this
      ensures Valid()
      ensures old(currentIndex) < |old(questions)| - 1 ==>
        && currentIndex == old(currentIndex) + 1
        && RenderedAt(old(questions), old(answers), questions, answers, currentIndex)
        && out == Moved(ViewOf(old(questions)[currentIndex], old(answers)[currentIndex], currentIndex, |questions|))
      ensures old(currentIndex) >= |old(questions)| - 1 ==>
        && currentIndex == old(currentIndex)
        && out == Completed(Score(old(questions), old(answers)), |questions|)
        && Scored(old(questions), old(answers), questions, answers, |questions|)
    {
      if currentIndex < |questions| - 1 {
        currentIndex := currentIndex + 1;
        var view := Display();
        return Moved(view);
      }
      var score := ComputeScore();
      out := Completed(score, |questions|);
    }
  }
}
