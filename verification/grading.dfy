/** Grading a submission: the answer at position i is compared with the
    correct option of the quiz's i-th question. Answers past the last
    question are ignored; a missing answer is wrong. */
module Grading {
  import opened Common
  import opened Models

  /** The answer sent for position i; a position past the end of the
      answers array reads as `undefined`. */
  function AnswerAt(answers: seq<Option<int>>, i: nat): (a: Option<int>)
    ensures i >= |answers| ==> a.None?
  {
    if i < |answers| then answers[i] else None
  }

  /** Are all the questions of the list present in the bank? */
  predicate AllPresent(ids: seq<QuestionId>, bank: map<QuestionId, Question>) {
    forall k :: k in ids ==> k in bank
  }

  /** Is the answer at position i the correct option of question i? */
  predicate IsCorrectAt(ids: seq<QuestionId>, bank: map<QuestionId, Question>, answers: seq<Option<int>>, i: nat)
    requires AllPresent(ids, bank) && i < |ids|
  {
    AnswerAt(answers, i) == Some(bank[ids[i]].correctOption)
  }

  /** The positions below n that were answered correctly. */
  ghost function CorrectPositions(ids: seq<QuestionId>, bank: map<QuestionId, Question>, answers: seq<Option<int>>, n: nat): set<nat>
    requires AllPresent(ids, bank) && n <= |ids|
  {
    set i: nat | i < n && IsCorrectAt(ids, bank, answers, i)
  }

  /** The running count of correct answers over the first n questions. */
  function CountCorrect(ids: seq<QuestionId>, bank: map<QuestionId, Question>, answers: seq<Option<int>>, n: nat): (c: nat)
    requires AllPresent(ids, bank) && n <= |ids|
    ensures c <= n
  {
    if n == 0 then 0
    else CountCorrect(ids, bank, answers, n - 1) + (if IsCorrectAt(ids, bank, answers, n - 1) then 1 else 0)
  }

  /** The count is the number of correctly answered positions. */
  lemma {:induction false} CountCorrectIsCardinality(ids: seq<QuestionId>, bank: map<QuestionId, Question>, answers: seq<Option<int>>, n: nat)
    requires AllPresent(ids, bank) && n <= |ids|
    ensures CountCorrect(ids, bank, answers, n) == |CorrectPositions(ids, bank, answers, n)|
  {
    if n > 0 {
      CountCorrectIsCardinality(ids, bank, answers, n - 1);
      var before := CorrectPositions(ids, bank, answers, n - 1);
      var after := CorrectPositions(ids, bank, answers, n);
      if IsCorrectAt(ids, bank, answers, n - 1) {
        assert after == before + {n - 1};
      } else {
        assert after == before;
      }
    }
  }

  /** Answers beyond the question count do not change the count. */
  lemma {:induction false} ExtraAnswersIgnored(ids: seq<QuestionId>, bank: map<QuestionId, Question>, answers: seq<Option<int>>, extra: seq<Option<int>>, n: nat)
    requires AllPresent(ids, bank) && n <= |ids| && |answers| >= |ids|
    ensures CountCorrect(ids, bank, answers + extra, n) == CountCorrect(ids, bank, answers, n)
  {
    if n > 0 {
      ExtraAnswersIgnored(ids, bank, answers, extra, n - 1);
      assert AnswerAt(answers + extra, n - 1) == AnswerAt(answers, n - 1);
    }
  }

  /** A graded answer before it is saved; `selected` may still be missing. */
  datatype Draft = Draft(question: QuestionId, selected: Option<int>, isCorrect: bool)

  /** The per-question answer list, one entry per question in question order. */
  function Drafts(ids: seq<QuestionId>, bank: map<QuestionId, Question>, answers: seq<Option<int>>): (d: seq<Draft>)
    requires AllPresent(ids, bank)
    ensures |d| == |ids|
    ensures forall i :: 0 <= i < |ids| ==>
              d[i].question == ids[i] && d[i].selected == AnswerAt(answers, i)
              && (d[i].isCorrect <==> IsCorrectAt(ids, bank, answers, i))
  {
    seq(|ids|, i requires 0 <= i < |ids| =>
      Draft(ids[i], AnswerAt(answers, i), IsCorrectAt(ids, bank, answers, i)))
  }

  /** The grading loop as the controller runs it: one pass over the
      questions, counting correct answers and recording each answer. */
  method Grade(ids: seq<QuestionId>, bank: map<QuestionId, Question>, answers: seq<Option<int>>)
    returns (correct: nat, drafts: seq<Draft>)
    requires AllPresent(ids, bank)
    ensures correct == CountCorrect(ids, bank, answers, |ids|)
    ensures correct <= |ids|
    ensures drafts == Drafts(ids, bank, answers)
  {
    correct := 0;
    drafts := [];
    var i := 0;
    while i < |ids|
      invariant 0 <= i <= |ids|
      invariant correct == CountCorrect(ids, bank, answers, i)
      invariant |drafts| == i
      invariant forall j :: 0 <= j < i ==>
                  drafts[j] == Draft(ids[j], AnswerAt(answers, j), IsCorrectAt(ids, bank, answers, j))
    {
      var selected := AnswerAt(answers, i);
      var isCorrect := selected == Some(bank[ids[i]].correctOption);
      if isCorrect {
        correct := correct + 1;
      }
      drafts := drafts + [Draft(ids[i], selected, isCorrect)];
      i := i + 1;
    }
  }

  /** `correct / total * 100`. With no questions the division gives NaN,
      represented by `None`. */
  function Percentage(correct: nat, total: nat): (p: Option<real>)
    ensures p.None? <==> total == 0
    ensures p.Some? && correct <= total ==> 0.0 <= p.value <= 100.0
    ensures p.Some? ==> p.value * (total as real) == 100.0 * (correct as real)
  {
    if total == 0 then None else Some((correct as real) / (total as real) * 100.0)
  }

  /** Multiplying by a positive real keeps order and equality both ways. */
  lemma MulCancel(a: real, b: real, t: real)
    requires t > 0.0
    ensures a * t <= b * t ==> a <= b
    ensures a * t < b * t ==> a < b
    ensures a * t == b * t ==> a == b
  {
    if a > b {
      assert (a - b) * t > 0.0;
    }
    if a >= b {
      assert (a - b) * t >= 0.0;
    }
  }

  /** More correct answers on the same quiz never score less, and strictly
      more score strictly more; the score is 100 exactly when every
      question of a non-empty quiz is answered correctly. */
  lemma PercentageMonotone(c1: nat, c2: nat, total: nat)
    requires c1 <= c2
    ensures total > 0 ==> Percentage(c1, total).value <= Percentage(c2, total).value
    ensures total > 0 && c1 < c2 ==> Percentage(c1, total).value < Percentage(c2, total).value
    ensures Percentage(c2, total) == Some(100.0) <==> total > 0 && c2 == total
  {
    if total > 0 {
      var t := total as real;
      var p1 := Percentage(c1, total).value;
      var p2 := Percentage(c2, total).value;
      assert p1 * t == 100.0 * (c1 as real) && p2 * t == 100.0 * (c2 as real);
      MulCancel(p1, p2, t);
      if c2 == total {
        assert p2 * t == 100.0 * t;
        MulCancel(p2, 100.0, t);
      }
      if p2 == 100.0 {
        assert t * 100.0 == (c2 as real) * 100.0;
        MulCancel(t, c2 as real, 100.0);
      }
    }
  }
}
