/** Question records as the quiz bank holds them, and the rule that judges
    a submitted answer (src/App.jsx, lines 28-31). */
module Questions {
  import opened Wrappers

  /** A value a button submits, or a question's stored answer: an option
      index for a `choice` question, true (the O button) or false (the X
      button) for an O/X question. Values built with different constructors
      never compare equal, exactly as `===` never equates a number with a
      boolean. */
  datatype Value = Index(i: int) | Flag(b: bool)

  /** One record of the question bank. `kind` is the record's `type` field;
      only the string "choice" selects the option buttons. */
  datatype Question = Question(
    question: string,
    kind: string,
    choices: seq<string>,
    answer: Value,
    image: Option<string>)

  predicate IsChoice(q: Question) {
    q.kind == "choice"
  }

  /** The values the buttons on screen can submit for a question: the index
      of one of its options for a `choice` question (lines 143-147), true or
      false for any other (lines 167 and 178). */
  predicate Submittable(q: Question, v: Value) {
    if IsChoice(q) then v.Index? && 0 <= v.i < |q.choices| else v.Flag?
  }

  /** Every question of the list can be answered correctly by some button. */
  predicate Answerable(qs: seq<Question>) {
    forall q :: q in qs ==> Submittable(q, q.answer)
  }

  /** The correctness test of `handleAnswer`. Both arms of the source's
      conditional compare with strict equality, so the kind of question
      makes no difference to the verdict. */
  function IsCorrect(q: Question, selected: Value): (r: bool)
    ensures r <==> selected == q.answer
  {
    if IsChoice(q) then selected == q.answer else selected == q.answer
  }

  /** A choice question is well formed when its answer indexes one of its options. */
  predicate WellFormedChoice(q: Question) {
    IsChoice(q) && q.answer.Index? && 0 <= q.answer.i < |q.choices|
  }

  /** The option buttons of a choice question whose click is judged correct. */
  function CorrectOptions(q: Question): set<int> {
    set i | 0 <= i < |q.choices| && IsCorrect(q, Index(i))
  }

  /** The O/X buttons whose click is judged correct. */
  function CorrectFlags(q: Question): set<bool> {
    set b | b in {true, false} && IsCorrect(q, Flag(b))
  }

  /** Of the option buttons of a well-formed choice question, exactly the
      one at the stored index is correct; every other option is wrong. */
  lemma ExactlyOneCorrectOption(q: Question)
    requires WellFormedChoice(q)
    ensures CorrectOptions(q) == {q.answer.i}
  {
    var k := q.answer.i;
    forall i | i in CorrectOptions(q) ensures i == k {
      assert IsCorrect(q, Index(i));
    }
    assert IsCorrect(q, Index(k));
  }

  /** On an O/X question whose answer is a boolean c, pressing c is correct
      and pressing its negation is wrong. */
  lemma ExactlyOneCorrectFlag(q: Question)
    requires q.answer.Flag?
    ensures CorrectFlags(q) == {q.answer.b}
  {
    var c := q.answer.b;
    assert IsCorrect(q, Flag(c));
    assert !IsCorrect(q, Flag(!c));
    forall b | b in CorrectFlags(q) ensures b == c {
      assert IsCorrect(q, Flag(b));
    }
  }

  /** A choice question whose stored answer is not an index (say, a boolean
      left in the bank by mistake) has no correct option button at all. */
  lemma MismatchedAnswerUnwinnable(q: Question)
    requires IsChoice(q) && q.answer.Flag?
    ensures CorrectOptions(q) == {}
  {
    forall i | 0 <= i < |q.choices| ensures !IsCorrect(q, Index(i)) {
    }
  }
}
