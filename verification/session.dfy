/** The quiz session of the `App` component (src/App.jsx) as a value: its
    five state cells, the `setTimeout` callbacks still waiting to fire, and
    the dependencies the end-time effect saw when it last ran. Every
    transition here is one discrete event of the UI event loop followed by
    React's re-render and effect pass. */
module Session {
  import opened Wrappers
  import opened Questions

  /** `showFeedback`: null, the "correct" message or the "wrong, start
      over" message. Lines 20 and 88 test for these two messages. */
  datatype Feedback = NoFeedback | Correct | Wrong

  /** A scheduled `setTimeout` callback. The advance's closure reads
      `shuffledQuestions.length` from the render that handled the click;
      the list is installed once, by the mount effect, before any question
      is on screen, so that is always the current length. */
  datatype Pending =
    | Advance             // lines 35-38: clear feedback, step forward, clamped
    | Rewind              // lines 41-44: clear feedback, back to question 0
    | StampEnd            // lines 21-23: record the end time

  /** The dependency list of the end-time effect (line 25). */
  datatype Deps = Deps(index: int, feedback: Feedback, length: int)

  datatype State = State(
    questions: seq<Question>,   // shuffledQuestions
    index: int,                 // currentIndex
    feedback: Feedback,         // showFeedback
    startTime: int,
    endTime: Option<int>,
    pending: seq<Pending>,      // timers scheduled and not yet fired
    deps: Deps)                 // dependencies at the effect's last run

  /** What happens next: a click on an answer button, or the firing of one
      pending timer (in any order) at clock reading `now`. */
  datatype Event = Click(selected: Value) | Fire(slot: nat, now: int)

  function DepsOf(s: State): Deps {
    Deps(s.index, s.feedback, |s.questions|)
  }

  function Min(a: int, b: int): int {
    if a <= b then a else b
  }

  /** The state invariant: the index stays within the question list, and
      the effect has seen the current dependencies. */
  predicate Valid(s: State) {
    && 0 <= s.index <= |s.questions|
    && s.deps == DepsOf(s)
  }

  /** The question screen is up: `current` exists and its buttons can be clicked. */
  predicate Answering(s: State) {
    0 <= s.index < |s.questions|
  }

  /** A click the screen allows: a question is up and v is what one of its
      buttons submits. */
  predicate Clickable(s: State, v: Value) {
    Answering(s) && Submittable(s.questions[s.index], v)
  }

  /** The condition of the end-time effect (line 20). */
  predicate EndDue(s: State) {
    s.index == |s.questions| - 1 && s.feedback == Correct
  }

  /** The pending list with slot k taken out. */
  function Without(q: seq<Pending>, k: nat): (r: seq<Pending>)
    requires k < |q|
    ensures |r| == |q| - 1
  {
    q[..k] + q[k+1..]
  }

  /** Taking slot k out removes exactly one occurrence of its callback. */
  lemma WithoutRemovesOne(q: seq<Pending>, k: nat)
    requires k < |q|
    ensures multiset(Without(q, k)) == multiset(q) - multiset{q[k]}
  {
    assert q == q[..k] + [q[k]] + q[k+1..];
  }

  /** The end-time effect (lines 19-25): it runs only when one of its
      dependencies changed since its last run, and then schedules the end
      stamp if the last question has just been answered correctly. */
  function RunEffect(s: State): (r: State)
    ensures r.deps == DepsOf(s)
    ensures r.(pending := s.pending, deps := s.deps) == s
    ensures r.pending == s.pending + (if s.deps != DepsOf(s) && EndDue(s) then [StampEnd] else [])
  {
    if s.deps == DepsOf(s) then s
    else s.(deps := DepsOf(s), pending := s.pending + (if EndDue(s) then [StampEnd] else []))
  }

  /** The first render: no questions yet, index 0, no feedback, start time
      taken from the clock, no end time; the end-time effect has run once
      and found nothing to do. */
  function Initial(t0: int): (r: State)
    ensures Valid(r) && r.questions == [] && r.pending == [] && !Answering(r)
  {
    State([], 0, NoFeedback, t0, None, [], Deps(0, NoFeedback, 0))
  }

  /** The mount effect (lines 13-17) after the first render: it installs the
      shuffled bank and restarts the clock; the end-time effect then runs
      on the new length. */
  function Mounted(bank: seq<Question>, shuffled: seq<Question>, t0: int, now: int): (r: State)
    requires multiset(shuffled) == multiset(bank)
    ensures Valid(r)
    ensures multiset(r.questions) == multiset(bank) && |r.questions| == |bank|
    ensures r.index == 0 && r.feedback == NoFeedback && r.pending == []
    ensures r.startTime == now && r.endTime == None
  {
    assert |shuffled| == |multiset(shuffled)| == |multiset(bank)| == |bank|;
    RunEffect(Initial(t0).(questions := shuffled, startTime := now))
  }

  /** The synchronous part of `handleAnswer` (lines 27-46): judge the
      submission against the current question, show the verdict and
      schedule the matching callback. */
  function Judge(s: State, selected: Value): State
    requires Answering(s)
  {
    if IsCorrect(s.questions[s.index], selected) then
      s.(feedback := Correct, pending := s.pending + [Advance])
    else
      s.(feedback := Wrong, pending := s.pending + [Rewind])
  }

  /** A click with the given verdict schedules the end stamp exactly when it
      answers the last question correctly while the "correct" message is
      not already showing (a repeated correct click changes no dependency
      of the effect). */
  predicate StampDue(s: State, correct: bool) {
    correct && s.index == |s.questions| - 1 && s.feedback != Correct
  }

  /** A click on an answer button, then the re-render and effect pass. The
      verdict is shown at once, nothing moves yet, exactly one callback is
      scheduled for the verdict, and the end stamp is scheduled too exactly
      when the last question is newly answered correctly. */
  function Answered(s: State, selected: Value): (r: State)
    requires Valid(s) && Clickable(s, selected)
    ensures Valid(r)
    ensures var correct := IsCorrect(s.questions[s.index], selected);
      && r.feedback == (if correct then Correct else Wrong)
      && r.questions == s.questions && r.index == s.index
      && r.startTime == s.startTime && r.endTime == s.endTime
      && r.pending == s.pending + [if correct then Advance else Rewind]
                      + (if StampDue(s, correct) then [StampEnd] else [])
  {
    RunEffect(Judge(s, selected))
  }

  /** What a timer callback does to the state (the pending list aside). */
  function Callback(s: State, p: Pending, now: int): State {
    match p
    case Advance => s.(feedback := NoFeedback, index := Min(s.index + 1, |s.questions|))
    case Rewind => s.(feedback := NoFeedback, index := 0)
    case StampEnd => s.(endTime := Some(now))
  }

  /** The timer in slot k fires at clock reading `now`, then the re-render
      and effect pass. An advance clears the feedback and steps forward but
      never past the end; a rewind clears the feedback and goes back to the
      first question; the stamp records the end time. The question order
      and the start time never change, and no new timer is scheduled. */
  function Fired(s: State, k: nat, now: int): (r: State)
    requires Valid(s) && k < |s.pending|
    ensures Valid(r)
    ensures r.questions == s.questions && r.startTime == s.startTime
    ensures r.pending == Without(s.pending, k)
    ensures s.pending[k].Advance? ==>
      r.feedback == NoFeedback && r.endTime == s.endTime
      && r.index == (if s.index < |s.questions| then s.index + 1 else |s.questions|)
    ensures s.pending[k].Rewind? ==>
      r.feedback == NoFeedback && r.endTime == s.endTime && r.index == 0
    ensures s.pending[k].StampEnd? ==>
      r.feedback == s.feedback && r.index == s.index && r.endTime == Some(now)
  {
    RunEffect(Callback(s.(pending := Without(s.pending, k)), s.pending[k], now))
  }

  /** One event. A click while no question is on screen, a click with a
      value no button of the current question submits, or a slot with no
      timer in it, is an event that cannot happen; it changes nothing. */
  function Step(s: State, e: Event): (r: State)
    requires Valid(s)
    ensures Valid(r)
  {
    match e
    case Click(v) => if Clickable(s, v) then Answered(s, v) else s
    case Fire(k, now) => if k < |s.pending| then Fired(s, k, now) else s
  }

  /** A sequence of events from state s. Whatever the clicks (repeated
      ones included, since nothing locks the buttons) and whatever order the
      timers fire in, the index stays within 0 and the question count, and
      neither the question order nor the start time ever changes. */
  function Run(s: State, events: seq<Event>): (r: State)
    requires Valid(s)
    ensures Valid(r)
    ensures 0 <= r.index <= |r.questions|
    ensures r.questions == s.questions && r.startTime == s.startTime
    decreases |events|
  {
    if events == [] then s else Run(Step(s, events[0]), events[1..])
  }

  /** Running a non-empty sequence of events is taking its first step, then the rest. */
  lemma RunFirst(s: State, e: Event, rest: seq<Event>)
    requires Valid(s)
    ensures Run(s, [e] + rest) == Run(Step(s, e), rest)
  {
    assert ([e] + rest)[0] == e;
    assert ([e] + rest)[1..] == rest;
  }

  /** A click on the question screen, first in a sequence of events. */
  lemma RunClick(s: State, v: Value, rest: seq<Event>)
    requires Valid(s) && Clickable(s, v)
    ensures Run(s, [Click(v)] + rest) == Run(Answered(s, v), rest)
  {
    RunFirst(s, Click(v), rest);
  }

  /** A pending timer firing, first in a sequence of events. */
  lemma RunFire(s: State, k: nat, now: int, rest: seq<Event>)
    requires Valid(s) && k < |s.pending|
    ensures Run(s, [Fire(k, now)] + rest) == Run(Fired(s, k, now), rest)
  {
    RunFirst(s, Fire(k, now), rest);
  }

  /** The end stamp is scheduled only by a step after which the last
      question is the current one and the "correct" message is showing. */
  lemma StampOnlyAfterLastCorrect(s: State, e: Event)
    requires Valid(s)
    ensures var r := Step(s, e);
      multiset(r.pending)[StampEnd] > multiset(s.pending)[StampEnd] ==>
        r.index == |r.questions| - 1 && r.feedback == Correct
  {
    if e.Fire? && e.slot < |s.pending| {
      WithoutRemovesOne(s.pending, e.slot);
    }
  }

  /** A correct answer, then its own advance firing (slot |s.pending|,
      whatever else is waiting): the feedback is cleared, the index moves
      to the next question, and nothing else changes except that the end
      stamp stays scheduled if the answer finished the quiz. */
  lemma CorrectAnswerAdvances(s: State, selected: Value, now: int)
    requires Valid(s) && Clickable(s, selected) && IsCorrect(s.questions[s.index], selected)
    ensures var a := Answered(s, selected);
      var r := Fired(a, |s.pending|, now);
      && a.feedback == Correct
      && r.feedback == NoFeedback && r.index == s.index + 1
      && r.questions == s.questions && r.startTime == s.startTime && r.endTime == s.endTime
      && r.pending == s.pending + (if StampDue(s, true) then [StampEnd] else [])
  {
    var a := Answered(s, selected);
    var extra := if StampDue(s, true) then [StampEnd] else [];
    assert a.pending == s.pending + [Advance] + extra;
    assert Without(a.pending, |s.pending|) == s.pending + extra;
  }

  /** A wrong answer, then its own rewind firing: the feedback is cleared
      and the index is back at 0, while the question order, the start time
      and the end time are left as they were (no reshuffle, no new clock). */
  lemma WrongAnswerRewinds(s: State, selected: Value, now: int)
    requires Valid(s) && Clickable(s, selected) && !IsCorrect(s.questions[s.index], selected)
    ensures var a := Answered(s, selected);
      var r := Fired(a, |s.pending|, now);
      && a.feedback == Wrong
      && r.feedback == NoFeedback && r.index == 0
      && r.questions == s.questions && r.startTime == s.startTime && r.endTime == s.endTime
      && r.pending == s.pending
  {
    var a := Answered(s, selected);
    assert a.pending == s.pending + [Rewind];
    assert Without(a.pending, |s.pending|) == s.pending;
  }
}
