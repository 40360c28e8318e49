/** The `App` component's state cells and handlers as an object whose
    methods update its fields in place (src/App.jsx, lines 5-46). Each
    method is proved to make exactly the transition the Session module
    defines. */
module App {
  import opened Wrappers
  import opened Questions
  import Session

  class QuizApp {
    var currentIndex: int
    var showFeedback: Session.Feedback
    var startTime: int
    var endTime: Option<int>
    var shuffledQuestions: seq<Question>
    /** `setTimeout` callbacks scheduled and not yet fired. */
    var timers: seq<Session.Pending>
    /** The dependencies the end-time effect saw when it last ran. */
    var effectDeps: Session.Deps

    function Snapshot(): Session.State
      reads this
    {
      Session.State(shuffledQuestions, currentIndex, showFeedback, startTime, endTime, timers, effectDeps)
    }

    predicate Valid()
      reads this
    {
      Session.Valid(Snapshot())
    }

    /** Mounting: the first render with an empty list and the clock read
        at t0, then the mount effect, which installs the shuffled bank (the
        random sort's outcome, any permutation of the bank) and reads the
        clock again. */
    constructor (bank: seq<Question>, shuffled: seq<Question>, t0: int, now: int)
      requires multiset(shuffled) == multiset(bank)
      ensures Valid() && Snapshot() == Session.Mounted(bank, shuffled, t0, now)
      ensures multiset(shuffledQuestions) == multiset(bank)
      ensures currentIndex == 0 && showFeedback == Session.NoFeedback && endTime == None
      ensures startTime == now && timers == []
    {
      currentIndex := 0;
      showFeedback := Session.NoFeedback;
      startTime := t0;
      endTime := None;
      shuffledQuestions := [];
      timers := [];
      effectDeps := Session.Deps(0, Session.NoFeedback, 0);
      new;
      shuffledQuestions := shuffled;
      startTime := now;
      RecordEnd();
    }

    /** `handleAnswer`: judge the click against the current question, show
        the verdict, schedule the advance or the rewind, then let the
        end-time effect run. Nothing locks the buttons: a second click
        while a verdict is showing schedules a second callback. */
    method Answer(selected: Value)
      requires Valid() && 0 <= currentIndex < |shuffledQuestions|
      requires Submittable(shuffledQuestions[currentIndex], selected)
      modifies this
      ensures Valid() && Snapshot() == Session.Answered(old(Snapshot()), selected)
      ensures showFeedback == (if IsCorrect(old(shuffledQuestions[currentIndex]), selected) then Session.Correct else Session.Wrong)
      ensures unchanged(this`currentIndex, this`shuffledQuestions, this`startTime, this`endTime)
    {
      var current := shuffledQuestions[currentIndex];
      var isCorrect := IsCorrect(current, selected);
      if isCorrect {
        showFeedback := Session.Correct;
        timers := timers + [Session.Advance];
      } else {
        showFeedback := Session.Wrong;
        timers := timers + [Session.Rewind];
      }
      RecordEnd();
    }

    /** The timer in slot k fires at clock reading `now`; then the end-time
        effect runs. */
    method FirePending(k: nat, now: int)
      requires Valid() && k < |timers|
      modifies this
      ensures Valid() && Snapshot() == Session.Fired(old(Snapshot()), k, now)
      ensures 0 <= currentIndex <= |shuffledQuestions|
      ensures unchanged(this`shuffledQuestions, this`startTime)
    {
      var callback := timers[k];
      timers := timers[..k] + timers[k+1..];
      match callback {
        case Advance =>
          showFeedback := Session.NoFeedback;
          currentIndex := Session.Min(currentIndex + 1, |shuffledQuestions|);
        case Rewind =>
          showFeedback := Session.NoFeedback;
          currentIndex := 0;
        case StampEnd =>
          endTime := Some(now);
      }
      RecordEnd();
    }

    /** The end-time effect after a render: when a dependency changed, it
        records them and, if the last question was just answered
        correctly, schedules the end stamp. */
    method RecordEnd()
      modifies this
      ensures Snapshot() == Session.RunEffect(old(Snapshot()))
      ensures Session.Valid(old(Snapshot()).(deps := Session.DepsOf(old(Snapshot())))) ==> Valid()
    {
      var deps := Session.Deps(currentIndex, showFeedback, |shuffledQuestions|);
      if deps != effectDeps {
        effectDeps := deps;
        if currentIndex == |shuffledQuestions| - 1 && showFeedback == Session.Correct {
          timers := timers + [Session.StampEnd];
        }
      }
    }
  }
}
