/** Which screen `App` renders for a session state (src/App.jsx, line 56
    onward), reduced to the facts the markup depends on. */
module View {
  import opened Wrappers
  import opened Questions
  import opened Session
  import opened Elapsed

  /** The completion screen, with the read-out only when the end time is
      set (line 69); or the question screen with its 1-based number, the
      current question, the red cross for the wrong-answer message (line 88)
      and the feedback line (line 190). */
  datatype Screen =
    | Completed(elapsed: Option<Elapsed>)
    | Asking(number: int, current: Question, cross: bool, message: Feedback)

  function ScreenOf(s: State): (v: Screen)
    requires 0 <= s.index
    ensures v.Completed? <==> s.index >= |s.questions|
    ensures v.Completed? ==> (v.elapsed.Some? <==> IsSet(s.endTime))
    ensures v.Asking? ==>
      && v.current in s.questions && v.current == s.questions[s.index]
      && v.number == s.index + 1
      && (v.cross <==> s.feedback == Wrong)
  {
    if s.index >= |s.questions| then Completed(ElapsedTime(s.startTime, s.endTime))
    else Asking(s.index + 1, s.questions[s.index], s.feedback == Wrong, s.feedback)
  }

  /** Before the mount effect installs the shuffled bank, the list is empty,
      so the very first paint is the completion screen, without a time. */
  lemma FirstPaintIsCompletion(t0: int)
    ensures ScreenOf(Initial(t0)) == Completed(None)
  {
  }

  /** An empty bank never leaves the completion screen, whatever happens. */
  lemma EmptyBankStaysCompleted(shuffled: seq<Question>, t0: int, now: int, events: seq<Event>)
    requires shuffled == []
    ensures ScreenOf(Run(Mounted([], shuffled, t0, now), events)).Completed?
  {
  }
}
