/** Whole runs of the quiz: a flawless run from any question to the end,
    and repeated clicks on the last question. */
module Play {
  import opened Wrappers
  import opened Questions
  import opened Session
  import opened Elapsed
  import opened View

  /** Clicking the right answer to each question in turn, each time waiting
      for the advance to fire before the next click. */
  function PerfectPlay(qs: seq<Question>, now: int): seq<Event> {
    if qs == [] then [] else [Click(qs[0].answer), Fire(0, now)] + PerfectPlay(qs[1..], now)
  }

  /** A state with nothing on screen but the question and nothing pending. */
  predicate Settled(s: State) {
    Valid(s) && s.pending == [] && s.feedback == NoFeedback
  }

  /** From a settled state on any question, answering every remaining
      question correctly and then letting the end stamp fire reaches the
      end of the list with the end time recorded and nothing left pending. */
  lemma {:induction false} PerfectPlayCompletes(s: State, now: int, t: int)
    requires Settled(s) && Answering(s) && Answerable(s.questions)
    ensures var r := Run(s, PerfectPlay(s.questions[s.index..], now) + [Fire(0, t)]);
      && r.index == |s.questions| && r.endTime == Some(t)
      && r.pending == [] && r.feedback == NoFeedback
    decreases |s.questions| - s.index
  {
    var q := s.questions[s.index];
    var rest := s.questions[s.index + 1..];
    var tail := PerfectPlay(rest, now) + [Fire(0, t)];
    assert s.questions[s.index..] == [q] + rest;
    assert ([q] + rest)[1..] == rest;
    assert PerfectPlay(s.questions[s.index..], now) + [Fire(0, t)]
      == [Click(q.answer)] + ([Fire(0, now)] + tail);
    var a := Answered(s, q.answer);
    CorrectAnswerAdvances(s, q.answer, now);
    var b := Fired(a, 0, now);
    RunClick(s, q.answer, [Fire(0, now)] + tail);
    RunFire(a, 0, now, tail);
    if s.index + 1 < |s.questions| {
      assert b.questions[b.index..] == rest;
      PerfectPlayCompletes(b, now, t);
    } else {
      assert rest == [];
      assert tail == [Fire(0, t)] + [];
      RunFire(b, 0, t, []);
    }
  }

  /** A flawless run right after mounting a non-empty bank ends on the
      completion screen, showing the time between the mount and the end
      stamp. */
  lemma PerfectRunFromMount(bank: seq<Question>, shuffled: seq<Question>, t0: int, now: int, t: int)
    requires multiset(shuffled) == multiset(bank) && bank != [] && Answerable(bank)
    ensures var r := Run(Mounted(bank, shuffled, t0, now), PerfectPlay(shuffled, now) + [Fire(0, t)]);
      && ScreenOf(r) == Completed(ElapsedTime(now, Some(t)))
      && (t != 0 && t >= now ==> ScreenOf(r).elapsed.Some? && Decomposes(ScreenOf(r).elapsed.value, t - now))
  {
    var s := Mounted(bank, shuffled, t0, now);
    assert s.questions[s.index..] == shuffled;
    forall q | q in shuffled ensures Submittable(q, q.answer) {
      assert q in multiset(shuffled);
    }
    PerfectPlayCompletes(s, now, t);
  }

  /** Two clicks on the right answer to the last question schedule two
      advances but only one end stamp, since the second click leaves the
      feedback, and so the effect's dependencies, as they were. */
  lemma DoubleClickSchedules(s: State)
    requires Settled(s) && Answering(s) && s.index == |s.questions| - 1
    requires Submittable(s.questions[s.index], s.questions[s.index].answer)
    ensures var q := s.questions[s.index];
      var r := Answered(Answered(s, q.answer), q.answer);
      && r.index == s.index && r.feedback == Correct && r.endTime == s.endTime
      && r.pending == [Advance, StampEnd, Advance]
  {
    var q := s.questions[s.index];
    assert IsCorrect(q, q.answer);
    var a1 := Answered(s, q.answer);
    assert a1.pending == [Advance, StampEnd];
  }

  /** The three callbacks of a double click on the last question, fired
      in order: the index reaches the question count and stays there, since
      the second advance is clamped, and the end time is recorded once. */
  lemma DoubleClickDrains(s: State, now: int, t: int)
    requires Valid(s) && s.index == |s.questions| - 1
    requires s.pending == [Advance, StampEnd, Advance]
    ensures var r := Fired(Fired(Fired(s, 0, now), 0, t), 0, now);
      && r.index == |s.questions| && r.endTime == Some(t) && r.pending == []
  {
    var f1 := Fired(s, 0, now);
    assert Without(s.pending, 0) == [StampEnd, Advance];
    var f2 := Fired(f1, 0, t);
    assert Without(f1.pending, 0) == [Advance];
  }

  /** Repeated clicks on the last question cannot push the index past the
      end: the run finishes on the completion screen with one end time. */
  lemma DoubleClickOnLastQuestion(s: State, now: int, t: int)
    requires Settled(s) && Answering(s) && s.index == |s.questions| - 1
    requires Submittable(s.questions[s.index], s.questions[s.index].answer)
    ensures var q := s.questions[s.index];
      var r := Run(s, [Click(q.answer), Click(q.answer), Fire(0, now), Fire(0, t), Fire(0, now)]);
      && r.index == |s.questions| && r.endTime == Some(t)
      && r.pending == [] && ScreenOf(r).Completed?
  {
    var q := s.questions[s.index];
    DoubleClickSchedules(s);
    var a1 := Answered(s, q.answer);
    var a2 := Answered(a1, q.answer);
    DoubleClickDrains(a2, now, t);
    var f1 := Fired(a2, 0, now);
    var f2 := Fired(f1, 0, t);
    assert [Click(q.answer), Click(q.answer), Fire(0, now), Fire(0, t), Fire(0, now)]
      == [Click(q.answer)] + ([Click(q.answer)] + ([Fire(0, now)] + ([Fire(0, t)] + ([Fire(0, now)] + []))));
    RunClick(s, q.answer, [Click(q.answer)] + ([Fire(0, now)] + ([Fire(0, t)] + ([Fire(0, now)] + []))));
    RunClick(a1, q.answer, [Fire(0, now)] + ([Fire(0, t)] + ([Fire(0, now)] + [])));
    RunFire(a2, 0, now, [Fire(0, t)] + ([Fire(0, now)] + []));
    RunFire(f1, 0, t, [Fire(0, now)] + []);
    RunFire(f2, 0, now, []);
  }

  /** A correct click on the last question followed, within half a second,
      by a wrong one: the advance (1000 ms) and the end stamp (1000 ms)
      fire before the rewind (1500 ms). The completion screen appears, the
      end time is recorded, and then the rewind sends the player back to
      the first question with the end time still set. */
  lemma CorrectThenWrongOnLast(s: State, wrong: Value, now: int, t: int, u: int)
    requires Settled(s) && Answering(s) && s.index == |s.questions| - 1
    requires Submittable(s.questions[s.index], s.questions[s.index].answer)
    requires Submittable(s.questions[s.index], wrong) && !IsCorrect(s.questions[s.index], wrong)
    ensures var q := s.questions[s.index];
      var a := Answered(Answered(s, q.answer), wrong);
      && a.pending == [Advance, StampEnd, Rewind]
      && var f1 := Fired(a, 0, now);
      && ScreenOf(f1).Completed?
      && var f2 := Fired(f1, 0, t);
      && ScreenOf(f2) == Completed(ElapsedTime(s.startTime, Some(t)))
      && var f3 := Fired(f2, 0, u);
      && f3.index == 0 && f3.endTime == Some(t) && f3.pending == []
      && ScreenOf(f3).Asking?
  {
    var q := s.questions[s.index];
    assert IsCorrect(q, q.answer);
    var a1 := Answered(s, q.answer);
    assert a1.pending == [Advance, StampEnd];
    var a := Answered(a1, wrong);
    assert a.pending == [Advance, StampEnd, Rewind];
    var f1 := Fired(a, 0, now);
    assert Without(a.pending, 0) == [StampEnd, Rewind];
    var f2 := Fired(f1, 0, t);
    assert Without(f1.pending, 0) == [Rewind];
  }

  /** Two quick correct clicks on the next-to-last question queue two
      advances and no end stamp, since that question is not the last. */
  lemma DoubleClickBeforeLastSchedules(s: State)
    requires Settled(s) && s.endTime == None
    requires |s.questions| >= 2 && s.index == |s.questions| - 2
    requires Submittable(s.questions[s.index], s.questions[s.index].answer)
    ensures var q := s.questions[s.index];
      var a := Answered(Answered(s, q.answer), q.answer);
      && Valid(a) && a.index == s.index && a.endTime == None
      && a.questions == s.questions && a.pending == [Advance, Advance]
  {
    var q := s.questions[s.index];
    assert IsCorrect(q, q.answer);
    var a1 := Answered(s, q.answer);
    assert a1.pending == [Advance];
  }

  /** Those two advances, fired in turn: the last question is skipped and
      the completion screen comes up without a time. */
  lemma DoubleClickSkipsLast(s: State, now: int, u: int)
    requires Settled(s) && s.endTime == None
    requires |s.questions| >= 2 && s.index == |s.questions| - 2
    requires Submittable(s.questions[s.index], s.questions[s.index].answer)
    ensures var q := s.questions[s.index];
      var r := Fired(Fired(Answered(Answered(s, q.answer), q.answer), 0, now), 0, u);
      && r.index == |s.questions| && r.pending == [] && ScreenOf(r) == Completed(None)
  {
    var q := s.questions[s.index];
    DoubleClickBeforeLastSchedules(s);
    var a := Answered(Answered(s, q.answer), q.answer);
    var f1 := Fired(a, 0, now);
    assert f1.pending == [Advance] && f1.index == |s.questions| - 1 && f1.endTime == None by {
      assert Without(a.pending, 0) == [Advance];
    }
    var r := Fired(f1, 0, u);
    assert r.index == |s.questions| && r.endTime == None && r.pending == [] by {
      assert Without(f1.pending, 0) == [];
    }
  }
}
