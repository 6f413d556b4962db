/** Waiting until the client is idle: the two run counters, and when a waiter sleeps although everything has completed. */
module ClientIdle {
  import opened ClientEvents

  datatype Outcome = Idle(error: bool) | Truncated | AsyncError | Stopped

  // The caller of WaitForIdle: comparing the counters, watching the log from `start` on, or done.
  datatype Waiter = Away | Checking | Watching(start: nat) | Back(outcome: Outcome)

  /** `scheduled` counts the answered prompts, `completed` the runs that ended; the error is the last failure not cleared. */
  datatype State = State(log: seq<Event>, trimmed: nat, failed: bool, scheduled: nat, completed: nat, waiter: Waiter)

  /**
   * `Fail(true)` is a run that failed without an agent_end, `Fail(false)` the end of the process; `Answered` is what the
   * caller of a prompt does after the response: count it and clear the error.
   */
  datatype Step =
    | Append(event: Event, trim: nat)
    | Fail(ofRun: bool)
    | Answered
    | Enter
    | Check
    | Look
    | Stop

  ghost predicate Init(s: State) {
    s == State([], 0, false, 0, 0, Away)
  }

  predicate Enabled(s: State, step: Step) {
    match step
    case Append(_, trim) => s.trimmed <= trim <= |s.log|
    case Fail(_) => true
    case Answered => true
    case Enter => s.waiter == Away
    case Check => s.waiter == Checking
    case Look => s.waiter.Watching?
    case Stop => s.waiter.Watching?
  }

  ghost function Looked(s: State, start: nat): Waiter {
    if start < s.trimmed then Back(Truncated)
    else if !NoTerminal(s.log, start) then Checking
    else if s.failed then Back(AsyncError)
    else Watching(start)
  }

  ghost function Next(s: State, step: Step): State
    requires Enabled(s, step)
  {
    match step
    case Append(e, trim) =>
      s.(log := s.log + [e], trimmed := trim, completed := s.completed + if Terminal(e) then 1 else 0)
    case Fail(ofRun) => s.(failed := true, completed := s.completed + if ofRun then 1 else 0)
    case Answered => s.(scheduled := s.scheduled + 1, failed := false)
    case Enter => s.(waiter := Checking)
    case Check => s.(waiter := if s.scheduled == s.completed then Back(Idle(s.failed)) else Watching(|s.log|))
    case Look => s.(waiter := Looked(s, s.waiter.start))
    case Stop => s.(waiter := Back(Stopped))
  }

  ghost predicate Runs(steps: seq<Step>, s: State) {
    steps == [] || (Enabled(s, steps[0]) && Runs(steps[1..], Next(s, steps[0])))
  }

  ghost function After(steps: seq<Step>, s: State): State
    requires Runs(steps, s)
  {
    if steps == [] then s else After(steps[1..], Next(s, steps[0]))
  }

  // ----- a clean return means that everything has completed -----

  function Count(steps: seq<Step>, which: Step -> bool): nat {
    if steps == [] then 0 else (if which(steps[0]) then 1 else 0) + Count(steps[1..], which)
  }

  predicate Answers(step: Step) {
    step == Answered
  }

  predicate FailsRun(step: Step) {
    step == Fail(true)
  }

  predicate EndsRun(step: Step) {
    step.Append? && Terminal(step.event)
  }

  /** In every run the counters are what was counted. */
  lemma {:induction false} CountersCount(steps: seq<Step>, s: State)
    requires Runs(steps, s)
    ensures After(steps, s).scheduled == s.scheduled + Count(steps, Answers)
    ensures After(steps, s).completed == s.completed + Count(steps, EndsRun) + Count(steps, FailsRun)
    decreases |steps|
  {
    if steps != [] {
      CountersCount(steps[1..], Next(s, steps[0]));
    }
  }

  // ----- a waiter that sleeps although everything has completed -----

  /** A look from `start` would report something or end the waiting. */
  ghost predicate News(s: State, start: nat) {
    start < s.trimmed || !NoTerminal(s.log, start) || s.failed
  }

  /** Everything has completed, and the waiter, with nothing to be woken for, does not return. */
  ghost predicate Stalled(s: State) {
    s.scheduled == s.completed && s.waiter.Watching? && !News(s, s.waiter.start)
  }

  /** Steps of the others. */
  predicate Foreign(steps: seq<Step>) {
    forall i :: 0 <= i < |steps| ==> steps[i].Append? || steps[i].Fail? || steps[i] == Answered
  }

  /** No error is left: none was set after the last answer, and one from before has met an answer. */
  ghost predicate Cleared(steps: seq<Step>, before: bool) {
    && (before ==> Answered in steps)
    && forall i: nat :: i < |steps| && steps[i].Fail? ==> Answered in steps[i + 1..]
  }

  /** Nothing from `start` on is trimmed away. */
  predicate KeepsFrom(steps: seq<Step>, start: nat) {
    forall i :: 0 <= i < |steps| && steps[i].Append? ==> steps[i].trim <= start
  }

  lemma {:induction false} ClearedFirst(steps: seq<Step>, before: bool)
    requires steps != []
    ensures Cleared(steps, before)
      <==> Cleared(steps[1..], if steps[0].Fail? then true else if steps[0] == Answered then false else before)
  {
    var rest := steps[1..];
    assert Answered in steps <==> steps[0] == Answered || Answered in rest;
    forall i: nat | i < |rest| ensures steps[i + 1] == rest[i] && steps[i + 2..] == rest[i + 1..] {
    }
    if Cleared(steps, before) {
      forall i: nat | i < |rest| && rest[i].Fail? ensures Answered in rest[i + 1..] {
        assert steps[i + 1].Fail? && steps[i + 1 + 1..] == rest[i + 1..];
      }
      assert steps[0].Fail? ==> Answered in steps[0 + 1..];
    }
    if Cleared(rest, if steps[0].Fail? then true else if steps[0] == Answered then false else before) {
      forall i: nat | i < |steps| && steps[i].Fail? ensures Answered in steps[i + 1..] {
        if i > 0 {
          assert rest[i - 1].Fail? && rest[i - 1 + 1..] == steps[i + 1..];
        }
      }
    }
  }

  /** In every run the error is set at the end iff it is not cleared. */
  lemma {:induction false} FailedIffUncleared(steps: seq<Step>, s: State)
    requires Runs(steps, s)
    ensures After(steps, s).failed <==> !Cleared(steps, s.failed)
    decreases |steps|
  {
    if steps != [] {
      ClearedFirst(steps, s.failed);
      FailedIffUncleared(steps[1..], Next(s, steps[0]));
    }
  }

  /** What others do while the waiter watches. */
  lemma {:induction false} WhileWatching(steps: seq<Step>, s: State, start: nat)
    requires Runs(steps, s) && Foreign(steps) && start <= |s.log|
    ensures var t := After(steps, s);
      && t.waiter == s.waiter
      && (NoTerminal(t.log, start) <==> NoTerminal(s.log, start) && Count(steps, EndsRun) == 0)
      && (t.trimmed <= start <==> s.trimmed <= start && KeepsFrom(steps, start))
    decreases |steps|
  {
    if steps != [] {
      var t := Next(s, steps[0]);
      WhileWatching(steps[1..], t, start);
      assert forall i :: 0 < i < |steps| ==> steps[i] == steps[1..][i - 1];
      if steps[0].Append? {
        NoTerminalNext(s.log, steps[0].event, start);
      }
    }
  }

  lemma {:induction false} NoTerminalNext(log: seq<Event>, e: Event, start: nat)
    requires start <= |log|
    ensures NoTerminal(log + [e], start) <==> NoTerminal(log, start) && !Terminal(e)
  {
    var more := log + [e];
    assert more[|log|] == e && forall i :: 0 <= i < |log| ==> more[i] == log[i];
  }

  /**
   * After a comparison that found the counters different, whatever the others do: the waiter sleeps on though everything
   * has completed iff no terminal agent_end came, nothing was trimmed, no error is left, and the answers that came make
   * up exactly for the difference and the failed runs.
   */
  lemma {:induction false} StalledIff(steps: seq<Step>, s: State)
    requires Enabled(s, Check) && s.scheduled != s.completed && s.trimmed <= |s.log|
    requires Foreign(steps) && Runs(steps, Next(s, Check))
    ensures Stalled(After(steps, Next(s, Check))) <==>
      && Count(steps, EndsRun) == 0 && KeepsFrom(steps, |s.log|) && Cleared(steps, s.failed)
      && s.scheduled + Count(steps, Answers) == s.completed + Count(steps, FailsRun)
  {
    var t := Next(s, Check);
    CountersCount(steps, t);
    FailedIffUncleared(steps, t);
    WhileWatching(steps, t, |s.log|);
  }

  lemma {:induction false} CountZero(steps: seq<Step>, which: Step -> bool)
    ensures Count(steps, which) == 0 <==> forall i :: 0 <= i < |steps| ==> !which(steps[i])
  {
    if steps != [] {
      CountZero(steps[1..], which);
      assert forall i :: 0 < i < |steps| ==> steps[i] == steps[1..][i - 1];
    }
  }

  /** Only an answer that is counted after the comparison can strand the waiter. */
  lemma {:induction false} StalledNeedsAnswer(steps: seq<Step>, s: State)
    requires Enabled(s, Check) && s.scheduled != s.completed && s.trimmed <= |s.log|
    requires Foreign(steps) && Runs(steps, Next(s, Check)) && Stalled(After(steps, Next(s, Check)))
    ensures Answered in steps
  {
    StalledIff(steps, s);
    CountZero(steps, Answers);
    CountZero(steps, FailsRun);
    assert forall i :: 0 <= i < |steps| && FailsRun(steps[i]) ==> steps[i].Fail? && Answered in steps[i + 1..];
  }

  /** Answers alone, `n` of them. */
  function AnswersOnly(n: nat): (steps: seq<Step>)
    ensures |steps| == n && forall i :: 0 <= i < n ==> steps[i] == Answered
  {
    seq(n, _ => Answered)
  }

  lemma {:induction false} AnswersRun(steps: seq<Step>, s: State)
    requires forall i :: 0 <= i < |steps| ==> steps[i] == Answered
    ensures Runs(steps, s) && Count(steps, Answers) == |steps| && Count(steps, EndsRun) == Count(steps, FailsRun) == 0
    decreases |steps|
  {
    if steps != [] {
      AnswersRun(steps[1..], Next(s, steps[0]));
    }
  }

  ghost predicate StrandedBy(s: State, n: nat)
    requires Enabled(s, Check)
  {
    Runs(AnswersOnly(n), Next(s, Check)) && Stalled(After(AnswersOnly(n), Next(s, Check)))
  }

  /** Answers that come late strand the waiter iff the comparison found more runs completed than scheduled. */
  lemma {:induction false} LateAnswersStrandIff(s: State)
    requires Enabled(s, Check) && s.scheduled != s.completed && s.trimmed <= |s.log|
    ensures (exists n: nat :: StrandedBy(s, n)) <==> s.completed > s.scheduled
  {
    forall n: nat ensures StrandedBy(s, n) <==> s.completed == s.scheduled + n {
      var steps := AnswersOnly(n);
      AnswersRun(steps, Next(s, Check));
      StalledIff(steps, s);
      assert n > 0 ==> steps[0] == Answered;
    }
    if s.completed > s.scheduled {
      assert StrandedBy(s, s.completed - s.scheduled);
    }
  }

  // ----- whole runs -----

  ghost predicate Inv(s: State) {
    s.trimmed <= |s.log| && (s.waiter.Watching? ==> s.waiter.start <= |s.log|)
  }

  /** A waiter that watches has runs to wait for, or something to be woken for. */
  ghost predicate Attentive(s: State) {
    s.waiter.Watching? ==> s.scheduled != s.completed || News(s, s.waiter.start)
  }

  lemma {:induction false} StaysAttentive(s: State, step: Step)
    requires Inv(s) && Attentive(s) && Enabled(s, step) && step != Answered
    ensures Attentive(Next(s, step))
  {
    if step.Append? && s.waiter.Watching? {
      NoTerminalNext(s.log, step.event, s.waiter.start);
    }
  }

  lemma {:induction false} RunKeepsInv(steps: seq<Step>, s: State)
    requires Inv(s) && Runs(steps, s)
    ensures Inv(After(steps, s))
    decreases |steps|
  {
    if steps != [] {
      RunKeepsInv(steps[1..], Next(s, steps[0]));
    }
  }

  lemma {:induction false} RunStaysAttentive(steps: seq<Step>, s: State)
    requires Inv(s) && Attentive(s) && Runs(steps, s) && Answered !in steps
    ensures Attentive(After(steps, s))
    decreases |steps|
  {
    if steps != [] {
      StaysAttentive(s, steps[0]);
      RunStaysAttentive(steps[1..], Next(s, steps[0]));
    }
  }

  /** The waiter's own next step. */
  function OwnStep(s: State): Step {
    if s.waiter.Watching? then Look else Check
  }

  /**
   * When no answer is counted while it waits, the waiter is never stranded: from any state of such a run in which everything
   * has completed, it returns with its next two steps at the latest.
   */
  lemma {:induction false} UndisturbedReturns(before: seq<Step>, during: seq<Step>, s: State)
    requires Init(s) && Runs(before, s) && After(before, s).waiter == Away
    requires Runs([Enter] + during, After(before, s)) && Answered !in during
    ensures var t := After([Enter] + during, After(before, s));
      && !Stalled(t)
      && (t.scheduled == t.completed && !t.waiter.Back? ==> Enabled(t, OwnStep(t)) && Near(Next(t, OwnStep(t))))
  {
    var entered := Next(After(before, s), Enter);
    RunKeepsInv(before, s);
    assert ([Enter] + during)[1..] == during;
    RunStaysAttentive(during, entered);
    StaysInside(during, entered);
  }

  ghost predicate Near(s: State) {
    s.waiter.Back? || (s.waiter == Checking && Next(s, Check).waiter == Back(Idle(s.failed)))
  }

  lemma {:induction false} StaysInside(steps: seq<Step>, s: State)
    requires Runs(steps, s) && s.waiter != Away
    ensures After(steps, s).waiter != Away
    decreases |steps|
  {
    if steps != [] {
      StaysInside(steps[1..], Next(s, steps[0]));
    }
  }

  /** The waiter compares the counters after these steps, finds them equal, and reports the error that is set, if any. */
  ghost predicate ReturnsAt(steps: seq<Step>, k: nat, error: bool) {
    && k < |steps| && steps[k] == Check
    && Count(steps[..k], Answers) == Count(steps[..k], EndsRun) + Count(steps[..k], FailsRun)
    && error == !Cleared(steps[..k], false)
  }

  /** In state `m` this step ends the waiting so. */
  ghost predicate EndsAt(m: State, step: Step, outcome: Outcome) {
    match outcome
    case Idle(error) => step == Check && m.scheduled == m.completed && m.failed == error
    case Truncated => step == Look && m.waiter.Watching? && m.waiter.start < m.trimmed
    case AsyncError =>
      step == Look && m.waiter.Watching? && m.trimmed <= m.waiter.start && NoTerminal(m.log, m.waiter.start) && m.failed
    case Stopped => step == Stop
  }

  ghost predicate EndedBy(steps: seq<Step>, s: State, k: nat, outcome: Outcome)
    requires Runs(steps, s)
  {
    k < |steps| && Runs(steps[..k], s) && EndsAt(After(steps[..k], s), steps[k], outcome)
  }

  /** A waiter that has come back did so by one step, for the cause it reports. */
  lemma {:induction false} EndsForCause(steps: seq<Step>, s: State) returns (k: nat)
    requires Runs(steps, s) && !s.waiter.Back? && After(steps, s).waiter.Back?
    ensures EndedBy(steps, s, k, After(steps, s).waiter.outcome)
    decreases |steps|
  {
    var t := Next(s, steps[0]);
    if t.waiter.Back? {
      BackStays(steps[1..], t);
      k := 0;
      assert steps[..0] == [];
    } else {
      k := EndsForCause(steps[1..], t);
      k := k + 1;
      assert steps[..k][1..] == steps[1..][..k - 1] && steps[..k][0] == steps[0];
    }
  }

  lemma {:induction false} BackStays(steps: seq<Step>, s: State)
    requires Runs(steps, s) && s.waiter.Back?
    ensures After(steps, s).waiter == s.waiter
    decreases |steps|
  {
    if steps != [] {
      BackStays(steps[1..], Next(s, steps[0]));
    }
  }

  /**
   * In every run, a waiter that came back from a comparison made it when as many runs had ended or failed as prompts had
   * been answered, and reports an error iff some failure until then had no answer after it.
   */
  lemma {:induction false} ReturnMeansIdle(steps: seq<Step>, s: State)
    requires Init(s) && Runs(steps, s) && After(steps, s).waiter.Back? && After(steps, s).waiter.outcome.Idle?
    ensures exists k :: ReturnsAt(steps, k, After(steps, s).waiter.outcome.error)
  {
    var k := EndsForCause(steps, s);
    CountersCount(steps[..k], s);
    FailedIffUncleared(steps[..k], s);
    assert ReturnsAt(steps, k, After(steps, s).waiter.outcome.error);
  }

  /** It happens from the start: the run ends before its answer is counted, and the comparison falls in between. */
  lemma {:induction false} StrandedFromStart(s: State, end: Event)
    requires Init(s) && Terminal(end)
    ensures var steps := [Append(end, 0), Enter, Check, Answered];
      Runs(steps, s) && Stalled(After(steps, s))
  {
    var s1 := Next(s, Append(end, 0));
    var s2 := Next(s1, Enter);
    var s3 := Next(s2, Check);
    assert Runs([], Next(s3, Answered));
    OneStep(Answered, [], s3);
    OneStep(Check, [Answered], s2);
    OneStep(Enter, [Check, Answered], s1);
    OneStep(Append(end, 0), [Enter, Check, Answered], s);
    assert [Append(end, 0)] + [Enter, Check, Answered] == [Append(end, 0), Enter, Check, Answered];
    assert [Enter] + [Check, Answered] == [Enter, Check, Answered];
    assert [Check] + [Answered] == [Check, Answered];
    assert [Answered] + [] == [Answered];
  }

  lemma {:induction false} OneStep(step: Step, rest: seq<Step>, s: State)
    requires Enabled(s, step) && Runs(rest, Next(s, step))
    ensures Runs([step] + rest, s) && After([step] + rest, s) == After(rest, Next(s, step))
  {
    assert ([step] + rest)[1..] == rest;
  }
}
