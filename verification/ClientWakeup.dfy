/** Collectors, the lifecycle lock and the one-slot wake-up channel: no wake-up is lost. */
module ClientWakeup {
  import opened ClientEvents

  datatype Outcome = Turn(events: seq<Event>) | Truncated | AsyncError | Stopped

  // A caller of PromptAndWait, WaitForIdle or CollectEvents.
  datatype Caller =
    | Outside
    | Looking(start: nat)
    | Waiting(start: nat)
    | Returning(start: nat, outcome: Outcome)

  /**
   * `signallers` counts the threads between releasing the lock and their non-blocking send on the wake-up channel;
   * `token` says whether the channel is full; `trimmed` is the index of the oldest retained event.
   */
  datatype State = State(
    log: seq<Event>,
    trimmed: nat,
    failed: bool,
    token: bool,
    signallers: nat,
    lifecycle: bool,
    callers: map<nat, Caller>)

  datatype Step =
    | Append(event: Event, trim: nat)
    | Fail
    | ClearError
    | Send
    | Acquire(c: nat)
    | Look(c: nat)
    | Wake(c: nat)
    | Stop(c: nat)
    | Release(c: nat)

  ghost predicate Init(s: State) {
    && s.log == [] && s.trimmed == 0 && !s.failed && !s.token && s.signallers == 0 && !s.lifecycle
    && forall c :: c in s.callers ==> s.callers[c] == Outside
  }

  predicate Inside(s: State, c: nat) {
    c in s.callers && s.callers[c] != Outside
  }

  ghost predicate Enabled(s: State, step: Step) {
    match step
    case Append(_, trim) => s.trimmed <= trim <= |s.log|
    case Fail => true
    case ClearError => true
    case Send => s.signallers > 0
    case Acquire(c) => c in s.callers && s.callers[c] == Outside && !s.lifecycle
    case Look(c) => c in s.callers && s.callers[c].Looking?
    case Wake(c) => c in s.callers && s.callers[c].Waiting? && s.token
    case Stop(c) => c in s.callers && s.callers[c].Waiting?
    case Release(c) => c in s.callers && s.callers[c].Returning?
  }

  /** What a look at the log makes of a caller. */
  ghost predicate Looked(s: State, start: nat, after: Caller) {
    if start < s.trimmed then after == Returning(start, Truncated)
    else if exists t :: FirstTerminal(s.log, start, t)
    then exists t :: FirstTerminal(s.log, start, t) && after == Returning(start, Turn(s.log[start..t + 1]))
    else if s.failed then after == Returning(start, AsyncError)
    else after == Waiting(start)
  }

  ghost function Look1(s: State, start: nat): (after: Caller)
    ensures Looked(s, start, after)
  {
    if start < s.trimmed then Returning(start, Truncated)
    else if exists t :: FirstTerminal(s.log, start, t)
    then var t :| FirstTerminal(s.log, start, t); Returning(start, Turn(s.log[start..t + 1]))
    else if s.failed then Returning(start, AsyncError)
    else Waiting(start)
  }

  ghost function Next(s: State, step: Step): State
    requires Enabled(s, step)
  {
    match step
    case Append(e, trim) => s.(log := s.log + [e], trimmed := trim, signallers := s.signallers + 1)
    case Fail => s.(failed := true, signallers := s.signallers + 1)
    case ClearError => s.(failed := false)
    case Send => s.(token := true, signallers := s.signallers - 1)
    case Acquire(c) => s.(lifecycle := true, callers := s.callers[c := Looking(|s.log|)])
    case Look(c) => s.(callers := s.callers[c := Look1(s, s.callers[c].start)])
    case Wake(c) => s.(token := false, callers := s.callers[c := Looking(s.callers[c].start)])
    case Stop(c) => s.(callers := s.callers[c := Returning(s.callers[c].start, Stopped)])
    case Release(c) => s.(lifecycle := false, callers := s.callers[c := Outside])
  }

  ghost predicate Runs(steps: seq<Step>, s: State) {
    steps == [] || (Enabled(s, steps[0]) && Runs(steps[1..], Next(s, steps[0])))
  }

  ghost function After(steps: seq<Step>, s: State): State
    requires Runs(steps, s)
  {
    if steps == [] then s else After(steps[1..], Next(s, steps[0]))
  }

  // ----- what every step keeps -----

  /** There is something a look from `start` would report. */
  ghost predicate News(s: State, start: nat) {
    start < s.trimmed || !NoTerminal(s.log, start) || s.failed
  }

  /** At most one caller is inside, and then the lifecycle lock is taken. */
  ghost predicate Exclusive(s: State) {
    && (forall c :: Inside(s, c) ==> s.lifecycle)
    && (forall c, d :: Inside(s, c) && Inside(s, d) ==> c == d)
  }

  /** A waiting caller with news has a wake-up in the channel or on its way there. */
  ghost predicate Noticed(s: State, c: nat) {
    c in s.callers && s.callers[c].Waiting? && News(s, s.callers[c].start) ==> s.token || s.signallers > 0
  }

  ghost predicate Started(s: State, c: nat) {
    c in s.callers && (s.callers[c].Looking? || s.callers[c].Waiting?) ==> s.callers[c].start <= |s.log|
  }

  /** A turn that was returned is exactly the log from the caller's start through the first terminal agent_end. */
  ghost predicate Truthful(s: State, c: nat) {
    c in s.callers && s.callers[c].Returning? && s.callers[c].outcome.Turn? ==>
      WholeTurn(s.log, s.callers[c].start, s.callers[c].outcome.events)
  }

  ghost predicate WholeTurn(log: seq<Event>, start: nat, events: seq<Event>) {
    exists t: nat :: FirstTerminal(log, start, t) && events == log[start..t + 1]
  }

  ghost predicate Inv(s: State) {
    && s.trimmed <= |s.log|
    && Exclusive(s)
    && forall c :: Noticed(s, c) && Started(s, c) && Truthful(s, c)
  }

  lemma {:induction false} FirstTerminalExists(log: seq<Event>, start: nat)
    requires !NoTerminal(log, start)
    ensures exists t :: FirstTerminal(log, start, t)
    decreases |log| - start
  {
    var k :| start <= k < |log| && Terminal(log[k]);
    if Terminal(log[start]) {
      assert FirstTerminal(log, start, start);
    } else {
      assert start + 1 <= k;
      FirstTerminalExists(log, start + 1);
      var t :| FirstTerminal(log, start + 1, t);
      assert FirstTerminal(log, start, t);
    }
  }

  lemma {:induction false} LookKeepsInv(s: State, c: nat)
    requires Inv(s) && Enabled(s, Look(c))
    ensures Inv(Next(s, Look(c)))
  {
    var t := Next(s, Look(c));
    var start := s.callers[c].start;
    assert Started(s, c);
    if !NoTerminal(s.log, start) { FirstTerminalExists(s.log, start); }
    forall d ensures Noticed(t, d) && Started(t, d) && Truthful(t, d) {
      assert Noticed(s, d) && Started(s, d) && Truthful(s, d);
    }
    forall d, e | Inside(t, d) && Inside(t, e) ensures d == e && t.lifecycle {
      assert Inside(s, d) && Inside(s, e);
    }
  }

  lemma {:induction false} WholeTurnStays(log: seq<Event>, e: Event, start: nat, events: seq<Event>)
    requires WholeTurn(log, start, events)
    ensures WholeTurn(log + [e], start, events)
  {
    var t: nat :| FirstTerminal(log, start, t) && events == log[start..t + 1];
    assert FirstTerminal(log + [e], start, t) && events == (log + [e])[start..t + 1];
  }

  lemma {:induction false} AppendKeepsInv(s: State, step: Step)
    requires Inv(s) && step.Append? && Enabled(s, step)
    ensures Inv(Next(s, step))
  {
    var t := Next(s, step);
    forall d ensures Noticed(t, d) && Started(t, d) && Truthful(t, d) {
      assert Noticed(s, d) && Started(s, d) && Truthful(s, d);
      if d in s.callers && s.callers[d].Returning? && s.callers[d].outcome.Turn? {
        WholeTurnStays(s.log, step.event, s.callers[d].start, s.callers[d].outcome.events);
      }
    }
    forall d, e | Inside(t, d) && Inside(t, e) ensures d == e && t.lifecycle {
      assert Inside(s, d) && Inside(s, e);
    }
  }

  lemma {:induction false} SharedKeepsInv(s: State, step: Step)
    requires Inv(s) && Enabled(s, step) && (step.Fail? || step.ClearError? || step.Send?)
    ensures Inv(Next(s, step))
  {
    var t := Next(s, step);
    forall d ensures Noticed(t, d) && Started(t, d) && Truthful(t, d) {
      assert Noticed(s, d) && Started(s, d) && Truthful(s, d);
    }
    forall d, e | Inside(t, d) && Inside(t, e) ensures d == e && t.lifecycle {
      assert Inside(s, d) && Inside(s, e);
    }
  }

  lemma {:induction false} AcquireKeepsInv(s: State, c: nat)
    requires Inv(s) && Enabled(s, Acquire(c))
    ensures Inv(Next(s, Acquire(c)))
  {
    var t := Next(s, Acquire(c));
    forall d ensures Noticed(t, d) && Started(t, d) && Truthful(t, d) {
      assert Noticed(s, d) && Started(s, d) && Truthful(s, d);
    }
    forall d | Inside(t, d) ensures d == c {
      assert d != c ==> Inside(s, d);
    }
  }

  lemma {:induction false} LeaveKeepsInv(s: State, step: Step)
    requires Inv(s) && Enabled(s, step) && (step.Wake? || step.Stop? || step.Release?)
    ensures Inv(Next(s, step))
  {
    var t := Next(s, step);
    assert Inside(s, step.c);
    forall d ensures Noticed(t, d) && Started(t, d) && Truthful(t, d) {
      assert Noticed(s, d) && Started(s, d) && Truthful(s, d);
      assert d != step.c ==> !Inside(s, d);
    }
    forall d | Inside(t, d) ensures d == step.c && (step.Release? ==> d != step.c) && t.lifecycle == s.lifecycle {
      assert Inside(s, d);
    }
  }

  lemma {:induction false} StepKeepsInv(s: State, step: Step)
    requires Inv(s) && Enabled(s, step)
    ensures Inv(Next(s, step))
  {
    match step
    case Append(_, _) => AppendKeepsInv(s, step);
    case Fail => SharedKeepsInv(s, step);
    case ClearError => SharedKeepsInv(s, step);
    case Send => SharedKeepsInv(s, step);
    case Acquire(c) => AcquireKeepsInv(s, c);
    case Look(c) => LookKeepsInv(s, c);
    case Wake(_) => LeaveKeepsInv(s, step);
    case Stop(_) => LeaveKeepsInv(s, step);
    case Release(_) => LeaveKeepsInv(s, step);
  }

  lemma {:induction false} InitIsInv(s: State)
    requires Init(s)
    ensures Inv(s)
  {
  }

  lemma {:induction false} RunKeepsInv(steps: seq<Step>, s: State)
    requires Inv(s) && Runs(steps, s)
    ensures Inv(After(steps, s))
    decreases |steps|
  {
    if steps != [] {
      StepKeepsInv(s, steps[0]);
      RunKeepsInv(steps[1..], Next(s, steps[0]));
    }
  }

  // ----- what that says -----

  /** In every run: one collector at a time, truthful turns, and no waiting caller whose news went unannounced. */
  lemma {:induction false} NoWakeUpIsLost(steps: seq<Step>, s: State, c: nat)
    requires Init(s) && Runs(steps, s)
    ensures Exclusive(After(steps, s)) && Noticed(After(steps, s), c) && Truthful(After(steps, s), c)
  {
    InitIsInv(s);
    RunKeepsInv(steps, s);
  }

  /** The steps of the waking itself: nobody appends, fails or leaves. */
  predicate Internal(step: Step) {
    step.Send? || step.Wake? || step.Look?
  }

  predicate AllInternal(steps: seq<Step>) {
    forall i :: 0 <= i < |steps| ==> Internal(steps[i])
  }

  /** A caller that news should reach. */
  ghost predicate Due(s: State, c: nat) {
    c in s.callers && (s.callers[c].Looking? || s.callers[c].Waiting?) && News(s, s.callers[c].start)
  }

  function Left(s: State, c: nat): nat {
    if c !in s.callers || !(s.callers[c].Looking? || s.callers[c].Waiting?) then 0
    else s.signallers + if s.callers[c].Waiting? then 2 else 1
  }

  lemma {:induction false} DueStep(s: State, c: nat, step: Step)
    requires Inv(s) && Due(s, c) && Internal(step) && Enabled(s, step)
    ensures var t := Next(s, step);
      && c in t.callers && t.callers[c] != Outside && t.callers[c].start == s.callers[c].start
      && (Due(t, c) || t.callers[c].Returning?)
      && Left(t, c) < Left(s, c)
  {
    assert Inside(s, c);
    if step.Wake? || step.Look? {
      assert Inside(s, step.c);
      assert step.c == c;
    }
    if step.Look? && !NoTerminal(s.log, s.callers[c].start) {
      FirstTerminalExists(s.log, s.callers[c].start);
    }
  }

  /** While news is due some such step can be taken. */
  lemma {:induction false} DueCanMove(s: State, c: nat)
    requires Inv(s) && Due(s, c)
    ensures exists step :: Internal(step) && Enabled(s, step)
  {
    assert Noticed(s, c);
    if s.callers[c].Looking? {
      assert Internal(Look(c)) && Enabled(s, Look(c));
    } else if s.token {
      assert Internal(Wake(c)) && Enabled(s, Wake(c));
    } else {
      assert Internal(Send) && Enabled(s, Send);
    }
  }

  /** However the waking is scheduled, it takes at most a few steps, and when it can go no further the caller has returned. */
  lemma {:induction false} NewsArrives(steps: seq<Step>, s: State, c: nat)
    requires Inv(s) && Due(s, c) && Runs(steps, s) && AllInternal(steps)
    requires forall step :: Internal(step) ==> !Enabled(After(steps, s), step)
    ensures c in After(steps, s).callers && After(steps, s).callers[c].Returning?
    ensures After(steps, s).callers[c].start == s.callers[c].start
    decreases |steps|
  {
    if steps == [] {
      DueCanMove(s, c);
    } else {
      DueStep(s, c, steps[0]);
      StepKeepsInv(s, steps[0]);
      var t := Next(s, steps[0]);
      if Due(t, c) {
        NewsArrives(steps[1..], t, c);
      } else {
        ReturnedStays(steps[1..], t, c);
      }
    }
  }

  lemma {:induction false} ReturnedStays(steps: seq<Step>, s: State, c: nat)
    requires c in s.callers && s.callers[c].Returning? && Runs(steps, s) && AllInternal(steps)
    ensures c in After(steps, s).callers && After(steps, s).callers[c] == s.callers[c]
    decreases |steps|
  {
    if steps != [] {
      ReturnedStays(steps[1..], Next(s, steps[0]), c);
    }
  }

  /** As long as the news has not arrived, only so many of these steps can have been taken. */
  lemma {:induction false} WakingIsShort(steps: seq<Step>, s: State, c: nat)
    requires Inv(s) && Due(s, c) && Runs(steps, s) && AllInternal(steps)
    requires forall k :: 0 <= k < |steps| ==> Runs(steps[..k], s) && Due(After(steps[..k], s), c)
    ensures |steps| <= Left(s, c) <= s.signallers + 2
    decreases |steps|
  {
    if steps != [] {
      DueStep(s, c, steps[0]);
      StepKeepsInv(s, steps[0]);
      var t, rest := Next(s, steps[0]), steps[1..];
      if rest != [] {
        forall k | 0 <= k < |rest| ensures Runs(rest[..k], t) && Due(After(rest[..k], t), c) {
          assert steps[..k + 1] == [steps[0]] + rest[..k];
          assert Runs(steps[..k + 1], s) && steps[..k + 1][1..] == rest[..k];
        }
        assert rest[..0] == [];
        WakingIsShort(rest, t, c);
      }
    }
  }

  // ----- which failures a collector hears of -----

  /** The error is set after these steps: it was set before and not cleared, or was set on the way and not cleared since. */
  ghost predicate Uncleared(steps: seq<Step>, before: bool) {
    (before && ClearError !in steps) || exists i :: FailsLast(steps, i)
  }

  /** Step `i` reports a failure that none of the later steps clears. */
  ghost predicate FailsLast(steps: seq<Step>, i: nat) {
    i < |steps| && steps[i] == Fail && ClearError !in steps[i + 1..]
  }

  lemma {:induction false} UnclearedFirst(steps: seq<Step>, before: bool, next: bool)
    requires steps != []
    requires next == (if steps[0] == Fail then true else if steps[0] == ClearError then false else before)
    ensures Uncleared(steps, before) <==> Uncleared(steps[1..], next)
  {
    assert ClearError in steps <==> steps[0] == ClearError || ClearError in steps[1..];
    if i: nat :| FailsLast(steps, i) {
      if i > 0 {
        assert steps[1..][i..] == steps[i + 1..];
        assert FailsLast(steps[1..], i - 1);
      }
    }
    if i: nat :| FailsLast(steps[1..], i) {
      assert steps[1..][i + 1..] == steps[i + 2..];
      assert FailsLast(steps, i + 1);
    }
    if next && ClearError !in steps[1..] && steps[0] == Fail {
      assert FailsLast(steps, 0);
    }
  }

  /** In every run the error is set at the end iff some failure, or an error from before, has no clear after it. */
  lemma {:induction false} FailedIffUncleared(steps: seq<Step>, s: State)
    requires Runs(steps, s)
    ensures After(steps, s).failed <==> Uncleared(steps, s.failed)
    decreases |steps|
  {
    if steps != [] {
      UnclearedFirst(steps, s.failed, Next(s, steps[0]).failed);
      FailedIffUncleared(steps[1..], Next(s, steps[0]));
    }
  }

  /** The log has nothing to report from `start` on: neither a trimmed event nor a terminal one. */
  ghost predicate Silent(s: State, start: nat) {
    start >= s.trimmed && NoTerminal(s.log, start)
  }

  ghost predicate Attending(s: State, c: nat) {
    c in s.callers && (s.callers[c].Looking? || s.callers[c].Waiting?)
  }

  /** A look that finds nothing in the log reports the error iff some failure has no clear between it and the look. */
  lemma {:induction false} LookReportsFailure(steps: seq<Step>, s: State, c: nat)
    requires Init(s) && Runs(steps, s) && Enabled(After(steps, s), Look(c))
    requires Silent(After(steps, s), After(steps, s).callers[c].start)
    ensures var t := After(steps, s);
      Next(t, Look(c)).callers[c] == Returning(t.callers[c].start, AsyncError) <==> exists i :: FailsLast(steps, i)
  {
    FailedIffUncleared(steps, s);
    NothingToSee(After(steps, s), After(steps, s).callers[c].start);
  }

  lemma {:induction false} NothingToSee(s: State, start: nat)
    requires Silent(s, start)
    ensures Look1(s, start) == if s.failed then Returning(start, AsyncError) else Waiting(start)
  {
    assert forall t :: !FirstTerminal(s.log, start, t);
  }

  /** However the waking is scheduled: with nothing in the log it ends with the error, if it is set, and with waiting if not. */
  lemma {:induction false} WakingEnds(steps: seq<Step>, s: State, c: nat)
    requires Inv(s) && Attending(s, c) && Silent(s, s.callers[c].start) && Runs(steps, s) && AllInternal(steps)
    requires forall step :: Internal(step) ==> !Enabled(After(steps, s), step)
    ensures c in After(steps, s).callers
    ensures var start := s.callers[c].start;
      After(steps, s).callers[c] == if s.failed then Returning(start, AsyncError) else Waiting(start)
    decreases |steps|
  {
    if steps == [] {
      assert After(steps, s) == s && Internal(Look(c)) && Internal(Wake(c)) && Internal(Send);
      assert Noticed(s, c);
    } else {
      var t := Next(s, steps[0]);
      assert Internal(steps[0]);
      StepKeepsInv(s, steps[0]);
      NothingToSee(s, s.callers[c].start);
      if t.callers[c].Returning? {
        ReturnedStays(steps[1..], t, c);
      } else {
        WakingEnds(steps[1..], t, c);
      }
    }
  }

  /**
   * From the start of the client, over every run and every schedule of the waking that follows: a collector with nothing
   * in its log comes back with the error iff some failure had no clear after it, and otherwise waits on.
   */
  lemma {:induction false} FailureArrivesIff(steps: seq<Step>, waking: seq<Step>, s: State, c: nat)
    requires Init(s) && Runs(steps, s)
    requires Attending(After(steps, s), c) && Silent(After(steps, s), After(steps, s).callers[c].start)
    requires Runs(waking, After(steps, s)) && AllInternal(waking)
    requires forall step :: Internal(step) ==> !Enabled(After(waking, After(steps, s)), step)
    ensures c in After(waking, After(steps, s)).callers
    ensures var t := After(steps, s);
      After(waking, t).callers[c]
      == if exists i :: FailsLast(steps, i) then Returning(t.callers[c].start, AsyncError) else Waiting(t.callers[c].start)
  {
    InitIsInv(s);
    RunKeepsInv(steps, s);
    FailedIffUncleared(steps, s);
    WakingEnds(waking, After(steps, s), c);
  }

  /** Clearing first, and not again, loses no failure: what is reported after that is set in the end. */
  lemma {:induction false} ClearingFirstLosesNothing(before: seq<Step>, later: seq<Step>, s: State)
    requires Runs(before + [ClearError] + later, s) && ClearError !in later
    ensures After(before + [ClearError] + later, s).failed <==> Fail in later
  {
    var steps := before + [ClearError] + later;
    FailedIffUncleared(steps, s);
    assert steps[|before|] == ClearError;
    forall i: nat | i < |before| ensures !FailsLast(steps, i) {
      assert steps[i + 1..][|before| - i - 1] == ClearError;
    }
    if i: nat :| FailsLast(steps, i) {
      assert steps[i] == later[i - |before| - 1];
    }
    if Fail in later {
      var k: nat :| k < |later| && later[k] == Fail;
      assert steps[|before| + 1 + k + 1..] == later[k + 1..];
      assert FailsLast(steps, |before| + 1 + k);
    }
  }

  /** With two collectors at once one wake-up would not be enough: the second would wait on with its news in the log. */
  lemma {:induction false} TwoCollectorsLoseOne(end: Event)
    requires Terminal(end)
    ensures var s := State([end], 0, false, true, 0, true, map[0 := Waiting(0), 1 := Waiting(0)]);
      && Noticed(s, 0) && Noticed(s, 1) && Enabled(s, Wake(0)) && !Noticed(Next(s, Wake(0)), 1)
  {
    var s := State([end], 0, false, true, 0, true, map[0 := Waiting(0), 1 := Waiting(0)]);
    var t := Next(s, Wake(0));
    assert Terminal(t.log[0]) && News(t, 0) && t.callers[1] == Waiting(0);
  }

  /** A failure that is reported between the response to a prompt and the clearing of the old error is erased with it. */
  lemma {:induction false} ClearingErasesFailure(s: State, c: nat)
    requires Inv(s) && c in s.callers && s.callers[c].Looking? && !s.failed
    requires s.trimmed <= s.callers[c].start && NoTerminal(s.log, s.callers[c].start)
    ensures var steps := [Fail, Send, ClearError, Look(c)];
      && Runs(steps, s)
      && After(steps, s) == s.(token := true, callers := s.callers[c := Waiting(s.callers[c].start)])
      && !News(After(steps, s), s.callers[c].start)
  {
    var s1 := Next(s, Fail);
    var s2 := Next(s1, Send);
    var s3 := Next(s2, ClearError);
    var s4 := Next(s3, Look(c));
    assert s4 == s.(token := true, callers := s.callers[c := Waiting(s.callers[c].start)]);
    assert Runs([], s4) && After([], s4) == s4;
    OneStep(Look(c), [], s3);
    OneStep(ClearError, [Look(c)], s2);
    OneStep(Send, [ClearError, Look(c)], s1);
    OneStep(Fail, [Send, ClearError, Look(c)], s);
    assert [Fail] + [Send, ClearError, Look(c)] == [Fail, Send, ClearError, Look(c)];
    assert [Send] + [ClearError, Look(c)] == [Send, ClearError, Look(c)];
    assert [ClearError] + [Look(c)] == [ClearError, Look(c)];
    assert [Look(c)] + [] == [Look(c)];
  }

  /** It can happen from the start: the collector goes in, and the failure is reported before the clearing. */
  lemma {:induction false} ErasedFromStart(s: State, c: nat)
    requires Init(s) && c in s.callers
    ensures var steps := [Acquire(c), Fail, Send, ClearError, Look(c)];
      && Runs(steps, s) && After(steps, s).callers == s.callers[c := Waiting(0)] && !News(After(steps, s), 0)
  {
    var rest := [Fail, Send, ClearError, Look(c)];
    InitIsInv(s);
    AcquireKeepsInv(s, c);
    ClearingErasesFailure(Next(s, Acquire(c)), c);
    OneStep(Acquire(c), rest, s);
    assert [Acquire(c)] + rest == [Acquire(c), Fail, Send, ClearError, Look(c)];
  }

  lemma {:induction false} OneStep(step: Step, rest: seq<Step>, s: State)
    requires Enabled(s, step) && Runs(rest, Next(s, step))
    ensures Runs([step] + rest, s) && After([step] + rest, s) == After(rest, Next(s, step))
  {
    assert ([step] + rest)[1..] == rest;
  }
}
