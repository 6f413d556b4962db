/** What a collector returns, over whole runs: the events appended since it went in, and why else it may end. */
module ClientTurns {
  import opened ClientEvents
  import opened ClientWakeup

  /** The events appended by these steps. */
  function Appended(steps: seq<Step>): seq<Event> {
    if steps == [] then [] else (if steps[0].Append? then [steps[0].event] else []) + Appended(steps[1..])
  }

  lemma {:induction false} LogIsAppended(steps: seq<Step>, s: State)
    requires Runs(steps, s)
    ensures After(steps, s).log == s.log + Appended(steps)
    decreases |steps|
  {
    if steps != [] {
      LogIsAppended(steps[1..], Next(s, steps[0]));
    }
  }

  /** Step `i` is the last by which `c` goes in. */
  ghost predicate LastAcquire(steps: seq<Step>, c: nat, i: nat) {
    i < |steps| && steps[i] == Acquire(c) && Acquire(c) !in steps[i + 1..]
  }

  /** A caller inside has been there since before these steps, or looks at what was appended after it went in. */
  lemma {:induction false} SinceAcquire(steps: seq<Step>, s: State, c: nat)
    requires Runs(steps, s) && Inside(After(steps, s), c)
    ensures (Acquire(c) !in steps && Inside(s, c) && After(steps, s).callers[c].start == s.callers[c].start)
      || exists i: nat :: LastAcquire(steps, c, i) && After(steps, s).callers[c].start == |s.log| + |Appended(steps[..i])|
    decreases |steps|
  {
    if steps != [] {
      var first, rest, t := steps[0], steps[1..], Next(s, steps[0]);
      SinceAcquire(rest, t, c);
      assert forall x :: x in steps <==> x == first || x in rest;
      if i: nat :| LastAcquire(rest, c, i) && After(rest, t).callers[c].start == |t.log| + |Appended(rest[..i])| {
        AcquireShifts(steps, c, i);
        AppendedFirst(steps, i + 1);
      } else if first == Acquire(c) {
        assert steps[1..] == rest && Appended(steps[..0]) == [];
        assert LastAcquire(steps, c, 0);
      }
    }
  }

  lemma {:induction false} AcquireShifts(steps: seq<Step>, c: nat, i: nat)
    requires steps != [] && LastAcquire(steps[1..], c, i)
    ensures LastAcquire(steps, c, i + 1)
  {
    assert steps[i + 2..] == steps[1..][i + 1..];
  }

  lemma {:induction false} AppendedFirst(steps: seq<Step>, j: nat)
    requires 0 < j <= |steps|
    ensures Appended(steps[..j]) == (if steps[0].Append? then [steps[0].event] else []) + Appended(steps[1..][..j - 1])
  {
    assert steps[..j][0] == steps[0] && steps[..j][1..] == steps[1..][..j - 1];
  }

  lemma {:induction false} AppendedParts(steps: seq<Step>, i: nat)
    requires i < |steps| && !steps[i].Append?
    ensures Appended(steps) == Appended(steps[..i]) + Appended(steps[i + 1..])
    decreases i
  {
    if i == 0 {
      assert steps[..0] == [];
    } else {
      AppendedParts(steps[1..], i - 1);
      AppendedFirst(steps, i);
      assert steps[1..][i..] == steps[i + 1..];
    }
  }

  /** From where caller `c` looks there is exactly what these steps have appended since step `i`. */
  ghost predicate SeesFrom(steps: seq<Step>, t: State, c: nat, i: nat)
    requires c in t.callers && t.callers[c] != Outside && i < |steps|
  {
    var start := t.callers[c].start;
    start == |Appended(steps[..i])| <= |t.log| && t.log[start..] == Appended(steps[i + 1..])
  }

  /** In every run a caller inside starts behind all events appended before it last went in. */
  lemma {:induction false} StartsAtAcquire(steps: seq<Step>, s: State, c: nat) returns (i: nat)
    requires Init(s) && Runs(steps, s) && Inside(After(steps, s), c)
    ensures LastAcquire(steps, c, i) && SeesFrom(steps, After(steps, s), c, i)
  {
    SinceAcquire(steps, s, c);
    i :| LastAcquire(steps, c, i) && After(steps, s).callers[c].start == |s.log| + |Appended(steps[..i])|;
    LogIsAppended(steps, s);
    Behind(steps, After(steps, s), c, i);
  }

  lemma {:induction false} Behind(steps: seq<Step>, t: State, c: nat, i: nat)
    requires i < |steps| && !steps[i].Append? && t.log == Appended(steps)
    requires c in t.callers && t.callers[c] != Outside && t.callers[c].start == |Appended(steps[..i])|
    ensures SeesFrom(steps, t, c, i)
  {
    AppendedParts(steps, i);
    var before := Appended(steps[..i]);
    assert t.log[|before|..] == Appended(steps[i + 1..]);
  }

  /** An agent_end that does not say it is not the last. */
  predicate EndsTurn(e: Event) {
    e.AgentEnd? && (e.isTerminal.None? || e.isTerminal.value)
  }

  /** Everything through the first such agent_end. */
  ghost predicate FirstTurn(events: seq<Event>, turn: seq<Event>) {
    turn <= events && turn != [] && EndsTurn(turn[|turn| - 1]) && forall k :: 0 <= k < |turn| - 1 ==> !EndsTurn(turn[k])
  }

  /** In every run a returned turn is what was appended since its caller went in, through the first terminal agent_end. */
  lemma {:induction false} TurnIsNew(steps: seq<Step>, s: State, c: nat) returns (i: nat)
    requires Init(s) && Runs(steps, s) && Inside(After(steps, s), c)
    requires After(steps, s).callers[c].Returning? && After(steps, s).callers[c].outcome.Turn?
    ensures LastAcquire(steps, c, i) && FirstTurn(Appended(steps[i + 1..]), After(steps, s).callers[c].outcome.events)
  {
    var t := After(steps, s);
    i := StartsAtAcquire(steps, s, c);
    InitIsInv(s);
    RunKeepsInv(steps, s);
    assert Truthful(t, c);
    WholeIsFirst(t.log, t.callers[c].start, t.callers[c].outcome.events);
  }

  lemma {:induction false} TerminalEnds(e: Event)
    ensures Terminal(e) <==> EndsTurn(e)
  {
  }

  lemma {:induction false} WholeIsFirst(log: seq<Event>, start: nat, events: seq<Event>)
    requires start <= |log| && WholeTurn(log, start, events)
    ensures FirstTurn(log[start..], events)
  {
    var t: nat :| FirstTerminal(log, start, t) && events == log[start..t + 1];
    assert log[start..][..t + 1 - start] == events;
    forall k | 0 <= k < |events| ensures EndsTurn(events[k]) <==> Terminal(log[start + k]) {
      TerminalEnds(events[k]);
    }
  }

  // ----- the other ways to end -----

  /** By step `k` the caller, in state `m` before it, came back with this outcome. */
  ghost predicate EndsAt(m: State, step: Step, c: nat, start: nat, outcome: Outcome) {
    match outcome
    case Turn(events) => step == Look(c) && m.trimmed <= start && WholeTurn(m.log, start, events)
    case Truncated => step == Look(c) && start < m.trimmed
    case AsyncError => step == Look(c) && m.trimmed <= start && NoTerminal(m.log, start) && m.failed
    case Stopped => step == Stop(c)
  }

  ghost predicate EndedBy(steps: seq<Step>, s: State, c: nat, k: nat, start: nat, outcome: Outcome)
    requires Runs(steps, s)
  {
    k < |steps| && Acquire(c) !in steps[k..] && Runs(steps[..k], s) && EndsAt(After(steps[..k], s), steps[k], c, start, outcome)
  }

  lemma {:induction false} LookEnds(s: State, c: nat)
    requires Enabled(s, Look(c)) && Next(s, Look(c)).callers[c].Returning?
    ensures var r := Next(s, Look(c)).callers[c]; r.start == s.callers[c].start && EndsAt(s, Look(c), c, r.start, r.outcome)
  {
    var start := s.callers[c].start;
    if !NoTerminal(s.log, start) {
      FirstTerminalExists(s.log, start);
    }
  }

  lemma {:induction false} StepEnds(s: State, step: Step, c: nat)
    requires Enabled(s, step) && c in s.callers && !s.callers[c].Returning? && Next(s, step).callers[c].Returning?
    ensures var r := Next(s, step).callers[c]; step != Acquire(c) && EndsAt(s, step, c, r.start, r.outcome)
  {
    if step == Look(c) {
      LookEnds(s, c);
    }
  }

  lemma {:induction false} EndsOrHasEnded(steps: seq<Step>, s: State, c: nat)
    requires Runs(steps, s) && c in After(steps, s).callers && After(steps, s).callers[c].Returning?
    ensures var r := After(steps, s).callers[c];
      (Acquire(c) !in steps && c in s.callers && s.callers[c] == r) || exists k: nat :: EndedBy(steps, s, c, k, r.start, r.outcome)
    decreases |steps|
  {
    if steps != [] {
      var first, rest, t, r := steps[0], steps[1..], Next(s, steps[0]), After(steps, s).callers[c];
      EndsOrHasEnded(rest, t, c);
      if k: nat :| EndedBy(rest, t, c, k, r.start, r.outcome) {
        var j := k + 1;
        assert steps[..j][0] == first && steps[..j][1..] == rest[..k] && steps[j..] == rest[k..];
        assert EndedBy(steps, s, c, j, r.start, r.outcome);
      } else if !s.callers[c].Returning? {
        StepEnds(s, first, c);
        assert steps[..0] == [] && steps[0..] == steps;
        assert EndedBy(steps, s, c, 0, r.start, r.outcome);
      }
    }
  }

  /** In every run a returning caller has come back by one look, at a log that called for it, or was stopped. */
  lemma {:induction false} ReturnsForCause(steps: seq<Step>, s: State, c: nat)
    requires Init(s) && Runs(steps, s) && c in After(steps, s).callers && After(steps, s).callers[c].Returning?
    ensures var r := After(steps, s).callers[c]; exists k: nat :: EndedBy(steps, s, c, k, r.start, r.outcome)
  {
    EndsOrHasEnded(steps, s, c);
  }
}
