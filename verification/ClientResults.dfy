/** Which result a request gets, over whole runs: what the response that answered it said. */
module ClientResults {
  import opened Options
  import opened ClientCorrelation
  import opened ClientRequests

  lemma {:induction false} OneMoreStep(steps: seq<Step>, s: State, k: nat)
    requires k < |steps|
    ensures After(steps[..k + 1], s) == Next(After(steps[..k], s), steps[k])
    decreases k
  {
    if k == 0 {
      assert steps[..1] == [steps[0]] && steps[..1][1..] == [] && steps[..0] == [];
    } else {
      OneMoreStep(steps[1..], Next(s, steps[0]), k - 1);
      assert steps[..k + 1][1..] == steps[1..][..k] && steps[..k][1..] == steps[1..][..k - 1];
    }
  }

  /** Before step `k` the request was entered with this command: the stream was open. */
  ghost predicate EnteredAs(steps: seq<Step>, s: State, k: nat, n: nat, command: string) {
    exists j: nat :: j < k && j < |steps| && steps[j] == Register(n, command) && After(steps[..j], s).shared.stream
  }

  /** The response is for request `n`: by its id, or as a failure that only this request can be blamed for. */
  predicate IsFor(pending: Table, n: nat, response: Response) {
    || response.id == Req(n)
    || (&& !response.success && (response.id.Req? ==> response.id.n !in pending)
        && n in pending
        && (pending[n] == response.command || (response.command == "parse" && |pending| == 1))
        && forall m :: m in pending && pending[m] == response.command ==> m == n)
  }

  /** While `command` was pending as request `n`, this step called for this result. */
  predicate Called(pending: Table, n: nat, command: string, step: Step, result: Result) {
    match result
    case Raw(json) =>
      && step.Respond? && step.response.id == Req(n) && step.response.success && step.response.command == command
      && json == if step.response.data.Some? then step.response.data.value else "{}"
    case CommandError(failed, message) =>
      && step.Respond? && IsFor(pending, n, step.response) && !step.response.success
      && step.response.command == command == failed && message == step.response.error
    case Mismatch(expected, received) =>
      && step.Respond? && IsFor(pending, n, step.response)
      && expected == command && received == step.response.command != command
    case Closed(reason) => step == FailAll(reason) || (step == Sweep && reason == "omp RPC client closed")
  }

  /** Step `i` gave request `n`, entered and pending until then, this result. */
  ghost predicate GivenBy(steps: seq<Step>, s: State, i: nat, n: nat, result: Result) {
    && i < |steps|
    && var pending := After(steps[..i], s).shared.pending;
       n in pending && EnteredAs(steps, s, i, n, pending[n]) && Called(pending, n, pending[n], steps[i], result)
  }

  ghost predicate Given(steps: seq<Step>, s: State, k: nat, n: nat, result: Result) {
    exists i: nat :: i < k && GivenBy(steps, s, i, n, result)
  }

  ghost predicate Explained(steps: seq<Step>, s: State, k: nat)
    requires k <= |steps|
  {
    var t := After(steps[..k], s);
    && (forall n :: n in t.shared.pending ==> EnteredAs(steps, s, k, n, t.shared.pending[n]))
    && (forall n, r :: (n, r) in t.owed ==> Given(steps, s, k, n, r))
    && (forall i :: 0 <= i < |t.sent| ==> Given(steps, s, k, t.sent[i].0, t.sent[i].1))
  }

  /** What a response makes of the request it answers. */
  lemma {:induction false} AnswerIsCalled(pending: Table, response: Response, n: nat)
    requires Answers(pending, response, Some(n)) && n in pending
    ensures Called(pending, n, pending[n], Respond(response), ResultFor(pending[n], response))
  {
    assert n in {n};
    if !(response.id.Req? && response.id.n in pending) {
      var same := SameCommand(pending, response.command);
      assert forall m :: m in pending && pending[m] == response.command ==> m in same;
      assert same == {n} ==> n in same;
      if same != {n} {
        assert pending.Keys == {n} && |pending| == |pending.Keys|;
      }
    }
  }

  /** Every result that a step adds to those owed is called for. */
  lemma {:induction false} StepGives(s: State, step: Step, n: nat, r: Result)
    requires (n, r) in Next(s, step).owed && (n, r) !in s.owed
    ensures n in s.shared.pending && Called(s.shared.pending, n, s.shared.pending[n], step, r)
  {
    if step.Respond? {
      var m := Answered(s.shared.pending, step.response);
      AnsweredIsPending(s.shared.pending, step.response);
      AnswerIsCalled(s.shared.pending, step.response, m.value);
    }
  }

  lemma {:induction false} StepEnters(s: State, step: Step, n: nat)
    requires n in Next(s, step).shared.pending
    ensures (step == Register(n, Next(s, step).shared.pending[n]) && s.shared.stream)
      || (n in s.shared.pending && s.shared.pending[n] == Next(s, step).shared.pending[n])
  {
  }

  lemma {:induction false} StillGiven(steps: seq<Step>, s: State, k: nat, n: nat, r: Result)
    requires Given(steps, s, k, n, r)
    ensures Given(steps, s, k + 1, n, r)
  {
  }

  lemma {:induction false} ExplainedNext(steps: seq<Step>, s: State, k: nat)
    requires k < |steps| && Explained(steps, s, k) && Enabled(After(steps[..k], s), steps[k])
    ensures Explained(steps, s, k + 1)
  {
    var t, u := After(steps[..k], s), After(steps[..k + 1], s);
    OneMoreStep(steps, s, k);
    forall n | n in u.shared.pending ensures EnteredAs(steps, s, k + 1, n, u.shared.pending[n]) {
      StepEnters(t, steps[k], n);
    }
    forall n, r | (n, r) in u.owed ensures Given(steps, s, k + 1, n, r) {
      if (n, r) in t.owed {
        StillGiven(steps, s, k, n, r);
      } else {
        StepGives(t, steps[k], n, r);
        assert GivenBy(steps, s, k, n, r);
      }
    }
    forall i | 0 <= i < |u.sent| ensures Given(steps, s, k + 1, u.sent[i].0, u.sent[i].1) {
      if i < |t.sent| {
        assert u.sent[i] == t.sent[i];
      }
      StillGiven(steps, s, k, u.sent[i].0, u.sent[i].1);
    }
  }

  lemma {:induction false} RunEnabled(steps: seq<Step>, s: State, k: nat)
    requires Runs(steps, s) && k < |steps|
    ensures Enabled(After(steps[..k], s), steps[k])
    decreases k
  {
    if k == 0 {
      assert steps[..0] == [];
    } else {
      RunEnabled(steps[1..], Next(s, steps[0]), k - 1);
      assert steps[..k][0] == steps[0] && steps[..k][1..] == steps[1..][..k - 1];
    }
  }

  lemma {:induction false} ExplainedUpTo(steps: seq<Step>, s: State, k: nat)
    requires Init(s) && Runs(steps, s) && k <= |steps|
    ensures Explained(steps, s, k)
    decreases k
  {
    if k == 0 {
      assert steps[..0] == [];
    } else {
      ExplainedUpTo(steps, s, k - 1);
      RunEnabled(steps, s, k - 1);
      ExplainedNext(steps, s, k - 1);
    }
  }

  /**
   * In every run, whatever is owed or has been sent to a request is what some step called for while the request, entered
   * with its command, was pending: the data or the error of its response, the two commands that differ, or the reason of
   * the failure.
   */
  lemma {:induction false} ResultsAreCalledFor(steps: seq<Step>, s: State, n: nat, r: Result)
    requires Init(s) && Runs(steps, s)
    ensures (n, r) in After(steps, s).owed || (n, r) in After(steps, s).sent ==> Given(steps, s, |steps|, n, r)
  {
    ExplainedUpTo(steps, s, |steps|);
    assert steps[..|steps|] == steps;
    if (n, r) in After(steps, s).sent {
      var i :| 0 <= i < |After(steps, s).sent| && After(steps, s).sent[i] == (n, r);
    }
  }

  /** A response for a pending request takes it, and only it, off the table, and the request is owed what is called for. */
  lemma {:induction false} AnswerArrives(s: State, n: nat, response: Response, r: Result)
    requires n in s.shared.pending && IsFor(s.shared.pending, n, response)
    requires Called(s.shared.pending, n, s.shared.pending[n], Respond(response), r)
    ensures var t := Next(s, Respond(response));
      && t.owed == s.owed + {(n, r)}
      && t == s.(shared := s.shared.(pending := t.shared.pending), owed := t.owed)
      && (forall m :: m in t.shared.pending <==> m in s.shared.pending && m != n)
      && (forall m :: m in t.shared.pending ==> t.shared.pending[m] == s.shared.pending[m])
  {
    ForIsAnswer(s.shared.pending, n, response);
    OneAnswer(s.shared.pending, response, Some(n), Answered(s.shared.pending, response));
  }

  lemma {:induction false} ForIsAnswer(pending: Table, n: nat, response: Response)
    requires n in pending && IsFor(pending, n, response)
    ensures Answers(pending, response, Some(n))
  {
    if !(response.id.Req? && response.id.n in pending) {
      var same := SameCommand(pending, response.command);
      assert forall m :: m in same ==> m == n;
      if pending[n] == response.command {
        assert n in same && same == {n};
      } else {
        assert same == {};
        SingleElement(pending.Keys);
        assert pending.Keys == {n};
      }
    }
  }

  /** Of any response to a pending request just one result is called for. */
  lemma {:induction false} OneResultCalled(pending: Table, n: nat, response: Response)
    requires n in pending && IsFor(pending, n, response)
    ensures exists r :: Called(pending, n, pending[n], Respond(response), r)
    ensures forall r, q :: Called(pending, n, pending[n], Respond(response), r) && Called(pending, n, pending[n], Respond(response), q) ==> r == q
  {
    var r := if response.command != pending[n] then Mismatch(pending[n], response.command)
      else if response.success then Raw(if response.data.Some? then response.data.value else "{}")
      else CommandError(response.command, response.error);
    assert Called(pending, n, pending[n], Respond(response), r);
  }

  /** A response that is for no pending request changes nothing. */
  lemma {:induction false} OthersChangeNothing(s: State, response: Response)
    requires forall n :: n in s.shared.pending ==> !IsFor(s.shared.pending, n, response)
    ensures Next(s, Respond(response)) == s
  {
    var pending, m := s.shared.pending, Answered(s.shared.pending, response);
    AnsweredIsPending(pending, response);
    if m.Some? {
      AnswerIsCalled(pending, response, m.value);
    }
  }
}
