/** The request table of the client over whole runs: at most one result per request, and none left after closing. */
module ClientRequests {
  import opened Collections
  import opened Options
  import opened ClientCorrelation

  // ----- the shared fields and their critical sections -----

  datatype Shared = Shared(pending: Table, stream: bool, closed: bool)

  function Registered(c: Shared, n: nat, command: string): Shared {
    if c.stream then c.(pending := c.pending[n := command]) else c
  }

  ghost function Answered(pending: Table, response: Response): (m: Option<nat>)
    ensures Answers(pending, response, m)
  {
    if response.id.Req? && response.id.n in pending then Some(response.id.n)
    else if response.success then None
    else if exists n :: Candidate(pending, response.command, n)
    then var n :| Candidate(pending, response.command, n); Some(n)
    else None
  }

  lemma {:induction false} AnsweredIsPending(pending: Table, response: Response)
    ensures Answered(pending, response).Some? ==> Answered(pending, response).value in pending
  {
    var m := Answered(pending, response);
    if !(response.id.Req? && response.id.n in pending) && !response.success {
      ReachesOnlyCandidate(pending, response, m);
    }
  }

  class RequestTable {
    var requestID: nat
    var pending: Table
    // Whether the stream is open, and whether the closed channel has been closed.
    var stream: bool
    var closed: bool

    constructor ()
      ensures View() == Shared(map[], false, false) && requestID == 0
    {
      requestID, pending, stream, closed := 0, map[], false, false;
    }

    function View(): Shared
      reads this
    {
      Shared(pending, stream, closed)
    }

    method NextID() returns (n: nat)
      modifies this`requestID
      ensures requestID == old(requestID) + 1 && n == requestID
    {
      requestID := requestID + 1;
      n := requestID;
    }

    method Register(n: nat, command: string) returns (started: bool)
      modifies this`pending
      ensures View() == Registered(old(View()), n, command) && started == stream
    {
      if !stream {
        return false;
      }
      pending := pending[n := command];
      return true;
    }

    method Withdraw(n: nat)
      modifies this`pending
      ensures View() == old(View()).(pending := Without(old(pending), n))
    {
      pending := map k | k in pending && k != n :: pending[k];
    }

    /** Takes the request a response answers off the table, and says what to send to whom once the lock is released. */
    method HandleResponse(response: Response) returns (delivery: Option<(nat, Result)>)
      modifies this`pending
      ensures match Answered(old(pending), response)
        case None => delivery == None && View() == old(View())
        case Some(n) =>
          && n in old(pending) && delivery == Some((n, ResultFor(old(pending)[n], response)))
          && View() == old(View()).(pending := Without(old(pending), n))
    {
      var m: Option<nat> := None;
      if response.id.Req? && response.id.n in pending {
        m := Some(response.id.n);
      } else if !response.success {
        m := FindMatch(pending, response.command);
      }
      OneAnswer(pending, response, m, Answered(pending, response));
      AnsweredIsPending(pending, response);
      delivery := None;
      if m.Some? {
        delivery := Some((m.value, ResultFor(pending[m.value], response)));
        Withdraw(m.value);
      }
    }

    /** Empties the table; everyone that was on it is owed the failure. */
    method FailAll() returns (taken: Table)
      modifies this`pending
      ensures taken == old(pending) && View() == old(View()).(pending := map[])
    {
      taken := pending;
      pending := map[];
    }

    // Starting assigns the stream without looking at `closed` (go/omp-rpc/client.go:257-260). Closing takes the mutex that
    // starting holds throughout, and the receive loop, the other way to close, begins only after the assignment: so no
    // stream is assigned once the table is closed, which the test below expresses.
    method Open()
      modifies this`stream
      ensures View() == if closed then old(View()) else old(View()).(stream := true)
    {
      if !closed {
        stream := true;
      }
    }

    method Detach()
      modifies this`stream
      ensures View() == old(View()).(stream := false)
    {
      stream := false;
    }
  }

  // ----- whole runs -----

  datatype Closing = Running | Signalled | Detached | Swept

  // `owed` are results taken for a request but not yet sent; `sent` is everything ever sent on the callers' channels.
  datatype State = State(
    shared: Shared,
    issued: nat,
    registered: set<nat>,
    withdrawn: set<nat>,
    owed: set<(nat, Result)>,
    sent: seq<(nat, Result)>,
    closing: Closing)

  datatype Step =
    | Issue
    | Register(n: nat, command: string)
    | Withdraw(n: nat)
    | Respond(response: Response)
    | FailAll(reason: string)
    | Deliver(n: nat, result: Result)
    | Open
    | Signal
    | Detach
    | Sweep

  ghost predicate Init(s: State) {
    s == State(Shared(map[], false, false), 0, {}, {}, {}, [], Running)
  }

  ghost predicate Enabled(s: State, step: Step) {
    match step
    case Register(n, _) => 1 <= n <= s.issued && n !in s.registered
    case Deliver(n, r) => (n, r) in s.owed
    case Signal => s.closing == Running
    case Detach => s.closing == Signalled
    case Sweep => s.closing == Detached
    case _ => true
  }

  /** Everyone on the table is owed the failure. */
  ghost function Failed(s: State, reason: string): State {
    s.(shared := s.shared.(pending := map[]),
       owed := s.owed + set n | n in s.shared.pending :: (n, Result.Closed(reason)))
  }

  ghost function Responded(s: State, response: Response): State {
    match Answered(s.shared.pending, response)
    case None => s
    case Some(n) =>
      AnsweredIsPending(s.shared.pending, response);
      s.(shared := s.shared.(pending := Without(s.shared.pending, n)),
         owed := s.owed + {(n, ResultFor(s.shared.pending[n], response))})
  }

  ghost function Next(s: State, step: Step): State {
    match step
    case Issue => s.(issued := s.issued + 1)
    case Register(n, command) =>
      s.(shared := Registered(s.shared, n, command), registered := if s.shared.stream then s.registered + {n} else s.registered)
    case Withdraw(n) =>
      s.(shared := s.shared.(pending := Without(s.shared.pending, n)),
         withdrawn := if n in s.shared.pending then s.withdrawn + {n} else s.withdrawn)
    case Respond(response) => Responded(s, response)
    case FailAll(reason) => Failed(s, reason)
    case Deliver(n, r) => s.(owed := s.owed - {(n, r)}, sent := s.sent + [(n, r)])
    case Open => s.(shared := if s.shared.closed then s.shared else s.shared.(stream := true))
    case Signal => s.(shared := s.shared.(closed := true), closing := Signalled)
    case Detach => s.(shared := s.shared.(stream := false), closing := Detached)
    case Sweep => Failed(s, "omp RPC client closed").(closing := Swept)
  }

  ghost predicate Runs(steps: seq<Step>, s: State) {
    steps == [] || (Enabled(s, steps[0]) && Runs(steps[1..], Next(s, steps[0])))
  }

  ghost function After(steps: seq<Step>, s: State): State {
    if steps == [] then s else After(steps[1..], Next(s, steps[0]))
  }

  // ----- what every step keeps -----

  ghost predicate Owed(s: State, n: nat) {
    exists r :: (n, r) in s.owed
  }

  ghost predicate Sent(s: State, n: nat) {
    exists i :: 0 <= i < |s.sent| && s.sent[i].0 == n
  }

  /** A registered request is in exactly one place: on the table, owed a result, sent a result, or withdrawn by its caller. */
  ghost predicate Placed(s: State, n: nat) {
    var table, owed, sent, gone := n in s.shared.pending, Owed(s, n), Sent(s, n), n in s.withdrawn;
    if n in s.registered then
      && (table || owed || sent || gone)
      && !(table && owed) && !(table && sent) && !(table && gone)
      && !(owed && sent) && !(owed && gone) && !(sent && gone)
    else !table && !owed && !sent && !gone
  }

  ghost predicate OneResult(s: State) {
    && (forall n, r, r' :: (n, r) in s.owed && (n, r') in s.owed ==> r == r')
    && (forall i, j :: 0 <= i < j < |s.sent| ==> s.sent[i].0 != s.sent[j].0)
  }

  ghost predicate ClosedDown(s: State) {
    && (s.shared.closed <==> s.closing != Running)
    && (s.closing == Detached || s.closing == Swept ==> !s.shared.stream)
    && (s.closing == Swept ==> s.shared.pending == map[])
  }

  ghost predicate Inv(s: State) {
    && (forall n :: Placed(s, n))
    && OneResult(s)
    && ClosedDown(s)
  }

  lemma {:induction false} MovedToOwed(s: State, t: State, n: nat, r: Result)
    requires Inv(s) && n in s.shared.pending
    requires t == s.(shared := s.shared.(pending := Without(s.shared.pending, n)), owed := s.owed + {(n, r)})
    ensures Inv(t)
  {
    assert (n, r) in t.owed;
    assert Placed(s, n) && !Owed(s, n);
    forall k ensures Placed(t, k) {
      assert Placed(s, k);
      assert k != n ==> (Owed(t, k) <==> Owed(s, k));
      assert Sent(t, k) <==> Sent(s, k);
    }
  }

  lemma {:induction false} FailedKeepsInv(s: State, reason: string)
    requires Inv(s)
    ensures Inv(Failed(s, reason))
  {
    var t := Failed(s, reason);
    forall k ensures Placed(t, k) && (k in s.shared.pending ==> !Owed(s, k)) {
      assert Placed(s, k);
      assert k in s.shared.pending ==> (k, Result.Closed(reason)) in t.owed;
      assert k !in s.shared.pending ==> (Owed(t, k) <==> Owed(s, k));
      assert Sent(t, k) <==> Sent(s, k);
    }
  }

  lemma {:induction false} DeliverKeepsInv(s: State, n: nat, r: Result)
    requires Inv(s) && (n, r) in s.owed
    ensures Inv(Next(s, Deliver(n, r))) && !Sent(s, n)
  {
    var t := Next(s, Deliver(n, r));
    assert Owed(s, n) && Placed(s, n);
    assert t.sent[|s.sent|].0 == n;
    forall k ensures Placed(t, k) {
      assert Placed(s, k);
      assert k != n ==> (Owed(t, k) <==> Owed(s, k));
      SentElsewhere(s, t, n, r, k);
      assert k == n ==> !Owed(t, k);
    }
  }

  lemma {:induction false} SentElsewhere(s: State, t: State, n: nat, r: Result, k: nat)
    requires t.sent == s.sent + [(n, r)]
    ensures Sent(t, k) <==> Sent(s, k) || k == n
  {
    assert t.sent[|s.sent|] == (n, r);
    assert forall i :: 0 <= i < |s.sent| ==> t.sent[i] == s.sent[i];
  }

  lemma {:induction false} RegisterKeepsInv(s: State, n: nat, command: string)
    requires Inv(s) && Enabled(s, Register(n, command))
    ensures Inv(Next(s, Register(n, command)))
  {
    var t := Next(s, Register(n, command));
    forall k ensures Placed(t, k) {
      assert Placed(s, k);
      assert Owed(t, k) <==> Owed(s, k);
      assert Sent(t, k) <==> Sent(s, k);
    }
  }

  lemma {:induction false} WithdrawKeepsInv(s: State, n: nat)
    requires Inv(s)
    ensures Inv(Next(s, Withdraw(n)))
  {
    var t := Next(s, Withdraw(n));
    forall k ensures Placed(t, k) {
      assert Placed(s, k);
      assert Owed(t, k) <==> Owed(s, k);
      assert Sent(t, k) <==> Sent(s, k);
    }
  }

  lemma {:induction false} RestKeepsInv(s: State, step: Step)
    requires Inv(s) && Enabled(s, step) && (step.Issue? || step.Open? || step.Signal? || step.Detach?)
    ensures Inv(Next(s, step))
  {
    var t := Next(s, step);
    forall k ensures Placed(t, k) {
      assert Placed(s, k);
      assert Owed(t, k) <==> Owed(s, k);
      assert Sent(t, k) <==> Sent(s, k);
    }
  }

  lemma {:induction false} StepKeepsInv(s: State, step: Step)
    requires Inv(s) && Enabled(s, step)
    ensures Inv(Next(s, step))
  {
    match step
    case Register(n, command) => RegisterKeepsInv(s, n, command);
    case Withdraw(n) => WithdrawKeepsInv(s, n);
    case Respond(response) =>
      AnsweredIsPending(s.shared.pending, response);
      var m := Answered(s.shared.pending, response);
      if m.Some? {
        MovedToOwed(s, Next(s, step), m.value, ResultFor(s.shared.pending[m.value], response));
      }
    case FailAll(reason) => FailedKeepsInv(s, reason);
    case Deliver(n, r) => DeliverKeepsInv(s, n, r);
    case Sweep =>
      FailedKeepsInv(s, "omp RPC client closed");
      var f := Failed(s, "omp RPC client closed");
      forall k ensures Placed(Next(s, step), k) {
        assert Placed(f, k);
        assert Owed(Next(s, step), k) <==> Owed(f, k);
        assert Sent(Next(s, step), k) <==> Sent(f, k);
      }
    case _ => RestKeepsInv(s, step);
  }

  lemma {:induction false} RunKeepsInv(steps: seq<Step>, s: State)
    requires Inv(s) && Runs(steps, s)
    ensures Inv(After(steps, s))
    decreases |steps|
  {
    if steps != [] {
      StepKeepsInv(s, steps[0]);
      RunKeepsInv(steps[1..], Next(s, steps[0]));
    }
  }

  lemma {:induction false} InitIsInv(s: State)
    requires Init(s)
    ensures Inv(s)
  {
    forall n ensures Placed(s, n) {
      assert !Owed(s, n) && !Sent(s, n);
    }
  }

  // ----- what that says -----

  /** In every run no request is sent a second result, so a channel with one slot always has room. */
  lemma {:induction false} AtMostOneResult(steps: seq<Step>, s: State, n: nat, r: Result)
    requires Init(s) && Runs(steps, s)
    ensures OneResult(After(steps, s))
    ensures (n, r) in After(steps, s).owed ==> !Sent(After(steps, s), n)
  {
    InitIsInv(s);
    RunKeepsInv(steps, s);
    var t := After(steps, s);
    if (n, r) in t.owed {
      DeliverKeepsInv(t, n, r);
    }
  }

  /** No request is lost: one that was neither withdrawn nor answered is still on the table or about to be answered. */
  lemma {:induction false} NothingLost(steps: seq<Step>, s: State, n: nat)
    requires Init(s) && Runs(steps, s)
    ensures Placed(After(steps, s), n)
  {
    InitIsInv(s);
    RunKeepsInv(steps, s);
  }

  /** Once closing has emptied the table it stays empty, and every request is answered, about to be, or withdrawn. */
  lemma {:induction false} NothingPendingAfterClose(steps: seq<Step>, s: State, n: nat)
    requires Init(s) && Runs(steps, s) && After(steps, s).closing == Swept
    ensures After(steps, s).shared.pending == map[]
    ensures n in After(steps, s).registered ==> Owed(After(steps, s), n) || Sent(After(steps, s), n) || n in After(steps, s).withdrawn
  {
    InitIsInv(s);
    RunKeepsInv(steps, s);
    assert Placed(After(steps, s), n);
  }
}
