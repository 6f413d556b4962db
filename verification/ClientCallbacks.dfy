/** Host callbacks against closing: none registers after the snapshot, and every live one is cancelled. */
module ClientCallbacks {
  import opened Collections
  import opened Options

  // ----- the fields under the lock -----

  // The cancel function registered for each id, by the number of its callback.
  type Cancels = map<string, nat>

  class CallbackTable {
    var closed: bool
    var cancels: Cancels
    var waitGroup: nat
    var cancelled: set<nat>

    constructor ()
      ensures !closed && cancels == map[] && waitGroup == 0 && cancelled == {}
    {
      closed, cancels, waitGroup, cancelled := false, map[], 0, {};
    }

    /** Registers callback `k` under an id, cancelling whatever that id named before. */
    method Register(id: string, k: nat) returns (accepted: bool)
      modifies this
      ensures accepted == !old(closed) && closed == old(closed)
      ensures !accepted ==> cancels == old(cancels) && waitGroup == old(waitGroup) && cancelled == old(cancelled) + {k}
      ensures accepted ==>
        && cancels == old(cancels)[id := k] && waitGroup == old(waitGroup) + 1
        && cancelled == old(cancelled) + Previous(old(cancels), id)
    {
      if closed {
        cancelled := cancelled + {k};
        return false;
      }
      if id in cancels {
        cancelled := cancelled + {cancels[id]};
      }
      cancels := cancels[id := k];
      waitGroup := waitGroup + 1;
      accepted := true;
    }

    /** Cancels callback `k` and deletes the entry of its id, whoever's it is by now. */
    method Finish(id: string, k: nat)
      modifies this`cancels, this`cancelled
      ensures cancels == Without(old(cancels), id) && cancelled == old(cancelled) + {k}
    {
      cancelled := cancelled + {k};
      cancels := map i | i in cancels && i != id :: cancels[i];
    }

    method Cancel(id: string)
      modifies this`cancelled
      ensures cancelled == old(cancelled) + Previous(cancels, id)
    {
      if id in cancels {
        cancelled := cancelled + {cancels[id]};
      }
    }

    /** What closing takes under the lock, once the closed channel is closed. */
    method TakeAll() returns (taken: Cancels)
      requires closed
      modifies this`cancels
      ensures taken == old(cancels) && cancels == map[]
    {
      taken := cancels;
      cancels := map[];
    }
  }

  function Previous(cancels: Cancels, id: string): set<nat> {
    if id in cancels then {cancels[id]} else {}
  }

  // ----- whole runs -----

  // A callback whose goroutine has not yet left the wait group; `finished` once its entry has been deleted.
  datatype Callback = Callback(id: string, finished: bool)

  datatype Closing = Open | Signalled | Taken | Cancelled | Waiting

  /**
   * `entering` is the registration that holds the lock: it has read the closed channel but not yet entered its callback.
   * `live` are the callbacks the wait group counts; `taken` is the snapshot closing made; `about` are the callbacks whose
   * cancel function somebody has read under the lock and calls after releasing it.
   */
  datatype State = State(
    closing: Closing,
    entering: Option<(string, bool)>,
    cancels: Cancels,
    live: map<nat, Callback>,
    counter: nat,
    waitGroup: int,
    about: set<nat>,
    cancelled: set<nat>,
    taken: Cancels)

  // `End` is the callback's own cancel after its body, `Finish` the deletion that follows it, `Call` any other cancel.
  datatype Step =
    | Enter(id: string)
    | Register
    | End(k: nat)
    | Finish(k: nat)
    | Done(k: nat)
    | Cancel(id: string)
    | Call(k: nat)
    | Signal
    | TakeAll
    | CancelAll
    | StartWaiting

  ghost predicate Init(s: State) {
    s == State(Open, None, map[], map[], 0, 0, {}, {}, map[])
  }

  /** No callback that has yet to finish has this id. */
  ghost predicate Unused(s: State, id: string) {
    forall k :: k in s.live && !s.live[k].finished ==> s.live[k].id != id
  }

  ghost predicate Enabled(s: State, step: Step) {
    match step
    case Enter(_) => s.entering == None
    case Register => s.entering != None
    case End(k) => k in s.live && !s.live[k].finished
    case Finish(k) => s.entering == None && k in s.live && !s.live[k].finished && k in s.cancelled
    case Done(k) => k in s.live && s.live[k].finished
    case Cancel(_) => s.entering == None
    case Call(k) => k in s.about
    case Signal => s.closing == Open
    case TakeAll => s.closing == Signalled && s.entering == None
    case CancelAll => s.closing == Taken && Values(s.taken) <= s.cancelled
    case StartWaiting => s.closing == Cancelled
  }

  function Values(cancels: Cancels): set<nat> {
    set i | i in cancels :: cancels[i]
  }

  function Gone(live: map<nat, Callback>, k: nat): map<nat, Callback> {
    map i | i in live && i != k :: live[i]
  }

  ghost function Registered(s: State, id: string): State {
    s.(entering := None, cancels := s.cancels[id := s.counter], live := s.live[s.counter := Callback(id, false)],
       counter := s.counter + 1, waitGroup := s.waitGroup + 1, cancelled := s.cancelled + Previous(s.cancels, id))
  }

  ghost function Next(s: State, step: Step): State
    requires Enabled(s, step)
  {
    match step
    case Enter(id) => s.(entering := Some((id, s.closing != Open)))
    case Register =>
      if s.entering.value.1 then s.(entering := None) else Registered(s, s.entering.value.0)
    case End(k) => s.(cancelled := s.cancelled + {k})
    case Finish(k) =>
      s.(live := s.live[k := s.live[k].(finished := true)], cancels := Without(s.cancels, s.live[k].id))
    case Done(k) => s.(live := Gone(s.live, k), waitGroup := s.waitGroup - 1)
    case Cancel(id) => s.(about := s.about + Previous(s.cancels, id))
    case Call(k) => s.(cancelled := s.cancelled + {k})
    case Signal => s.(closing := Signalled)
    case TakeAll => s.(closing := Taken, taken := s.cancels, cancels := map[], about := s.about + Values(s.cancels))
    case CancelAll => s.(closing := Cancelled)
    case StartWaiting => s.(closing := Waiting)
  }

  ghost predicate Runs(steps: seq<Step>, s: State) {
    steps == [] || (Enabled(s, steps[0]) && Runs(steps[1..], Next(s, steps[0])))
  }

  ghost function After(steps: seq<Step>, s: State): State
    requires Runs(steps, s)
  {
    if steps == [] then s else After(steps[1..], Next(s, steps[0]))
  }

  /** Cancelling an id is for the callback that the id names, and calls its cancel, and nobody else's. */
  lemma {:induction false} CancelReaches(s: State, id: string, k: nat)
    requires s.entering == None && id in s.cancels && s.cancels[id] == k
    ensures Enabled(s, Cancel(id)) && Enabled(Next(s, Cancel(id)), Call(k))
    ensures Next(s, Cancel(id)) == s.(about := s.about + {k})
    ensures var t := Next(Next(s, Cancel(id)), Call(k));
      forall m :: m in t.cancelled <==> m in s.cancelled || m == k
  {
  }

  /** No id is registered again while a callback with that id has yet to finish. */
  ghost predicate DistinctIds(steps: seq<Step>, s: State)
    requires Runs(steps, s)
  {
    steps == []
    || ((steps[0].Register? && !s.entering.value.1 ==> Unused(s, s.entering.value.0))
        && DistinctIds(steps[1..], Next(s, steps[0])))
  }

  predicate PastSnapshot(s: State) {
    s.closing in {Taken, Cancelled, Waiting}
  }

  // ----- with any ids: nothing enters after the snapshot -----

  ghost predicate Counted(s: State) {
    && s.waitGroup == |s.live|
    && (forall k :: k in s.live ==> k < s.counter)
    && (PastSnapshot(s) ==> s.cancels == map[] && (s.entering != None ==> s.entering.value.1))
  }

  lemma {:induction false} LiveAfter(s: State, step: Step)
    requires Counted(s) && Enabled(s, step)
    ensures Next(s, step).waitGroup == |Next(s, step).live|
    ensures forall k :: k in Next(s, step).live ==> k < Next(s, step).counter
  {
    match step
    case Register =>
      if !s.entering.value.1 {
        OneMoreLive(s.live, s.counter, Callback(s.entering.value.0, false));
      }
    case Done(k) => OneLessLive(s.live, k);
    case Finish(k) => SameLive(s.live, k, s.live[k].(finished := true));
    case _ =>
  }

  lemma {:induction false} OneMoreLive(live: map<nat, Callback>, k: nat, c: Callback)
    requires k !in live
    ensures |live[k := c]| == |live| + 1
  {
    assert live[k := c].Keys == live.Keys + {k};
    assert |live[k := c]| == |live[k := c].Keys| && |live| == |live.Keys|;
  }

  lemma {:induction false} OneLessLive(live: map<nat, Callback>, k: nat)
    requires k in live
    ensures |Gone(live, k)| == |live| - 1
  {
    var less := Gone(live, k);
    assert less.Keys == live.Keys - {k};
    assert |less| == |less.Keys| && |live| == |live.Keys|;
  }

  lemma {:induction false} SameLive(live: map<nat, Callback>, k: nat, c: Callback)
    requires k in live
    ensures |live[k := c]| == |live|
  {
    assert live[k := c].Keys == live.Keys;
    assert |live[k := c]| == |live[k := c].Keys| && |live| == |live.Keys|;
  }

  lemma {:induction false} StepKeepsCounted(s: State, step: Step)
    requires Counted(s) && Enabled(s, step)
    ensures Counted(Next(s, step))
    ensures PastSnapshot(s) ==> Next(s, step).counter == s.counter && Next(s, step).waitGroup <= s.waitGroup
  {
    LiveAfter(s, step);
    match step
    case Finish(k) => assert PastSnapshot(s) ==> Without(s.cancels, s.live[k].id) == map[];
    case _ =>
  }

  /** Once closing has taken its snapshot, no callback registers and the wait group never grows. */
  lemma {:induction false} NothingEntersAfterSnapshot(steps: seq<Step>, s: State)
    requires Counted(s) && Runs(steps, s) && PastSnapshot(s)
    ensures Counted(After(steps, s)) && After(steps, s).counter == s.counter && After(steps, s).waitGroup <= s.waitGroup
    decreases |steps|
  {
    if steps != [] {
      StepKeepsCounted(s, steps[0]);
      NothingEntersAfterSnapshot(steps[1..], Next(s, steps[0]));
    }
  }

  // ----- who is cancelled -----

  /** The table that closing takes, or took. */
  function Table(s: State): Cancels {
    if PastSnapshot(s) then s.taken else s.cancels
  }

  /** An unfinished callback is cancelled already, or is found under its id. */
  ghost predicate Findable(s: State, k: nat) {
    k in s.live && !s.live[k].finished && k !in s.cancelled ==>
      s.live[k].id in Table(s) && Table(s)[s.live[k].id] == k
  }

  ghost predicate Reached(s: State, k: nat) {
    k in s.live && (s.live[k].finished || s.closing in {Cancelled, Waiting}) ==> k in s.cancelled
  }

  /** The step is another callback's finishing, and it deletes the entry of `k`. */
  predicate Deletes(s: State, step: Step, k: nat)
    requires step.Finish? ==> step.k in s.live
  {
    step.Finish? && step.k != k && s.live[step.k].id in s.cancels && s.cancels[s.live[step.k].id] == k
  }

  /** Somewhere on the way another callback's finishing deletes the entry of `k`. */
  ghost predicate EntryDeleted(steps: seq<Step>, s: State, k: nat)
    requires Runs(steps, s)
  {
    steps != [] && (Deletes(s, steps[0], k) || EntryDeleted(steps[1..], Next(s, steps[0]), k))
  }

  lemma {:induction false} RegisterKeeps(s: State, k: nat)
    requires Counted(s) && Enabled(s, Register) && Findable(s, k) && Reached(s, k)
    ensures Findable(Next(s, Register), k) && Reached(Next(s, Register), k)
  {
  }

  lemma {:induction false} FinishKeeps(s: State, j: nat, k: nat)
    requires Counted(s) && Enabled(s, Finish(j)) && Findable(s, k) && Reached(s, k) && !Deletes(s, Finish(j), k)
    ensures Findable(Next(s, Finish(j)), k) && Reached(Next(s, Finish(j)), k)
  {
  }

  lemma {:induction false} RestKeeps(s: State, step: Step, k: nat)
    requires Counted(s) && Enabled(s, step) && !step.Register? && !step.Finish? && Findable(s, k) && Reached(s, k)
    ensures Findable(Next(s, step), k) && Reached(Next(s, step), k)
  {
    forall id | id in s.taken ensures s.taken[id] in Values(s.taken) {
    }
  }

  /** As long as nobody deletes its entry, a callback is found, and cancelled once closing has cancelled what it took. */
  lemma {:induction false} KeptUnlessDeleted(steps: seq<Step>, s: State, k: nat)
    requires Counted(s) && Findable(s, k) && Reached(s, k) && Runs(steps, s) && !EntryDeleted(steps, s, k)
    ensures Findable(After(steps, s), k) && Reached(After(steps, s), k)
    decreases |steps|
  {
    if steps != [] {
      StepKeepsCounted(s, steps[0]);
      match steps[0] {
        case Register => RegisterKeeps(s, k);
        case Finish(j) => FinishKeeps(s, j, k);
        case _ => RestKeeps(s, steps[0], k);
      }
      KeptUnlessDeleted(steps[1..], Next(s, steps[0]), k);
    }
  }

  // ----- exactly who escapes -----

  /** Entries lead to unfinished callbacks, each under its own id; only registered callbacks are cancelled. */
  ghost predicate TableOk(s: State) {
    && (forall id :: id in s.cancels ==> EntryOk(s, id))
    && (forall k :: k in s.cancelled || k in s.about ==> k < s.counter)
  }

  ghost predicate EntryOk(s: State, id: string)
    requires id in s.cancels
  {
    var k := s.cancels[id];
    k < s.counter && k in s.live && !s.live[k].finished && s.live[k].id == id
  }

  lemma {:induction false} StepKeepsTable(s: State, step: Step)
    requires Counted(s) && TableOk(s) && Enabled(s, step)
    ensures TableOk(Next(s, step))
  {
    var t := Next(s, step);
    forall id | id in t.cancels ensures EntryOk(t, id) {
      if id in s.cancels {
        assert EntryOk(s, id);
      }
    }
    forall k | k in Values(s.cancels) ensures k < s.counter {
      var id :| id in s.cancels && s.cancels[id] == k;
      assert EntryOk(s, id);
    }
    forall id | id in s.cancels ensures s.cancels[id] in Values(s.cancels) {
    }
  }

  /** A callback that is not in the table is never entered again. */
  lemma {:induction false} OutStaysOut(s: State, step: Step, k: nat)
    requires Enabled(s, step) && k < s.counter && k !in Values(s.cancels)
    ensures k < Next(s, step).counter && k !in Values(Next(s, step).cancels)
  {
    var t := Next(s, step);
    forall id | id in t.cancels ensures t.cancels[id] != k {
      assert id in s.cancels ==> s.cancels[id] in Values(s.cancels);
    }
  }

  lemma {:induction false} NothingToDelete(steps: seq<Step>, s: State, k: nat)
    requires Runs(steps, s) && k < s.counter && k !in Values(s.cancels)
    ensures !EntryDeleted(steps, s, k)
    decreases |steps|
  {
    if steps != [] {
      OutStaysOut(s, steps[0], k);
      NothingToDelete(steps[1..], Next(s, steps[0]), k);
      assert forall id :: id in s.cancels ==> s.cancels[id] in Values(s.cancels);
    }
  }

  /** Out of the table, a callback is cancelled by nobody but itself and those who already hold its cancel function. */
  lemma {:induction false} OutStaysUncancelled(steps: seq<Step>, s: State, k: nat)
    requires Runs(steps, s) && End(k) !in steps && Call(k) !in steps
    requires k < s.counter && k !in Values(s.cancels) && k in s.live && !s.live[k].finished && k !in s.cancelled
    ensures k in After(steps, s).live && k !in After(steps, s).cancelled
    decreases |steps|
  {
    if steps != [] {
      OutStaysOut(s, steps[0], k);
      assert forall id :: id in s.cancels ==> s.cancels[id] in Values(s.cancels);
      OutStaysUncancelled(steps[1..], Next(s, steps[0]), k);
    }
  }

  lemma {:induction false} DeletedMeansUncancelled(steps: seq<Step>, s: State, k: nat)
    requires Counted(s) && TableOk(s) && Runs(steps, s) && EntryDeleted(steps, s, k)
    requires End(k) !in steps && Call(k) !in steps && k !in s.cancelled
    ensures k !in After(steps, s).cancelled
    decreases |steps|
  {
    var t := Next(s, steps[0]);
    StepKeepsCounted(s, steps[0]);
    StepKeepsTable(s, steps[0]);
    if Deletes(s, steps[0], k) {
      DeletionTakesOut(s, steps[0], k);
      OutStaysUncancelled(steps[1..], t, k);
    } else {
      if steps[0].Register? && k in t.cancelled {
        ReplacedIsOut(s, k);
        NothingToDelete(steps[1..], t, k);
        assert false;
      }
      DeletedMeansUncancelled(steps[1..], t, k);
    }
  }

  lemma {:induction false} DeletionTakesOut(s: State, step: Step, k: nat)
    requires TableOk(s) && Enabled(s, step) && Deletes(s, step, k)
    ensures var t := Next(s, step);
      k < t.counter && k !in Values(t.cancels) && k in t.live && !t.live[k].finished && t.cancelled == s.cancelled
  {
    var id := s.live[step.k].id;
    assert EntryOk(s, id);
    forall other | other in s.cancels && s.cancels[other] == k ensures other == id {
      assert EntryOk(s, other);
    }
  }

  /** A registration that cancels `k` takes its entry. */
  lemma {:induction false} ReplacedIsOut(s: State, k: nat)
    requires TableOk(s) && Enabled(s, Register) && k !in s.cancelled && k in Next(s, Register).cancelled
    ensures k < Next(s, Register).counter && k !in Values(Next(s, Register).cancels)
  {
    var id := s.entering.value.0;
    assert EntryOk(s, id) && s.cancels[id] == k;
    forall other | other in s.cancels && s.cancels[other] == k ensures other == id {
      assert EntryOk(s, other);
    }
  }

  lemma {:induction false} RanMeansCancelled(steps: seq<Step>, s: State, k: nat)
    requires Runs(steps, s) && (k in s.cancelled || End(k) in steps || Call(k) in steps)
    ensures k in After(steps, s).cancelled
    decreases |steps|
  {
    if steps != [] {
      RanMeansCancelled(steps[1..], Next(s, steps[0]), k);
    }
  }

  /**
   * In every run from the start, once closing has cancelled what it took: a live callback escaped iff another one's
   * finishing deleted its entry, and neither its own end nor a cancel under way has run.
   */
  lemma {:induction false} EscapesIff(steps: seq<Step>, s: State, k: nat)
    requires Init(s) && Runs(steps, s) && After(steps, s).closing in {Cancelled, Waiting} && k in After(steps, s).live
    ensures k !in After(steps, s).cancelled <==> EntryDeleted(steps, s, k) && End(k) !in steps && Call(k) !in steps
  {
    if End(k) in steps || Call(k) in steps {
      RanMeansCancelled(steps, s, k);
    } else if EntryDeleted(steps, s, k) {
      DeletedMeansUncancelled(steps, s, k);
    } else {
      KeptUnlessDeleted(steps, s, k);
    }
  }

  /** A callback that finishes deletes its own entry, or none. */
  predicate DeletesOwn(s: State, step: Step)
    requires step.Finish? ==> step.k in s.live
  {
    step.Finish? && s.live[step.k].id in s.cancels ==> s.cancels[s.live[step.k].id] == step.k
  }

  ghost predicate AllDeleteOwn(steps: seq<Step>, s: State)
    requires Runs(steps, s)
  {
    steps == [] || (DeletesOwn(s, steps[0]) && AllDeleteOwn(steps[1..], Next(s, steps[0])))
  }

  lemma {:induction false} OwnOnly(steps: seq<Step>, s: State, k: nat)
    requires Runs(steps, s) && AllDeleteOwn(steps, s)
    ensures !EntryDeleted(steps, s, k)
    decreases |steps|
  {
    if steps != [] {
      OwnOnly(steps[1..], Next(s, steps[0]), k);
    }
  }

  /** As long as no callback deletes another's entry, every callback that closing waits for has been cancelled. */
  lemma {:induction false} EveryLiveCallbackCancelled(steps: seq<Step>, s: State, k: nat)
    requires Init(s) && Runs(steps, s) && AllDeleteOwn(steps, s)
    requires After(steps, s).closing in {Cancelled, Waiting} && k in After(steps, s).live
    ensures k in After(steps, s).cancelled
  {
    OwnOnly(steps, s, k);
    EscapesIff(steps, s, k);
  }

  // ----- distinct ids -----

  /** Nobody else is entered under the id of an unfinished callback. */
  ghost predicate Owns(s: State, k: nat) {
    k in s.live && !s.live[k].finished && s.live[k].id in s.cancels ==> s.cancels[s.live[k].id] == k
  }

  lemma {:induction false} StepKeepsOwns(s: State, step: Step, k: nat)
    requires Counted(s) && Enabled(s, step) && Owns(s, k)
    requires step.Register? && !s.entering.value.1 ==> Unused(s, s.entering.value.0)
    ensures Owns(Next(s, step), k)
  {
    match step
    case Register =>
    case Finish(_) =>
    case Done(_) =>
    case _ =>
  }

  /** With distinct ids in flight nobody deletes another's entry. */
  lemma {:induction false} DistinctIdsDeleteOwn(steps: seq<Step>, s: State)
    requires Counted(s) && (forall k :: Owns(s, k)) && Runs(steps, s) && DistinctIds(steps, s)
    ensures AllDeleteOwn(steps, s)
    decreases |steps|
  {
    if steps != [] {
      assert steps[0].Finish? ==> Owns(s, steps[0].k);
      StepKeepsCounted(s, steps[0]);
      forall k ensures Owns(Next(s, steps[0]), k) {
        StepKeepsOwns(s, steps[0], k);
      }
      DistinctIdsDeleteOwn(steps[1..], Next(s, steps[0]));
    }
  }

  /** So with distinct ids in flight closing waits only for cancelled callbacks. */
  lemma {:induction false} DistinctIdsAreCancelled(steps: seq<Step>, s: State, k: nat)
    requires Init(s) && Runs(steps, s) && DistinctIds(steps, s)
    requires After(steps, s).closing in {Cancelled, Waiting} && k in After(steps, s).live
    ensures k in After(steps, s).cancelled
  {
    DistinctIdsDeleteOwn(steps, s);
    EveryLiveCallbackCancelled(steps, s, k);
  }

  // ----- lost entries -----

  /** Live, not cancelled nor about to be, and the table does not lead to it. */
  ghost predicate Lost(s: State, k: nat) {
    k in s.live && !s.live[k].finished && k !in s.cancelled && k < s.counter && k !in Values(s.cancels) && k !in s.about
  }

  /** A callback gets lost by exactly one kind of step: another one's finishing that deletes its entry. */
  lemma {:induction false} LostByDeletion(s: State, step: Step, k: nat)
    requires TableOk(s) && Enabled(s, step) && !Lost(s, k)
    requires k in s.live && !s.live[k].finished && k !in s.cancelled && k !in s.about && k < s.counter
    ensures Lost(Next(s, step), k) <==> Deletes(s, step, k)
  {
    var t := Next(s, step);
    var id :| id in s.cancels && s.cancels[id] == k;
    assert EntryOk(s, id);
    if Deletes(s, step, k) {
      DeletionTakesOut(s, step, k);
    } else if id in t.cancels {
      assert t.cancels[id] == k ==> k in Values(t.cancels);
    }
  }

  lemma {:induction false} LostStays(s: State, step: Step, k: nat)
    requires Lost(s, k) && Enabled(s, step) && step != End(k)
    ensures Lost(Next(s, step), k)
  {
    OutStaysOut(s, step, k);
    assert forall id :: id in s.cancels ==> s.cancels[id] in Values(s.cancels);
  }

  /** And once lost it is not cancelled before it ends by itself. */
  lemma {:induction false} LostIsNeverCancelled(steps: seq<Step>, s: State, k: nat)
    requires Lost(s, k) && Runs(steps, s) && End(k) !in steps
    ensures Lost(After(steps, s), k)
    decreases |steps|
  {
    if steps != [] {
      LostStays(s, steps[0], k);
      LostIsNeverCancelled(steps[1..], Next(s, steps[0]), k);
    }
  }

  // ----- a repeated id -----

  lemma {:induction false} OneStep(step: Step, rest: seq<Step>, s: State)
    requires Enabled(s, step) && Runs(rest, Next(s, step))
    ensures Runs([step] + rest, s) && After([step] + rest, s) == After(rest, Next(s, step))
  {
    assert ([step] + rest)[1..] == rest;
  }

  lemma {:induction false} RunsConcat(a: seq<Step>, b: seq<Step>, s: State)
    requires Runs(a, s) && Runs(b, After(a, s))
    ensures Runs(a + b, s) && After(a + b, s) == After(b, After(a, s))
    decreases |a|
  {
    if a == [] {
      assert a + b == b;
    } else {
      assert (a + b)[0] == a[0] && (a + b)[1..] == a[1..] + b;
      RunsConcat(a[1..], b, Next(s, a[0]));
    }
  }

  const REUSE: seq<Step> := [Enter("x")] + ([Register] + ([Enter("x")] + ([Register] + ([End(0)] + ([Finish(0)] + [])))))

  /** Two callbacks under one id, and the older one finishes. */
  lemma {:induction false} ReuseLoses(s: State)
    requires Init(s)
    ensures Runs(REUSE, s)
    ensures After(REUSE, s) == State(Open, None, map[], map[0 := Callback("x", true), 1 := Callback("x", false)], 2, 2, {}, {0}, map[])
  {
    var s1 := Next(s, Enter("x"));
    var s2 := Next(s1, Register);
    var s3 := Next(s2, Enter("x"));
    var s4 := Next(s3, Register);
    var s5 := Next(s4, End(0));
    var s6 := Next(s5, Finish(0));
    assert s4.cancels == map["x" := 1] && s4.cancelled == {0} && s4.live == map[0 := Callback("x", false), 1 := Callback("x", false)];
    assert s6.live == map[0 := Callback("x", true), 1 := Callback("x", false)] && s6.cancels == map[];
    OneStep(Finish(0), [], s5);
    OneStep(End(0), [Finish(0)] + [], s4);
    OneStep(Register, [End(0)] + ([Finish(0)] + []), s3);
    OneStep(Enter("x"), [Register] + ([End(0)] + ([Finish(0)] + [])), s2);
    OneStep(Register, [Enter("x")] + ([Register] + ([End(0)] + ([Finish(0)] + []))), s1);
    OneStep(Enter("x"), [Register] + ([Enter("x")] + ([Register] + ([End(0)] + ([Finish(0)] + [])))), s);
  }

  const CLOSE: seq<Step> := [Signal] + ([TakeAll] + ([CancelAll] + []))

  lemma {:induction false} ClosingMisses(s: State)
    requires s.closing == Open && s.entering == None && s.cancels == map[]
    ensures Runs(CLOSE, s) && After(CLOSE, s) == s.(closing := Cancelled, taken := map[])
  {
    var s1 := Next(s, Signal);
    var s2 := Next(s1, TakeAll);
    var s3 := Next(s2, CancelAll);
    assert s2.about == s.about;
    OneStep(CancelAll, [], s2);
    OneStep(TakeAll, [CancelAll] + [], s1);
    OneStep(Signal, [TakeAll] + ([CancelAll] + []), s);
  }

  /** A callback whose id was reused escapes: the older one's finishing deletes the newer one's entry. */
  lemma {:induction false} ReusedIdEscapes(s: State)
    requires Init(s)
    ensures Runs(REUSE + CLOSE, s) && After(REUSE + CLOSE, s).closing == Cancelled
    ensures 1 in After(REUSE + CLOSE, s).live && Lost(After(REUSE + CLOSE, s), 1)
  {
    ReuseLoses(s);
    ClosingMisses(After(REUSE, s));
    RunsConcat(REUSE, CLOSE, s);
  }
}
