/** The runner itself: its mutable state, one step of a job, and the whole run under an arbitrary scheduler. */
module PublishRun {
  import opened PublishGraph
  import opened PublishJobs
  import opened PublishAcyclic
  import opened PublishSlots
  import opened PublishRunner
  import opened PublishProgress

  /** `Refused` is the error thrown for a dependency cycle; `Ran` is the returned list of failed names. */
  datatype RunResult = Refused(chain: seq<string>) | Ran(failed: seq<string>)

  class Run {
    const jobs: seq<Job>
    const slot: Semaphore
    const packLocks: KeyedMutex
    var pc: seq<Pc>
    var failed: set<nat>

    constructor (jobs: seq<Job>, concurrency: int)
      ensures Valid() && fresh(slot) && fresh(packLocks) && this.jobs == jobs
      ensures View() == Init(jobs, if concurrency > 1 then concurrency else 1)
    {
      this.jobs := jobs;
      slot := new Semaphore(if concurrency > 1 then concurrency else 1);
      packLocks := new KeyedMutex();
      pc := seq(|jobs|, _ => Start);
      failed := {};
    }

    ghost predicate Valid()
      reads this
    {
      |pc| == |jobs| && failed == set i: nat | i < |jobs| && pc[i] == Settled(false)
    }

    ghost function View(): State
      reads this, slot, packLocks
    {
      State(pc, slot.View(), packLocks.View())
    }

    predicate CanMove(j: nat)
      requires |pc| == |jobs|
      reads this, slot, packLocks
      ensures CanMove(j) <==> Enabled(jobs, View(), j)
    {
      && j < |jobs|
      && !pc[j].Queued?
      && !pc[j].Settled?
      && (pc[j] == LockQueued ==> packLocks.MayEnter(j))
      && (pc[j] == Blocking ==> PrerequisitesSettled(jobs, pc, j))
    }

    method Move(j: nat, to: Pc)
      requires Valid() && j < |jobs| && !pc[j].Settled?
      modifies this
      ensures Valid() && pc == old(pc)[j := to]
    {
      pc := pc[j := to];
      if to == Settled(false) {
        failed := failed + {j};
      }
    }

    method AcquireSlot(j: nat, phase: Phase)
      requires Valid() && j < |jobs| && !pc[j].Settled?
      modifies this, slot
      ensures Valid() && View() == Acquire(old(View()), j, phase)
    {
      var entered := slot.Acquire(j);
      Move(j, if entered then Inside(phase) else Queued(phase));
    }

    method LeaveSlotAs(j: nat, phase: Phase)
      requires Valid() && j < |jobs| && !pc[j].Settled? && !pc[j].Queued? && slot.active > 0
      modifies this, slot
      ensures Valid() && View() == LeaveSlot(old(View()), j, phase)
    {
      var next := slot.Release();
      if next.Some? && next.value < |jobs| && pc[next.value].Queued? {
        Move(next.value, Granted(pc[next.value].phase));
      }
      Move(j, Finished(phase));
    }

    /** What job `j` does until its next await. */
    method Step(j: nat)
      requires Valid() && Inv(jobs, View()) && CanMove(j)
      modifies this, slot, packLocks
      ensures Valid() && View() == Next(jobs, old(View()), j)
    {
      if Holds(pc[j]) == 1 {
        HolderActive(View(), j);
        StepInside(j);
      } else {
        StepOutside(j);
      }
    }

    method StepInside(j: nat)
      requires Valid() && CanMove(j) && Holds(pc[j]) == 1 && slot.active > 0
      modifies this, slot, packLocks
      ensures Valid() && View() == Next(jobs, old(View()), j)
    {
      match pc[j]
      case Granted(phase) => Move(j, Inside(phase));
      case Inside(Packing) =>
        if jobs[j].pack.Locked? {
          packLocks.Join(jobs[j].pack.key, j);
          Move(j, LockQueued);
        } else {
          LeaveSlotAs(j, Packing);
        }
      case LockQueued => Move(j, LockHeld);
      case LockHeld =>
        packLocks.Release(j);
        Move(j, PackTail);
      case PackTail => LeaveSlotAs(j, Packing);
      case Inside(Publishing) => LeaveSlotAs(j, Publishing);
    }

    method StepOutside(j: nat)
      requires Valid() && CanMove(j) && Holds(pc[j]) == 0
      modifies this, slot
      ensures Valid() && View() == Next(jobs, old(View()), j)
    {
      match pc[j]
      case Start =>
        if jobs[j].pack.NoPack? { Move(j, Blocking); } else { AcquireSlot(j, Packing); }
      case Finished(Packing) => Move(j, if PackThrows(jobs[j].pack) then Settled(false) else Blocking);
      case Blocking =>
        if PrerequisitesPublished(jobs, pc, j) { AcquireSlot(j, Publishing); } else { Move(j, Discarding); }
      case Discarding => Move(j, Settled(false));
      case Finished(Publishing) => Move(j, Settled(!jobs[j].publishThrows));
    }

    /** The event loop resumes some job whose await is resolved; any choice keeps the run going. */
    method Resume() returns (ghost j: nat)
      requires Valid() && Inv(jobs, View()) && !AllSettled(View())
      requires DistinctNames(jobs) && !HasCycle(ByName(jobs))
      modifies this, slot, packLocks
      ensures Enabled(jobs, old(View()), j) && View() == Next(jobs, old(View()), j)
      ensures Valid() && Inv(jobs, View()) && Total(pc, Remaining) < old(Total(pc, Remaining))
    {
      ghost var free := NeverStuck(jobs, View());
      var movable := set j: nat | j < |jobs| && CanMove(j);
      assert free in movable;
      var next :| next in movable;
      StepKeepsInv(jobs, View(), next);
      StepDecreases(jobs, View(), next);
      Step(next);
      j := next;
    }

    method FailedInOrder() returns (names: seq<string>)
      requires Valid()
      ensures names == FailedNames(jobs, pc, |jobs|)
    {
      names := [];
      for i := 0 to |jobs|
        invariant names == FailedNames(jobs, pc, i)
      {
        if i in failed {
          names := names + [jobs[i].name];
        }
      }
    }
  }

  /** A schedule that takes all jobs from the start, under this limit, until they have settled. */
  ghost predicate CompleteRun(jobs: seq<Job>, limit: nat, schedule: seq<nat>) {
    Runs(jobs, Init(jobs, limit), schedule) && AllSettled(After(jobs, Init(jobs, limit), schedule))
  }

  lemma {:induction false} AppendStep(jobs: seq<Job>, s: State, schedule: seq<nat>, j: nat)
    requires |s.pc| == |jobs| && Runs(jobs, s, schedule) && Enabled(jobs, After(jobs, s, schedule), j)
    ensures Runs(jobs, s, schedule + [j]) && After(jobs, s, schedule + [j]) == Next(jobs, After(jobs, s, schedule), j)
    decreases |schedule|
  {
    var all := schedule + [j];
    if schedule == [] {
      assert all[1..] == [];
    } else {
      AppendStep(jobs, Next(jobs, s, schedule[0]), schedule[1..], j);
      assert all[0] == schedule[0] && all[1..] == schedule[1..] + [j];
    }
  }

  /**
   * The whole run. The scheduler may pick any job whose await is resolved; the loop ends because such a job always
   * exists and every step brings a job closer to settling. A cycle is refused up front, and otherwise exactly the
   * doomed jobs are reported, in input order.
   */
  method RunPublishJobs(jobs: seq<Job>, concurrency: int) returns (r: RunResult, ghost schedule: seq<nat>)
    requires DistinctNames(jobs)
    ensures r.Refused? <==> HasCycle(ByName(jobs))
    ensures r.Refused? ==> Repeats(ByName(jobs), r.chain)
    ensures r.Ran? ==> r.failed == DoomedNames(jobs, |jobs|)
    ensures r.Ran? ==> CompleteRun(jobs, if concurrency > 1 then concurrency else 1, schedule)
  {
    var verdict := AssertAcyclic(jobs);
    if verdict.Cycle? {
      return Refused(verdict.chain), [];
    }
    var run := new Run(jobs, concurrency);
    InitInv(jobs, if concurrency > 1 then concurrency else 1);
    ghost var start := run.View();
    schedule := [];
    while exists i :: 0 <= i < |jobs| && !run.pc[i].Settled?
      invariant fresh(run) && fresh(run.slot) && fresh(run.packLocks)
      invariant run.jobs == jobs && run.Valid() && Inv(jobs, run.View()) && |start.pc| == |jobs|
      invariant Runs(jobs, start, schedule) && After(jobs, start, schedule) == run.View()
      decreases Total(run.pc, Remaining)
    {
      ghost var j := run.Resume();
      AppendStep(jobs, start, schedule, j);
      schedule := schedule + [j];
    }
    FailedAreDoomed(jobs, run.View(), |jobs|);
    var failed := run.FailedInOrder();
    r := Ran(failed);
  }
}
