/** What every schedule of a publish run keeps, why it cannot stall, and what it returns. */
module PublishProgress {
  import opened PublishGraph
  import opened PublishJobs
  import opened PublishSlots
  import opened PublishRunner

  // ----- what a program counter says about the job -----

  /** A job past its prerequisites has seen all of them publish; a failed job is doomed by itself or by one of them. */
  ghost predicate JobOk(jobs: seq<Job>, pc: seq<Pc>, i: nat)
    requires |pc| == |jobs| && i < |jobs|
  {
    var job := jobs[i];
    match pc[i]
    case Start => true
    case Queued(Packing) => !job.pack.NoPack?
    case Granted(Packing) => !job.pack.NoPack?
    case Inside(Packing) => !job.pack.NoPack?
    case LockQueued => job.pack.Locked?
    case LockHeld => job.pack.Locked?
    case PackTail => job.pack.Locked?
    case Finished(Packing) => true
    case Blocking => !PackThrows(job.pack)
    case Discarding => Doomed(jobs, i)
    case Settled(ok) => if ok then !OwnWorkThrows(job) && PrerequisitesPublished(jobs, pc, i) else Doomed(jobs, i)
    case _ => !PackThrows(job.pack) && PrerequisitesPublished(jobs, pc, i)
  }

  /** A job counter moved from `was` to `now` without unsettling it. */
  predicate Wakes(was: Pc, now: Pc) {
    was == now || (was.Queued? && now == Granted(was.phase))
  }

  lemma {:induction false} OthersStayOk(jobs: seq<Job>, pc: seq<Pc>, now: seq<Pc>, i: nat)
    requires |pc| == |jobs| == |now| && i < |jobs| && JobOk(jobs, pc, i) && Wakes(pc[i], now[i])
    requires forall k :: 0 <= k < |jobs| && pc[k].Settled? ==> now[k] == pc[k]
    ensures JobOk(jobs, now, i)
  {
  }

  ghost predicate Inv(jobs: seq<Job>, s: State) {
    && |s.pc| == |jobs|
    && SlotInv(s)
    && LockInv(jobs, s)
    && (forall i :: 0 <= i < |jobs| ==> JobOk(jobs, s.pc, i))
  }

  lemma {:induction false} InitInv(jobs: seq<Job>, limit: nat)
    requires limit >= 1
    ensures Inv(jobs, Init(jobs, limit))
  {
    StartTotal(Init(jobs, limit).pc, Holds);
  }

  lemma {:induction false} StartTotal(pc: seq<Pc>, weight: Pc -> nat)
    requires forall i :: 0 <= i < |pc| ==> pc[i] == Start
    ensures Total(pc, weight) == weight(Start) * |pc|
  {
    if pc != [] {
      StartTotal(pc[1..], weight);
    }
  }

  lemma {:induction false} StepOnlyWakes(jobs: seq<Job>, s: State, j: nat)
    requires |s.pc| == |jobs| && Enabled(jobs, s, j)
    ensures |Next(jobs, s, j).pc| == |jobs|
    ensures forall i :: 0 <= i < |jobs| && i != j ==> Wakes(s.pc[i], Next(jobs, s, j).pc[i])
  {
  }

  lemma {:induction false} WakingKeepsStage(was: Pc, now: Pc)
    requires Wakes(was, now)
    ensures Stage(was) == Stage(now)
  {
  }

  /** All steps but the two at the lock itself leave the mover in its stage. */
  lemma {:induction false} MoverKeepsStage(jobs: seq<Job>, s: State, j: nat)
    requires |s.pc| == |jobs| && Enabled(jobs, s, j) && JobOk(jobs, s.pc, j)
    requires s.pc[j] != LockHeld && !(s.pc[j] == Inside(Packing) && jobs[j].pack.Locked?)
    ensures var t := Next(jobs, s, j);
      && t.locks == s.locks
      && (jobs[j].pack.Locked? ==> Stage(s.pc[j]) == Stage(t.pc[j]))
      && t.pc[j] != LockQueued
      && (t.pc[j] == LockHeld ==> Ready(s.locks, j) && jobs[j].pack.Locked?)
  {
  }

  lemma {:induction false} StepKeepsLocks(jobs: seq<Job>, s: State, j: nat)
    requires Inv(jobs, s) && Enabled(jobs, s, j)
    ensures LockInv(jobs, Next(jobs, s, j))
  {
    StepOnlyWakes(jobs, s, j);
    assert JobOk(jobs, s.pc, j);
    if s.pc[j] == Inside(Packing) && jobs[j].pack.Locked? {
      RequestKeepsLocks(jobs, s, j);
    } else if s.pc[j] == LockHeld {
      UnlockKeepsLocks(jobs, s, j);
    } else {
      var t := Next(jobs, s, j);
      MoverKeepsStage(jobs, s, j);
      forall i | 0 <= i < |jobs| && i != j ensures Stage(s.pc[i]) == Stage(t.pc[i]) {
        WakingKeepsStage(s.pc[i], t.pc[i]);
      }
      SameStagesKeepLocks(jobs, s, t);
    }
  }

  lemma {:induction false} SettlesTruthfully(jobs: seq<Job>, pc: seq<Pc>, j: nat)
    requires |pc| == |jobs| && j < |jobs| && JobOk(jobs, pc, j)
    ensures pc[j] == Finished(Packing) && PackThrows(jobs[j].pack) ==> Doomed(jobs, j)
    ensures pc[j] == Finished(Publishing) && jobs[j].publishThrows ==> Doomed(jobs, j)
  {
    if OwnWorkThrows(jobs[j]) {
      OwnFailureDooms(jobs, j);
    }
  }

  /** A settled prerequisite that did not publish dooms the job that waits for it. */
  lemma {:induction false} BlockedIsDoomed(jobs: seq<Job>, pc: seq<Pc>, j: nat)
    requires |pc| == |jobs| && j < |jobs| && PrerequisitesSettled(jobs, pc, j) && !PrerequisitesPublished(jobs, pc, j)
    requires forall i :: 0 <= i < |jobs| ==> JobOk(jobs, pc, i)
    ensures Doomed(jobs, j)
  {
    var k :| 0 <= k < |jobs| && Needs(jobs, j, k) && pc[k] != Settled(true);
    assert JobOk(jobs, pc, k);
    PrerequisiteDooms(jobs, j, k);
  }

  lemma {:induction false} MoverStaysOk(jobs: seq<Job>, s: State, j: nat)
    requires Inv(jobs, s) && Enabled(jobs, s, j)
    ensures JobOk(jobs, Next(jobs, s, j).pc, j)
  {
    var now := Next(jobs, s, j).pc;
    StepOnlyWakes(jobs, s, j);
    assert JobOk(jobs, s.pc, j);
    assert PrerequisitesPublished(jobs, s.pc, j) ==> PrerequisitesPublished(jobs, now, j);
    if s.pc[j] == Blocking {
      if !PrerequisitesPublished(jobs, s.pc, j) {
        BlockedIsDoomed(jobs, s.pc, j);
      }
    } else {
      SettlesTruthfully(jobs, s.pc, j);
    }
  }

  lemma {:induction false} StepKeepsInv(jobs: seq<Job>, s: State, j: nat)
    requires Inv(jobs, s) && Enabled(jobs, s, j)
    ensures Inv(jobs, Next(jobs, s, j))
  {
    StepKeepsSlots(jobs, s, j);
    StepKeepsLocks(jobs, s, j);
    StepOnlyWakes(jobs, s, j);
    forall i | 0 <= i < |jobs| ensures JobOk(jobs, Next(jobs, s, j).pc, i) {
      if i == j {
        MoverStaysOk(jobs, s, j);
      } else {
        OthersStayOk(jobs, s.pc, Next(jobs, s, j).pc, i);
      }
    }
  }

  /** Every state that any schedule can reach satisfies the invariant. */
  lemma {:induction false} ReachableInv(jobs: seq<Job>, s: State, schedule: seq<nat>)
    requires Inv(jobs, s) && Runs(jobs, s, schedule)
    ensures Inv(jobs, After(jobs, s, schedule))
    decreases |schedule|
  {
    if schedule != [] {
      StepKeepsInv(jobs, s, schedule[0]);
      ReachableInv(jobs, Next(jobs, s, schedule[0]), schedule[1..]);
    }
  }

  // ----- progress -----

  lemma {:induction false} LeaveDecreases(s: State, j: nat, phase: Phase)
    requires SlotInv(s) && j < |s.pc| && Holds(s.pc[j]) == 1 && Remaining(Finished(phase)) < Remaining(s.pc[j])
    ensures Total(LeaveSlot(s, j, phase).pc, Remaining) < Total(s.pc, Remaining)
  {
    TotalUpdate(s.pc, j, Finished(phase), Remaining);
    var w := s.sem.waiting;
    if w != [] {
      assert w[0] in w;
      TotalUpdate(s.pc[j := Finished(phase)], w[0], Granted(s.pc[w[0]].phase), Remaining);
      assert LeaveSlot(s, j, phase).pc == s.pc[j := Finished(phase)][w[0] := Granted(s.pc[w[0]].phase)];
    }
  }

  lemma {:induction false} StepDecreases(jobs: seq<Job>, s: State, j: nat)
    requires Inv(jobs, s) && Enabled(jobs, s, j)
    ensures Total(Next(jobs, s, j).pc, Remaining) < Total(s.pc, Remaining)
  {
    assert JobOk(jobs, s.pc, j);
    match s.pc[j]
    case PackTail => LeaveDecreases(s, j, Packing);
    case Inside(Publishing) => LeaveDecreases(s, j, Publishing);
    case Inside(Packing) =>
      if jobs[j].pack.Locked? { TotalUpdate(s.pc, j, LockQueued, Remaining); } else { LeaveDecreases(s, j, Packing); }
    case _ => OwnStepDecreases(jobs, s, j);
  }

  lemma {:induction false} OwnStepDecreases(jobs: seq<Job>, s: State, j: nat)
    requires |s.pc| == |jobs| && Enabled(jobs, s, j) && s.pc[j] != PackTail && !s.pc[j].Inside?
    ensures Total(Next(jobs, s, j).pc, Remaining) < Total(s.pc, Remaining)
  {
    TotalUpdate(s.pc, j, Next(jobs, s, j).pc[j], Remaining);
  }

  /** Every step of a schedule is paid for by the steps its jobs still owe. */
  lemma {:induction false} StepsArePaid(jobs: seq<Job>, s: State, schedule: seq<nat>)
    requires Inv(jobs, s) && Runs(jobs, s, schedule)
    ensures |schedule| + Total(After(jobs, s, schedule).pc, Remaining) <= Total(s.pc, Remaining)
    decreases |schedule|
  {
    if schedule != [] {
      StepKeepsInv(jobs, s, schedule[0]);
      StepDecreases(jobs, s, schedule[0]);
      StepsArePaid(jobs, Next(jobs, s, schedule[0]), schedule[1..]);
    }
  }

  /** No schedule is longer than 14 steps per job. */
  lemma {:induction false} ScheduleBounded(jobs: seq<Job>, limit: nat, schedule: seq<nat>)
    requires limit >= 1 && Runs(jobs, Init(jobs, limit), schedule)
    ensures |schedule| <= 14 * |jobs|
  {
    InitInv(jobs, limit);
    StepsArePaid(jobs, Init(jobs, limit), schedule);
    StartTotal(Init(jobs, limit).pc, Remaining);
  }

  /** While a slot is held, some holder can move: a packer queued on its lock has someone ahead who can. */
  lemma {:induction false} HolderMoves(jobs: seq<Job>, s: State, i: nat) returns (j: nat)
    requires Inv(jobs, s) && i < |jobs| && Holds(s.pc[i]) == 1
    ensures Enabled(jobs, s, j)
  {
    if s.pc[i] != LockQueued {
      j := i;
    } else {
      var key := jobs[i].pack.key;
      assert WantsLock(jobs, i, key);
      var q := Line(s.locks, key);
      assert i in q && i !in s.locks.released;
      var m: nat :| m < |q| && q[m] == i;
      j := SomeoneReady(s.locks, key, m);
      assert WantsLock(jobs, j, key) && Stage(s.pc[j]) == 1;
    }
  }

  /** The run never deadlocks: while a job is unsettled some awaited promise is resolved. */
  lemma {:induction false} NeverStuck(jobs: seq<Job>, s: State) returns (j: nat)
    requires DistinctNames(jobs) && !HasCycle(ByName(jobs)) && Inv(jobs, s) && !AllSettled(s)
    ensures Enabled(jobs, s, j)
  {
    if s.sem.active > 0 {
      var i := TotalPositive(s.pc, Holds);
      j := HolderMoves(jobs, s, i);
    } else if i: nat :| i < |jobs| && !s.pc[i].Settled? && s.pc[i] != Blocking {
      j := i;
      NotHolding(s, i);
      assert !s.pc[i].Queued? by { assert i in s.sem.waiting <==> s.pc[i].Queued?; }
    } else {
      j := SomeoneUnblocked(jobs, s);
    }
  }

  lemma {:induction false} NotHolding(s: State, i: nat)
    requires SlotInv(s) && s.sem.active == 0 && i < |s.pc|
    ensures Holds(s.pc[i]) == 0
  {
    TotalUpdate(s.pc, i, Start, Holds);
  }

  /** Jobs that all await prerequisites cannot all await each other. */
  lemma {:induction false} SomeoneUnblocked(jobs: seq<Job>, s: State) returns (j: nat)
    requires DistinctNames(jobs) && !HasCycle(ByName(jobs)) && |s.pc| == |jobs| && !AllSettled(s)
    requires forall i :: 0 <= i < |jobs| ==> s.pc[i].Settled? || s.pc[i] == Blocking
    ensures Enabled(jobs, s, j)
  {
    if i: nat :| i < |jobs| && s.pc[i] == Blocking && PrerequisitesSettled(jobs, s.pc, i) {
      j := i;
    } else {
      AllBlockedIsStuck(jobs, s, set i: nat | i < |jobs| && s.pc[i] == Blocking);
      StuckSetHasCycle(jobs, set i: nat | i < |jobs| && s.pc[i] == Blocking);
      assert false;
    }
  }

  lemma {:induction false} AllBlockedIsStuck(jobs: seq<Job>, s: State, blocked: set<nat>)
    requires |s.pc| == |jobs| && !AllSettled(s)
    requires blocked == set i: nat | i < |jobs| && s.pc[i] == Blocking
    requires forall i :: 0 <= i < |jobs| ==> s.pc[i].Settled? || s.pc[i] == Blocking
    requires forall i: nat :: i in blocked ==> !PrerequisitesSettled(jobs, s.pc, i)
    ensures Stuck(jobs, blocked)
  {
    forall i: nat | i in blocked ensures NeedsMember(jobs, i, blocked) {
      var k :| 0 <= k < |jobs| && Needs(jobs, i, k) && !s.pc[k].Settled?;
      assert k in blocked;
    }
    var i :| 0 <= i < |jobs| && !s.pc[i].Settled?;
    assert i in blocked;
  }

  // ----- results -----

  /** Once everything has settled, the failed jobs are the doomed ones, whatever the schedule was. */
  lemma {:induction false} SettledMeansDoomed(jobs: seq<Job>, s: State, i: nat)
    requires Inv(jobs, s) && i < |jobs| && s.pc[i].Settled?
    ensures s.pc[i].ok <==> !Doomed(jobs, i)
  {
    assert JobOk(jobs, s.pc, i);
    if s.pc[i].ok {
      var good := set k: nat | k < |jobs| && s.pc[k] == Settled(true);
      forall a: nat, b: nat | a in good && Needs(jobs, a, b) ensures b in good {
        assert JobOk(jobs, s.pc, a);
      }
      forall p | NeedsChain(jobs, p) && p[0] == i ensures !OwnWorkThrows(jobs[p[|p| - 1]]) {
        ChainStaysInside(jobs, p, good);
        assert JobOk(jobs, s.pc, p[|p| - 1]);
      }
    }
  }

  /** `jobs.filter(job => failed.has(job)).map(job => job.name)` over the first `n` jobs. */
  function FailedNames(jobs: seq<Job>, pc: seq<Pc>, n: nat): seq<string>
    requires |pc| == |jobs| && n <= |jobs|
  {
    if n == 0 then []
    else FailedNames(jobs, pc, n - 1) + if pc[n - 1] == Settled(false) then [jobs[n - 1].name] else []
  }

  /** The names of the doomed jobs among the first `n`, in input order: no schedule appears in it. */
  ghost function DoomedNames(jobs: seq<Job>, n: nat): seq<string>
    requires n <= |jobs|
  {
    if n == 0 then []
    else DoomedNames(jobs, n - 1) + if Doomed(jobs, n - 1) then [jobs[n - 1].name] else []
  }

  ghost predicate FailedIffDoomed(jobs: seq<Job>, pc: seq<Pc>) {
    |pc| == |jobs| && forall i :: 0 <= i < |jobs| ==> pc[i].Settled? && (pc[i].ok <==> !Doomed(jobs, i))
  }

  lemma {:induction false} NamesAgree(jobs: seq<Job>, pc: seq<Pc>, n: nat)
    requires FailedIffDoomed(jobs, pc) && n <= |jobs|
    ensures FailedNames(jobs, pc, n) == DoomedNames(jobs, n)
  {
    if n > 0 {
      NamesAgree(jobs, pc, n - 1);
    }
  }

  lemma {:induction false} FailedAreDoomed(jobs: seq<Job>, s: State, n: nat)
    requires Inv(jobs, s) && AllSettled(s) && n <= |jobs|
    ensures FailedNames(jobs, s.pc, n) == DoomedNames(jobs, n)
  {
    forall i | 0 <= i < |jobs| ensures s.pc[i].Settled? && (s.pc[i].ok <==> !Doomed(jobs, i)) {
      SettledMeansDoomed(jobs, s, i);
    }
    NamesAgree(jobs, s.pc, n);
  }

  /** Two complete runs under any two schedules and any two concurrency limits report the same failures. */
  lemma {:induction false} ResultIsScheduleFree(jobs: seq<Job>, limit1: nat, schedule1: seq<nat>, limit2: nat, schedule2: seq<nat>)
    requires limit1 >= 1 && limit2 >= 1
    requires Runs(jobs, Init(jobs, limit1), schedule1) && AllSettled(After(jobs, Init(jobs, limit1), schedule1))
    requires Runs(jobs, Init(jobs, limit2), schedule2) && AllSettled(After(jobs, Init(jobs, limit2), schedule2))
    ensures FailedNames(jobs, After(jobs, Init(jobs, limit1), schedule1).pc, |jobs|)
         == FailedNames(jobs, After(jobs, Init(jobs, limit2), schedule2).pc, |jobs|)
         == DoomedNames(jobs, |jobs|)
  {
    InitInv(jobs, limit1);
    InitInv(jobs, limit2);
    ReachableInv(jobs, Init(jobs, limit1), schedule1);
    ReachableInv(jobs, Init(jobs, limit2), schedule2);
    FailedAreDoomed(jobs, After(jobs, Init(jobs, limit1), schedule1), |jobs|);
    FailedAreDoomed(jobs, After(jobs, Init(jobs, limit2), schedule2), |jobs|);
  }

  /** In every reachable state a job that publishes, or has, saw every prerequisite publish first. */
  lemma {:induction false} PublishesAfterPrerequisites(jobs: seq<Job>, limit: nat, schedule: seq<nat>, i: nat, k: nat)
    requires limit >= 1 && Runs(jobs, Init(jobs, limit), schedule) && Needs(jobs, i, k)
    requires var pc := After(jobs, Init(jobs, limit), schedule).pc;
      pc[i] == Inside(Publishing) || pc[i] == Finished(Publishing) || pc[i] == Settled(true)
    ensures After(jobs, Init(jobs, limit), schedule).pc[k] == Settled(true)
  {
    InitInv(jobs, limit);
    ReachableInv(jobs, Init(jobs, limit), schedule);
    assert JobOk(jobs, After(jobs, Init(jobs, limit), schedule).pc, i);
  }

  /** Every run can be carried on until all jobs have settled. */
  lemma {:induction false} EveryRunCompletes(jobs: seq<Job>, s: State) returns (schedule: seq<nat>)
    requires DistinctNames(jobs) && !HasCycle(ByName(jobs)) && Inv(jobs, s)
    ensures Runs(jobs, s, schedule) && AllSettled(After(jobs, s, schedule))
    decreases Total(s.pc, Remaining)
  {
    if AllSettled(s) {
      schedule := [];
    } else {
      var j := NeverStuck(jobs, s);
      StepKeepsInv(jobs, s, j);
      StepDecreases(jobs, s, j);
      var rest := EveryRunCompletes(jobs, Next(jobs, s, j));
      schedule := [j] + rest;
      assert schedule[1..] == rest;
    }
  }

  /** The slot discipline in any reachable state: holders equal `active`, within the limit, served in order. */
  lemma {:induction false} SlotsInEveryRun(jobs: seq<Job>, limit: nat, schedule: seq<nat>)
    requires limit >= 1 && Runs(jobs, Init(jobs, limit), schedule)
    ensures var s := After(jobs, Init(jobs, limit), schedule);
      && Total(s.pc, Holds) == s.sem.active <= limit
      && (s.sem.waiting != [] ==> s.sem.active == limit)
      && s.sem.arrivals == s.sem.grants + s.sem.waiting
  {
    InitInv(jobs, limit);
    ReachableInv(jobs, Init(jobs, limit), schedule);
    LimitIsFixed(jobs, Init(jobs, limit), schedule);
  }

  /**
   * The lock discipline in any reachable state: whoever is inside a section of `key` is the first of the line, in order
   * of arrival, that has not left it, so nobody else is inside. A section that threw has left like any other.
   */
  lemma {:induction false} LocksInEveryRun(jobs: seq<Job>, limit: nat, schedule: seq<nat>, a: nat, key: string)
    requires limit >= 1 && Runs(jobs, Init(jobs, limit), schedule)
    requires WantsLock(jobs, a, key) && After(jobs, Init(jobs, limit), schedule).pc[a] == LockHeld
    ensures var s := After(jobs, Init(jobs, limit), schedule);
      exists i: nat :: FirstInLine(s.locks, key, i) && Line(s.locks, key)[i] == a
    ensures var s := After(jobs, Init(jobs, limit), schedule);
      forall b: nat :: WantsLock(jobs, b, key) && s.pc[b] == LockHeld ==> b == a
  {
    var s := After(jobs, Init(jobs, limit), schedule);
    InitInv(jobs, limit);
    ReachableInv(jobs, Init(jobs, limit), schedule);
    assert a in Line(s.locks, key);
    var i: nat :| i < |Line(s.locks, key)| && Line(s.locks, key)[i] == a;
    ReadyIsFirst(s.locks, key, i);
    forall b: nat | WantsLock(jobs, b, key) && s.pc[b] == LockHeld ensures b == a {
      LockExclusive(jobs, s, a, b, key);
    }
  }

  /** Position `i` of the line has not been left, all positions before it have. */
  ghost predicate FirstInLine(l: Locks, key: string, i: nat) {
    && i < |Line(l, key)| && Line(l, key)[i] !in l.released
    && forall m :: 0 <= m < i ==> Line(l, key)[m] in l.released
  }

  lemma {:induction false} LimitIsFixed(jobs: seq<Job>, s: State, schedule: seq<nat>)
    requires |s.pc| == |jobs| && Runs(jobs, s, schedule)
    ensures After(jobs, s, schedule).sem.limit == s.sem.limit
    decreases |schedule|
  {
    if schedule != [] {
      LimitIsFixed(jobs, Next(jobs, s, schedule[0]), schedule[1..]);
    }
  }
}
