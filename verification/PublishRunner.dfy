/**
 * `runPublishJobs` as a state machine. One step is what a job does between two awaits; which job moves next is
 * arbitrary. Job bodies terminate and their outcomes are fixed by the job.
 */
module PublishRunner {
  import opened PublishJobs
  import opened PublishSlots

  datatype Phase = Packing | Publishing

  /** Where a job stands. `Finished` is the await on a section that has already left its slot. */
  datatype Pc =
    | Start
    | Queued(phase: Phase)
    | Granted(phase: Phase)
    | Inside(phase: Phase)
    | LockQueued
    | LockHeld
    | PackTail
    | Finished(phase: Phase)
    | Blocking
    | Discarding
    | Settled(ok: bool)

  datatype State = State(pc: seq<Pc>, sem: Sem, locks: Locks)

  function Init(jobs: seq<Job>, limit: nat): State {
    State(seq(|jobs|, _ => Start), Sem(limit, 0, [], [], []), NO_LOCKS)
  }

  predicate AllSettled(s: State) {
    forall i :: 0 <= i < |s.pc| ==> s.pc[i].Settled?
  }

  predicate PrerequisitesSettled(jobs: seq<Job>, pc: seq<Pc>, i: nat)
    requires |pc| == |jobs|
  {
    forall k | 0 <= k < |jobs| :: Needs(jobs, i, k) ==> pc[k].Settled?
  }

  predicate PrerequisitesPublished(jobs: seq<Job>, pc: seq<Pc>, i: nat)
    requires |pc| == |jobs|
  {
    forall k | 0 <= k < |jobs| :: Needs(jobs, i, k) ==> pc[k] == Settled(true)
  }

  /** The awaited promise of job `j` is resolved. */
  predicate Enabled(jobs: seq<Job>, s: State, j: nat)
    requires |s.pc| == |jobs|
  {
    && j < |jobs|
    && !s.pc[j].Queued?
    && !s.pc[j].Settled?
    && (s.pc[j] == LockQueued ==> Ready(s.locks, j))
    && (s.pc[j] == Blocking ==> PrerequisitesSettled(jobs, s.pc, j))
  }

  function Acquire(s: State, j: nat, phase: Phase): State
    requires j < |s.pc|
  {
    var here := if s.sem.active >= s.sem.limit then Queued(phase) else Inside(phase);
    State(s.pc[j := here], Enter(s.sem, j), s.locks)
  }

  /** The queue's head is woken by the leaver. */
  function WakeHead(pc: seq<Pc>, sem: Sem): (r: seq<Pc>)
    ensures |r| == |pc|
  {
    if sem.waiting != [] && sem.waiting[0] < |pc| && pc[sem.waiting[0]].Queued?
    then pc[sem.waiting[0] := Granted(pc[sem.waiting[0]].phase)]
    else pc
  }

  function LeaveSlot(s: State, j: nat, phase: Phase): State
    requires j < |s.pc|
  {
    State(WakeHead(s.pc, s.sem)[j := Finished(phase)], Leave(s.sem), s.locks)
  }

  function Move(s: State, j: nat, to: Pc): State
    requires j < |s.pc|
  {
    s.(pc := s.pc[j := to])
  }

  function Next(jobs: seq<Job>, s: State, j: nat): State
    requires |s.pc| == |jobs| && j < |jobs|
  {
    var job := jobs[j];
    match s.pc[j]
    case Start => if job.pack.NoPack? then Move(s, j, Blocking) else Acquire(s, j, Packing)
    case Granted(phase) => Move(s, j, Inside(phase))
    case Inside(Packing) =>
      if job.pack.Locked?
      then State(s.pc[j := LockQueued], s.sem, Request(s.locks, job.pack.key, j))
      else LeaveSlot(s, j, Packing)
    case LockQueued => Move(s, j, LockHeld)
    case LockHeld => State(s.pc[j := PackTail], s.sem, Unlock(s.locks, j))
    case PackTail => LeaveSlot(s, j, Packing)
    case Finished(Packing) => Move(s, j, if PackThrows(job.pack) then Settled(false) else Blocking)
    case Blocking =>
      if PrerequisitesPublished(jobs, s.pc, j) then Acquire(s, j, Publishing) else Move(s, j, Discarding)
    case Discarding => Move(s, j, Settled(false))
    case Inside(Publishing) => LeaveSlot(s, j, Publishing)
    case Finished(Publishing) => Move(s, j, Settled(!job.publishThrows))
    case Queued(_) => s
    case Settled(_) => s
  }

  /** Every step of `schedule` was enabled when it was taken. */
  predicate Runs(jobs: seq<Job>, s: State, schedule: seq<nat>)
    requires |s.pc| == |jobs|
    decreases |schedule|
  {
    schedule == [] || (Enabled(jobs, s, schedule[0]) && Runs(jobs, Next(jobs, s, schedule[0]), schedule[1..]))
  }

  function After(jobs: seq<Job>, s: State, schedule: seq<nat>): (r: State)
    requires |s.pc| == |jobs| && Runs(jobs, s, schedule)
    ensures |r.pc| == |jobs|
    decreases |schedule|
  {
    if schedule == [] then s else After(jobs, Next(jobs, s, schedule[0]), schedule[1..])
  }

  // ----- sums over program counters -----

  function Total(pc: seq<Pc>, weight: Pc -> nat): nat {
    if pc == [] then 0 else weight(pc[0]) + Total(pc[1..], weight)
  }

  lemma {:induction false} TotalUpdate(pc: seq<Pc>, j: nat, to: Pc, weight: Pc -> nat)
    requires j < |pc|
    ensures Total(pc[j := to], weight) + weight(pc[j]) == Total(pc, weight) + weight(to)
  {
    if j == 0 {
      assert pc[j := to][1..] == pc[1..];
    } else {
      assert pc[j := to][1..] == pc[1..][j - 1 := to];
      TotalUpdate(pc[1..], j - 1, to, weight);
    }
  }

  lemma {:induction false} TotalPositive(pc: seq<Pc>, weight: Pc -> nat) returns (i: nat)
    requires Total(pc, weight) > 0
    ensures i < |pc| && weight(pc[i]) > 0
  {
    if weight(pc[0]) > 0 {
      i := 0;
    } else {
      i := TotalPositive(pc[1..], weight);
      i := i + 1;
    }
  }

  /** Holding a slot, which includes having been handed one and not having resumed yet. */
  function Holds(pc: Pc): nat {
    if pc.Granted? || pc.Inside? || pc.LockQueued? || pc.LockHeld? || pc.PackTail? then 1 else 0
  }

  /** Steps a job still has ahead of it. */
  function Remaining(pc: Pc): nat {
    match pc
    case Start => 14
    case Queued(Packing) => 13
    case Granted(Packing) => 12
    case Inside(Packing) => 11
    case LockQueued => 10
    case LockHeld => 9
    case PackTail => 8
    case Finished(Packing) => 7
    case Blocking => 6
    case Queued(Publishing) => 5
    case Granted(Publishing) => 4
    case Inside(Publishing) => 3
    case Finished(Publishing) => 2
    case Discarding => 1
    case Settled(_) => 0
  }

  // ----- slots -----

  /** Exactly the queued jobs wait, once each, and `active` counts the slot holders. */
  ghost predicate SlotInv(s: State) {
    && SemOk(s.sem)
    && Total(s.pc, Holds) == s.sem.active
    && (forall i: nat :: i in s.sem.waiting <==> i < |s.pc| && s.pc[i].Queued?)
    && (forall i, j :: 0 <= i < j < |s.sem.waiting| ==> s.sem.waiting[i] != s.sem.waiting[j])
  }

  lemma {:induction false} MoveKeepsSlots(s: State, j: nat, to: Pc, locks: Locks)
    requires SlotInv(s) && j < |s.pc| && Holds(s.pc[j]) == Holds(to) && !s.pc[j].Queued? && !to.Queued?
    ensures SlotInv(State(s.pc[j := to], s.sem, locks))
  {
    TotalUpdate(s.pc, j, to, Holds);
  }

  lemma {:induction false} AcquireKeepsSlots(s: State, j: nat, phase: Phase)
    requires SlotInv(s) && j < |s.pc| && Holds(s.pc[j]) == 0 && !s.pc[j].Queued?
    ensures SlotInv(Acquire(s, j, phase))
  {
    EnterKeepsOk(s.sem, j);
    TotalUpdate(s.pc, j, Acquire(s, j, phase).pc[j], Holds);
  }

  lemma {:induction false} LeaveKeepsSlots(s: State, j: nat, phase: Phase)
    requires SlotInv(s) && j < |s.pc| && Holds(s.pc[j]) == 1
    ensures SlotInv(LeaveSlot(s, j, phase))
  {
    TotalUpdate(s.pc, j, Finished(phase), Holds);
    LeaveKeepsOk(s.sem) by { HolderActive(s, j); }
    var left := s.pc[j := Finished(phase)];
    var w := s.sem.waiting;
    if w != [] {
      assert w[0] in w;
      TotalUpdate(left, w[0], Granted(s.pc[w[0]].phase), Holds);
      assert LeaveSlot(s, j, phase).pc == left[w[0] := Granted(s.pc[w[0]].phase)];
      assert forall i :: i in w[1..] <==> i in w && i != w[0];
    } else {
      HolderActive(s, j);
    }
  }

  lemma {:induction false} HolderActive(s: State, j: nat)
    requires SlotInv(s) && j < |s.pc| && Holds(s.pc[j]) == 1
    ensures s.sem.active > 0
  {
    TotalUpdate(s.pc, j, Start, Holds);
  }

  lemma {:induction false} StepKeepsSlots(jobs: seq<Job>, s: State, j: nat)
    requires |s.pc| == |jobs| && Enabled(jobs, s, j) && SlotInv(s)
    ensures SlotInv(Next(jobs, s, j))
  {
    var t := Next(jobs, s, j);
    match s.pc[j]
    case Start => if jobs[j].pack.NoPack? { MoveKeepsSlots(s, j, Blocking, s.locks); } else { AcquireKeepsSlots(s, j, Packing); }
    case Inside(Packing) => if jobs[j].pack.Locked? { MoveKeepsSlots(s, j, LockQueued, t.locks); } else { LeaveKeepsSlots(s, j, Packing); }
    case PackTail => LeaveKeepsSlots(s, j, Packing);
    case Inside(Publishing) => LeaveKeepsSlots(s, j, Publishing);
    case Blocking =>
      if PrerequisitesPublished(jobs, s.pc, j) { AcquireKeepsSlots(s, j, Publishing); } else { MoveKeepsSlots(s, j, Discarding, s.locks); }
    case Granted(phase) => MoveKeepsSlots(s, j, Inside(phase), s.locks);
    case LockQueued => MoveKeepsSlots(s, j, LockHeld, s.locks);
    case LockHeld => MoveKeepsSlots(s, j, PackTail, t.locks);
    case Finished(_) => MoveKeepsSlots(s, j, t.pc[j], s.locks);
    case Discarding => MoveKeepsSlots(s, j, Settled(false), s.locks);
  }

  // ----- locks -----

  /** 0: has not asked for its lock; 1: in line or inside; 2: done with it. */
  function Stage(pc: Pc): nat {
    if Remaining(pc) > 10 then 0 else if Remaining(pc) > 8 then 1 else 2
  }

  predicate WantsLock(jobs: seq<Job>, i: nat, key: string) {
    i < |jobs| && jobs[i].pack.Locked? && jobs[i].pack.key == key
  }

  ghost predicate LockInv(jobs: seq<Job>, s: State)
    requires |s.pc| == |jobs|
  {
    && (forall key :: LineOk(s.locks, key))
    && (forall i: nat, key :: i in Line(s.locks, key) <==> WantsLock(jobs, i, key) && Stage(s.pc[i]) >= 1)
    && (forall i: nat :: i in s.locks.previous <==> i < |jobs| && jobs[i].pack.Locked? && Stage(s.pc[i]) >= 1)
    && (forall i: nat :: i in s.locks.released <==> i < |jobs| && jobs[i].pack.Locked? && Stage(s.pc[i]) == 2)
    && (forall i :: 0 <= i < |jobs| && (s.pc[i] == LockQueued || s.pc[i] == LockHeld) ==> jobs[i].pack.Locked?)
    && (forall i :: 0 <= i < |jobs| && s.pc[i] == LockHeld ==> Ready(s.locks, i))
  }

  /** Steps that do not touch the locks keep the lock invariant when no job changes its stage. */
  lemma {:induction false} SameStagesKeepLocks(jobs: seq<Job>, s: State, t: State)
    requires |s.pc| == |jobs| == |t.pc| && LockInv(jobs, s) && t.locks == s.locks
    requires forall i :: 0 <= i < |jobs| && jobs[i].pack.Locked? ==> Stage(s.pc[i]) == Stage(t.pc[i])
    requires forall i :: 0 <= i < |jobs| && t.pc[i] == LockHeld ==> Ready(s.locks, i) && jobs[i].pack.Locked?
    requires forall i :: 0 <= i < |jobs| && t.pc[i] == LockQueued ==> jobs[i].pack.Locked?
    ensures LockInv(jobs, t)
  {
  }

  lemma {:induction false} RequestKeepsLocks(jobs: seq<Job>, s: State, j: nat)
    requires |s.pc| == |jobs| && LockInv(jobs, s) && j < |jobs| && jobs[j].pack.Locked? && s.pc[j] == Inside(Packing)
    ensures LockInv(jobs, Next(jobs, s, j))
  {
    var t := Next(jobs, s, j);
    RequestKeepsLines(jobs, s, j);
    forall i: nat, key ensures i in Line(t.locks, key) <==> WantsLock(jobs, i, key) && Stage(t.pc[i]) >= 1 {
      RequestJoinsLine(jobs, s, j, i, key);
    }
  }

  lemma {:induction false} RequestKeepsLines(jobs: seq<Job>, s: State, j: nat)
    requires |s.pc| == |jobs| && LockInv(jobs, s) && j < |jobs| && jobs[j].pack.Locked? && s.pc[j] == Inside(Packing)
    ensures forall key :: LineOk(Next(jobs, s, j).locks, key)
  {
    forall key ensures LineOk(Next(jobs, s, j).locks, key) {
      RequestKeepsLine(s.locks, jobs[j].pack.key, j, key);
    }
  }

  lemma {:induction false} RequestJoinsLine(jobs: seq<Job>, s: State, j: nat, i: nat, key: string)
    requires |s.pc| == |jobs| && LockInv(jobs, s) && j < |jobs| && jobs[j].pack.Locked? && s.pc[j] == Inside(Packing)
    ensures var t := Next(jobs, s, j);
      i in Line(t.locks, key) <==> WantsLock(jobs, i, key) && Stage(t.pc[i]) >= 1
  {
    var t := Next(jobs, s, j);
    assert i in Line(s.locks, key) <==> WantsLock(jobs, i, key) && Stage(s.pc[i]) >= 1;
    assert i in Line(t.locks, key) <==> i in Line(s.locks, key) || (i == j && key == jobs[j].pack.key);
  }

  lemma {:induction false} UnlockKeepsLocks(jobs: seq<Job>, s: State, j: nat)
    requires |s.pc| == |jobs| && LockInv(jobs, s) && j < |jobs| && s.pc[j] == LockHeld
    ensures LockInv(jobs, Next(jobs, s, j))
  {
    var t := Next(jobs, s, j);
    UnlockKeepsLines(jobs, s, j);
    forall i: nat, key ensures i in Line(t.locks, key) <==> WantsLock(jobs, i, key) && Stage(t.pc[i]) >= 1 {
      assert Line(t.locks, key) == Line(s.locks, key);
    }
  }

  lemma {:induction false} UnlockKeepsLines(jobs: seq<Job>, s: State, j: nat)
    requires |s.pc| == |jobs| && LockInv(jobs, s) && j < |jobs| && s.pc[j] == LockHeld
    ensures forall key :: LineOk(Next(jobs, s, j).locks, key)
  {
    forall key ensures LineOk(Next(jobs, s, j).locks, key) {
      UnlockKeepsLine(s.locks, j, key);
    }
  }

  /** Of several jobs with one key at most one is inside its locked section. */
  lemma {:induction false} LockExclusive(jobs: seq<Job>, s: State, a: nat, b: nat, key: string)
    requires |s.pc| == |jobs| && LockInv(jobs, s) && WantsLock(jobs, a, key) && WantsLock(jobs, b, key)
    requires s.pc[a] == LockHeld && s.pc[b] == LockHeld
    ensures a == b
  {
    assert a in Line(s.locks, key) && b in Line(s.locks, key);
    OneInside(s.locks, key, a, b);
  }
}
