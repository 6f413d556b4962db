/** What each job has done in a run: which sections it ran, how often and in which order. */
module PublishHistory {
  import opened Collections
  import opened PublishJobs
  import opened PublishSlots
  import opened PublishRunner
  import opened PublishProgress

  // The sections of a job: packing, its locked part, what packing does after the lock, publishing, and discarding.
  datatype Section = Pack | Locked | AfterLock | Publish | Discard

  function SectionAt(pc: Pc): seq<Section> {
    match pc
    case Inside(Packing) => [Section.Pack]
    case LockHeld => [Section.Locked]
    case PackTail => [AfterLock]
    case Inside(Publishing) => [Publish]
    case Discarding => [Discard]
    case _ => []
  }

  /** The sections that job `j` enters in the course of the schedule. */
  function Track(jobs: seq<Job>, s: State, schedule: seq<nat>, j: nat): seq<Section>
    requires |s.pc| == |jobs| && j < |jobs| && Runs(jobs, s, schedule)
    decreases |schedule|
  {
    if schedule == [] then []
    else
      var t := Next(jobs, s, schedule[0]);
      Begun(s.pc[j], t.pc[j]) + Track(jobs, t, schedule[1..], j)
  }

  /** What a job begins that comes from `was` to `now`. */
  function Begun(was: Pc, now: Pc): seq<Section> {
    if was != now then SectionAt(now) else []
  }

  function PackSections(job: Job): seq<Section> {
    match job.pack
    case NoPack => []
    case Plain(_) => [Section.Pack]
    case Locked(_, _, _) => [Section.Pack, Section.Locked, AfterLock]
  }

  ghost predicate PrerequisiteDoomed(jobs: seq<Job>, i: nat) {
    exists k :: Needs(jobs, i, k) && Doomed(jobs, k)
  }

  /** All that a job does: it packs, and unless that throws it publishes, or discards when a prerequisite fails. */
  ghost function AllSections(jobs: seq<Job>, i: nat): seq<Section>
    requires i < |jobs|
  {
    PackSections(jobs[i])
    + if PackThrows(jobs[i].pack) then [] else if PrerequisiteDoomed(jobs, i) then [Discard] else [Publish]
  }

  /** How much of that a job at `pc` has entered. */
  ghost function Entered(jobs: seq<Job>, i: nat, pc: Pc): seq<Section>
    requires i < |jobs|
  {
    match pc
    case Start => []
    case Queued(Packing) => []
    case Granted(Packing) => []
    case Inside(Packing) => [Section.Pack]
    case LockQueued => [Section.Pack]
    case LockHeld => [Section.Pack, Section.Locked]
    case PackTail => PackSections(jobs[i])
    case Finished(Packing) => PackSections(jobs[i])
    case Blocking => PackSections(jobs[i])
    case Queued(Publishing) => PackSections(jobs[i])
    case Granted(Publishing) => PackSections(jobs[i])
    case _ => AllSections(jobs, i)
  }

  /** Whether a job at `pc` got past its prerequisites because none is doomed, or the other way. */
  ghost predicate WentRight(jobs: seq<Job>, i: nat, pc: Pc)
    requires i < |jobs|
  {
    match pc
    case Discarding => PrerequisiteDoomed(jobs, i) && !PackThrows(jobs[i].pack)
    case Queued(Publishing) => !PrerequisiteDoomed(jobs, i) && !PackThrows(jobs[i].pack)
    case Granted(Publishing) => !PrerequisiteDoomed(jobs, i) && !PackThrows(jobs[i].pack)
    case Inside(Publishing) => !PrerequisiteDoomed(jobs, i) && !PackThrows(jobs[i].pack)
    case Finished(Publishing) => !PrerequisiteDoomed(jobs, i) && !PackThrows(jobs[i].pack)
    case _ => true
  }

  ghost predicate AllWentRight(jobs: seq<Job>, s: State)
    requires |s.pc| == |jobs|
  {
    forall i :: 0 <= i < |jobs| ==> WentRight(jobs, i, s.pc[i])
  }

  /** Once all its prerequisites have settled, a job is let through iff none of them is doomed. */
  lemma {:induction false} UnblockedIff(jobs: seq<Job>, s: State, j: nat)
    requires Inv(jobs, s) && j < |jobs| && PrerequisitesSettled(jobs, s.pc, j)
    ensures PrerequisitesPublished(jobs, s.pc, j) <==> !PrerequisiteDoomed(jobs, j)
  {
    forall k | 0 <= k < |jobs| && Needs(jobs, j, k) ensures s.pc[k] == Settled(true) <==> !Doomed(jobs, k) {
      SettledMeansDoomed(jobs, s, k);
    }
  }

  /** The sections a step of job `j` enters are the next ones of all it does. */
  lemma {:induction false} OwnStepEnters(jobs: seq<Job>, s: State, j: nat)
    requires Inv(jobs, s) && AllWentRight(jobs, s) && Enabled(jobs, s, j)
    ensures var was, now := s.pc[j], Next(jobs, s, j).pc[j];
      was != now && WentRight(jobs, j, now) && Entered(jobs, j, now) == Entered(jobs, j, was) + SectionAt(now)
  {
    assert JobOk(jobs, s.pc, j) && WentRight(jobs, j, s.pc[j]);
    if s.pc[j] == Blocking {
      UnblockedIff(jobs, s, j);
    }
    OwnStepEntersAt(jobs, s, j);
  }

  lemma {:induction false} OwnStepEntersAt(jobs: seq<Job>, s: State, j: nat)
    requires |s.pc| == |jobs| && Enabled(jobs, s, j) && JobOk(jobs, s.pc, j) && WentRight(jobs, j, s.pc[j])
    requires s.pc[j] == Blocking ==> (PrerequisitesPublished(jobs, s.pc, j) <==> !PrerequisiteDoomed(jobs, j))
    ensures var was, now := s.pc[j], Next(jobs, s, j).pc[j];
      was != now && WentRight(jobs, j, now) && Entered(jobs, j, now) == Entered(jobs, j, was) + SectionAt(now)
  {
  }

  /** Being handed a slot enters nothing. */
  lemma {:induction false} WakingEnters(jobs: seq<Job>, i: nat, was: Pc, now: Pc)
    requires i < |jobs| && Wakes(was, now) && WentRight(jobs, i, was)
    ensures WentRight(jobs, i, now) && Entered(jobs, i, now) == Entered(jobs, i, was) && (was != now ==> SectionAt(now) == [])
  {
  }

  lemma {:induction false} StepEnters(jobs: seq<Job>, s: State, j: nat, i: nat)
    requires Inv(jobs, s) && AllWentRight(jobs, s) && Enabled(jobs, s, j) && i < |jobs|
    ensures var was, now := s.pc[i], Next(jobs, s, j).pc[i];
      && WentRight(jobs, i, now)
      && Entered(jobs, i, now) == Entered(jobs, i, was) + Begun(was, now)
  {
    if i == j {
      OwnStepEnters(jobs, s, j);
    } else {
      StepOnlyWakes(jobs, s, j);
      WakingEnters(jobs, i, s.pc[i], Next(jobs, s, j).pc[i]);
    }
  }

  lemma {:induction false} StepGoesRight(jobs: seq<Job>, s: State, j: nat)
    requires Inv(jobs, s) && AllWentRight(jobs, s) && Enabled(jobs, s, j)
    ensures AllWentRight(jobs, Next(jobs, s, j))
  {
    forall i | 0 <= i < |jobs| ensures WentRight(jobs, i, Next(jobs, s, j).pc[i]) {
      StepEnters(jobs, s, j, i);
    }
  }

  lemma {:induction false} TrackIsEntered(jobs: seq<Job>, s: State, schedule: seq<nat>, i: nat)
    requires Inv(jobs, s) && AllWentRight(jobs, s) && Runs(jobs, s, schedule) && i < |jobs|
    ensures Entered(jobs, i, After(jobs, s, schedule).pc[i]) == Entered(jobs, i, s.pc[i]) + Track(jobs, s, schedule, i)
    decreases |schedule|
  {
    if schedule != [] {
      var j, t, rest := schedule[0], Next(jobs, s, schedule[0]), schedule[1..];
      StepEnters(jobs, s, j, i);
      StepKeepsInv(jobs, s, j);
      StepGoesRight(jobs, s, j);
      TrackIsEntered(jobs, t, rest, i);
      calc {
        Entered(jobs, i, After(jobs, s, schedule).pc[i]);
        Entered(jobs, i, t.pc[i]) + Track(jobs, t, rest, i);
        Entered(jobs, i, s.pc[i]) + Begun(s.pc[i], t.pc[i]) + Track(jobs, t, rest, i);
        { Assoc(Entered(jobs, i, s.pc[i]), Begun(s.pc[i], t.pc[i]), Track(jobs, t, rest, i)); }
        Entered(jobs, i, s.pc[i]) + (Begun(s.pc[i], t.pc[i]) + Track(jobs, t, rest, i));
        Entered(jobs, i, s.pc[i]) + Track(jobs, s, schedule, i);
      }
    }
  }

  /**
   * In every reachable state the sections that a job has entered are those that belong to its place: each once, in order.
   * A settled job has packed, inside its lock if it has one, and then published, discarded, or neither when packing threw.
   */
  lemma {:induction false} SectionsInEveryRun(jobs: seq<Job>, limit: nat, schedule: seq<nat>, i: nat)
    requires limit >= 1 && Runs(jobs, Init(jobs, limit), schedule) && i < |jobs|
    ensures var pc := After(jobs, Init(jobs, limit), schedule).pc[i];
      && Track(jobs, Init(jobs, limit), schedule, i) == Entered(jobs, i, pc)
      && (pc.Settled? ==> Track(jobs, Init(jobs, limit), schedule, i) == AllSections(jobs, i))
  {
    var s := Init(jobs, limit);
    InitInv(jobs, limit);
    TrackIsEntered(jobs, s, schedule, i);
    assert s.pc[i] == Start;
    assert [] + Track(jobs, s, schedule, i) == Track(jobs, s, schedule, i);
  }

  // ----- what settled jobs did -----

  lemma {:induction false} PrefixRuns(jobs: seq<Job>, s: State, schedule: seq<nat>, n: nat)
    requires |s.pc| == |jobs| && Runs(jobs, s, schedule) && n <= |schedule|
    ensures Runs(jobs, s, schedule[..n])
    decreases n
  {
    if n > 0 {
      PrefixRuns(jobs, Next(jobs, s, schedule[0]), schedule[1..], n - 1);
      assert schedule[..n][1..] == schedule[1..][..n - 1];
    }
  }

  /** At some moment of the schedule job `j` is at `pc`. */
  ghost predicate PassesThrough(jobs: seq<Job>, s: State, schedule: seq<nat>, j: nat, pc: Pc)
    requires |s.pc| == |jobs| && j < |jobs| && Runs(jobs, s, schedule)
  {
    exists n: nat :: n <= |schedule| && Runs(jobs, s, schedule[..n]) && After(jobs, s, schedule[..n]).pc[j] == pc
  }

  lemma {:induction false} PassesFirst(jobs: seq<Job>, s: State, schedule: seq<nat>, j: nat, pc: Pc)
    requires |s.pc| == |jobs| && j < |jobs| && schedule != [] && Runs(jobs, s, schedule)
    requires Next(jobs, s, schedule[0]).pc[j] == pc
    ensures PassesThrough(jobs, s, schedule, j, pc)
  {
    var one, t := schedule[..1], Next(jobs, s, schedule[0]);
    assert one[0] == schedule[0] && one[1..] == [];
    assert Runs(jobs, t, []) && After(jobs, t, []) == t;
    assert Runs(jobs, s, one) && After(jobs, s, one) == t;
  }

  lemma {:induction false} PassesLater(jobs: seq<Job>, s: State, schedule: seq<nat>, j: nat, pc: Pc)
    requires |s.pc| == |jobs| && j < |jobs| && schedule != [] && Runs(jobs, s, schedule)
    requires PassesThrough(jobs, Next(jobs, s, schedule[0]), schedule[1..], j, pc)
    ensures PassesThrough(jobs, s, schedule, j, pc)
  {
    var t, rest := Next(jobs, s, schedule[0]), schedule[1..];
    var n: nat :| n <= |rest| && Runs(jobs, t, rest[..n]) && After(jobs, t, rest[..n]).pc[j] == pc;
    var more := schedule[..n + 1];
    assert more[0] == schedule[0] && more[1..] == rest[..n];
    assert Runs(jobs, s, more) && After(jobs, s, more) == After(jobs, t, rest[..n]);
  }

  lemma {:induction false} TrackPasses(jobs: seq<Job>, s: State, schedule: seq<nat>, j: nat, pc: Pc)
    requires |s.pc| == |jobs| && j < |jobs| && Runs(jobs, s, schedule)
    requires SectionAt(pc) != [] && SectionAt(pc)[0] in Track(jobs, s, schedule, j)
    ensures PassesThrough(jobs, s, schedule, j, pc)
    decreases |schedule|
  {
    var t := Next(jobs, s, schedule[0]);
    if t.pc[j] == pc {
      PassesFirst(jobs, s, schedule, j, pc);
    } else {
      NotBegun(s.pc[j], t.pc[j], pc, Track(jobs, t, schedule[1..], j));
      TrackPasses(jobs, t, schedule[1..], j, pc);
      PassesLater(jobs, s, schedule, j, pc);
    }
  }

  lemma {:induction false} NotBegun(was: Pc, now: Pc, pc: Pc, later: seq<Section>)
    requires SectionAt(pc) != [] && now != pc && SectionAt(pc)[0] in Begun(was, now) + later
    ensures SectionAt(pc)[0] in later
  {
  }

  /** All that a published job has passed through. */
  ghost predicate RanAll(jobs: seq<Job>, s: State, schedule: seq<nat>, i: nat)
    requires |s.pc| == |jobs| && i < |jobs| && Runs(jobs, s, schedule)
  {
    && PassesThrough(jobs, s, schedule, i, Inside(Publishing))
    && (!jobs[i].pack.NoPack? ==> PassesThrough(jobs, s, schedule, i, Inside(Packing)))
    && (jobs[i].pack.Locked? ==> PassesThrough(jobs, s, schedule, i, LockHeld) && PassesThrough(jobs, s, schedule, i, PackTail))
  }

  lemma {:induction false} TrackRanAll(jobs: seq<Job>, s: State, schedule: seq<nat>, i: nat, track: seq<Section>)
    requires |s.pc| == |jobs| && i < |jobs| && Runs(jobs, s, schedule)
    requires track == Track(jobs, s, schedule, i) && track == PackSections(jobs[i]) + [Publish]
    ensures RanAll(jobs, s, schedule, i)
  {
    SectionsIn(jobs[i], track);
    TrackPasses(jobs, s, schedule, i, Inside(Publishing));
    if !jobs[i].pack.NoPack? {
      TrackPasses(jobs, s, schedule, i, Inside(Packing));
    }
    if jobs[i].pack.Locked? {
      TrackPasses(jobs, s, schedule, i, LockHeld);
      TrackPasses(jobs, s, schedule, i, PackTail);
    }
  }

  lemma {:induction false} SectionsIn(job: Job, track: seq<Section>)
    requires track == PackSections(job) + [Publish]
    ensures Publish in track && (!job.pack.NoPack? ==> Section.Pack in track)
    ensures job.pack.Locked? ==> Section.Locked in track && AfterLock in track
  {
    assert track[|track| - 1] == Publish;
    assert !job.pack.NoPack? ==> track[0] == Section.Pack;
    assert job.pack.Locked? ==> track[1] == Section.Locked && track[2] == AfterLock;
  }

  /** Nothing the job does by itself throws. */
  predicate NothingThrows(job: Job) {
    && !job.publishThrows
    && job.pack != Plain(true)
    && (job.pack.Locked? ==> !job.pack.sectionThrows && !job.pack.tailThrows)
  }

  /** A job that counts as published has run its publish section, and its pack, under its lock if it has one; none threw. */
  lemma {:induction false} PublishedMeansDone(jobs: seq<Job>, limit: nat, schedule: seq<nat>, i: nat)
    requires limit >= 1 && Runs(jobs, Init(jobs, limit), schedule) && i < |jobs|
    requires After(jobs, Init(jobs, limit), schedule).pc[i] == Settled(true)
    ensures RanAll(jobs, Init(jobs, limit), schedule, i) && NothingThrows(jobs[i])
  {
    var s := Init(jobs, limit);
    InitInv(jobs, limit);
    ReachableInv(jobs, s, schedule);
    var t := After(jobs, s, schedule);
    assert JobOk(jobs, t.pc, i);
    UnblockedIff(jobs, t, i);
    SectionsInEveryRun(jobs, limit, schedule, i);
    TrackRanAll(jobs, s, schedule, i, Track(jobs, s, schedule, i));
  }

  // ----- how often a job held a slot -----

  /** How many slots a job at `pc` has been given: one for packing, one for publishing. */
  ghost function SlotsTaken(jobs: seq<Job>, i: nat, pc: Pc): nat
    requires i < |jobs|
  {
    var forPack := if jobs[i].pack.NoPack? then 0 else 1;
    match pc
    case Start => 0
    case Queued(Packing) => 0
    case Finished(Publishing) => forPack + 1
    case Granted(Publishing) => forPack + 1
    case Inside(Publishing) => forPack + 1
    case Settled(_) => forPack + if PackThrows(jobs[i].pack) || PrerequisiteDoomed(jobs, i) then 0 else 1
    case _ => forPack
  }

  lemma {:induction false} EnterGrants(sem: Sem, j: nat, i: nat)
    ensures multiset(Enter(sem, j).grants)[i] == multiset(sem.grants)[i] + if i == j && sem.active < sem.limit then 1 else 0
  {
  }

  lemma {:induction false} LeaveGrants(sem: Sem, i: nat)
    ensures multiset(Leave(sem).grants)[i]
      == multiset(sem.grants)[i] + if sem.waiting != [] && sem.waiting[0] == i then 1 else 0
  {
  }

  lemma {:induction false} AcquireGrants(jobs: seq<Job>, s: State, j: nat, phase: Phase, i: nat)
    requires |s.pc| == |jobs| && j < |jobs| && i < |jobs| && multiset(s.sem.grants)[i] == SlotsTaken(jobs, i, s.pc[i])
    requires SlotsTaken(jobs, j, Queued(phase)) == SlotsTaken(jobs, j, s.pc[j])
    requires SlotsTaken(jobs, j, Inside(phase)) == SlotsTaken(jobs, j, s.pc[j]) + 1
    ensures var t := Acquire(s, j, phase); multiset(t.sem.grants)[i] == SlotsTaken(jobs, i, t.pc[i])
  {
    EnterGrants(s.sem, j, i);
  }

  lemma {:induction false} LeaveSlotGrants(jobs: seq<Job>, s: State, j: nat, phase: Phase, i: nat)
    requires |s.pc| == |jobs| && j < |jobs| && i < |jobs| && multiset(s.sem.grants)[i] == SlotsTaken(jobs, i, s.pc[i])
    requires SlotInv(s) && Holds(s.pc[j]) == 1 && SlotsTaken(jobs, j, Finished(phase)) == SlotsTaken(jobs, j, s.pc[j])
    requires s.pc[i] == Queued(Packing) ==> !jobs[i].pack.NoPack?
    ensures var t := LeaveSlot(s, j, phase); multiset(t.sem.grants)[i] == SlotsTaken(jobs, i, t.pc[i])
  {
    LeaveGrants(s.sem, i);
    if s.sem.waiting != [] {
      assert s.sem.waiting[0] in s.sem.waiting;
    }
  }

  /** Steps that neither ask for a slot nor leave one. */
  predicate KeepsSlots(job: Job, was: Pc, published: bool) {
    match was
    case Start => job.pack.NoPack?
    case Inside(Packing) => job.pack.Locked?
    case PackTail => false
    case Inside(Publishing) => false
    case Blocking => !published
    case _ => true
  }

  lemma {:induction false} OtherStepGrants(jobs: seq<Job>, s: State, j: nat)
    requires |s.pc| == |jobs| && Enabled(jobs, s, j)
    requires KeepsSlots(jobs[j], s.pc[j], PrerequisitesPublished(jobs, s.pc, j))
    ensures Next(jobs, s, j).sem == s.sem && Next(jobs, s, j).pc == s.pc[j := Next(jobs, s, j).pc[j]]
  {
  }

  lemma {:induction false} OtherStepTakes(jobs: seq<Job>, s: State, j: nat)
    requires |s.pc| == |jobs| && Enabled(jobs, s, j) && JobOk(jobs, s.pc, j) && WentRight(jobs, j, s.pc[j])
    requires s.pc[j] == Blocking ==> (PrerequisitesPublished(jobs, s.pc, j) <==> !PrerequisiteDoomed(jobs, j))
    requires KeepsSlots(jobs[j], s.pc[j], PrerequisitesPublished(jobs, s.pc, j))
    ensures SlotsTaken(jobs, j, Next(jobs, s, j).pc[j]) == SlotsTaken(jobs, j, s.pc[j])
  {
    var was, now := s.pc[j], Next(jobs, s, j).pc[j];
    match was
    case Start => assert now == Blocking;
    case Granted(phase) => assert now == Inside(phase);
    case Inside(Packing) => assert now == LockQueued;
    case LockQueued => assert now == LockHeld;
    case LockHeld => assert now == PackTail;
    case Finished(Packing) => assert now == if PackThrows(jobs[j].pack) then Settled(false) else Blocking;
    case Blocking => assert now == Discarding;
    case Discarding => assert now == Settled(false);
    case Finished(Publishing) => assert now == Settled(!jobs[j].publishThrows);
  }

  lemma {:induction false} SlotStepGrants(jobs: seq<Job>, s: State, j: nat, i: nat)
    requires Inv(jobs, s) && AllWentRight(jobs, s) && Enabled(jobs, s, j) && i < |jobs|
    requires multiset(s.sem.grants)[i] == SlotsTaken(jobs, i, s.pc[i])
    requires !KeepsSlots(jobs[j], s.pc[j], PrerequisitesPublished(jobs, s.pc, j))
    ensures var t := Next(jobs, s, j); multiset(t.sem.grants)[i] == SlotsTaken(jobs, i, t.pc[i])
  {
    assert JobOk(jobs, s.pc, j) && JobOk(jobs, s.pc, i);
    match s.pc[j]
    case Start => AcquireGrants(jobs, s, j, Packing, i);
    case Inside(Packing) => LeaveSlotGrants(jobs, s, j, Packing, i);
    case PackTail => LeaveSlotGrants(jobs, s, j, Packing, i);
    case Inside(Publishing) => LeaveSlotGrants(jobs, s, j, Publishing, i);
    case Blocking => AcquireGrants(jobs, s, j, Publishing, i);
  }

  lemma {:induction false} StepGrants(jobs: seq<Job>, s: State, j: nat, i: nat)
    requires Inv(jobs, s) && AllWentRight(jobs, s) && Enabled(jobs, s, j) && i < |jobs|
    requires multiset(s.sem.grants)[i] == SlotsTaken(jobs, i, s.pc[i])
    ensures var t := Next(jobs, s, j); multiset(t.sem.grants)[i] == SlotsTaken(jobs, i, t.pc[i])
  {
    if KeepsSlots(jobs[j], s.pc[j], PrerequisitesPublished(jobs, s.pc, j)) {
      OtherStepGrants(jobs, s, j);
      assert JobOk(jobs, s.pc, j) && WentRight(jobs, j, s.pc[j]);
      if s.pc[j] == Blocking { UnblockedIff(jobs, s, j); }
      OtherStepTakes(jobs, s, j);
    } else {
      SlotStepGrants(jobs, s, j, i);
    }
  }

  lemma {:induction false} RunGrants(jobs: seq<Job>, s: State, schedule: seq<nat>, i: nat)
    requires Inv(jobs, s) && AllWentRight(jobs, s) && Runs(jobs, s, schedule) && i < |jobs|
    requires multiset(s.sem.grants)[i] == SlotsTaken(jobs, i, s.pc[i])
    ensures var t := After(jobs, s, schedule); multiset(t.sem.grants)[i] == SlotsTaken(jobs, i, t.pc[i])
    decreases |schedule|
  {
    if schedule != [] {
      StepGrants(jobs, s, schedule[0], i);
      StepKeepsInv(jobs, s, schedule[0]);
      StepGoesRight(jobs, s, schedule[0]);
      RunGrants(jobs, Next(jobs, s, schedule[0]), schedule[1..], i);
    }
  }

  /**
   * In every reachable state a job has been given as many slots as its place says; when it has settled, one for its
   * pack, if it has one, and one for publishing, unless its pack threw or a prerequisite is doomed.
   */
  lemma {:induction false} SlotsTakenInEveryRun(jobs: seq<Job>, limit: nat, schedule: seq<nat>, i: nat)
    requires limit >= 1 && Runs(jobs, Init(jobs, limit), schedule) && i < |jobs|
    ensures var t := After(jobs, Init(jobs, limit), schedule);
      && multiset(t.sem.grants)[i] == SlotsTaken(jobs, i, t.pc[i])
      && (t.pc[i].Settled? ==>
            multiset(t.sem.grants)[i]
            == (if jobs[i].pack.NoPack? then 0 else 1) + (if PackThrows(jobs[i].pack) || PrerequisiteDoomed(jobs, i) then 0 else 1))
  {
    InitInv(jobs, limit);
    RunGrants(jobs, Init(jobs, limit), schedule, i);
  }
}
