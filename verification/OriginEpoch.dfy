/** The origin epoch controller: a request leases the current epoch under the read lock and holds the lock until it ends;
    a purge advances the epoch under the write lock.

    The lock operations, the load and the store are separate steps of any number of threads, so the theorems hold for
    every interleaving.  A step that the lock blocks leaves the state as it is.
*/
module OriginEpoch {

  /** Where a thread is between its lock operations; threads that are not in the map are idle. */
  datatype Phase =
    | ReadLocked               // beginRequest has the lock and has not loaded the epoch
    | Leased(epoch: nat)       // between beginRequest and endRequest
    | WriteLocked              // advance has the lock and has not stored
    | Stored(epoch: nat)       // advance has stored and has not unlocked

  type Thread = nat

  datatype Step =
    | RLock(t: Thread)
    | Load(t: Thread)
    | RUnlock(t: Thread)
    | Lock(t: Thread)
    | Bump(t: Thread)
    | Unlock(t: Thread)

  datatype Event = Began(t: Thread, epoch: nat) | Ended(t: Thread) | Advanced(epoch: nat)

  /** The readers-writer lock and the value are the controller's fields; threads and log are the environment. */
  datatype State = State(readers: nat, writing: bool, value: nat, threads: map<Thread, Phase>, log: seq<Event>)

  const Initial := State(0, false, 1, map[], [])

  function Next(s: State, step: Step): State {
    match step
    case RLock(t) =>
      if t in s.threads || s.writing then s
      else s.(readers := s.readers + 1, threads := s.threads[t := ReadLocked])
    case Load(t) =>
      if t !in s.threads || !s.threads[t].ReadLocked? then s
      else s.(threads := s.threads[t := Leased(s.value)], log := s.log + [Began(t, s.value)])
    case RUnlock(t) =>
      if t !in s.threads || !s.threads[t].Leased? || s.readers == 0 then s
      else s.(readers := s.readers - 1, threads := s.threads - {t}, log := s.log + [Ended(t)])
    case Lock(t) =>
      if t in s.threads || s.writing || s.readers > 0 then s
      else s.(writing := true, threads := s.threads[t := WriteLocked])
    case Bump(t) =>
      if t !in s.threads || !s.threads[t].WriteLocked? then s
      else s.(value := s.value + 1, threads := s.threads[t := Stored(s.value + 1)],
              log := s.log + [Advanced(s.value + 1)])
    case Unlock(t) =>
      if t !in s.threads || !s.threads[t].Stored? then s
      else s.(writing := false, threads := s.threads - {t})
  }

  ghost function Run(steps: seq<Step>): State
    decreases |steps|
  {
    if steps == [] then Initial else Next(Run(steps[..|steps| - 1]), steps[|steps| - 1])
  }

  // ----- the invariant -----

  predicate Reads(p: Phase) { p.ReadLocked? || p.Leased? }

  ghost function Holders(threads: map<Thread, Phase>): set<Thread> {
    set t | t in threads && Reads(threads[t])
  }

  ghost function Writers(threads: map<Thread, Phase>): set<Thread> {
    set t | t in threads && !Reads(threads[t])
  }

  ghost predicate LockIsExact(s: State) {
    && s.readers == |Holders(s.threads)|
    && |Writers(s.threads)| == (if s.writing then 1 else 0)
    && (s.writing ==> s.readers == 0)
  }

  ghost predicate LeasesAreCurrent(s: State) {
    forall t :: t in s.threads && s.threads[t].Leased? ==> s.threads[t].epoch == s.value
  }

  /** The lease that begins at `i` has ended before `j`. */
  ghost predicate EndedBetween(log: seq<Event>, i: nat, j: nat)
    requires i < |log| && log[i].Began? && j <= |log|
  {
    exists k: nat :: i < k < j && log[k] == Ended(log[i].t)
  }

  /** A lease that has not ended is still held. */
  ghost predicate OpenLeasesAreHeld(s: State) {
    forall i: nat :: i < |s.log| && s.log[i].Began? && !EndedBetween(s.log, i, |s.log|) ==>
      s.log[i].t in s.threads && s.threads[s.log[i].t] == Leased(s.log[i].epoch)
  }

  /** Every lease taken so far ended before any later event of a newer epoch. */
  ghost predicate EpochsAreSeparate(log: seq<Event>) {
    forall i: nat, j: nat :: i < j < |log| && log[i].Began? && !log[j].Ended? && log[j].epoch > log[i].epoch ==>
      EndedBetween(log, i, j)
  }

  /** Epochs in the log never decrease, and never exceed the value. */
  ghost predicate EpochsGrow(s: State) {
    && (forall i: nat, j: nat :: i < j < |s.log| && !s.log[i].Ended? && !s.log[j].Ended? ==>
         s.log[i].epoch <= s.log[j].epoch)
    && forall i: nat :: i < |s.log| && !s.log[i].Ended? ==> s.log[i].epoch <= s.value
  }

  ghost predicate Inv(s: State) {
    LockIsExact(s) && LeasesAreCurrent(s) && OpenLeasesAreHeld(s) && EpochsAreSeparate(s.log) && EpochsGrow(s)
  }

  // ----- every step -----

  lemma StartCounts(threads: map<Thread, Phase>, t: Thread, p: Phase)
    requires t !in threads
    ensures |Holders(threads[t := p])| == |Holders(threads)| + if Reads(p) then 1 else 0
    ensures |Writers(threads[t := p])| == |Writers(threads)| + if Reads(p) then 0 else 1
  {
    StartHolds(threads, t, p);
    StartWrites(threads, t, p);
  }

  lemma StartHolds(threads: map<Thread, Phase>, t: Thread, p: Phase)
    requires t !in threads
    ensures t !in Holders(threads)
    ensures Holders(threads[t := p]) == if Reads(p) then Holders(threads) + {t} else Holders(threads)
  {
  }

  lemma StartWrites(threads: map<Thread, Phase>, t: Thread, p: Phase)
    requires t !in threads
    ensures t !in Writers(threads)
    ensures Writers(threads[t := p]) == if Reads(p) then Writers(threads) else Writers(threads) + {t}
  {
  }

  lemma MoveCounts(threads: map<Thread, Phase>, t: Thread, p: Phase)
    requires t in threads && Reads(p) == Reads(threads[t])
    ensures Holders(threads[t := p]) == Holders(threads) && Writers(threads[t := p]) == Writers(threads)
  {
  }

  lemma StopCounts(threads: map<Thread, Phase>, t: Thread)
    requires t in threads
    ensures |Holders(threads - {t})| == |Holders(threads)| - if Reads(threads[t]) then 1 else 0
    ensures |Writers(threads - {t})| == |Writers(threads)| - if Reads(threads[t]) then 0 else 1
  {
    assert Holders(threads - {t}) == Holders(threads) - {t};
    assert Writers(threads - {t}) == Writers(threads) - {t};
    assert t in if Reads(threads[t]) then Holders(threads) else Writers(threads);
  }

  lemma StepKeepsLock(s: State, step: Step)
    requires LockIsExact(s)
    ensures LockIsExact(Next(s, step))
  {
    var s' := Next(s, step);
    if s' != s {
      if step.t !in s.threads {
        StartCounts(s.threads, step.t, s'.threads[step.t]);
      } else if step.RUnlock? || step.Unlock? {
        StopCounts(s.threads, step.t);
      } else {
        MoveCounts(s.threads, step.t, s'.threads[step.t]);
      }
    }
  }

  /** While the epoch is stored nobody holds a lease. */
  lemma WriterExcludesReaders(s: State, t: Thread)
    requires LockIsExact(s) && t in s.threads && !Reads(s.threads[t])
    ensures forall u :: u in s.threads ==> !Reads(s.threads[u])
  {
    assert t in Writers(s.threads);
    assert Holders(s.threads) == {};
    forall u | u in s.threads
      ensures !Reads(s.threads[u])
    {
      assert u !in Holders(s.threads);
    }
  }

  lemma EndedStays(log: seq<Event>, e: Event, i: nat, j: nat)
    requires i < |log| && log[i].Began? && j <= |log|
    ensures EndedBetween(log, i, j) ==> EndedBetween(log + [e], i, j) && EndedBetween(log + [e], i, j + 1)
    ensures EndedBetween(log + [e], i, j) ==> EndedBetween(log, i, j)
  {
    var log' := log + [e];
    if EndedBetween(log, i, j) {
      var k: nat :| i < k < j && log[k] == Ended(log[i].t);
      assert log'[k] == Ended(log'[i].t);
    }
    if EndedBetween(log', i, j) {
      var k: nat :| i < k < j && log'[k] == Ended(log'[i].t);
      assert log[k] == Ended(log[i].t);
    }
  }

  lemma EndEnds(log: seq<Event>, i: nat)
    requires i < |log| && log[i].Began?
    ensures EndedBetween(log + [Ended(log[i].t)], i, |log| + 1)
  {
    assert (log + [Ended(log[i].t)])[|log|] == Ended(log[i].t);
  }

  lemma StepKeepsHeld(s: State, step: Step)
    requires Inv(s)
    ensures OpenLeasesAreHeld(Next(s, step))
  {
    var s' := Next(s, step);
    forall i: nat | i < |s'.log| && s'.log[i].Began? && !EndedBetween(s'.log, i, |s'.log|)
      ensures s'.log[i].t in s'.threads && s'.threads[s'.log[i].t] == Leased(s'.log[i].epoch)
    {
      if s'.log != s.log && i < |s.log| {
        EndedStays(s.log, s'.log[|s.log|], i, |s.log|);
        if step.RUnlock? && s.log[i].t == step.t { EndEnds(s.log, i); }
      }
    }
  }

  lemma StepKeepsSeparate(s: State, step: Step)
    requires Inv(s)
    ensures EpochsAreSeparate(Next(s, step).log)
  {
    var s' := Next(s, step);
    forall i: nat, j: nat | i < j < |s'.log| && s'.log[i].Began? && !s'.log[j].Ended? && s'.log[j].epoch > s'.log[i].epoch
      ensures EndedBetween(s'.log, i, j)
    {
      if s'.log != s.log {
        EndedStays(s.log, s'.log[|s.log|], i, j);
        if j == |s.log| {
          // an open lease has the current epoch, and there is none while the epoch is stored
          if step.Bump? { WriterExcludesReaders(s, step.t); }
          assert EndedBetween(s.log, i, |s.log|);
        }
      }
    }
  }

  lemma StepKeepsInv(s: State, step: Step)
    requires Inv(s)
    ensures Inv(Next(s, step)) && Next(s, step).value >= s.value
  {
    StepKeepsLock(s, step);
    StepKeepsHeld(s, step);
    StepKeepsSeparate(s, step);
    if step.Bump? && step.t in s.threads && s.threads[step.t].WriteLocked? { WriterExcludesReaders(s, step.t); }
  }

  lemma {:induction false} RunKeepsInv(steps: seq<Step>)
    ensures Inv(Run(steps))
    decreases |steps|
  {
    if steps == [] {
      assert Holders(map[]) == {} && Writers(map[]) == {};
    } else {
      RunKeepsInv(steps[..|steps| - 1]);
      StepKeepsInv(Run(steps[..|steps| - 1]), steps[|steps| - 1]);
    }
  }

  // ----- the controller -----

  /** The controller's fields, with the machine they belong to as ghost state.  Its callers see whole operations: each
      method is its steps in a row, or nothing while the lock blocks the caller.
  */
  class Controller {
    var readers: nat
    var writing: bool
    var value: nat
    ghost var machine: State

    ghost predicate Valid()
      reads this
    {
      machine.readers == readers && machine.writing == writing && machine.value == value && Inv(machine)
    }

    constructor ()
      ensures Valid() && machine == Initial
    {
      readers, writing, value := 0, false, 1;
      machine := Initial;
      new;
      RunKeepsInv([]);
    }

    /** `beginRequest` */
    method BeginRequest(t: Thread) returns (granted: bool, epoch: nat)
      requires Valid() && t !in machine.threads
      modifies this
      ensures Valid() && granted == !old(writing)
      ensures granted ==> machine == Next(Next(old(machine), RLock(t)), Load(t)) && machine.threads[t] == Leased(epoch)
      ensures !granted ==> machine == old(machine)
    {
      if writing { return false, 0; }
      readers := readers + 1;
      StepKeepsInv(machine, RLock(t));
      StepKeepsInv(Next(machine, RLock(t)), Load(t));
      machine := Next(Next(machine, RLock(t)), Load(t));
      return true, value;
    }

    /** `endRequest` */
    method EndRequest(t: Thread)
      requires Valid() && t in machine.threads && machine.threads[t].Leased?
      modifies this
      ensures Valid() && machine == Next(old(machine), RUnlock(t)) && t !in machine.threads
    {
      assert t in Holders(machine.threads);
      readers := readers - 1;
      StepKeepsInv(machine, RUnlock(t));
      machine := Next(machine, RUnlock(t));
    }

    /** `advance`: it is granted only when no request holds a lease. */
    method Advance(t: Thread) returns (granted: bool, epoch: nat)
      requires Valid() && t !in machine.threads
      modifies this
      ensures Valid() && granted == (!old(writing) && old(readers) == 0)
      ensures granted ==> machine == Next(Next(Next(old(machine), Lock(t)), Bump(t)), Unlock(t))
      ensures granted ==> epoch == value == old(value) + 1
      ensures !granted ==> machine == old(machine)
    {
      if writing || readers > 0 { return false, 0; }
      writing := true;
      StepKeepsInv(machine, Lock(t));
      machine := Next(machine, Lock(t));
      value := value + 1;
      StepKeepsInv(machine, Bump(t));
      machine := Next(machine, Bump(t));
      epoch := value;
      writing := false;
      StepKeepsInv(machine, Unlock(t));
      machine := Next(machine, Unlock(t));
      granted := true;
    }
  }

  // ----- the theorems -----

  /** In every run, every lease in force carries the current epoch. */
  lemma LeasesCarryTheCurrentEpoch(steps: seq<Step>, t: Thread)
    requires t in Run(steps).threads && Run(steps).threads[t].Leased?
    ensures Run(steps).threads[t].epoch == Run(steps).value
  {
    RunKeepsInv(steps);
  }

  /** In every run, a request of one epoch has ended before a request of a later epoch begins, and before the epoch
      itself moves; and epochs are handed out in order.
  */
  lemma EpochsDoNotOverlap(steps: seq<Step>, i: nat, j: nat)
    requires var log := Run(steps).log; i < j < |log| && log[i].Began? && !log[j].Ended?
    ensures var log := Run(steps).log;
            && log[i].epoch <= log[j].epoch
            && (log[i].epoch < log[j].epoch ==> exists k: nat :: i < k < j && log[k] == Ended(log[i].t))
  {
    RunKeepsInv(steps);
    var log := Run(steps).log;
    if log[i].epoch < log[j].epoch { assert EndedBetween(log, i, j); }
  }

  ghost function Advances(log: seq<Event>): nat {
    if log == [] then 0 else Advances(log[..|log| - 1]) + if log[|log| - 1].Advanced? then 1 else 0
  }

  /** The epoch counts the advances: none is lost, whatever the interleaving. */
  lemma {:induction false} EpochCountsAdvances(steps: seq<Step>)
    ensures Run(steps).value == 1 + Advances(Run(steps).log)
    decreases |steps|
  {
    if steps != [] {
      EpochCountsAdvances(steps[..|steps| - 1]);
      var s, s' := Run(steps[..|steps| - 1]), Run(steps);
      if s'.log != s.log { assert s'.log[..|s'.log| - 1] == s.log; }
    }
  }
}
