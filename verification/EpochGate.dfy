/** The epoch reader gate shared by the purge map's table readers and by object publication.

    `Gate` is the C struct: a phase word and one reader count per phase.  `AtomicGate` performs the gate's atomic
    operations in place; `System` interleaves them, one atomic operation a step, over any number of readers and a
    writer that flips and drains.  `PinSet` is the simple specification: readers pin an epoch, and a drain waits for
    every pin of an older epoch.
*/
module EpochGate {

  // ----- the gate and its atomic operations -----

  datatype Gate = Gate(phase: nat, readers0: nat, readers1: nat) {
    /** The slot selected by the low bit of the phase word. */
    function Slot(): nat { phase % 2 }

    function Readers(slot: nat): nat {
      if slot == 0 then readers0 else readers1
    }

    function WithReaders(slot: nat, n: nat): Gate {
      if slot == 0 then this.(readers0 := n) else this.(readers1 := n)
    }

    /** `phase ^= 1` */
    function Flipped(): Gate {
      this.(phase := if phase % 2 == 0 then phase + 1 else phase - 1)
    }
  }

  /** The gate in place: each method is one sequentially consistent atomic operation. */
  class AtomicGate {
    var phase: nat
    var readers: array<nat>

    ghost predicate Valid() reads this { readers.Length == 2 }

    function View(): Gate
      requires Valid()
      reads this, readers
    {
      Gate(phase, readers[0], readers[1])
    }

    constructor ()
      ensures Valid() && fresh(readers) && View() == Gate(0, 0, 0)
    {
      phase := 0;
      readers := new nat[2](_ => 0);
    }

    method LoadSlot() returns (slot: nat)
      requires Valid()
      ensures slot == View().Slot() < 2
    {
      slot := phase % 2;
    }

    method AddReader(slot: nat)
      requires Valid() && slot < 2
      modifies readers
      ensures View() == old(View()).WithReaders(slot, old(View()).Readers(slot) + 1)
    {
      readers[slot] := readers[slot] + 1;
    }

    method SubReader(slot: nat) returns (left: nat)
      requires Valid() && slot < 2 && readers[slot] > 0
      modifies readers
      ensures left + 1 == old(View()).Readers(slot)
      ensures View() == old(View()).WithReaders(slot, left)
    {
      readers[slot] := readers[slot] - 1;
      left := readers[slot];
    }

    method Flip()
      requires Valid()
      modifies this`phase
      ensures View() == old(View()).Flipped()
    {
      phase := if phase % 2 == 0 then phase + 1 else phase - 1;
    }

    /** Acquire, when nothing interleaves with its three atomic operations. */
    method Acquire() returns (slot: nat, stable: bool)
      requires Valid()
      modifies readers
      ensures stable && slot == old(View()).Slot()
      ensures View() == old(View()).WithReaders(slot, old(View()).Readers(slot) + 1)
    {
      slot := LoadSlot();
      AddReader(slot);
      var again := LoadSlot();
      stable := again == slot;
    }
  }

  // ----- interleavings -----

  type ReaderId = nat

  /** Where a reader stands.  A reader absent from the system is idle.  `epoch` is history only: the number of flips
      that had happened when the re-check succeeded.
  */
  datatype Reader =
    | Loaded(slot: nat)
    | Counted(slot: nat)
    | Unstable(slot: nat)
    | Pinned(slot: nat, epoch: nat)

  /** `flips` counts the flips so far; `drained` says that the writer has seen the slot retired by the last flip
      at zero.
  */
  datatype System = System(gate: Gate, readers: map<ReaderId, Reader>, flips: nat, drained: bool)

  datatype Step =
    | LoadPhase(r: ReaderId)
    | Count(r: ReaderId)
    | Recheck(r: ReaderId)
    | Release(r: ReaderId)
    | Flip
    | ObserveZero

  const Init := System(Gate(0, 0, 0), map[], 0, true)

  predicate Holds(pc: Reader, slot: nat) {
    !pc.Loaded? && pc.slot == slot
  }

  predicate Enabled(s: System, step: Step) {
    match step
    case LoadPhase(r) => r !in s.readers
    case Count(r) => r in s.readers && s.readers[r].Loaded?
    case Recheck(r) => r in s.readers && s.readers[r].Counted?
    case Release(r) =>
      && r in s.readers
      && (s.readers[r].Unstable? || s.readers[r].Pinned?)
      && s.gate.Readers(s.readers[r].slot) > 0
    case Flip => true
    case ObserveZero => s.gate.Readers(1 - s.gate.Slot()) == 0
  }

  function Apply(s: System, step: Step): System
    requires Enabled(s, step)
  {
    match step
    case LoadPhase(r) => s.(readers := s.readers[r := Loaded(s.gate.Slot())])
    case Count(r) =>
      var slot := s.readers[r].slot;
      s.(readers := s.readers[r := Counted(slot)],
         gate := s.gate.WithReaders(slot, s.gate.Readers(slot) + 1))
    case Recheck(r) =>
      var slot := s.readers[r].slot;
      s.(readers := s.readers[r := if s.gate.Slot() == slot then Pinned(slot, s.flips) else Unstable(slot)])
    case Release(r) =>
      var slot := s.readers[r].slot;
      s.(readers := s.readers - {r}, gate := s.gate.WithReaders(slot, s.gate.Readers(slot) - 1))
    case Flip => s.(gate := s.gate.Flipped(), flips := s.flips + 1, drained := false)
    case ObserveZero => s.(drained := true)
  }

  /** Every step is enabled where it is taken. */
  predicate Legal(s: System, steps: seq<Step>)
    decreases |steps|
  {
    steps == [] || (Enabled(s, steps[0]) && Legal(Apply(s, steps[0]), steps[1..]))
  }

  function After(s: System, steps: seq<Step>): System
    requires Legal(s, steps)
    decreases |steps|
  {
    if steps == [] then s else After(Apply(s, steps[0]), steps[1..])
  }

  /** A legal run whose writer flips only once the slot retired by the previous flip was seen at zero. */
  predicate Disciplined(s: System, steps: seq<Step>)
    decreases |steps|
  {
    steps == [] ||
    (&& Enabled(s, steps[0])
     && (steps[0].Flip? ==> s.drained)
     && Disciplined(Apply(s, steps[0]), steps[1..]))
  }

  lemma {:induction false} DisciplinedIsLegal(s: System, steps: seq<Step>)
    requires Disciplined(s, steps)
    ensures Legal(s, steps)
    decreases |steps|
  {
    if steps != [] { DisciplinedIsLegal(Apply(s, steps[0]), steps[1..]); }
  }

  // ----- what every step keeps -----

  function Holders(readers: map<ReaderId, Reader>, slot: nat): set<ReaderId> {
    set r | r in readers && Holds(readers[r], slot)
  }

  /** Both counts are exact, and a pin sits in the slot of the epoch in which it became stable.  Holds of every
      interleaving, disciplined or not.
  */
  ghost predicate Exact(s: System) {
    && s.gate.Slot() == s.flips % 2
    && (forall r :: r in s.readers ==> s.readers[r].slot < 2)
    && (forall slot :: 0 <= slot < 2 ==> s.gate.Readers(slot) == |Holders(s.readers, slot)|)
    && (forall r :: r in s.readers && s.readers[r].Pinned? ==>
          s.readers[r].epoch <= s.flips && s.readers[r].slot == s.readers[r].epoch % 2)
  }

  /** A pin is at most one flip old, and after a drain no pin is older than the last flip. */
  ghost predicate Fresh(s: System) {
    forall r :: r in s.readers && s.readers[r].Pinned? ==>
      s.readers[r].epoch == s.flips || (!s.drained && s.readers[r].epoch + 1 == s.flips)
  }

  lemma HoldersAfterEnter(readers: map<ReaderId, Reader>, r: ReaderId, pc: Reader, slot: nat)
    requires r in readers ==> !Holds(readers[r], slot)
    ensures Holders(readers[r := pc], slot) ==
            if Holds(pc, slot) then Holders(readers, slot) + {r} else Holders(readers, slot)
    ensures |Holders(readers[r := pc], slot)| ==
            |Holders(readers, slot)| + if Holds(pc, slot) then 1 else 0
  {
    assert Holders(readers[r := pc], slot) ==
           if Holds(pc, slot) then Holders(readers, slot) + {r} else Holders(readers, slot);
  }

  lemma HoldersAfterLeave(readers: map<ReaderId, Reader>, r: ReaderId, slot: nat)
    requires r in readers
    ensures |Holders(readers - {r}, slot)| ==
            |Holders(readers, slot)| - if Holds(readers[r], slot) then 1 else 0
  {
    assert Holders(readers - {r}, slot) == Holders(readers, slot) - {r};
  }

  lemma HoldersAfterRecheck(readers: map<ReaderId, Reader>, r: ReaderId, pc: Reader, slot: nat)
    requires r in readers && (Holds(readers[r], slot) <==> Holds(pc, slot))
    ensures Holders(readers[r := pc], slot) == Holders(readers, slot)
  {
  }

  lemma LoadKeepsExact(s: System, r: ReaderId)
    requires Exact(s) && Enabled(s, LoadPhase(r))
    ensures Exact(Apply(s, LoadPhase(r)))
  {
    var pc := Loaded(s.gate.Slot());
    HoldersAfterEnter(s.readers, r, pc, 0);
    HoldersAfterEnter(s.readers, r, pc, 1);
  }

  lemma CountKeepsExact(s: System, r: ReaderId)
    requires Exact(s) && Enabled(s, Count(r))
    ensures Exact(Apply(s, Count(r)))
  {
    var pc := Counted(s.readers[r].slot);
    HoldersAfterEnter(s.readers, r, pc, 0);
    HoldersAfterEnter(s.readers, r, pc, 1);
  }

  lemma RecheckKeepsExact(s: System, r: ReaderId)
    requires Exact(s) && Enabled(s, Recheck(r))
    ensures Exact(Apply(s, Recheck(r)))
  {
    var pc := Apply(s, Recheck(r)).readers[r];
    HoldersAfterRecheck(s.readers, r, pc, 0);
    HoldersAfterRecheck(s.readers, r, pc, 1);
  }

  lemma ReleaseKeepsExact(s: System, r: ReaderId)
    requires Exact(s) && Enabled(s, Release(r))
    ensures Exact(Apply(s, Release(r)))
  {
    HoldersAfterLeave(s.readers, r, 0);
    HoldersAfterLeave(s.readers, r, 1);
  }

  lemma StepKeepsExact(s: System, step: Step)
    requires Exact(s) && Enabled(s, step)
    ensures Exact(Apply(s, step))
  {
    match step
    case LoadPhase(r) => LoadKeepsExact(s, r);
    case Count(r) => CountKeepsExact(s, r);
    case Recheck(r) => RecheckKeepsExact(s, r);
    case Release(r) => ReleaseKeepsExact(s, r);
    case Flip =>
    case ObserveZero =>
  }

  /** Seeing the retired slot at zero leaves only pins of the current epoch. */
  lemma ZeroMeansCurrent(s: System)
    requires Exact(s) && Enabled(s, ObserveZero)
    requires forall r :: r in s.readers && s.readers[r].Pinned? ==> s.readers[r].epoch + 1 >= s.flips
    ensures forall r :: r in s.readers && s.readers[r].Pinned? ==> s.readers[r].epoch == s.flips
  {
    var retired := 1 - s.gate.Slot();
    assert Holders(s.readers, retired) == {};
    forall r | r in s.readers && s.readers[r].Pinned?
      ensures s.readers[r].epoch == s.flips
    {
      assert r in Holders(s.readers, s.readers[r].slot);
    }
  }

  /** A drain waits for the readers counted in the retired slot, and for nothing else. */
  lemma DrainWaitsForHolders(steps: seq<Step>)
    requires Legal(Init, steps)
    ensures var s := After(Init, steps);
            Enabled(s, ObserveZero) <==> forall r :: r in s.readers && !s.readers[r].Loaded? ==> s.readers[r].slot == s.gate.Slot()
  {
    CountsAreExact(steps);
    var s := After(Init, steps);
    var retired := 1 - s.gate.Slot();
    if Enabled(s, ObserveZero) {
      assert Holders(s.readers, retired) == {};
      forall r | r in s.readers && !s.readers[r].Loaded?
        ensures s.readers[r].slot == s.gate.Slot()
      {
        assert r !in Holders(s.readers, retired);
      }
    } else {
      assert Holders(s.readers, retired) != {};
      var r :| r in Holders(s.readers, retired);
    }
  }

  lemma StepKeepsFresh(s: System, step: Step)
    requires Exact(s) && Fresh(s) && Enabled(s, step)
    requires step.Flip? ==> s.drained
    ensures Fresh(Apply(s, step))
  {
    if step.ObserveZero? { ZeroMeansCurrent(s); }
  }

  lemma {:induction false} RunKeepsExact(s: System, steps: seq<Step>)
    requires Exact(s) && Legal(s, steps)
    ensures Exact(After(s, steps))
    decreases |steps|
  {
    if steps != [] {
      StepKeepsExact(s, steps[0]);
      RunKeepsExact(Apply(s, steps[0]), steps[1..]);
    }
  }

  lemma {:induction false} RunKeepsFresh(s: System, steps: seq<Step>)
    requires Exact(s) && Fresh(s) && Disciplined(s, steps)
    ensures Legal(s, steps) && Exact(After(s, steps)) && Fresh(After(s, steps))
    decreases |steps|
  {
    if steps != [] {
      StepKeepsExact(s, steps[0]);
      StepKeepsFresh(s, steps[0]);
      RunKeepsFresh(Apply(s, steps[0]), steps[1..]);
    }
  }

  /** In every run, flips or no flips, each count is the number of readers holding its slot, so a release never
      underflows.
  */
  lemma CountsAreExact(steps: seq<Step>)
    requires Legal(Init, steps)
    ensures Exact(After(Init, steps))
    ensures forall r :: r in After(Init, steps).readers && !After(Init, steps).readers[r].Loaded? ==>
              After(Init, steps).gate.Readers(After(Init, steps).readers[r].slot) > 0
  {
    assert Holders(map[], 0) == {} && Holders(map[], 1) == {};
    RunKeepsExact(Init, steps);
    var t := After(Init, steps);
    forall r | r in t.readers && !t.readers[r].Loaded?
      ensures t.gate.Readers(t.readers[r].slot) > 0
    {
      assert r in Holders(t.readers, t.readers[r].slot);
    }
  }

  // ----- the grace period -----

  lemma {:induction false} FlipsOnlyByFlip(s: System, steps: seq<Step>)
    requires Legal(s, steps) && forall i :: 0 <= i < |steps| ==> !steps[i].Flip?
    ensures After(s, steps).flips == s.flips
    decreases |steps|
  {
    if steps != [] { FlipsOnlyByFlip(Apply(s, steps[0]), steps[1..]); }
  }

  lemma {:induction false} DrainedOnlyByObserve(s: System, steps: seq<Step>)
    requires Legal(s, steps) && forall i :: 0 <= i < |steps| ==> !steps[i].Flip?
    ensures Disciplined(s, steps)
    decreases |steps|
  {
    if steps != [] { DrainedOnlyByObserve(Apply(s, steps[0]), steps[1..]); }
  }

  /** The grace period.  Take any disciplined run, a flip at its end, and any further steps of the readers until the
      retired slot is seen at zero: no pin that was stable before the flip is still held, however many flips and
      delayed readers came before.
  */
  lemma GracePeriod(before: seq<Step>, during: seq<Step>)
    requires Disciplined(Init, before) && Legal(Init, before) && After(Init, before).drained
    requires Legal(Apply(After(Init, before), Flip), during)
    requires forall i :: 0 <= i < |during| ==> !during[i].Flip?
    requires Enabled(After(Apply(After(Init, before), Flip), during), ObserveZero)
    ensures var s, t := After(Init, before), After(Apply(After(Init, before), Flip), during);
            forall r :: r in s.readers && s.readers[r].Pinned? ==> !(r in t.readers && t.readers[r] == s.readers[r])
  {
    assert Holders(map[], 0) == {} && Holders(map[], 1) == {};
    RunKeepsFresh(Init, before);
    var s := After(Init, before);
    var s' := Apply(s, Flip);
    StepKeepsExact(s, Flip);
    StepKeepsFresh(s, Flip);
    DrainedOnlyByObserve(s', during);
    RunKeepsFresh(s', during);
    FlipsOnlyByFlip(s', during);
    ZeroMeansCurrent(After(s', during));
  }

  function Flips(steps: seq<Step>): nat {
    if steps == [] then 0 else (if steps[0].Flip? then 1 else 0) + Flips(steps[1..])
  }

  predicate Touches(step: Step, r: ReaderId) {
    !step.Flip? && !step.ObserveZero? && step.r == r
  }

  lemma {:induction false} Untouched(s: System, steps: seq<Step>, r: ReaderId)
    requires Exact(s) && Legal(s, steps) && forall i :: 0 <= i < |steps| ==> !Touches(steps[i], r)
    ensures After(s, steps).flips == s.flips + Flips(steps)
    ensures After(s, steps).gate.Slot() == After(s, steps).flips % 2
    ensures r in After(s, steps).readers <==> r in s.readers
    ensures r in s.readers ==> After(s, steps).readers[r] == s.readers[r]
    decreases |steps|
  {
    if steps != [] {
      StepKeepsExact(s, steps[0]);
      Untouched(Apply(s, steps[0]), steps[1..], r);
    }
  }

  /** A re-check after `passed` flips have followed the first `flips`: the reader is stable exactly when their number is
      even, and then it is pinned in the epoch of the re-check, not of the load.
  */
  ghost predicate Rechecks(s: System, r: ReaderId, flips: nat, passed: nat) {
    && Enabled(s, Recheck(r))
    && Apply(s, Recheck(r)).readers[r]
       == if passed % 2 == 0 then Pinned(flips % 2, flips + passed) else Unstable(flips % 2)
  }

  lemma RecheckOutcome(s: System, r: ReaderId, flips: nat, passed: nat)
    requires Exact(s) && r in s.readers && s.readers[r] == Counted(flips % 2) && s.flips == flips + passed
    ensures Rechecks(s, r, flips, passed)
  {
  }

  lemma LoadThenGap(s: System, r: ReaderId, gap: seq<Step>)
    requires Exact(s) && Enabled(s, LoadPhase(r)) && Legal(Apply(s, LoadPhase(r)), gap)
    requires forall i :: 0 <= i < |gap| ==> !Touches(gap[i], r)
    ensures var t := After(Apply(s, LoadPhase(r)), gap);
            Exact(t) && Enabled(t, Count(r)) && t.readers[r].slot == s.flips % 2 && t.flips == s.flips + Flips(gap)
  {
    LoadKeepsExact(s, r);
    Untouched(Apply(s, LoadPhase(r)), gap, r);
    RunKeepsExact(Apply(s, LoadPhase(r)), gap);
  }

  lemma CountThenGap(s: System, r: ReaderId, gap: seq<Step>)
    requires Exact(s) && Enabled(s, Count(r)) && Legal(Apply(s, Count(r)), gap)
    requires forall i :: 0 <= i < |gap| ==> !Touches(gap[i], r)
    ensures var t := After(Apply(s, Count(r)), gap);
            && Exact(t) && r in t.readers && t.readers[r] == Counted(s.readers[r].slot)
            && t.flips == s.flips + Flips(gap)
  {
    CountKeepsExact(s, r);
    Untouched(Apply(s, Count(r)), gap, r);
    RunKeepsExact(Apply(s, Count(r)), gap);
  }

  lemma CountThenRecheck(s: System, r: ReaderId, gap: seq<Step>, flips: nat, passed: nat)
    requires Exact(s) && Enabled(s, Count(r)) && Legal(Apply(s, Count(r)), gap)
    requires forall i :: 0 <= i < |gap| ==> !Touches(gap[i], r)
    requires s.readers[r].slot == flips % 2 && s.flips == flips + passed
    ensures Rechecks(After(Apply(s, Count(r)), gap), r, flips, passed + Flips(gap))
  {
    CountThenGap(s, r, gap);
    RecheckOutcome(After(Apply(s, Count(r)), gap), r, flips, passed + Flips(gap));
  }

  /** The ABA case exactly: a reader delayed between its three operations ends up stable if and only if an even
      number of flips passed it by, and then it is pinned in the epoch of the re-check, not of the load.
  */
  lemma DelayedReader(s: System, r: ReaderId, gap1: seq<Step>, loaded: System, gap2: seq<Step>)
    requires Exact(s) && Enabled(s, LoadPhase(r)) && Legal(Apply(s, LoadPhase(r)), gap1)
    requires loaded == After(Apply(s, LoadPhase(r)), gap1)
    requires forall i :: 0 <= i < |gap1| ==> !Touches(gap1[i], r)
    requires forall i :: 0 <= i < |gap2| ==> !Touches(gap2[i], r)
    ensures Enabled(loaded, Count(r))
    ensures Legal(Apply(loaded, Count(r)), gap2) ==>
              Rechecks(After(Apply(loaded, Count(r)), gap2), r, s.flips, Flips(gap1) + Flips(gap2))
  {
    LoadThenGap(s, r, gap1);
    if Legal(Apply(loaded, Count(r)), gap2) { CountThenRecheck(loaded, r, gap2, s.flips, Flips(gap1)); }
  }

  // ----- the simple specification, and that the gate refines it -----

  /** Readers pin epochs.  This is all a user of the gate needs to know. */
  datatype PinSet = PinSet(pins: map<ReaderId, nat>, flips: nat, drained: bool)

  function Pins(readers: map<ReaderId, Reader>): map<ReaderId, nat> {
    map r | r in readers && readers[r].Pinned? :: readers[r].epoch
  }

  function Abstract(s: System): PinSet {
    PinSet(Pins(s.readers), s.flips, s.drained)
  }

  datatype PinStep = Stutter | Pin(r: ReaderId) | Unpin(r: ReaderId) | Advance | Drain

  predicate PinEnabled(p: PinSet, step: PinStep) {
    match step
    case Stutter => true
    case Pin(r) => r !in p.pins
    case Unpin(r) => r in p.pins
    case Advance => p.drained
    case Drain => forall r :: r in p.pins ==> p.pins[r] == p.flips
  }

  function PinApply(p: PinSet, step: PinStep): PinSet
    requires PinEnabled(p, step)
  {
    match step
    case Stutter => p
    case Pin(r) => p.(pins := p.pins[r := p.flips])
    case Unpin(r) => p.(pins := p.pins - {r})
    case Advance => p.(flips := p.flips + 1, drained := false)
    case Drain => p.(drained := true)
  }

  /** The specification step that a gate step performs. */
  function Meaning(s: System, step: Step): PinStep
    requires Enabled(s, step)
  {
    match step
    case LoadPhase(_) => Stutter
    case Count(_) => Stutter
    case Recheck(r) => if s.gate.Slot() == s.readers[r].slot then Pin(r) else Stutter
    case Release(r) => if s.readers[r].Pinned? then Unpin(r) else Stutter
    case Flip => Advance
    case ObserveZero => Drain
  }

  /** Each atomic operation of a disciplined gate is one step of the specification, or none.  In particular a drain of
      one counter is a drain of all older pins.
  */
  lemma GateRefinesPinSet(s: System, step: Step)
    requires Exact(s) && Fresh(s) && Enabled(s, step)
    requires step.Flip? ==> s.drained
    ensures PinEnabled(Abstract(s), Meaning(s, step))
    ensures Abstract(Apply(s, step)) == PinApply(Abstract(s), Meaning(s, step))
  {
    if step.ObserveZero? { ZeroMeansCurrent(s); }
    PinsFollow(s, step);
  }

  lemma PinsFollow(s: System, step: Step)
    requires Enabled(s, step) && PinEnabled(Abstract(s), Meaning(s, step))
    ensures Pins(Apply(s, step).readers) == PinApply(Abstract(s), Meaning(s, step)).pins
  {
  }
}
