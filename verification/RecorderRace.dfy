/** The latency recorder's `add`, interleaved: it takes a sequence number by an atomic increment, and stores its value
    into a slot by a later atomic store, without a lock.

    Any number of adds are under way at once; the index function is arbitrary.
*/
module RecorderRace {
  import LatencyRecorder

  /** `added` holds the value of each sequence number taken; `pending` are the numbers whose store is still to come; and
      `stored` says which number's store came last in each slot.
  */
  datatype Race = Race(limit: nat, index: nat -> nat, added: seq<int>, pending: set<nat>, stored: map<nat, nat>)

  datatype Step =
    | Increment(value: int)
    | Store(sequence: nat)

  function Start(limit: nat, index: nat -> nat): Race { Race(limit, index, [], {}, map[]) }

  /** The slot an add aims at; at or above the limit it stores nothing. */
  function SlotOf(r: Race, sequence: nat): nat {
    if sequence < r.limit then sequence else r.index(sequence) % (sequence + 1)
  }

  predicate Enabled(r: Race, step: Step) { step.Store? ==> step.sequence in r.pending }

  function Do(r: Race, step: Step): Race
    requires Enabled(r, step)
  {
    match step
    case Increment(value) =>
      var sequence := |r.added|;
      r.(added := r.added + [value],
         pending := if SlotOf(r, sequence) < r.limit then r.pending + {sequence} else r.pending)
    case Store(sequence) => r.(pending := r.pending - {sequence}, stored := r.stored[SlotOf(r, sequence) := sequence])
  }

  predicate Legal(r: Race, steps: seq<Step>)
    decreases |steps|
  {
    steps == [] || (Enabled(r, steps[0]) && Legal(Do(r, steps[0]), steps[1..]))
  }

  function After(r: Race, steps: seq<Step>): Race
    requires Legal(r, steps)
    decreases |steps|
  {
    if steps == [] then r else After(Do(r, steps[0]), steps[1..])
  }

  function Retained(r: Race): nat { if |r.added| < r.limit then |r.added| else r.limit }

  function Dropped(r: Race): nat { if |r.added| <= r.limit then 0 else |r.added| - r.limit }

  /** Every slot that a snapshot reads holds a value added. */
  predicate Filled(r: Race) { forall k :: 0 <= k < Retained(r) ==> k in r.stored }

  /** What a snapshot reads; a slot that has not been stored reads zero. */
  function Snapshot(r: Race): seq<int> {
    seq(Retained(r), k requires 0 <= k < Retained(r) =>
      if k in r.stored && r.stored[k] < |r.added| then r.added[r.stored[k]] else 0)
  }

  ghost predicate Inv(r: Race) {
    && (forall s :: s in r.pending ==> s < |r.added| && SlotOf(r, s) < r.limit)
    && (forall k :: k in r.stored ==> k < r.limit && r.stored[k] < |r.added| && SlotOf(r, r.stored[k]) == k)
    && forall k: nat :: k < Retained(r) ==> k in r.stored || k in r.pending
  }

  lemma IncrementKeepsInv(r: Race, value: int)
    requires Inv(r)
    ensures Inv(Do(r, Increment(value)))
  {
  }

  lemma StoreKeepsInv(r: Race, sequence: nat)
    requires Inv(r) && sequence in r.pending
    ensures Inv(Do(r, Store(sequence)))
  {
  }

  lemma StepKeepsInv(r: Race, step: Step)
    requires Inv(r) && Enabled(r, step)
    ensures Inv(Do(r, step))
  {
    match step
    case Increment(value) => IncrementKeepsInv(r, value);
    case Store(sequence) => StoreKeepsInv(r, sequence);
  }

  lemma {:induction false} RunKeepsInv(r: Race, steps: seq<Step>)
    requires Inv(r) && Legal(r, steps)
    ensures Inv(After(r, steps)) && After(r, steps).limit == r.limit && After(r, steps).index == r.index
    decreases |steps|
  {
    if steps != [] {
      StepKeepsInv(r, steps[0]);
      RunKeepsInv(Do(r, steps[0]), steps[1..]);
    }
  }

  function Adds(steps: seq<Step>): nat
    decreases |steps|
  {
    if steps == [] then 0 else (if steps[0].Increment? then 1 else 0) + Adds(steps[1..])
  }

  lemma {:induction false} IncrementsAreCounted(r: Race, steps: seq<Step>)
    requires Legal(r, steps)
    ensures |After(r, steps).added| == |r.added| + Adds(steps)
    decreases |steps|
  {
    if steps != [] { IncrementsAreCounted(Do(r, steps[0]), steps[1..]); }
  }

  /** In every interleaving the observations are conserved: the adds begun are the slots retained and those dropped. */
  lemma Conserved(limit: nat, index: nat -> nat, steps: seq<Step>)
    requires Legal(Start(limit, index), steps)
    ensures var r := After(Start(limit, index), steps); Adds(steps) == Retained(r) + Dropped(r) == |Snapshot(r)| + Dropped(r)
  {
    IncrementsAreCounted(Start(limit, index), steps);
    RunKeepsInv(Start(limit, index), steps);
  }

  /** A snapshot reads only values added exactly when no slot it reads still waits for its first store. */
  lemma FilledIff(limit: nat, index: nat -> nat, steps: seq<Step>)
    requires Legal(Start(limit, index), steps)
    ensures var r := After(Start(limit, index), steps);
            Filled(r) <==> forall k :: k in r.pending && k < r.limit ==> k in r.stored
  {
    RunKeepsInv(Start(limit, index), steps);
  }

  /** Then each is the value of an add of its own: in particular once every add begun has stored. */
  lemma SnapshotIsAdded(limit: nat, index: nat -> nat, steps: seq<Step>)
    requires Legal(Start(limit, index), steps)
    ensures var r := After(Start(limit, index), steps);
            && (r.pending == {} ==> Filled(r))
            && (Filled(r) ==> multiset(Snapshot(r)) <= multiset(r.added))
  {
    RunKeepsInv(Start(limit, index), steps);
    FilledIff(limit, index, steps);
    var r := After(Start(limit, index), steps);
    if Filled(r) {
      var origins := seq(Retained(r), k requires 0 <= k < Retained(r) => r.stored[k]);
      forall j, k | 0 <= j < k < |origins|
        ensures origins[j] != origins[k]
      {
        assert SlotOf(r, origins[j]) == j && SlotOf(r, origins[k]) == k;
      }
      LatencyRecorder.SubsequenceIsContained(Snapshot(r), r.added, origins);
    }
  }

  /** An add that nothing comes between, when none is under way. */
  function WholeAdd(r: Race, value: int): Race {
    var r' := Do(r, Increment(value));
    if |r.added| in r'.pending then Do(r', Store(|r.added|)) else r'
  }

  lemma WholeAddKeepsInv(r: Race, value: int)
    requires Inv(r) && r.pending == {}
    ensures WholeAdd(r, value).pending == {} && Inv(WholeAdd(r, value))
    ensures WholeAdd(r, value).added == r.added + [value] && WholeAdd(r, value).limit == r.limit
  {
    IncrementKeepsInv(r, value);
    if |r.added| in Do(r, Increment(value)).pending { StoreKeepsInv(Do(r, Increment(value)), |r.added|); }
  }

  /** It changes what it stores into, if anything. */
  lemma WholeAddStores(r: Race, value: int, k: nat)
    requires Inv(r) && r.pending == {} && k < r.limit && k <= |r.added|
    ensures var stored := WholeAdd(r, value).stored;
            if SlotOf(r, |r.added|) == k then k in stored && stored[k] == |r.added|
            else (k in stored <==> k in r.stored) && (k in stored ==> stored[k] == r.stored[k])
  {
  }

  /** It does to the snapshot what the recorder's specification says. */
  lemma WholeAddIsPlaced(r: Race, value: int)
    requires Inv(r) && r.pending == {}
    ensures Snapshot(WholeAdd(r, value)) == LatencyRecorder.Placed(r.limit, r.index, Snapshot(r), |r.added|, value)
  {
    WholeAddKeepsInv(r, value);
    var after, placed := Snapshot(WholeAdd(r, value)), LatencyRecorder.Placed(r.limit, r.index, Snapshot(r), |r.added|, value);
    forall k | 0 <= k < |after|
      ensures after[k] == placed[k]
    {
      WholeAddStores(r, value, k);
    }
  }

  /** A snapshot between the two steps of an add reads a value that nobody added. */
  lemma TornSnapshot(index: nat -> nat) returns (steps: seq<Step>)
    ensures Legal(Start(1, index), steps)
    ensures After(Start(1, index), steps).added == [5] && Snapshot(After(Start(1, index), steps)) == [0]
  {
    steps := [Increment(5)];
    assert steps[1..] == [];
    assert After(Do(Start(1, index), steps[0]), []) == Do(Start(1, index), steps[0]);
  }
}
