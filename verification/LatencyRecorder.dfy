/** The driver's bounded latency recorder: the first `limit` observations fill the slots, and each later one replaces a
    slot that an index function picks, or is counted as dropped.  Workers record into their own recorders, which are
    merged into the phase's recorder afterwards.

    The index function is an arbitrary function of the sequence number, and durations are whole nanoseconds.
*/
module LatencyRecorder {
  import opened Division

  /** The storage one of `workers` recorders gets. */
  function WorkerLimit(limit: int, workers: int): int {
    if limit <= 0 || workers <= 0 then 0 else (limit + workers - 1) / workers
  }

  /** The worker limits cover the phase's limit, and are the least equal limits that do. */
  lemma WorkerLimitCovers(limit: int, workers: int)
    requires limit > 0 && workers > 0
    ensures WorkerLimit(limit, workers) * workers >= limit
    ensures forall less: int :: less * workers >= limit ==> WorkerLimit(limit, workers) <= less
  {
    CeilingSteps(limit, workers);
    forall less: int | less * workers >= limit
      ensures WorkerLimit(limit, workers) <= less
    {
      QuotientAtLeast(limit + workers - 1, workers, less + 1);
      assert (less + 1) * workers == less * workers + workers;
    }
  }

  /** The summarizer's test of the emitted counts (`_comparison_latency_sampling_validity`). */
  predicate Consistent(limit: int, seen: int, dropped: int, samples: int) {
    && limit > 0
    && seen >= 0 && dropped >= 0 && samples >= 0
    && !(samples > seen || dropped < seen - samples)
  }

  /** Each of `kept` is the value of an add of its own: `kept[k]` of number `origin[k]`. */
  ghost predicate Originates(kept: seq<int>, origin: seq<nat>, added: seq<int>) {
    && |origin| == |kept|
    && (forall k :: 0 <= k < |kept| ==> origin[k] < |added| && kept[k] == added[origin[k]])
    && forall j, k :: 0 <= j < k < |kept| ==> origin[j] != origin[k]
  }

  lemma AddKeepsOrigins(kept: seq<int>, origin: seq<nat>, added: seq<int>, d: int, at: nat)
    requires Originates(kept, origin, added)
    ensures Originates(kept, origin, added + [d])
    ensures Originates(kept + [d], origin + [|added|], added + [d])
    ensures at < |kept| ==> Originates(kept[at := d], origin[at := |added|], added + [d])
  {
  }

  /** What is kept after one more observation: it goes into the next slot, or into the one picked if there is such a slot. */
  function Placed(limit: nat, index: nat -> nat, kept: seq<int>, sequence: nat, d: int): seq<int> {
    if sequence < limit then kept + [d]
    else
      var at := index(sequence) % (sequence + 1);
      if at < |kept| then kept[at := d] else kept
  }

  /** What is kept of all the values added, in order. */
  ghost function Reservoir(limit: nat, index: nat -> nat, added: seq<int>): (kept: seq<int>)
    ensures |kept| == if |added| < limit then |added| else limit
  {
    if added == [] then []
    else
      var last := |added| - 1;
      Placed(limit, index, Reservoir(limit, index, added[..last]), last, added[last])
  }

  lemma Prefixes(before: seq<int>, samples: seq<int>, k: nat)
    requires k <= |samples|
    ensures before + samples[..0] == before && before + samples[..|samples|] == before + samples
    ensures k < |samples| ==> before + samples[..k] + [samples[k]] == before + samples[..k + 1]
  {
    assert samples[..|samples|] == samples;
  }

  class Recorder {
    const limit: nat
    const index: nat -> nat
    const slots: array<int>
    var seen: nat
    var droppedExtra: nat
    /** Every value added, in order, and for each filled slot the add that its value came from. */
    ghost var added: seq<int>
    ghost var origin: seq<nat>

    ghost predicate Valid()
      reads this, slots
    {
      && slots.Length == limit
      && |added| == seen
      && slots[..Retained()] == Reservoir(limit, index, added)
      && Originates(slots[..Retained()], origin, added)
    }

    function Retained(): nat
      reads this
    {
      if seen < limit then seen else limit
    }

    /** Everything observed, directly or in a recorder merged into this one. */
    function Observed(): nat
      reads this
    {
      seen + droppedExtra
    }

    function Dropped(): nat
      reads this
    {
      if seen <= limit then droppedExtra else droppedExtra + seen - limit
    }

    ghost function Kept(): seq<int>
      requires Valid()
      reads this, slots
    {
      slots[..Retained()]
    }

    constructor (bound: int, pick: nat -> nat)
      ensures Valid() && fresh(slots) && limit == (if bound < 0 then 0 else bound) && index == pick
      ensures Observed() == 0 && Dropped() == 0 && added == []
    {
      limit := if bound < 0 then 0 else bound;
      index := pick;
      slots := new int[if bound < 0 then 0 else bound];
      seen, droppedExtra := 0, 0;
      added, origin := [], [];
    }

    method Add(d: int)
      requires Valid()
      modifies this, slots
      ensures Valid() && added == old(added) + [d] && droppedExtra == old(droppedExtra)
      ensures Observed() == old(Observed()) + 1
      ensures Kept() == Placed(limit, index, old(Kept()), old(seen), d)
    {
      assert (added + [d])[..|added|] == added;
      AddKeepsOrigins(Kept(), origin, added, d, index(seen) % (seen + 1));
      var sequence := seen;
      seen := seen + 1;
      added := added + [d];
      if limit > 0 {
        var slot := sequence;
        if sequence >= limit {
          slot := index(sequence) % (sequence + 1);
          if slot >= limit { return; }
        }
        ghost var before := slots[..];
        slots[slot] := d;
        assert slots[..] == before[slot := d];
        if sequence < limit {
          assert slots[..slot + 1] == before[..slot] + [d];
          origin := origin + [sequence];
        } else {
          assert slots[..limit] == before[..limit][slot := d];
          origin := origin[slot := sequence];
        }
      }
    }

    method Snapshot() returns (result: seq<int>)
      requires Valid()
      ensures result == Kept() == Reservoir(limit, index, added)
    {
      var count := seen;
      if count > limit { count := limit; }
      result := [];
      for sequence := 0 to count
        invariant result == slots[..sequence]
      {
        result := result + [slots[sequence]];
      }
    }

    method MergeSamples(samples: seq<int>)
      requires Valid()
      modifies this, slots
      ensures Valid() && added == old(added) + samples && droppedExtra == old(droppedExtra)
    {
      ghost var before := added;
      Prefixes(before, samples, 0);
      for k := 0 to |samples|
        invariant Valid() && added == before + samples[..k] && droppedExtra == old(droppedExtra)
      {
        Prefixes(before, samples, k);
        Add(samples[k]);
      }
    }

    /** Conservation: a merge adds exactly what the other recorder observed, and adds exactly what it retained. */
    method MergeRecorder(other: Recorder?)
      requires Valid() && (other != null ==> other.Valid())
      requires other != null && other != this ==> other.slots != slots
      modifies this, slots
      ensures Valid()
      ensures other == null ==> added == old(added) && Observed() == old(Observed())
      ensures other != null ==> added == old(added) + old(other.Kept())
      ensures other != null ==> Observed() == old(Observed()) + old(other.Observed())
    {
      if other == null { return; }
      droppedExtra := droppedExtra + other.Dropped();
      var samples := other.Snapshot();
      MergeSamples(samples);
    }

    /** The values retained are values added, each from an add of its own. */
    lemma RetainedAreAdded()
      requires Valid()
      ensures multiset(Kept()) <= multiset(added)
    {
      var indices := origin;
      assert forall k :: 0 <= k < |Kept()| ==> Kept()[k] == added[indices[k]];
      SubsequenceIsContained(Kept(), added, indices);
    }

    /** What a phase emits always passes the summarizer's consistency test, unless it kept no slots at all. */
    method Emit() returns (seenOut: nat, dropped: nat, samples: nat)
      requires Valid()
      ensures seenOut == Observed() == samples + dropped && samples == |Kept()|
      ensures Consistent(limit, seenOut, dropped, samples) <==> limit > 0
    {
      var result := Snapshot();
      return Observed(), Dropped(), |result|;
    }
  }

  function Without<T>(s: seq<T>, k: nat): (r: seq<T>)
    requires k < |s|
    ensures |r| == |s| - 1 && forall i :: 0 <= i < |r| ==> r[i] == s[if i < k then i else i + 1]
  {
    s[..k] + s[k + 1..]
  }

  lemma WithoutOne(s: seq<int>, k: nat)
    requires k < |s|
    ensures multiset(s) == multiset(Without(s, k)) + multiset{s[k]}
  {
    assert s == s[..k] + [s[k]] + s[k + 1..];
  }

  /** A sequence picked from another at different indices is contained in it as a multiset. */
  lemma {:induction false} SubsequenceIsContained(picked: seq<int>, all: seq<int>, indices: seq<nat>)
    requires |indices| == |picked|
    requires forall k :: 0 <= k < |picked| ==> indices[k] < |all| && picked[k] == all[indices[k]]
    requires forall j, k :: 0 <= j < k < |indices| ==> indices[j] != indices[k]
    ensures multiset(picked) <= multiset(all)
    decreases |all|
  {
    if all != [] {
      var last, rest := |all| - 1, all[..|all| - 1];
      assert all == rest + [all[last]];
      if k :| 0 <= k < |indices| && indices[k] == last {
        SubsequenceIsContained(Without(picked, k), rest, Without(indices, k));
        WithoutOne(picked, k);
      } else {
        SubsequenceIsContained(picked, rest, indices);
      }
    }
  }

  // ----- a whole phase -----

  /** What each worker has observed and retained. */
  datatype Outcome = Outcome(observed: nat, kept: seq<int>)

  ghost function OutcomeOf(w: Recorder): Outcome
    requires w.Valid()
    reads w, w.slots
  {
    Outcome(w.Observed(), w.Kept())
  }

  ghost predicate AreOutcomes(workers: seq<Recorder>, outcomes: seq<Outcome>)
    reads set w | w in workers, set w | w in workers :: w.slots
  {
    |outcomes| == |workers| && forall i :: 0 <= i < |workers| ==> workers[i].Valid() && OutcomeOf(workers[i]) == outcomes[i]
  }

  ghost function AllObserved(outcomes: seq<Outcome>): nat {
    if outcomes == [] then 0 else AllObserved(outcomes[..|outcomes| - 1]) + outcomes[|outcomes| - 1].observed
  }

  ghost function AllKept(outcomes: seq<Outcome>): seq<int> {
    if outcomes == [] then [] else AllKept(outcomes[..|outcomes| - 1]) + outcomes[|outcomes| - 1].kept
  }

  lemma OutcomesSnoc(outcomes: seq<Outcome>, k: nat)
    requires k < |outcomes|
    ensures AllObserved(outcomes[..k + 1]) == AllObserved(outcomes[..k]) + outcomes[k].observed
    ensures AllKept(outcomes[..k + 1]) == AllKept(outcomes[..k]) + outcomes[k].kept
  {
    assert outcomes[..k + 1][..k] == outcomes[..k];
  }

  /** Merging every worker's recorder: the phase has observed exactly what the workers have, and has been given what they
      have retained, in their order.
  */
  method MergeAll(phase: Recorder, workers: seq<Recorder>, ghost outcomes: seq<Outcome>)
    requires phase.Valid() && phase.Observed() == 0 && AreOutcomes(workers, outcomes)
    requires forall w :: w in workers ==> w != phase && w.slots != phase.slots
    modifies phase, phase.slots
    ensures phase.Valid() && AreOutcomes(workers, outcomes)
    ensures phase.Observed() == AllObserved(outcomes) && phase.added == AllKept(outcomes)
  {
    for k := 0 to |workers|
      invariant phase.Valid() && AreOutcomes(workers, outcomes)
      invariant phase.Observed() == AllObserved(outcomes[..k]) && phase.added == AllKept(outcomes[..k])
    {
      OutcomesSnoc(outcomes, k);
      phase.MergeRecorder(workers[k]);
    }
    assert outcomes[..|workers|] == outcomes;
  }
}
