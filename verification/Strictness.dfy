/** Strict invalidation, as a protocol.

    Purges, object publications, stale checks and the background sweep interleave freely; each step below is one
    critical section or one atomic operation of the source.  A purge takes its sequence first, marks its folds one at
    a time, may prune, undoes the prune when the checkpoint after it fails, and only then is complete.  A publication
    pins the publication gate, reads the sequence, attaches its object and probes it.  A sweep certificate records the
    sequence, flips the gate and sweeps; once the sweep has finished and every publication older than the flip has
    left, marks up to the recorded sequence are dropped.

    The law: whatever happens, an object that outlives a completed purge reaching it is refused by its next stale check.
*/
module Strictness {
  import opened PurgeHistory
  import EpochGate

  type ObjId = nat
  type PubId = EpochGate.ReaderId

  /** `reduced`: a soft purge has already cut the object's time to live. */
  datatype Object = Object(regSeq: nat, folds: set<Fold>, reduced: bool)

  /** `seen` is history only: the map that the insert probe read. */
  datatype Publication =
    | Entering                                        // pinned, sequence not read yet
    | Open(regSeq: nat)                               // fetching, registered under `regSeq`
    | Finishing(id: ObjId, kill: bool, seen: History) // attached; the probe's verdict is still to be applied
    | Leaving                                         // only the gate is left to release

  datatype Certificate =
    | NoCertificate
    | Certifying(cutoff: nat)  // gate flipped, sweep not finished
    | Pending(cutoff: nat)     // sweep finished, waiting for older publications
    | Blocked                  // sweep aborted, waiting for older publications

  datatype Sweep = Resting | Sweeping(unseen: set<ObjId>)

  /** `Prunes`: the map has been pruned, and its checkpoint may still fail. */
  datatype Prune = NoPrune | Prunes(was: History)

  /** `purges[i]` has sequence `i + 1`; the first `done` are complete; `todo` is what the running purge has still to
      mark.  `reclaimed` is history only: the greatest sequence whose marks have been dropped.
  */
  datatype Cache = Cache(
    purges: seq<Purge>, done: nat, todo: set<Fold>, map_: History, prune: Prune,
    gate: EpochGate.PinSet, pubs: map<PubId, Publication>, objects: map<ObjId, Object>,
    cert: Certificate, sweep: Sweep, reclaimed: nat)

  const Start := Cache([], 0, {}, Empty, NoPrune, EpochGate.PinSet(map[], 0, true), map[], map[], NoCertificate, Resting, 0)

  datatype Step =
    | BeginPurge(folds: set<Fold>, mode: Mode)
    | MarkFold(fold: Fold)
    | PruneTo(pruned: History, cutoff: nat)
    | PruneKept
    | PruneUndone
    | FinishPurge
    | Enter(p: PubId)
    | ReadSeq(p: PubId)
    | Abandon(p: PubId)
    | Attach(p: PubId, id: ObjId, tags: set<Fold>)
    | ApplyVerdict(p: PubId)
    | Exit(p: PubId)
    | StaleCheck(id: ObjId)
    | Expire(id: ObjId)
    | CertBegin
    | SweepBegin
    | SweepOne(id: ObjId)
    | SweepDone
    | SweepAbort
    | Unblock
    | ReclaimMarks

  /** No purge is running. */
  predicate Quiet(c: Cache) { c.done == |c.purges| }

  /** Neither a purge nor a prune holds the purge lock. */
  predicate Unlocked(c: Cache) { Quiet(c) && c.prune.NoPrune? }

  /** An insert callback holds its object until it has applied the verdict: the name is not used anew. */
  predicate Held(c: Cache, id: ObjId) {
    exists p :: p in c.pubs && c.pubs[p].Finishing? && c.pubs[p].id == id
  }

  ghost predicate Enabled(c: Cache, step: Step) {
    match step
    case BeginPurge(_, _) => Unlocked(c)
    case MarkFold(f) => c.purges != [] && f in c.todo
    case PruneTo(pruned, cutoff) => c.prune.NoPrune? && c.todo == {} && IsPrune(c.map_, pruned, cutoff)
    case PruneKept => c.prune.Prunes?
    case PruneUndone => c.prune.Prunes?
    case FinishPurge => !Quiet(c) && c.prune.NoPrune? && c.todo == {}
    case Enter(p) => p !in c.pubs && EpochGate.PinEnabled(c.gate, EpochGate.Pin(p))
    case ReadSeq(p) => p in c.pubs && c.pubs[p].Entering?
    case Abandon(p) => p in c.pubs && (c.pubs[p].Entering? || c.pubs[p].Open?)
    case Attach(p, id, _) => p in c.pubs && c.pubs[p].Open? && id !in c.objects && !Held(c, id)
    case ApplyVerdict(p) => p in c.pubs && c.pubs[p].Finishing?
    case Exit(p) => p in c.pubs && c.pubs[p].Leaving? && EpochGate.PinEnabled(c.gate, EpochGate.Unpin(p))
    case StaleCheck(id) => id in c.objects
    case Expire(id) => id in c.objects
    case CertBegin => Unlocked(c) && c.cert.NoCertificate? && c.sweep.Resting?
    case SweepBegin => c.sweep.Resting?
    case SweepOne(id) => c.sweep.Sweeping? && id in c.sweep.unseen && id in c.objects
    case SweepDone => c.sweep.Sweeping? && c.sweep.unseen == {}
    case SweepAbort => c.sweep.Sweeping? || c.cert.Certifying?
    case Unblock => Unlocked(c) && c.cert.Blocked? && EpochGate.PinEnabled(c.gate, EpochGate.Drain)
    case ReclaimMarks => Unlocked(c) && c.cert.Pending? && EpochGate.PinEnabled(c.gate, EpochGate.Drain)
  }

  function Without(c: Cache, id: ObjId): Cache {
    c.(objects := c.objects - {id},
       sweep := if c.sweep.Sweeping? then Sweeping(c.sweep.unseen - {id}) else c.sweep)
  }

  function Reduced(c: Cache, id: ObjId): Cache {
    if id in c.objects then c.(objects := c.objects[id := c.objects[id].(reduced := true)]) else c
  }

  /** What a probe of the object does to it. */
  ghost function Probed(c: Cache, id: ObjId): Cache
    requires id in c.objects
  {
    match Probe(c.map_, c.objects[id].regSeq, c.objects[id].folds)
    case HardStale => Without(c, id)
    case SoftStale => Reduced(c, id)
    case Fresh => c
  }

  ghost function Attached(c: Cache, p: PubId, id: ObjId, tags: set<Fold>): Cache
    requires p in c.pubs && c.pubs[p].Open?
  {
    var o := Object(c.pubs[p].regSeq, tags, false);
    c.(objects := c.objects[id := o],
       pubs := c.pubs[p := match Probe(c.map_, o.regSeq, tags)
                           case HardStale => Finishing(id, true, c.map_)
                           case SoftStale => Finishing(id, false, c.map_)
                           case Fresh => Leaving])
  }

  ghost function Do(c: Cache, step: Step): Cache
    requires Enabled(c, step)
  {
    match step
    case BeginPurge(folds, mode) => c.(purges := c.purges + [Purge(folds, mode)], todo := folds)
    case MarkFold(f) =>
      c.(map_ := Upsert(c.map_, f, |c.purges|, c.purges[|c.purges| - 1].mode), todo := c.todo - {f})
    case PruneTo(pruned, _) => c.(map_ := pruned, prune := Prunes(c.map_))
    case PruneKept => c.(prune := NoPrune)
    case PruneUndone => c.(map_ := c.prune.was, prune := NoPrune)
    case FinishPurge => c.(done := |c.purges|)
    case Enter(p) => c.(gate := EpochGate.PinApply(c.gate, EpochGate.Pin(p)), pubs := c.pubs[p := Entering])
    case ReadSeq(p) => c.(pubs := c.pubs[p := Open(|c.purges|)])
    case Abandon(p) => c.(pubs := c.pubs[p := Leaving])
    case Attach(p, id, tags) => Attached(c, p, id, tags)
    case ApplyVerdict(p) =>
      Concluded(c, p).(pubs := c.pubs[p := Leaving])
    case Exit(p) => c.(gate := EpochGate.PinApply(c.gate, EpochGate.Unpin(p)), pubs := c.pubs - {p})
    case StaleCheck(id) => Probed(c, id)
    case Expire(id) => Without(c, id)
    case CertBegin =>
      c.(cert := Certifying(|c.purges|), gate := c.gate.(flips := c.gate.flips + 1, drained := false))
    case SweepBegin => c.(sweep := Sweeping(c.objects.Keys))
    case SweepOne(id) =>
      var c' := Probed(c, id);
      c'.(sweep := Sweeping(c.sweep.unseen - {id}))
    case SweepDone =>
      c.(sweep := Resting, cert := if c.cert.Certifying? then Pending(c.cert.cutoff) else c.cert)
    case SweepAbort => c.(sweep := Resting, cert := if c.cert.Certifying? then Blocked else c.cert)
    case Unblock => c.(cert := NoCertificate, gate := c.gate.(drained := true))
    case ReclaimMarks =>
      c.(map_ := Reclaim(c.map_, c.cert.cutoff), cert := NoCertificate, gate := c.gate.(drained := true),
         reclaimed := c.cert.cutoff)
  }

  ghost predicate Legal(c: Cache, steps: seq<Step>)
    decreases |steps|
  {
    steps == [] || (Enabled(c, steps[0]) && Legal(Do(c, steps[0]), steps[1..]))
  }

  ghost function After(c: Cache, steps: seq<Step>): Cache
    requires Legal(c, steps)
    decreases |steps|
  {
    if steps == [] then c else After(Do(c, steps[0]), steps[1..])
  }

  // ----- the invariant -----

  predicate Hit(c: Cache, i: nat, mode: Mode, o: Object)
    requires i < |c.purges|
  {
    Hits(c.purges, i, mode, o.regSeq, o.folds)
  }

  /** None of the first `upto` purges has anything left to do to the object. */
  predicate HardClean(c: Cache, o: Object, upto: nat) {
    forall i: nat :: i < upto && i < |c.purges| ==> !Hit(c, i, Hard, o)
  }

  predicate Clean(c: Cache, o: Object, upto: nat) {
    HardClean(c, o, upto) && (o.reduced || forall i: nat :: i < upto && i < |c.purges| ==> !Hit(c, i, Soft, o))
  }

  /** The map carries the mark of purge `i` on fold `f`. */
  predicate Marked(h: History, i: nat, f: Fold, mode: Mode) {
    h.Floor(mode) >= i + 1 || (f in h.entries && h.entries[f].Of(mode) >= i + 1)
  }

  ghost predicate Bookkeeping(c: Cache) {
    && c.done <= |c.purges| <= c.done + 1
    && (Quiet(c) || c.prune.Prunes? ==> c.todo == {})
    && c.reclaimed <= c.done
    && c.pubs.Keys == c.gate.pins.Keys
    && (forall p :: p in c.gate.pins ==> c.gate.pins[p] <= c.gate.flips)
    && (c.cert.NoCertificate? ==> c.gate.drained)
    && (c.sweep.Sweeping? ==> c.sweep.unseen <= c.objects.Keys)
  }

  /** Purge `i` has marked fold `f`. */
  predicate HasMarked(c: Cache, i: nat, f: Fold) {
    i < |c.purges| && f in c.purges[i].folds && (i < c.done || f !in c.todo)
  }

  /** Every mark made and not reclaimed is in the map. */
  ghost predicate MarksIn(c: Cache, h: History) {
    forall i: nat, f :: c.reclaimed <= i && HasMarked(c, i, f) ==> Marked(h, i, f, c.purges[i].mode)
  }

  ghost predicate MarksKept(c: Cache) {
    MarksIn(c, c.map_) && (c.prune.Prunes? ==> MarksIn(c, c.prune.was))
  }

  /** Nothing that reclaimed marks could still say concerns a living object or an open publication. */
  ghost predicate NothingLost(c: Cache) {
    && (forall p :: p in c.pubs && c.pubs[p].Open? ==> c.pubs[p].regSeq >= c.reclaimed)
    && (forall id :: id in c.objects ==> Clean(c, c.objects[id], c.reclaimed))
  }

  /** The insert probe of an older publication condemned the object, and the verdict is still to be applied. */
  predicate Condemned(c: Cache, p: PubId, id: ObjId, cutoff: nat)
    requires id in c.objects
  {
    && p in c.pubs && p in c.gate.pins && c.gate.pins[p] < c.gate.flips
    && c.pubs[p].Finishing? && c.pubs[p].id == id
    && (c.pubs[p].kill || HardClean(c, c.objects[id], cutoff))
  }

  ghost predicate Settled(c: Cache, id: ObjId, cutoff: nat)
    requires id in c.objects
  {
    || Clean(c, c.objects[id], cutoff)
    || (c.cert.Certifying? && (c.sweep.Resting? || id in c.sweep.unseen))
    || exists p :: Condemned(c, p, id, cutoff)
  }

  /** While a certificate stands: publications entered after the flip registered at or above the cutoff, and every
      object is clean up to it, still to be swept, or condemned.
  */
  ghost predicate CertificateHolds(c: Cache) {
    c.cert.Certifying? || c.cert.Pending? ==>
      && c.reclaimed <= c.cert.cutoff <= c.done
      && (forall p :: p in c.pubs && p in c.gate.pins && c.pubs[p].Open? && c.gate.pins[p] == c.gate.flips ==>
            c.pubs[p].regSeq >= c.cert.cutoff)
      && (forall id :: id in c.objects ==> Settled(c, id, c.cert.cutoff))
  }

  ghost predicate Inv(c: Cache) {
    Bookkeeping(c) && MarksKept(c) && NothingLost(c) && CertificateHolds(c)
  }

  // ----- what a probe tells -----

  lemma MarkedIsNewer(c: Cache, i: nat, mode: Mode, o: Object)
    requires Bookkeeping(c) && MarksKept(c)
    requires c.reclaimed <= i < c.done && Hit(c, i, mode, o)
    ensures Newer(c.map_, mode, o.regSeq, o.folds)
  {
    var f :| f in c.purges[i].folds * o.folds;
    assert HasMarked(c, i, f);
  }

  /** A probe that does not say hard-stale clears the object of every completed hard purge, and one that says fresh of
      every completed purge.
  */
  lemma ProbeClears(c: Cache, o: Object)
    requires Bookkeeping(c) && MarksKept(c) && Clean(c, o, c.reclaimed)
    ensures Probe(c.map_, o.regSeq, o.folds) != HardStale ==> HardClean(c, o, c.done)
    ensures Probe(c.map_, o.regSeq, o.folds) == Fresh ==> Clean(c, o, c.done)
  {
    forall i: nat, mode | i < c.done && Hit(c, i, mode, o) && (mode == Hard || !o.reduced)
      ensures Newer(c.map_, mode, o.regSeq, o.folds)
    {
      MarkedIsNewer(c, i, mode, o);
    }
  }

  // ----- purges -----

  lemma UpsertKeepsMarked(h: History, fold: Fold, q: nat, mode: Mode, i: nat, f: Fold, m: Mode)
    ensures Marked(h, i, f, m) ==> Marked(Upsert(h, fold, q, mode), i, f, m)
    ensures q == i + 1 ==> Marked(Upsert(h, fold, q, mode), i, fold, mode)
  {
  }

  lemma PruneKeepsMarked(h: History, h': History, cutoff: nat, i: nat, f: Fold, m: Mode)
    requires IsPrune(h, h', cutoff) && Marked(h, i, f, m)
    ensures Marked(h', i, f, m)
  {
  }

  lemma SamePurgesSameClean(c: Cache, c': Cache, o: Object, upto: nat)
    requires c.purges <= c'.purges && upto <= |c.purges|
    ensures HardClean(c, o, upto) <==> HardClean(c', o, upto)
    ensures Clean(c, o, upto) <==> Clean(c', o, upto)
  {
    assert forall i: nat :: i < |c.purges| ==> c'.purges[i] == c.purges[i];
    assert forall i: nat, mode :: i < |c.purges| ==> (Hit(c, i, mode, o) <==> Hit(c', i, mode, o));
  }

  /** Steps that touch neither objects, publications nor the certificate keep what is known about them. */
  lemma PurgeStepKeepsCleanliness(c: Cache, c': Cache)
    requires Inv(c) && c.purges <= c'.purges && c.done <= c'.done
    requires c'.gate == c.gate && c'.pubs == c.pubs && c'.objects == c.objects && c'.cert == c.cert
    requires c'.sweep == c.sweep && c'.reclaimed == c.reclaimed
    ensures NothingLost(c') && CertificateHolds(c')
  {
    forall id | id in c.objects
      ensures Clean(c', c.objects[id], c.reclaimed)
    {
      SamePurgesSameClean(c, c', c.objects[id], c.reclaimed);
    }
    if c.cert.Certifying? || c.cert.Pending? {
      forall id | id in c.objects
        ensures Settled(c', id, c.cert.cutoff)
      {
        SamePurgesSameClean(c, c', c.objects[id], c.cert.cutoff);
        if p :| Condemned(c, p, id, c.cert.cutoff) { assert Condemned(c', p, id, c.cert.cutoff); }
      }
    }
  }

  lemma BeginPurgeKeepsInv(c: Cache, step: Step)
    requires Inv(c) && step.BeginPurge? && Enabled(c, step)
    ensures Inv(Do(c, step))
  {
    var c' := Do(c, step);
    assert c.purges <= c'.purges;
    PurgeStepKeepsCleanliness(c, c');
    forall i: nat, f | c.reclaimed <= i && HasMarked(c', i, f)
      ensures Marked(c.map_, i, f, c'.purges[i].mode)
    {
      assert HasMarked(c, i, f);
    }
  }

  lemma MarkFoldKeepsInv(c: Cache, step: Step)
    requires Inv(c) && step.MarkFold? && Enabled(c, step)
    ensures Inv(Do(c, step))
  {
    var c' := Do(c, step);
    PurgeStepKeepsCleanliness(c, c');
    var n := |c.purges|;
    forall i: nat, f | c.reclaimed <= i && HasMarked(c', i, f)
      ensures Marked(c'.map_, i, f, c.purges[i].mode)
    {
      assert f != step.fold ==> HasMarked(c, i, f);
      assert i < c.done ==> HasMarked(c, i, f);
      UpsertKeepsMarked(c.map_, step.fold, n, c.purges[n - 1].mode, i, f, c.purges[i].mode);
    }
  }

  lemma PruneToKeepsInv(c: Cache, step: Step)
    requires Inv(c) && step.PruneTo? && Enabled(c, step)
    ensures Inv(Do(c, step))
  {
    var c' := Do(c, step);
    PurgeStepKeepsCleanliness(c, c');
    forall i: nat, f | c.reclaimed <= i && HasMarked(c', i, f)
      ensures Marked(c'.map_, i, f, c.purges[i].mode)
    {
      assert HasMarked(c, i, f);
      PruneKeepsMarked(c.map_, c'.map_, step.cutoff, i, f, c.purges[i].mode);
    }
  }

  lemma PruneEndKeepsInv(c: Cache, step: Step)
    requires Inv(c) && (step.PruneKept? || step.PruneUndone?) && Enabled(c, step)
    ensures Inv(Do(c, step))
  {
    var c' := Do(c, step);
    PurgeStepKeepsCleanliness(c, c');
    assert forall i: nat, f :: HasMarked(c', i, f) ==> HasMarked(c, i, f);
  }

  lemma FinishPurgeKeepsInv(c: Cache)
    requires Inv(c) && Enabled(c, FinishPurge)
    ensures Inv(Do(c, FinishPurge))
  {
    PurgeStepKeepsCleanliness(c, Do(c, FinishPurge));
    assert forall i: nat, f :: HasMarked(Do(c, FinishPurge), i, f) ==> HasMarked(c, i, f);
  }

  // ----- objects -----

  lemma ReducedStaysClean(c: Cache, o: Object, upto: nat)
    requires HardClean(c, o, upto)
    ensures Clean(c, o.(reduced := true), upto)
  {
    assert forall i: nat :: i < |c.purges| ==> (Hit(c, i, Hard, o) <==> Hit(c, i, Hard, o.(reduced := true)));
  }

  lemma SettledReduced(c: Cache, c': Cache, id: ObjId, other: ObjId, cutoff: nat)
    requires id in c.objects && c' == Reduced(c, id) && other in c.objects && Settled(c, other, cutoff)
    ensures Settled(c', other, cutoff)
  {
    var o, o' := c.objects[other], c'.objects[other];
    assert forall i: nat, mode :: i < |c.purges| ==> (Hit(c, i, mode, o) <==> Hit(c', i, mode, o'));
    assert HardClean(c, o, cutoff) ==> HardClean(c', o', cutoff);
    if p :| Condemned(c, p, other, cutoff) { assert Condemned(c', p, other, cutoff); }
  }

  lemma ReducedKeepsInv(c: Cache, id: ObjId)
    requires Inv(c)
    ensures Inv(Reduced(c, id))
  {
    var c' := Reduced(c, id);
    if id in c.objects {
      assert forall i: nat, f :: HasMarked(c', i, f) ==> HasMarked(c, i, f);
      forall other | other in c'.objects
        ensures Clean(c', c'.objects[other], c.reclaimed)
      {
        SettledClean(c, c', id, other, c.reclaimed);
      }
      if c.cert.Certifying? || c.cert.Pending? {
        forall other | other in c.objects
          ensures Settled(c', other, c.cert.cutoff)
        {
          SettledReduced(c, c', id, other, c.cert.cutoff);
        }
      }
    }
  }

  lemma SettledClean(c: Cache, c': Cache, id: ObjId, other: ObjId, upto: nat)
    requires id in c.objects && c' == Reduced(c, id) && other in c.objects && Clean(c, c.objects[other], upto)
    ensures Clean(c', c'.objects[other], upto)
  {
    var o, o' := c.objects[other], c'.objects[other];
    assert forall i: nat, mode :: i < |c.purges| ==> (Hit(c, i, mode, o) <==> Hit(c', i, mode, o'));
  }

  lemma WithoutKeepsInv(c: Cache, id: ObjId)
    requires Inv(c)
    ensures Inv(Without(c, id))
  {
    var c' := Without(c, id);
    assert forall i: nat, f :: HasMarked(c', i, f) ==> HasMarked(c, i, f);
    forall other | other in c'.objects
      ensures Clean(c', c'.objects[other], c.reclaimed)
    {
      SamePurgesSameClean(c, c', c.objects[other], c.reclaimed);
    }
    if c.cert.Certifying? || c.cert.Pending? {
      forall other | other in c'.objects
        ensures Settled(c', other, c.cert.cutoff)
      {
        SamePurgesSameClean(c, c', c.objects[other], c.cert.cutoff);
        if p :| Condemned(c, p, other, c.cert.cutoff) { assert Condemned(c', p, other, c.cert.cutoff); }
      }
    }
  }

  lemma ProbedKeepsInv(c: Cache, id: ObjId)
    requires Inv(c) && id in c.objects
    ensures Inv(Probed(c, id))
  {
    WithoutKeepsInv(c, id);
    ReducedKeepsInv(c, id);
  }

  // ----- publications -----

  /** Steps that only move one publication along. */
  lemma PublicationMoveKeepsInv(c: Cache, c': Cache, p: PubId)
    requires Inv(c) && Bookkeeping(c')
    requires c' == c.(pubs := c'.pubs, gate := c'.gate) && c'.gate.flips == c.gate.flips
    requires forall q :: q != p ==> (q in c'.pubs <==> q in c.pubs) && (q in c'.gate.pins <==> q in c.gate.pins)
    requires forall q :: q != p && q in c.pubs ==> c'.pubs[q] == c.pubs[q]
    requires forall q :: q != p && q in c.gate.pins ==> c'.gate.pins[q] == c.gate.pins[q]
    requires p in c.pubs ==> !c.pubs[p].Finishing?
    requires p in c'.pubs && c'.pubs[p].Open? ==> c'.pubs[p].regSeq == |c.purges|
    ensures Inv(c')
  {
    assert forall i: nat, f :: HasMarked(c', i, f) ==> HasMarked(c, i, f);
    forall id | id in c.objects
      ensures Clean(c', c.objects[id], c.reclaimed)
    {
      SamePurgesSameClean(c, c', c.objects[id], c.reclaimed);
    }
    if c.cert.Certifying? || c.cert.Pending? {
      forall id | id in c.objects
        ensures Settled(c', id, c.cert.cutoff)
      {
        SamePurgesSameClean(c, c', c.objects[id], c.cert.cutoff);
        if q :| Condemned(c, q, id, c.cert.cutoff) {
          assert q != p;
          assert Condemned(c', q, id, c.cert.cutoff);
        }
      }
    }
  }

  lemma PublicationStepKeepsInv(c: Cache, step: Step)
    requires Inv(c) && Enabled(c, step)
    requires step.Enter? || step.ReadSeq? || step.Abandon? || step.Exit?
    ensures Inv(Do(c, step))
  {
    PublicationMoveKeepsInv(c, Do(c, step), step.p);
  }

  function Concluded(c: Cache, p: PubId): Cache
    requires p in c.pubs && c.pubs[p].Finishing?
  {
    if c.pubs[p].kill then Without(c, c.pubs[p].id) else Reduced(c, c.pubs[p].id)
  }

  lemma AttachKeepsNothingLost(c: Cache, p: PubId, id: ObjId, tags: set<Fold>)
    requires Inv(c) && Enabled(c, Attach(p, id, tags))
    ensures NothingLost(Do(c, Attach(p, id, tags)))
  {
    var c' := Do(c, Attach(p, id, tags));
    forall other | other in c'.objects
      ensures Clean(c', c'.objects[other], c.reclaimed)
    {
      SamePurgesSameClean(c, c', c'.objects[other], c.reclaimed);
    }
  }

  /** A new object is clean up to the cutoff, or its publication is older than the flip and condemns it. */
  lemma AttachedIsSettled(c: Cache, p: PubId, id: ObjId, tags: set<Fold>)
    requires Inv(c) && Enabled(c, Attach(p, id, tags)) && (c.cert.Certifying? || c.cert.Pending?)
    ensures Settled(Do(c, Attach(p, id, tags)), id, c.cert.cutoff)
  {
    var c' := Do(c, Attach(p, id, tags));
    var o, cutoff := c'.objects[id], c.cert.cutoff;
    ProbeClears(c, o);
    SamePurgesSameClean(c, c', o, cutoff);
    if o.regSeq < cutoff && Probe(c.map_, o.regSeq, tags) != Fresh {
      assert Condemned(c', p, id, cutoff);
    }
  }

  lemma AttachKeepsInv(c: Cache, p: PubId, id: ObjId, tags: set<Fold>)
    requires Inv(c) && Enabled(c, Attach(p, id, tags))
    ensures Inv(Do(c, Attach(p, id, tags)))
  {
    var c' := Do(c, Attach(p, id, tags));
    assert forall i: nat, f :: HasMarked(c', i, f) ==> HasMarked(c, i, f);
    AttachKeepsNothingLost(c, p, id, tags);
    if c.cert.Certifying? || c.cert.Pending? {
      forall other | other in c'.objects
        ensures Settled(c', other, c.cert.cutoff)
      {
        if other == id {
          AttachedIsSettled(c, p, id, tags);
        } else {
          SamePurgesSameClean(c, c', c.objects[other], c.cert.cutoff);
          if q :| Condemned(c, q, other, c.cert.cutoff) { assert Condemned(c', q, other, c.cert.cutoff); }
        }
      }
    }
  }

  /** A publication may stop vouching for its object once the object is gone or clean. */
  lemma StopVouchingKeepsInv(c: Cache, p: PubId)
    requires Inv(c) && p in c.pubs && c.pubs[p].Finishing?
    requires c.cert.Certifying? || c.cert.Pending? ==>
               forall id :: id in c.objects && Condemned(c, p, id, c.cert.cutoff) ==> Clean(c, c.objects[id], c.cert.cutoff)
    ensures Inv(c.(pubs := c.pubs[p := Leaving]))
  {
    var c' := c.(pubs := c.pubs[p := Leaving]);
    assert forall i: nat, f :: HasMarked(c', i, f) ==> HasMarked(c, i, f);
    forall id | id in c.objects
      ensures Clean(c', c.objects[id], c.reclaimed)
    {
      SamePurgesSameClean(c, c', c.objects[id], c.reclaimed);
    }
    if c.cert.Certifying? || c.cert.Pending? {
      forall id | id in c.objects
        ensures Settled(c', id, c.cert.cutoff)
      {
        SamePurgesSameClean(c, c', c.objects[id], c.cert.cutoff);
        if q :| Condemned(c, q, id, c.cert.cutoff) && q != p { assert Condemned(c', q, id, c.cert.cutoff); }
      }
    }
  }

  lemma ApplyVerdictKeepsInv(c: Cache, p: PubId)
    requires Inv(c) && p in c.pubs && c.pubs[p].Finishing?
    ensures Inv(Concluded(c, p).(pubs := c.pubs[p := Leaving]))
  {
    WithoutKeepsInv(c, c.pubs[p].id);
    ReducedKeepsInv(c, c.pubs[p].id);
    StopVouchingKeepsInv(Concluded(c, p), p);
  }

  // ----- sweeps and certificates -----

  lemma CertBeginKeepsInv(c: Cache)
    requires Inv(c) && Enabled(c, CertBegin)
    ensures Inv(Do(c, CertBegin))
  {
    var c' := Do(c, CertBegin);
    assert forall i: nat, f :: HasMarked(c', i, f) ==> HasMarked(c, i, f);
    forall id | id in c.objects
      ensures Clean(c', c.objects[id], c.reclaimed)
    {
      SamePurgesSameClean(c, c', c.objects[id], c.reclaimed);
    }
  }

  /** Steps that change only the sweep and the certificate. */
  lemma SweepMoveKeepsInv(c: Cache, c': Cache)
    requires Inv(c) && Bookkeeping(c') && c' == c.(sweep := c'.sweep, cert := c'.cert)
    requires c'.cert.Certifying? || c'.cert.Pending? ==>
               (c.cert.Certifying? || c.cert.Pending?) && c'.cert.cutoff == c.cert.cutoff
    requires forall id :: id in c.objects && c.cert.Certifying? && (c.sweep.Resting? || id in c.sweep.unseen) ==>
               (c'.cert.Certifying? && (c'.sweep.Resting? || id in c'.sweep.unseen)) || c'.cert.Blocked?
    ensures Inv(c')
  {
    assert forall i: nat, f :: HasMarked(c', i, f) ==> HasMarked(c, i, f);
    forall id | id in c.objects
      ensures Clean(c', c.objects[id], c.reclaimed)
    {
      SamePurgesSameClean(c, c', c.objects[id], c.reclaimed);
    }
    if c'.cert.Certifying? || c'.cert.Pending? {
      forall id | id in c.objects
        ensures Settled(c', id, c.cert.cutoff)
      {
        SamePurgesSameClean(c, c', c.objects[id], c.cert.cutoff);
        if q :| Condemned(c, q, id, c.cert.cutoff) { assert Condemned(c', q, id, c.cert.cutoff); }
      }
    }
  }

  lemma SweepStepKeepsInv(c: Cache, step: Step)
    requires Inv(c) && Enabled(c, step) && (step.SweepBegin? || step.SweepDone? || step.SweepAbort?)
    ensures Inv(Do(c, step))
  {
    SweepMoveKeepsInv(c, Do(c, step));
  }

  lemma SweepOneKeepsInv(c: Cache, id: ObjId)
    requires Inv(c) && Enabled(c, SweepOne(id))
    ensures Inv(Do(c, SweepOne(id)))
  {
    ProbeClears(c, c.objects[id]);
    ProbedKeepsInv(c, id);
    var mid := Probed(c, id);
    var c' := Do(c, SweepOne(id));
    assert forall i: nat, f :: HasMarked(c', i, f) ==> HasMarked(mid, i, f);
    forall other | other in mid.objects
      ensures Clean(c', mid.objects[other], c.reclaimed)
    {
      SamePurgesSameClean(mid, c', mid.objects[other], c.reclaimed);
    }
    if c.cert.Certifying? || c.cert.Pending? {
      forall other | other in mid.objects
        ensures Settled(c', other, c.cert.cutoff)
      {
        SweptIsSettled(c, id, other);
      }
    }
  }

  lemma SweptIsSettled(c: Cache, id: ObjId, other: ObjId)
    requires Inv(c) && Enabled(c, SweepOne(id)) && (c.cert.Certifying? || c.cert.Pending?)
    requires other in Probed(c, id).objects
    ensures Settled(Do(c, SweepOne(id)), other, c.cert.cutoff)
  {
    var mid := Probed(c, id);
    var c' := Do(c, SweepOne(id));
    if other == id {
      ProbeClears(c, c.objects[id]);
      ReducedStaysClean(c, c.objects[id], c.cert.cutoff);
      SamePurgesSameClean(c, c', mid.objects[id], c.cert.cutoff);
    } else {
      ProbedKeepsInv(c, id);
      SamePurgesSameClean(mid, c', mid.objects[other], c.cert.cutoff);
      if q :| Condemned(mid, q, other, c.cert.cutoff) { assert Condemned(c', q, other, c.cert.cutoff); }
    }
  }

  lemma UnblockKeepsInv(c: Cache)
    requires Inv(c) && Enabled(c, Unblock)
    ensures Inv(Do(c, Unblock))
  {
    var c' := Do(c, Unblock);
    assert forall i: nat, f :: HasMarked(c', i, f) ==> HasMarked(c, i, f);
    forall id | id in c.objects
      ensures Clean(c', c.objects[id], c.reclaimed)
    {
      SamePurgesSameClean(c, c', c.objects[id], c.reclaimed);
    }
  }

  lemma ReclaimKeepsMarked(h: History, cutoff: nat, i: nat, f: Fold, m: Mode)
    requires i >= cutoff && Marked(h, i, f, m)
    ensures Marked(Reclaim(h, cutoff), i, f, m)
  {
  }

  /** The drained certificate covers every object, so nothing the dropped marks could say is still needed. */
  lemma ReclaimKeepsInv(c: Cache)
    requires Inv(c) && Enabled(c, ReclaimMarks)
    ensures Inv(Do(c, ReclaimMarks))
  {
    var c' := Do(c, ReclaimMarks);
    var cutoff := c.cert.cutoff;
    forall i: nat, f | cutoff <= i && HasMarked(c', i, f)
      ensures Marked(c'.map_, i, f, c.purges[i].mode)
    {
      assert HasMarked(c, i, f);
      ReclaimKeepsMarked(c.map_, cutoff, i, f, c.purges[i].mode);
    }
    forall id | id in c.objects
      ensures Clean(c', c.objects[id], cutoff)
    {
      SamePurgesSameClean(c, c', c.objects[id], cutoff);
      assert Settled(c, id, cutoff);
    }
  }

  // ----- the law -----

  lemma StepKeepsInv(c: Cache, step: Step)
    requires Inv(c) && Enabled(c, step)
    ensures Inv(Do(c, step))
  {
    match step
    case BeginPurge(_, _) => BeginPurgeKeepsInv(c, step);
    case MarkFold(_) => MarkFoldKeepsInv(c, step);
    case PruneTo(_, _) => PruneToKeepsInv(c, step);
    case PruneKept => PruneEndKeepsInv(c, step);
    case PruneUndone => PruneEndKeepsInv(c, step);
    case FinishPurge => FinishPurgeKeepsInv(c);
    case Enter(_) => PublicationStepKeepsInv(c, step);
    case ReadSeq(_) => PublicationStepKeepsInv(c, step);
    case Abandon(_) => PublicationStepKeepsInv(c, step);
    case Exit(_) => PublicationStepKeepsInv(c, step);
    case Attach(p, id, tags) => AttachKeepsInv(c, p, id, tags);
    case ApplyVerdict(p) => ApplyVerdictKeepsInv(c, p);
    case StaleCheck(id) => ProbedKeepsInv(c, id);
    case Expire(id) => WithoutKeepsInv(c, id);
    case CertBegin => CertBeginKeepsInv(c);
    case SweepBegin => SweepStepKeepsInv(c, step);
    case SweepDone => SweepStepKeepsInv(c, step);
    case SweepAbort => SweepStepKeepsInv(c, step);
    case SweepOne(id) => SweepOneKeepsInv(c, id);
    case Unblock => UnblockKeepsInv(c);
    case ReclaimMarks => ReclaimKeepsInv(c);
  }

  lemma {:induction false} RunKeepsInv(c: Cache, steps: seq<Step>)
    requires Inv(c) && Legal(c, steps)
    ensures Inv(After(c, steps))
    decreases |steps|
  {
    if steps != [] {
      StepKeepsInv(c, steps[0]);
      RunKeepsInv(Do(c, steps[0]), steps[1..]);
    }
  }

  /** Strict invalidation.  In every reachable state, an object reached by a completed hard purge is removed by its
      next stale check, and one reached by a completed soft purge is removed or reduced by then.
  */
  lemma StrictInvalidation(steps: seq<Step>, id: ObjId, i: nat)
    requires Legal(Start, steps) && id in After(Start, steps).objects && i < After(Start, steps).done
    requires i < |After(Start, steps).purges|
    ensures var c := After(Start, steps);
            && (Hit(c, i, Hard, c.objects[id]) ==> id !in Do(c, StaleCheck(id)).objects)
            && (Hit(c, i, Soft, c.objects[id]) ==>
                  id in Do(c, StaleCheck(id)).objects ==> Do(c, StaleCheck(id)).objects[id].reduced)
  {
    RunKeepsInv(Start, steps);
    var c := After(Start, steps);
    ProbeClears(c, c.objects[id]);
  }

  lemma {:induction false} Extend(c: Cache, steps: seq<Step>, step: Step)
    requires Legal(c, steps) && Enabled(After(c, steps), step)
    ensures Legal(c, steps + [step]) && After(c, steps + [step]) == Do(After(c, steps), step)
    decreases |steps|
  {
    if steps == [] {
      assert steps + [step] == [step] && [step][1..] == [];
    } else {
      Extend(Do(c, steps[0]), steps[1..], step);
      assert (steps + [step])[1..] == steps[1..] + [step];
    }
  }

  const Pinned0 := EpochGate.PinSet(map[0 := 0], 0, true)

  /** An object with tag 7 is published under sequence 0, and its publication is about to leave. */
  lemma Published() returns (steps: seq<Step>)
    ensures Legal(Start, steps)
    ensures After(Start, steps) ==
            Cache([], 0, {}, Empty, NoPrune, Pinned0, map[0 := Leaving], map[0 := Object(0, {7}, false)], NoCertificate,
                  Resting, 0)
  {
    steps := [];
    Extend(Start, steps, Enter(0));
    steps := steps + [Enter(0)];
    Extend(Start, steps, ReadSeq(0));
    steps := steps + [ReadSeq(0)];
    Extend(Start, steps, Attach(0, 0, {7}));
    steps := steps + [Attach(0, 0, {7})];
  }

  const Marked1 := History(map[7 := Marks(1, 0)], 0, 0)

  /** A hard purge of tag 7 marks it. */
  lemma PurgeMarked() returns (steps: seq<Step>)
    ensures Legal(Start, steps)
    ensures After(Start, steps) ==
            Cache([Purge({7}, Hard)], 0, {}, Marked1, NoPrune, Pinned0, map[0 := Leaving], map[0 := Object(0, {7}, false)],
                  NoCertificate, Resting, 0)
  {
    steps := Published();
    Extend(Start, steps, BeginPurge({7}, Hard));
    steps := steps + [BeginPurge({7}, Hard)];
    Extend(Start, steps, MarkFold(7));
    steps := steps + [MarkFold(7)];
    assert After(Start, steps).todo == {};
  }

  /** The law at work: the purge is pruned, the prune is undone, the purge completes, and the object goes at its next
      stale check.
  */
  lemma PurgeReachesObject() returns (steps: seq<Step>)
    ensures Legal(Start, steps) && 0 in After(Start, steps).objects && After(Start, steps).done == 1
    ensures |After(Start, steps).purges| == 1 && Hit(After(Start, steps), 0, Hard, After(Start, steps).objects[0])
    ensures 0 !in Do(After(Start, steps), StaleCheck(0)).objects
  {
    steps := PurgeMarked();
    var pruned := History(map[], 1, 0);
    assert Survivors(Marked1.entries, 1) == map[];
    assert 7 in Marked1.entries && Marked1.entries[7].Of(Hard) == 1;
    Extend(Start, steps, PruneTo(pruned, 1));
    steps := steps + [PruneTo(pruned, 1)];
    Extend(Start, steps, PruneUndone);
    steps := steps + [PruneUndone];
    Extend(Start, steps, FinishPurge);
    steps := steps + [FinishPurge];
    assert 7 in After(Start, steps).purges[0].folds * {7};
    StrictInvalidation(steps, 0, 0);
  }

  // ----- and nothing more than the law -----

  /** Purge number `q` exists, has this mode, and reached fold `f`. */
  predicate Issued(c: Cache, q: nat, mode: Mode, f: Fold) {
    0 < q <= |c.purges| && c.purges[q - 1].mode == mode && f in c.purges[q - 1].folds
  }

  /** The marks and floors of a map come only from purges. */
  ghost predicate TrueOf(c: Cache, h: History) {
    && (forall f, mode :: f in h.entries && h.entries[f].Of(mode) > 0 ==> Issued(c, h.entries[f].Of(mode), mode, f))
    && (forall mode: Mode :: h.Floor(mode) > 0 ==> exists f :: Issued(c, h.Floor(mode), mode, f))
  }

  /** A verdict still to be applied is what the map its probe read says of the object. */
  ghost predicate VerdictTrue(c: Cache, p: PubId)
    requires p in c.pubs && c.pubs[p].Finishing?
  {
    var pub := c.pubs[p];
    TrueOf(c, pub.seen) &&
    (pub.id in c.objects ==>
      Probe(pub.seen, c.objects[pub.id].regSeq, c.objects[pub.id].folds) == if pub.kill then HardStale else SoftStale)
  }

  ghost predicate MarksTrue(c: Cache) {
    && (c.todo != {} ==> c.purges != [] && c.todo <= c.purges[|c.purges| - 1].folds)
    && TrueOf(c, c.map_) && (c.prune.Prunes? ==> TrueOf(c, c.prune.was))
    && (forall p :: p in c.pubs && c.pubs[p].Finishing? ==> VerdictTrue(c, p))
  }

  lemma IssuedStays(c: Cache, c': Cache)
    requires c.purges <= c'.purges
    ensures forall q: nat, mode, f :: Issued(c, q, mode, f) ==> Issued(c', q, mode, f)
  {
    assert forall i: nat :: i < |c.purges| ==> c'.purges[i] == c.purges[i];
  }

  lemma StaysTrue(c: Cache, c': Cache, h: History)
    requires TrueOf(c, h) && c.purges <= c'.purges
    ensures TrueOf(c', h)
  {
    IssuedStays(c, c');
    forall mode: Mode | h.Floor(mode) > 0
      ensures exists f :: Issued(c', h.Floor(mode), mode, f)
    {
      var f :| Issued(c, h.Floor(mode), mode, f);
      assert Issued(c', h.Floor(mode), mode, f);
    }
  }

  lemma MarkIsTrue(c: Cache, h: History, fold: Fold)
    requires TrueOf(c, h) && c.purges != [] && fold in c.purges[|c.purges| - 1].folds
    ensures TrueOf(c, Upsert(h, fold, |c.purges|, c.purges[|c.purges| - 1].mode))
  {
    var n := |c.purges|;
    var h' := Upsert(h, fold, n, c.purges[n - 1].mode);
    assert Issued(c, n, c.purges[n - 1].mode, fold);
    forall f, mode | f in h'.entries && h'.entries[f].Of(mode) > 0
      ensures Issued(c, h'.entries[f].Of(mode), mode, f)
    {
      if f !in h.entries || h'.entries[f].Of(mode) != h.entries[f].Of(mode) {
        assert f == fold && mode == c.purges[n - 1].mode && h'.entries[f].Of(mode) == n;
      }
    }
    forall mode: Mode | h'.Floor(mode) > 0
      ensures exists f :: Issued(c, h'.Floor(mode), mode, f)
    {
      var f :| Issued(c, h.Floor(mode), mode, f);
      assert Issued(c, h'.Floor(mode), mode, f);
    }
  }

  lemma PruneIsTrue(c: Cache, h: History, pruned: History, cutoff: nat)
    requires TrueOf(c, h) && IsPrune(h, pruned, cutoff)
    ensures TrueOf(c, pruned)
  {
    forall mode: Mode | pruned.Floor(mode) > 0
      ensures exists f :: Issued(c, pruned.Floor(mode), mode, f)
    {
      if pruned.Floor(mode) != h.Floor(mode) {
        var f :| f in h.entries && pruned.Floor(mode) == h.entries[f].Of(mode);
        assert Issued(c, pruned.Floor(mode), mode, f);
      }
    }
  }

  lemma ReclaimIsTrue(c: Cache, h: History, cutoff: nat)
    requires TrueOf(c, h)
    ensures TrueOf(c, Reclaim(h, cutoff))
  {
    var h' := Reclaim(h, cutoff);
    forall f, mode | f in h'.entries && h'.entries[f].Of(mode) > 0
      ensures Issued(c, h'.entries[f].Of(mode), mode, f)
    {
      assert h'.entries[f].Of(mode) == h.entries[f].Of(mode);
    }
    forall mode: Mode | h'.Floor(mode) > 0
      ensures exists f :: Issued(c, h'.Floor(mode), mode, f)
    {
      var f :| Issued(c, h.Floor(mode), mode, f);
      assert Issued(c, h'.Floor(mode), mode, f);
    }
  }

  /** No step changes what a living object registered under, nor its tags. */
  lemma StepKeepsRegistration(c: Cache, step: Step, id: ObjId)
    requires Enabled(c, step) && id in Do(c, step).objects && (step.Attach? ==> step.id != id)
    ensures id in c.objects && Do(c, step).objects[id].regSeq == c.objects[id].regSeq
    ensures Do(c, step).objects[id].folds == c.objects[id].folds
  {
    if step.StaleCheck? || step.SweepOne? { ProbedKeepsRegistration(c, step.id, id); }
  }

  lemma ProbedKeepsRegistration(c: Cache, probed: ObjId, id: ObjId)
    requires probed in c.objects && id in Probed(c, probed).objects
    ensures id in c.objects && Probed(c, probed).objects[id].regSeq == c.objects[id].regSeq
    ensures Probed(c, probed).objects[id].folds == c.objects[id].folds
  {
  }

  lemma StepKeepsPublication(c: Cache, step: Step, p: PubId)
    requires Enabled(c, step) && p in Do(c, step).pubs && Do(c, step).pubs[p].Finishing?
    requires step.Attach? ==> step.p != p
    ensures p in c.pubs && c.pubs[p] == Do(c, step).pubs[p]
  {
  }

  lemma StepKeepsVerdict(c: Cache, step: Step, p: PubId)
    requires MarksTrue(c) && Enabled(c, step) && p in Do(c, step).pubs && Do(c, step).pubs[p].Finishing?
    ensures VerdictTrue(Do(c, step), p)
  {
    var c' := Do(c, step);
    if step.Attach? && step.p == p {
      StaysTrue(c, c', c.map_);
    } else {
      StepKeepsPublication(c, step, p);
      StaysTrue(c, c', c.pubs[p].seen);
      var id := c.pubs[p].id;
      if id in c'.objects {
        assert Held(c, id);
        StepKeepsRegistration(c, step, id);
      }
    }
  }

  lemma StepKeepsMarksTrue(c: Cache, step: Step)
    requires MarksTrue(c) && Enabled(c, step)
    ensures MarksTrue(Do(c, step))
  {
    var c' := Do(c, step);
    forall p | p in c'.pubs && c'.pubs[p].Finishing?
      ensures VerdictTrue(c', p)
    {
      StepKeepsVerdict(c, step, p);
    }
    StepKeepsMapsTrue(c, step);
  }

  lemma StepKeepsMapsTrue(c: Cache, step: Step)
    requires MarksTrue(c) && Enabled(c, step)
    ensures var c' := Do(c, step);
            && (c'.todo != {} ==> c'.purges != [] && c'.todo <= c'.purges[|c'.purges| - 1].folds)
            && TrueOf(c', c'.map_) && (c'.prune.Prunes? ==> TrueOf(c', c'.prune.was))
  {
    var c' := Do(c, step);
    match step {
      case MarkFold(f) => MarkIsTrue(c, c.map_, f);
      case PruneTo(pruned, cutoff) => PruneIsTrue(c, c.map_, pruned, cutoff);
      case ReclaimMarks => ReclaimIsTrue(c, c.map_, c.cert.cutoff);
      case _ =>
    }
    StaysTrue(c, c', c'.map_);
    if c'.prune.Prunes? { StaysTrue(c, c', c'.prune.was); }
  }

  lemma {:induction false} RunKeepsMarksTrue(c: Cache, steps: seq<Step>)
    requires MarksTrue(c) && Legal(c, steps)
    ensures MarksTrue(After(c, steps))
    decreases |steps|
  {
    if steps != [] {
      StepKeepsMarksTrue(c, steps[0]);
      RunKeepsMarksTrue(Do(c, steps[0]), steps[1..]);
    }
  }

  /** What must have happened for an object to be invalidated on the strength of a map: a purge of the mode was issued
      after the object registered, and, unless pruning has raised the floor above that registration, one that shares a
      tag with it.
  */
  ghost predicate Warranted(c: Cache, h: History, mode: Mode, o: Object) {
    && (exists q: nat, f :: q > o.regSeq && Issued(c, q, mode, f))
    && (h.Floor(mode) > o.regSeq || Reached(c.purges, mode, o.regSeq, o.folds))
  }

  lemma NewerIsWarranted(c: Cache, h: History, mode: Mode, o: Object)
    requires TrueOf(c, h) && Newer(h, mode, o.regSeq, o.folds)
    ensures Warranted(c, h, mode, o)
  {
    if h.Floor(mode) > o.regSeq {
      var f :| Issued(c, h.Floor(mode), mode, f);
    } else {
      var f :| f in o.folds && f in h.entries && h.entries[f].Of(mode) > o.regSeq;
      var q := h.entries[f].Of(mode);
      assert Issued(c, q, mode, f);
      assert f in c.purges[q - 1].folds * o.folds;
      assert Hits(c.purges, q - 1, mode, o.regSeq, o.folds);
    }
  }

  /** What a step did to an object: it is gone, or its time to live has been cut. */
  predicate Removes(c: Cache, c': Cache, id: ObjId) { id in c.objects && id !in c'.objects }

  predicate Reduces(c: Cache, c': Cache, id: ObjId) {
    id in c.objects && id in c'.objects && !c.objects[id].reduced && c'.objects[id].reduced
  }

  /** Nothing has changed but, possibly, that one object is gone or reduced. */
  predicate OnlyTouches(c: Cache, c': Cache, id: ObjId) {
    && c' == c.(objects := c'.objects, sweep := c'.sweep)
    && c'.objects.Keys <= c.objects.Keys <= c'.objects.Keys + {id}
    && (forall other :: other in c'.objects && other != id ==> c'.objects[other] == c.objects[other])
    && (id in c'.objects ==> c'.objects[id] == c.objects[id] || c'.objects[id] == c.objects[id].(reduced := true))
  }

  /** No refusal without a purge.  In every reachable state, a stale check or a turn of the sweep removes its object only
      on the strength of a hard purge and reduces it only on that of a soft one, and touches no other object.  With no
      purge since the object registered, a stale check leaves the whole cache as it is.
  */
  lemma NoRefusalWithoutPurge(steps: seq<Step>, id: ObjId, step: Step)
    requires step == StaleCheck(id) || step == SweepOne(id)
    requires Legal(Start, steps) && Enabled(After(Start, steps), step)
    ensures var c := After(Start, steps);
            var c' := Do(c, step);
            && OnlyTouches(c, c', id)
            && (Removes(c, c', id) ==> Warranted(c, c.map_, Hard, c.objects[id]))
            && (Reduces(c, c', id) ==> Warranted(c, c.map_, Soft, c.objects[id]))
            && (step.StaleCheck? && |c.purges| <= c.objects[id].regSeq ==> c' == c)
            && (step.SweepOne? && |c.purges| <= c.objects[id].regSeq ==>
                  c' == c.(sweep := Sweeping(c.sweep.unseen - {id})))
  {
    RunKeepsMarksTrue(Start, steps);
    var c := After(Start, steps);
    var o := c.objects[id];
    forall mode | Newer(c.map_, mode, o.regSeq, o.folds)
      ensures Warranted(c, c.map_, mode, o)
    {
      NewerIsWarranted(c, c.map_, mode, o);
    }
  }

  /** The insert probe condemns or means to reduce a new object only on the strength of such a purge. */
  lemma NoVerdictWithoutPurge(steps: seq<Step>, p: PubId, id: ObjId, tags: set<Fold>)
    requires Legal(Start, steps) && Enabled(After(Start, steps), Attach(p, id, tags))
    ensures var c := After(Start, steps);
            var c' := Do(c, Attach(p, id, tags));
            var o := Object(c.pubs[p].regSeq, tags, false);
            && c' == c.(objects := c.objects[id := o], pubs := c.pubs[p := c'.pubs[p]])
            && (c'.pubs[p] == Leaving || c'.pubs[p] == Finishing(id, true, c.map_) || c'.pubs[p] == Finishing(id, false, c.map_))
            && (c'.pubs[p].Finishing? && c'.pubs[p].kill ==> Warranted(c, c.map_, Hard, o))
            && (c'.pubs[p].Finishing? && !c'.pubs[p].kill ==> Warranted(c, c.map_, Soft, o))
            && (|c.purges| <= o.regSeq ==> c'.pubs[p] == Leaving)
  {
    RunKeepsMarksTrue(Start, steps);
    var c := After(Start, steps);
    var o := Object(c.pubs[p].regSeq, tags, false);
    forall mode | Newer(c.map_, mode, o.regSeq, o.folds)
      ensures Warranted(c, c.map_, mode, o)
    {
      NewerIsWarranted(c, c.map_, mode, o);
    }
  }

  /** Applying the verdict later removes or reduces that object, if it is still there, and no other, on the strength of the
      map the probe read; an object with no purge since its registration is not concerned.
  */
  lemma VerdictIsWarranted(steps: seq<Step>, p: PubId)
    requires Legal(Start, steps) && Enabled(After(Start, steps), ApplyVerdict(p))
    ensures var c := After(Start, steps);
            var c' := Do(c, ApplyVerdict(p));
            var pub := c.pubs[p];
            && OnlyTouches(c.(pubs := c.pubs[p := Leaving]), c', pub.id)
            && (Removes(c, c', pub.id) ==> pub.kill && Warranted(c, pub.seen, Hard, c.objects[pub.id]))
            && (Reduces(c, c', pub.id) ==> !pub.kill && Warranted(c, pub.seen, Soft, c.objects[pub.id]))
            && (pub.id in c.objects ==> |c.purges| > c.objects[pub.id].regSeq)
  {
    RunKeepsMarksTrue(Start, steps);
    var c := After(Start, steps);
    var pub := c.pubs[p];
    assert VerdictTrue(c, p);
    if pub.id in c.objects { NewerIsWarranted(c, pub.seen, if pub.kill then Hard else Soft, c.objects[pub.id]); }
  }

  // ----- what a run has asked for -----

  function AskedBy(step: Step): seq<Purge> { if step.BeginPurge? then [Purge(step.folds, step.mode)] else [] }

  /** The purges a run has begun, in order. */
  ghost function Asked(steps: seq<Step>): seq<Purge>
    decreases |steps|
  {
    if steps == [] then [] else AskedBy(steps[0]) + Asked(steps[1..])
  }

  lemma StepAsks(c: Cache, step: Step)
    requires Enabled(c, step)
    ensures Do(c, step).purges == c.purges + AskedBy(step)
  {
    if step.StaleCheck? || step.SweepOne? { ProbedKeepsPurges(c, step.id); }
  }

  lemma ProbedKeepsPurges(c: Cache, id: ObjId)
    requires id in c.objects
    ensures Probed(c, id).purges == c.purges
  {
  }

  lemma AskedJoin(purges: seq<Purge>, steps: seq<Step>, all: seq<Purge>)
    requires steps != [] && all == purges + AskedBy(steps[0]) + Asked(steps[1..])
    ensures all == purges + Asked(steps)
  {
  }

  /** The purges of a state are those its run has begun. */
  lemma {:induction false} PurgesAreAsked(c: Cache, steps: seq<Step>)
    requires Legal(c, steps)
    ensures After(c, steps).purges == c.purges + Asked(steps)
    decreases |steps|
  {
    if steps != [] {
      StepAsks(c, steps[0]);
      PurgesAreAsked(Do(c, steps[0]), steps[1..]);
      AskedJoin(c.purges, steps, After(c, steps).purges);
    }
  }

  lemma StepKeepsOpenPublication(c: Cache, step: Step, p: PubId)
    requires Bookkeeping(c) && Enabled(c, step) && p in c.pubs && c.pubs[p].Open?
    requires (step.Attach? ==> step.p != p) && step != Abandon(p)
    ensures p in Do(c, step).pubs && Do(c, step).pubs[p] == c.pubs[p]
  {
  }

  lemma {:induction false} RunKeepsOpenPublication(c: Cache, steps: seq<Step>, p: PubId)
    requires Inv(c) && Legal(c, steps) && p in c.pubs && c.pubs[p].Open?
    requires forall i :: 0 <= i < |steps| ==> (steps[i].Attach? ==> steps[i].p != p) && steps[i] != Abandon(p)
    ensures p in After(c, steps).pubs && After(c, steps).pubs[p] == c.pubs[p]
    decreases |steps|
  {
    if steps != [] {
      StepKeepsInv(c, steps[0]);
      StepKeepsOpenPublication(c, steps[0], p);
      RunKeepsOpenPublication(Do(c, steps[0]), steps[1..], p);
    }
  }

  /** An object counts as registered when its publication read the sequence: after exactly the purges begun by then,
      whatever has happened since.
  */
  lemma RegisteredWhenRead(before: seq<Step>, during: seq<Step>, p: PubId, id: ObjId, tags: set<Fold>)
    requires Legal(Start, before) && Enabled(After(Start, before), ReadSeq(p))
    requires var c := Do(After(Start, before), ReadSeq(p));
             Legal(c, during) && Enabled(After(c, during), Attach(p, id, tags))
    requires forall i :: 0 <= i < |during| ==> (during[i].Attach? ==> during[i].p != p) && during[i] != Abandon(p)
    ensures var c := After(Do(After(Start, before), ReadSeq(p)), during);
            Do(c, Attach(p, id, tags)).objects[id] == Object(|Asked(before)|, tags, false)
  {
    var c := Do(After(Start, before), ReadSeq(p));
    RunKeepsInv(Start, before);
    StepKeepsInv(After(Start, before), ReadSeq(p));
    PurgesAreAsked(Start, before);
    RunKeepsOpenPublication(c, during, p);
  }

  // ----- a prune undone, and runs that keep no prune -----

  lemma StepKeepsPrune(c: Cache, step: Step)
    requires Bookkeeping(c) && Enabled(c, step) && c.prune.Prunes? && !step.PruneKept? && !step.PruneUndone?
    ensures Do(c, step).prune == c.prune
  {
  }

  lemma {:induction false} RunKeepsPrune(c: Cache, steps: seq<Step>)
    requires Inv(c) && Legal(c, steps) && c.prune.Prunes?
    requires forall i :: 0 <= i < |steps| ==> !steps[i].PruneKept? && !steps[i].PruneUndone?
    ensures After(c, steps).prune == c.prune
    decreases |steps|
  {
    if steps != [] {
      assert !steps[0].PruneKept? && !steps[0].PruneUndone?;
      StepKeepsInv(c, steps[0]);
      StepKeepsPrune(c, steps[0]);
      RunKeepsPrune(Do(c, steps[0]), steps[1..]);
    }
  }

  /** A prune that is undone leaves the map as it was before it, whatever has happened in between. */
  lemma UndoneAsIfNever(before: seq<Step>, pruned: History, cutoff: nat, during: seq<Step>)
    requires Legal(Start, before) && Enabled(After(Start, before), PruneTo(pruned, cutoff))
    requires var c := Do(After(Start, before), PruneTo(pruned, cutoff));
             Legal(c, during) && Enabled(After(c, during), PruneUndone)
    requires forall i :: 0 <= i < |during| ==> !during[i].PruneKept? && !during[i].PruneUndone?
    ensures var c := After(Do(After(Start, before), PruneTo(pruned, cutoff)), during);
            Do(c, PruneUndone).map_ == After(Start, before).map_
  {
    RunKeepsInv(Start, before);
    StepKeepsInv(After(Start, before), PruneTo(pruned, cutoff));
    RunKeepsPrune(Do(After(Start, before), PruneTo(pruned, cutoff)), during);
  }

  /** No prune has left a floor behind. */
  predicate Floorless(c: Cache) {
    var h := if c.prune.Prunes? then c.prune.was else c.map_;
    h.hardFloor == 0 && h.softFloor == 0
  }

  lemma {:induction false} RunKeepsFloorless(c: Cache, steps: seq<Step>)
    requires Floorless(c) && Legal(c, steps) && forall i :: 0 <= i < |steps| ==> !steps[i].PruneKept?
    ensures Floorless(After(c, steps))
    decreases |steps|
  {
    if steps != [] {
      assert !steps[0].PruneKept?;
      StepKeepsFloorless(c, steps[0]);
      RunKeepsFloorless(Do(c, steps[0]), steps[1..]);
    }
  }

  lemma StepKeepsFloorless(c: Cache, step: Step)
    requires Floorless(c) && Enabled(c, step) && !step.PruneKept?
    ensures Floorless(Do(c, step))
  {
  }

  /** In a run that keeps no prune, while no purge and no prune is under way, a stale check is exact: it removes its
      object if and only if a hard purge issued after the object registered shares a tag with it, and otherwise leaves it
      reduced if and only if it was, or a soft one does.
  */
  lemma StaleCheckIsExact(steps: seq<Step>, id: ObjId)
    requires Legal(Start, steps) && id in After(Start, steps).objects && Unlocked(After(Start, steps))
    requires forall i :: 0 <= i < |steps| ==> !steps[i].PruneKept?
    ensures var c, o := After(Start, steps), After(Start, steps).objects[id];
            var c' := Do(c, StaleCheck(id));
            && (id !in c'.objects <==> Reached(c.purges, Hard, o.regSeq, o.folds))
            && (id in c'.objects ==>
                  (c'.objects[id].reduced <==> o.reduced || Reached(c.purges, Soft, o.regSeq, o.folds)))
  {
    RunKeepsInv(Start, steps);
    RunKeepsMarksTrue(Start, steps);
    RunKeepsFloorless(Start, steps);
    var c, o := After(Start, steps), After(Start, steps).objects[id];
    ProbeClears(c, o);
    forall mode | Newer(c.map_, mode, o.regSeq, o.folds)
      ensures Reached(c.purges, mode, o.regSeq, o.folds)
    {
      NewerIsWarranted(c, c.map_, mode, o);
    }
    forall mode: Mode | Reached(c.purges, mode, o.regSeq, o.folds) && (mode == Hard || !o.reduced)
      ensures mode == Hard ==> Probe(c.map_, o.regSeq, o.folds) == HardStale
      ensures mode == Soft ==> Probe(c.map_, o.regSeq, o.folds) != Fresh
    {
      var i: nat :| i < |c.purges| && Hits(c.purges, i, mode, o.regSeq, o.folds);
      assert Hit(c, i, mode, o);
    }
  }

  // ----- a certificate is thorough -----

  lemma {:induction false} CertificateKeepsCutoff(c: Cache, steps: seq<Step>)
    requires c.cert.Certifying? || c.cert.Pending? || c.cert.Blocked?
    requires Legal(c, steps) && (forall i :: 0 <= i < |steps| ==> !steps[i].Unblock? && !steps[i].ReclaimMarks?)
    ensures !After(c, steps).cert.NoCertificate?
    ensures !After(c, steps).cert.Blocked? ==> !c.cert.Blocked? && After(c, steps).cert.cutoff == c.cert.cutoff
    decreases |steps|
  {
    if steps != [] {
      assert !steps[0].Unblock? && !steps[0].ReclaimMarks?;
      CertificateKeepsCutoff(Do(c, steps[0]), steps[1..]);
    }
  }

  /** When the marks are reclaimed, none is left that was made before the certificate began, and the newer ones stay. */
  lemma ReclaimIsThorough(before: seq<Step>, during: seq<Step>)
    requires Legal(Start, before) && Enabled(After(Start, before), CertBegin)
    requires var c := Do(After(Start, before), CertBegin);
             && Legal(c, during) && (forall i :: 0 <= i < |during| ==> !during[i].Unblock? && !during[i].ReclaimMarks?)
             && Enabled(After(c, during), ReclaimMarks)
    ensures var begun := |After(Start, before).purges|;
            var c := After(Do(After(Start, before), CertBegin), during);
            var h := Do(c, ReclaimMarks).map_;
            && (forall mode: Mode :: h.Floor(mode) == if c.map_.Floor(mode) <= begun then 0 else c.map_.Floor(mode))
            && (forall f :: f in h.entries ==> f in c.map_.entries && h.entries[f].Newest() > begun)
            && (forall f, mode: Mode :: f in c.map_.entries && c.map_.entries[f].Of(mode) > begun ==>
                  f in h.entries && h.entries[f].Of(mode) == c.map_.entries[f].Of(mode))
            && (forall f, mode: Mode :: f in h.entries && h.entries[f].Of(mode) <= begun ==> h.entries[f].Of(mode) == 0)
  {
    CertificateKeepsCutoff(Do(After(Start, before), CertBegin), during);
  }

  /** Every certificate flips a gate that has been drained, as the gate requires. */
  lemma CertificateKeepsGateDiscipline(steps: seq<Step>)
    requires Legal(Start, steps) && Enabled(After(Start, steps), CertBegin)
    ensures EpochGate.PinEnabled(After(Start, steps).gate, EpochGate.Advance)
  {
    RunKeepsInv(Start, steps);
  }

  lemma {:induction false} DoneOnlyGrows(c: Cache, steps: seq<Step>)
    requires Inv(c) && Legal(c, steps)
    ensures c.done <= After(c, steps).done && c.purges <= After(c, steps).purges
    decreases |steps|
  {
    if steps != [] {
      StepKeepsInv(c, steps[0]);
      DoneOnlyGrows(Do(c, steps[0]), steps[1..]);
    }
  }

  /** The stale memo: the completion token is read, a stale check follows and does not refuse the object, and still later
      the token is unchanged.  Then no hard purge completed by that time reaches the object, and a soft one that does has
      already reduced it: the remembered answer is the answer.
  */
  lemma MemoIsCurrent(before: seq<Step>, toCheck: seq<Step>, toHit: seq<Step>, id: ObjId)
    requires Legal(Start, before) && Legal(After(Start, before), toCheck)
    requires id in After(After(Start, before), toCheck).objects
    requires var checked := Do(After(After(Start, before), toCheck), StaleCheck(id));
             && id in checked.objects && Legal(checked, toHit)
             && After(checked, toHit).done == After(Start, before).done
    ensures var checked := Do(After(After(Start, before), toCheck), StaleCheck(id));
            Clean(After(checked, toHit), checked.objects[id], After(checked, toHit).done)
  {
    RunKeepsInv(Start, before);
    var c := After(Start, before);
    RunKeepsInv(c, toCheck);
    var mid := After(c, toCheck);
    var checked := Do(mid, StaleCheck(id));
    ProbeClears(mid, mid.objects[id]);
    ReducedStaysClean(mid, mid.objects[id], mid.done);
    StepKeepsInv(mid, StaleCheck(id));
    DoneOnlyGrows(c, toCheck);
    DoneOnlyGrows(checked, toHit);
    SamePurgesSameClean(mid, checked, checked.objects[id], mid.done);
    SamePurgesSameClean(checked, After(checked, toHit), checked.objects[id], mid.done);
  }
}
