/** One probe against the purge map's atomic stores.

    Elsewhere a probe and a prune are single steps.  In the source a prune stores the replacement table, then the entry
    count, then the floor; when the checkpoint after it fails, a rollback stores the original table, count and floor in
    the same order; and a reclaim stores a smaller table, its count and, when the cutoff covers it, a floor of zero.  A
    probe reads the count and the floor once to see whether there is anything to do, then loads the table, reads its
    folds and loads the floor again.  This module interleaves those operations for one mode (hard or soft) and one probed
    object, and settles when the probe can miss a completed purge.
*/
module ProbeRace {
  import opened PurgeHistory

  type TableId = nat

  /** What the map held before a prune. */
  datatype Original = Original(table: TableId, count: nat, floor: nat)

  /** Where the holder of the purge lock stands.  `counted`: the entry count has been stored. */
  datatype Writer =
    | Idle
    | Pruning(undo: Original, floor: nat, counted: bool)  // replacement stored
    | Pruned(undo: Original)                              // all stored, the checkpoint is still to succeed
    | Undoing(undo: Original, counted: bool)              // original stored again
    | Reclaiming(cutoff: nat, counted: bool)              // table without the marks up to the cutoff stored

  /** `seen` is what completed purges had recorded when the probe began; `countOf` is the table whose entries the count
      it read had counted.
  */
  datatype Probe =
    | NotStarted
    | Started(seen: map<Fold, nat>, empty: bool, countOf: TableId)
    | Reading(seen: map<Fold, nat>, table: TableId, unread: set<Fold>, found: bool)
    | Answered(seen: map<Fold, nat>, stale: bool)

  /** `marks` maps each table to the sequence of each fold it holds, and `due` to the floor that belongs to it: the one
      the map has once everything stored with the table is stored.  `discarded` are the replacements that rollbacks have
      taken back.  `all` is the newest mark of each fold, `completed` the newest of purges that have returned, and
      `reaching` holds all marks ever made that reach the object.  A reclaim's cutoff leaves those alone, as a
      certificate ensures for every living object.
  */
  datatype Race = Race(
    regSeq: nat, folds: set<Fold>,
    marks: map<TableId, map<Fold, nat>>, due: map<TableId, nat>,
    table: TableId, count: nat, countOf: TableId, floor: nat,
    all: map<Fold, nat>, completed: map<Fold, nat>, reaching: set<nat>,
    writer: Writer, unused: TableId, discarded: set<TableId>, probe: Probe)

  datatype Step =
    | Mark(fold: Fold, q: nat)
    | Complete
    | Rebuild
    | PruneTable(keep: set<Fold>, newFloor: nat)
    | PruneCount
    | PruneFloor
    | Keep
    | RollbackTable
    | RollbackCount
    | RollbackFloor
    | ReclaimTable(cutoff: nat)
    | ReclaimCount
    | ReclaimFloor
    | Begin
    | AnswerEmpty
    | TakeTable
    | ReadFold(fold: Fold)
    | AnswerFloor

  predicate OfProbe(step: Step) {
    step.Begin? || step.AnswerEmpty? || step.TakeTable? || step.ReadFold? || step.AnswerFloor?
  }

  function Start(regSeq: nat, folds: set<Fold>): Race {
    Race(regSeq, folds, map[0 := map[]], map[0 := 0], 0, 0, 0, 0, map[], map[], {}, Idle, 1, {}, NotStarted)
  }

  function MarksOf(r: Race, t: TableId): map<Fold, nat> {
    if t in r.marks then r.marks[t] else map[]
  }

  function DueOf(r: Race, t: TableId): nat {
    if t in r.due then r.due[t] else 0
  }

  function At(marks: map<Fold, nat>, f: Fold): nat {
    if f in marks then marks[f] else 0
  }

  function Raise(marks: map<Fold, nat>, f: Fold, q: nat): map<Fold, nat> {
    marks[f := if At(marks, f) < q then q else At(marks, f)]
  }

  /** The stored floor is below the one that belongs to table `t`. */
  predicate Lags(r: Race, t: TableId) { r.floor < DueOf(r, t) }

  /** Which answers a run may contain while the floor lags: inside the prune that stored the table, or after its
      rollback.
  */
  datatype Allowed = Allowed(inPrune: bool, afterRollback: bool)

  const Everything := Allowed(true, true)

  const Nothing := Allowed(false, false)

  predicate MayAnswer(r: Race, t: TableId, allowed: Allowed) {
    Lags(r, t) ==> if t in r.discarded then allowed.afterRollback else allowed.inPrune
  }

  predicate Enabled(r: Race, step: Step, allowed: Allowed) {
    match step
    case Mark(_, q) => r.writer.Idle? && q > 0
    case Complete => r.writer.Idle?
    case Rebuild => r.writer.Idle?
    case PruneTable(keep, newFloor) =>
      && r.writer.Idle?
      && keep <= MarksOf(r, r.table).Keys
      && newFloor >= r.floor
      && (forall f :: f in MarksOf(r, r.table) && f !in keep ==> newFloor >= MarksOf(r, r.table)[f])
      && (newFloor == r.floor || exists f :: f in MarksOf(r, r.table) && f !in keep && newFloor == MarksOf(r, r.table)[f])
    case PruneCount => r.writer.Pruning? && !r.writer.counted
    case PruneFloor => r.writer.Pruning? && r.writer.counted
    case Keep => r.writer.Pruned?
    case RollbackTable => r.writer.Pruned?
    case RollbackCount => r.writer.Undoing? && !r.writer.counted
    case RollbackFloor => r.writer.Undoing? && r.writer.counted
    case ReclaimTable(cutoff) => r.writer.Idle? && forall q :: q in r.reaching ==> q > cutoff
    case ReclaimCount => r.writer.Reclaiming? && !r.writer.counted
    case ReclaimFloor => r.writer.Reclaiming? && r.writer.counted
    case Begin => r.probe.NotStarted?
    case AnswerEmpty => r.probe.Started? && r.probe.empty && r.floor == 0 && MayAnswer(r, r.probe.countOf, allowed)
    case TakeTable => r.probe.Started?
    case ReadFold(f) => r.probe.Reading? && f in r.probe.unread
    case AnswerFloor =>
      && r.probe.Reading? && (r.probe.unread == {} || r.probe.found)
      && (r.probe.found || MayAnswer(r, r.probe.table, allowed))
  }

  /** Stores a new table. */
  function Store(r: Race, marks: map<Fold, nat>, due: nat): Race {
    r.(marks := r.marks[r.unused := marks], due := r.due[r.unused := due], table := r.unused, unused := r.unused + 1)
  }

  function Do(r: Race, step: Step): Race
    requires Enabled(r, step, Everything)
  {
    var current := MarksOf(r, r.table);
    match step
    case Mark(f, q) =>
      var marks := Raise(current, f, q);
      r.(marks := r.marks[r.table := marks], count := |marks|, countOf := r.table, all := Raise(r.all, f, q),
         reaching := if f in r.folds && q > r.regSeq then r.reaching + {q} else r.reaching)
    case Complete => r.(completed := r.all)
    case Rebuild => Store(r, current, DueOf(r, r.table))
    case PruneTable(keep, newFloor) =>
      Store(r, map f | f in current && f in keep :: current[f], newFloor)
      .(writer := Pruning(Original(r.table, r.count, r.floor), newFloor, false))
    case PruneCount =>
      r.(count := |current|, countOf := r.table, writer := Pruning(r.writer.undo, r.writer.floor, true))
    case PruneFloor => r.(floor := r.writer.floor, writer := Pruned(r.writer.undo))
    case Keep => r.(writer := Idle)
    case RollbackTable =>
      r.(table := r.writer.undo.table, writer := Undoing(r.writer.undo, false), discarded := r.discarded + {r.table})
    case RollbackCount =>
      r.(count := r.writer.undo.count, countOf := r.writer.undo.table, writer := Undoing(r.writer.undo, true))
    case RollbackFloor => r.(floor := r.writer.undo.floor, writer := Idle)
    case ReclaimTable(cutoff) =>
      Store(r, map f | f in current && current[f] > cutoff :: current[f], Cut(DueOf(r, r.table), cutoff))
      .(writer := Reclaiming(cutoff, false))
    case ReclaimCount => r.(count := |current|, countOf := r.table, writer := Reclaiming(r.writer.cutoff, true))
    case ReclaimFloor =>
      r.(floor := Cut(r.floor, r.writer.cutoff), due := map t | t in r.due :: Cut(r.due[t], r.writer.cutoff), writer := Idle)
    case Begin => r.(probe := Started(r.completed, r.count == 0, r.countOf))
    case AnswerEmpty => r.(probe := Answered(r.probe.seen, false))
    case TakeTable => r.(probe := Reading(r.probe.seen, r.table, r.folds, false))
    case ReadFold(f) =>
      r.(probe := r.probe.(unread := r.probe.unread - {f},
                           found := r.probe.found || At(MarksOf(r, r.probe.table), f) > r.regSeq))
    case AnswerFloor => r.(probe := Answered(r.probe.seen, r.probe.found || r.floor > r.regSeq))
  }

  predicate Legal(r: Race, steps: seq<Step>, allowed: Allowed)
    decreases |steps|
  {
    steps == [] ||
    (Enabled(r, steps[0], allowed) && Enabled(r, steps[0], Everything) && Legal(Do(r, steps[0]), steps[1..], allowed))
  }

  function After(r: Race, steps: seq<Step>, allowed: Allowed): Race
    requires Legal(r, steps, allowed)
    decreases |steps|
  {
    if steps == [] then r else After(Do(r, steps[0]), steps[1..], allowed)
  }

  /** A probe that has answered found every mark newer than the object that was complete when it began. */
  predicate Sound(r: Race) {
    r.probe.Answered? && !r.probe.stale ==> forall f :: f in r.folds ==> At(r.probe.seen, f) <= r.regSeq
  }

  // ----- sound when the floor does not lag -----

  /** The newest mark of `f` reaches the object. */
  predicate Reaches(r: Race, marks: map<Fold, nat>, f: Fold) { f in r.folds && At(marks, f) > r.regSeq }

  /** Every newest mark that reaches the object is in table `t`, or no newer than the floor that belongs to it. */
  ghost predicate Covers(r: Race, t: TableId) {
    && t in r.marks && t in r.due
    && forall f :: Reaches(r, r.all, f) ==> At(r.marks[t], f) >= At(r.all, f) || r.due[t] >= At(r.all, f)
  }

  /** The original table of an open prune, its count and its floor. */
  ghost predicate CanUndo(r: Race, o: Original) {
    Covers(r, o.table) && o.count == |r.marks[o.table]| && o.floor == r.due[o.table]
  }

  ghost predicate MapInv(r: Race) {
    && r.marks.Keys == r.due.Keys && (forall t :: t in r.marks ==> t < r.unused)
    && Covers(r, r.table) && Covers(r, r.countOf) && r.count == |r.marks[r.countOf]|
    && (forall f :: At(r.completed, f) <= At(r.all, f))
    && (forall f :: Reaches(r, r.all, f) ==> At(r.all, f) in r.reaching)
    && (forall f :: Reaches(r, r.completed, f) ==> At(r.completed, f) in r.reaching)
    && (r.writer.Idle? || r.writer.Pruned? ==> r.floor == r.due[r.table] && r.count == |r.marks[r.table]|)
    && (r.writer.Pruning? ==> r.writer.floor == r.due[r.table] && (r.writer.counted ==> r.countOf == r.table))
    && (r.writer.Pruning? || r.writer.Pruned? || r.writer.Undoing? ==> CanUndo(r, r.writer.undo))
    && (r.writer.Undoing? ==>
         r.table == r.writer.undo.table && (r.writer.counted ==> r.count == r.writer.undo.count))
    && (r.writer.Reclaiming? ==>
         && (r.writer.counted ==> r.countOf == r.table)
         && r.due[r.table] == Cut(r.floor, r.writer.cutoff) && forall q :: q in r.reaching ==> q > r.writer.cutoff)
  }

  ghost predicate Seen(r: Race, seen: map<Fold, nat>) {
    forall f :: Reaches(r, seen, f) ==> At(seen, f) in r.reaching
  }

  ghost predicate ProbeInv(r: Race) {
    match r.probe
    case NotStarted => true
    case Started(seen, empty, t) =>
      && Seen(r, seen) && (forall f :: At(seen, f) <= At(r.completed, f))
      && t in r.due && (empty ==> forall f :: Reaches(r, seen, f) ==> r.due[t] >= At(seen, f))
    case Reading(seen, t, unread, found) =>
      && Seen(r, seen) && t in r.marks && t in r.due && unread <= r.folds
      && forall f :: Reaches(r, seen, f) && !found ==>
           (f in unread && At(r.marks[t], f) >= At(seen, f)) || r.due[t] >= At(seen, f)
    case Answered(_, _) => Sound(r)
  }

  ghost predicate Inv(r: Race) { MapInv(r) && ProbeInv(r) }

  /** What a probe relies on stays while tables only gain marks and keep the floors that belong to them. */
  lemma ProbeInvStays(r: Race, r': Race)
    requires ProbeInv(r) && r'.probe == r.probe && r'.regSeq == r.regSeq && r'.folds == r.folds
    requires r.reaching <= r'.reaching && forall f :: At(r.completed, f) <= At(r'.completed, f)
    requires forall t :: t in r.marks ==> t in r'.marks && forall f :: At(r.marks[t], f) <= At(r'.marks[t], f)
    requires forall t :: t in r.due ==> t in r'.due && r'.due[t] == r.due[t]
    ensures ProbeInv(r')
  {
  }

  lemma MarkOnlyRaises(r: Race, f: Fold, q: nat)
    requires MapInv(r) && Enabled(r, Mark(f, q), Nothing)
    ensures forall t, g :: t in r.marks ==> At(r.marks[t], g) <= At(Do(r, Mark(f, q)).marks[t], g)
  {
  }

  lemma MarkKeepsCovers(r: Race, f: Fold, q: nat, t: TableId)
    requires MapInv(r) && Enabled(r, Mark(f, q), Nothing) && t == r.table
    ensures Covers(Do(r, Mark(f, q)), t)
  {
    MarkOnlyRaises(r, f, q);
  }

  lemma MarkKeepsMapInv(r: Race, f: Fold, q: nat)
    requires MapInv(r) && Enabled(r, Mark(f, q), Nothing)
    ensures MapInv(Do(r, Mark(f, q)))
  {
    MarkKeepsCovers(r, f, q, r.table);
  }

  lemma StoreKeepsCovers(r: Race, marks: map<Fold, nat>, due: nat, t: TableId)
    requires MapInv(r) && Covers(r, t)
    ensures Covers(Store(r, marks, due), t)
  {
  }

  lemma RebuildKeepsMapInv(r: Race)
    requires MapInv(r) && Enabled(r, Rebuild, Nothing)
    ensures MapInv(Do(r, Rebuild))
  {
    StoreKeepsCovers(r, r.marks[r.table], r.due[r.table], r.countOf);
  }

  lemma PruneTableKeepsMapInv(r: Race, keep: set<Fold>, newFloor: nat)
    requires MapInv(r) && Enabled(r, PruneTable(keep, newFloor), Nothing)
    ensures MapInv(Do(r, PruneTable(keep, newFloor)))
  {
    var r' := Do(r, PruneTable(keep, newFloor));
    forall f | Reaches(r, r.all, f)
      ensures At(r'.marks[r'.table], f) >= At(r.all, f) || newFloor >= At(r.all, f)
    {
      assert At(r.marks[r.table], f) >= At(r.all, f) || r.due[r.table] >= At(r.all, f);
    }
    StoreKeepsCovers(r, r'.marks[r'.table], newFloor, r.table);
    StoreKeepsCovers(r, r'.marks[r'.table], newFloor, r.countOf);
  }

  lemma CompleteKeepsMapInv(r: Race)
    requires MapInv(r) && Enabled(r, Complete, Nothing)
    ensures MapInv(Do(r, Complete))
  {
  }

  lemma PruneStepKeepsMapInv(r: Race, step: Step)
    requires MapInv(r) && Enabled(r, step, Nothing)
    requires step.PruneCount? || step.PruneFloor? || step.Keep?
    ensures MapInv(Do(r, step))
  {
  }

  lemma RollbackKeepsMapInv(r: Race, step: Step)
    requires MapInv(r) && Enabled(r, step, Nothing)
    requires step.RollbackTable? || step.RollbackCount? || step.RollbackFloor?
    ensures MapInv(Do(r, step))
  {
  }

  lemma ReclaimTableKeepsMapInv(r: Race, cutoff: nat)
    requires MapInv(r) && Enabled(r, ReclaimTable(cutoff), Nothing)
    ensures MapInv(Do(r, ReclaimTable(cutoff)))
  {
    var r' := Do(r, ReclaimTable(cutoff));
    forall f | Reaches(r, r.all, f)
      ensures At(r'.marks[r'.table], f) >= At(r.all, f) || r'.due[r'.table] >= At(r.all, f)
    {
      assert At(r.all, f) > cutoff;
      assert At(r.marks[r.table], f) >= At(r.all, f) || r.due[r.table] >= At(r.all, f);
    }
    StoreKeepsCovers(r, r'.marks[r'.table], r'.due[r'.table], r.countOf);
  }

  lemma ReclaimCountKeepsMapInv(r: Race)
    requires MapInv(r) && Enabled(r, ReclaimCount, Nothing)
    ensures MapInv(Do(r, ReclaimCount))
  {
  }

  /** A floor that covers a mark reaching the object is above the cutoff. */
  lemma ReclaimFloorKeepsCovers(r: Race, t: TableId)
    requires MapInv(r) && Enabled(r, ReclaimFloor, Nothing) && Covers(r, t)
    ensures Covers(Do(r, ReclaimFloor), t)
  {
  }

  lemma ReclaimFloorKeepsMapInv(r: Race)
    requires MapInv(r) && Enabled(r, ReclaimFloor, Nothing)
    ensures MapInv(Do(r, ReclaimFloor))
  {
    ReclaimFloorKeepsCovers(r, r.table);
    ReclaimFloorKeepsCovers(r, r.countOf);
  }

  lemma ReclaimFloorKeepsProbeInv(r: Race)
    requires Inv(r) && Enabled(r, ReclaimFloor, Nothing)
    ensures ProbeInv(Do(r, ReclaimFloor))
  {
  }

  lemma ProbeStepKeepsMapInv(r: Race, step: Step)
    requires MapInv(r) && Enabled(r, step, Nothing)
    requires OfProbe(step)
    ensures Do(r, step) == r.(probe := Do(r, step).probe) && MapInv(Do(r, step))
  {
  }

  lemma BeginKeepsInv(r: Race)
    requires Inv(r) && Enabled(r, Begin, Nothing)
    ensures ProbeInv(Do(r, Begin))
  {
    if r.count == 0 {
      assert r.marks[r.countOf] == map[];
      assert forall f :: At(r.marks[r.countOf], f) == 0;
    }
  }

  lemma ReadFoldKeepsInv(r: Race, f: Fold)
    requires Inv(r) && Enabled(r, ReadFold(f), Nothing)
    ensures ProbeInv(Do(r, ReadFold(f)))
  {
  }

  lemma AnswerKeepsInv(r: Race, step: Step)
    requires Inv(r) && Enabled(r, step, Nothing) && (step.AnswerEmpty? || step.AnswerFloor?)
    ensures ProbeInv(Do(r, step))
  {
  }

  lemma TakeTableKeepsInv(r: Race)
    requires Inv(r) && Enabled(r, TakeTable, Nothing)
    ensures ProbeInv(Do(r, TakeTable))
  {
  }

  lemma ProbeStepKeepsInv(r: Race, step: Step)
    requires Inv(r) && Enabled(r, step, Nothing)
    requires OfProbe(step)
    ensures Inv(Do(r, step))
  {
    ProbeStepKeepsMapInv(r, step);
    match step
    case Begin => BeginKeepsInv(r);
    case TakeTable => TakeTableKeepsInv(r);
    case ReadFold(f) => ReadFoldKeepsInv(r, f);
    case AnswerEmpty => AnswerKeepsInv(r, step);
    case AnswerFloor => AnswerKeepsInv(r, step);
  }

  lemma MapStepKeepsMapInv(r: Race, step: Step)
    requires MapInv(r) && Enabled(r, step, Nothing) && !OfProbe(step)
    ensures MapInv(Do(r, step))
  {
    match step
    case Mark(f, q) => MarkKeepsMapInv(r, f, q);
    case Complete => CompleteKeepsMapInv(r);
    case Rebuild => RebuildKeepsMapInv(r);
    case PruneTable(keep, newFloor) => PruneTableKeepsMapInv(r, keep, newFloor);
    case PruneCount => PruneStepKeepsMapInv(r, step);
    case PruneFloor => PruneStepKeepsMapInv(r, step);
    case Keep => PruneStepKeepsMapInv(r, step);
    case RollbackTable => RollbackKeepsMapInv(r, step);
    case RollbackCount => RollbackKeepsMapInv(r, step);
    case RollbackFloor => RollbackKeepsMapInv(r, step);
    case ReclaimTable(cutoff) => ReclaimTableKeepsMapInv(r, cutoff);
    case ReclaimCount => ReclaimCountKeepsMapInv(r);
    case ReclaimFloor => ReclaimFloorKeepsMapInv(r);
  }

  lemma MarkKeepsProbeInv(r: Race, f: Fold, q: nat)
    requires Inv(r) && Enabled(r, Mark(f, q), Nothing)
    ensures ProbeInv(Do(r, Mark(f, q)))
  {
    MarkOnlyRaises(r, f, q);
    ProbeInvStays(r, Do(r, Mark(f, q)));
  }

  lemma NewTableKeepsProbeInv(r: Race, r': Race, marks: map<Fold, nat>, due: nat)
    requires Inv(r) && r' == Store(r, marks, due).(writer := r'.writer)
    ensures ProbeInv(r')
  {
    ProbeInvStays(r, r');
  }

  lemma StoreKeepsProbeInv(r: Race, step: Step)
    requires Inv(r) && Enabled(r, step, Nothing) && (step.Rebuild? || step.PruneTable? || step.ReclaimTable?)
    ensures ProbeInv(Do(r, step))
  {
    var r' := Do(r, step);
    NewTableKeepsProbeInv(r, r', r'.marks[r'.table], r'.due[r'.table]);
  }

  lemma OtherKeepsProbeInv(r: Race, step: Step)
    requires Inv(r) && Enabled(r, step, Nothing) && !OfProbe(step)
    requires !step.Mark? && !step.Rebuild? && !step.PruneTable? && !step.ReclaimTable? && !step.ReclaimFloor?
    ensures ProbeInv(Do(r, step))
  {
    ProbeInvStays(r, Do(r, step));
  }

  lemma MapStepKeepsProbeInv(r: Race, step: Step)
    requires Inv(r) && Enabled(r, step, Nothing) && !OfProbe(step)
    ensures ProbeInv(Do(r, step))
  {
    match step
    case Mark(f, q) => MarkKeepsProbeInv(r, f, q);
    case Rebuild => StoreKeepsProbeInv(r, step);
    case PruneTable(_, _) => StoreKeepsProbeInv(r, step);
    case ReclaimTable(_) => StoreKeepsProbeInv(r, step);
    case ReclaimFloor => ReclaimFloorKeepsProbeInv(r);
    case _ => OtherKeepsProbeInv(r, step);
  }

  lemma StepKeepsInv(r: Race, step: Step)
    requires Inv(r) && Enabled(r, step, Nothing)
    ensures Inv(Do(r, step))
  {
    if OfProbe(step) {
      ProbeStepKeepsInv(r, step);
    } else {
      MapStepKeepsMapInv(r, step);
      MapStepKeepsProbeInv(r, step);
    }
  }

  lemma {:induction false} RunKeepsInv(r: Race, steps: seq<Step>)
    requires Inv(r) && Legal(r, steps, Nothing)
    ensures Inv(After(r, steps, Nothing))
    decreases |steps|
  {
    if steps != [] {
      StepKeepsInv(r, steps[0]);
      RunKeepsInv(Do(r, steps[0]), steps[1..]);
    }
  }

  // ----- where the floor lags -----

  /** No table but the current one and those taken back is due a higher floor than the current, or original, one. */
  ghost predicate FloorsInOrder(r: Race) {
    var top := if r.writer.Idle? || r.writer.Reclaiming? then r.floor else r.writer.undo.floor;
    && r.table in r.due && (forall t :: t in r.due ==> t < r.unused)
    && (forall t :: t in r.due && t !in r.discarded && t != r.table ==> r.due[t] <= top)
    && top <= r.floor
    && match r.writer
       case Idle => r.due[r.table] == r.floor
       case Pruning(undo, floor, _) => r.due[r.table] == floor >= r.floor && undo.table in r.due && r.due[undo.table] == top
       case Pruned(undo) => r.due[r.table] == r.floor && undo.table in r.due && r.due[undo.table] == top
       case Undoing(undo, _) => r.table == undo.table && r.due[r.table] == top
       case Reclaiming(cutoff, _) => r.due[r.table] == Cut(r.floor, cutoff)
  }

  lemma StoreKeepsFloorsInOrder(r: Race, step: Step)
    requires FloorsInOrder(r) && Enabled(r, step, Everything)
    requires step.Rebuild? || step.PruneTable? || step.ReclaimTable?
    ensures FloorsInOrder(Do(r, step))
  {
  }

  lemma FloorKeepsFloorsInOrder(r: Race, step: Step)
    requires FloorsInOrder(r) && Enabled(r, step, Everything)
    requires step.PruneFloor? || step.RollbackTable? || step.RollbackFloor? || step.ReclaimFloor?
    ensures FloorsInOrder(Do(r, step))
  {
  }

  lemma OtherKeepsFloorsInOrder(r: Race, step: Step)
    requires FloorsInOrder(r) && Enabled(r, step, Everything)
    requires !step.Rebuild? && !step.PruneTable? && !step.ReclaimTable?
    requires !step.PruneFloor? && !step.RollbackTable? && !step.RollbackFloor? && !step.ReclaimFloor?
    ensures FloorsInOrder(Do(r, step))
  {
  }

  lemma StepKeepsFloorsInOrder(r: Race, step: Step)
    requires FloorsInOrder(r) && Enabled(r, step, Everything)
    ensures FloorsInOrder(Do(r, step))
  {
    match step
    case Rebuild => StoreKeepsFloorsInOrder(r, step);
    case PruneTable(_, _) => StoreKeepsFloorsInOrder(r, step);
    case ReclaimTable(_) => StoreKeepsFloorsInOrder(r, step);
    case PruneFloor => FloorKeepsFloorsInOrder(r, step);
    case RollbackTable => FloorKeepsFloorsInOrder(r, step);
    case RollbackFloor => FloorKeepsFloorsInOrder(r, step);
    case ReclaimFloor => FloorKeepsFloorsInOrder(r, step);
    case _ => OtherKeepsFloorsInOrder(r, step);
  }

  lemma {:induction false} RunKeepsFloorsInOrder(r: Race, steps: seq<Step>, allowed: Allowed)
    requires FloorsInOrder(r) && Legal(r, steps, allowed)
    ensures FloorsInOrder(After(r, steps, allowed))
    decreases |steps|
  {
    if steps != [] {
      StepKeepsFloorsInOrder(r, steps[0]);
      RunKeepsFloorsInOrder(Do(r, steps[0]), steps[1..], allowed);
    }
  }

  /** In every run the stored floor is below the one that belongs to a table only inside the prune that stored the table,
      or after a rollback has taken the table back.
  */
  lemma LagsInPruneOrAfterRollback(regSeq: nat, folds: set<Fold>, steps: seq<Step>, t: TableId)
    requires Legal(Start(regSeq, folds), steps, Everything)
    requires Lags(After(Start(regSeq, folds), steps, Everything), t)
    ensures var r := After(Start(regSeq, folds), steps, Everything);
            t in r.discarded || (r.writer.Pruning? && t == r.table)
  {
    RunKeepsFloorsInOrder(Start(regSeq, folds), steps, Everything);
  }

  lemma {:induction false} Extend(r: Race, steps: seq<Step>, step: Step, allowed: Allowed)
    requires Legal(r, steps, allowed)
    requires Enabled(After(r, steps, allowed), step, allowed) && Enabled(After(r, steps, allowed), step, Everything)
    ensures Legal(r, steps + [step], allowed)
    ensures After(r, steps + [step], allowed) == Do(After(r, steps, allowed), step)
    decreases |steps|
  {
    if steps == [] {
      assert steps + [step] == [step] && [step][1..] == [];
    } else {
      Extend(Do(r, steps[0]), steps[1..], step, allowed);
      assert (steps + [step])[1..] == steps[1..] + [step];
    }
  }

  const Original0 := Original(0, 1, 0)

  const Marks1: map<TableId, map<Fold, nat>> := map[0 := map[7 := 1], 1 := map[]]

  /** Purge 1 marks fold 7 and completes; a prune stores a table without it, whose floor is to be 1. */
  lemma PruneStored(allowed: Allowed) returns (steps: seq<Step>)
    ensures Legal(Start(0, {7}), steps, allowed)
    ensures After(Start(0, {7}), steps, allowed) ==
            Race(0, {7}, Marks1, map[0 := 0, 1 := 1], 1, 1, 0, 0, map[7 := 1], map[7 := 1], {1},
                 Pruning(Original0, 1, false), 2, {}, NotStarted)
  {
    var r := Start(0, {7});
    steps := [];
    Extend(r, steps, Mark(7, 1), allowed);
    steps := steps + [Mark(7, 1)];
    assert |map[7 := 1]| == 1 && After(r, steps, allowed).count == 1;
    Extend(r, steps, Complete, allowed);
    steps := steps + [Complete];
    assert MarksOf(After(r, steps, allowed), 0) == map[7 := 1] && 7 in MarksOf(After(r, steps, allowed), 0);
    Extend(r, steps, PruneTable({}, 1), allowed);
    steps := steps + [PruneTable({}, 1)];
  }

  /** A probe of an object registered before that purge, run before the floor store, finds nothing. */
  lemma OverlapMisses() returns (steps: seq<Step>)
    ensures Legal(Start(0, {7}), steps, Allowed(true, false))
    ensures !Sound(After(Start(0, {7}), steps, Allowed(true, false)))
  {
    var r, allowed := Start(0, {7}), Allowed(true, false);
    steps := PruneStored(allowed);
    Extend(r, steps, Begin, allowed);
    steps := steps + [Begin];
    Extend(r, steps, TakeTable, allowed);
    steps := steps + [TakeTable];
    Extend(r, steps, ReadFold(7), allowed);
    steps := steps + [ReadFold(7)];
    Extend(r, steps, AnswerFloor, allowed);
    steps := steps + [AnswerFloor];
    assert At(After(r, steps, allowed).probe.seen, 7) == 1;
  }

  /** The prune stores everything. */
  lemma PruneFinished(allowed: Allowed) returns (steps: seq<Step>)
    ensures Legal(Start(0, {7}), steps, allowed)
    ensures After(Start(0, {7}), steps, allowed) ==
            Race(0, {7}, Marks1, map[0 := 0, 1 := 1], 1, 0, 1, 1, map[7 := 1], map[7 := 1], {1},
                 Pruned(Original0), 2, {}, NotStarted)
  {
    var r := Start(0, {7});
    steps := PruneStored(allowed);
    Extend(r, steps, PruneCount, allowed);
    steps := steps + [PruneCount];
    assert Marks1[1] == map[] && After(r, steps, allowed).count == 0;
    Extend(r, steps, PruneFloor, allowed);
    steps := steps + [PruneFloor];
  }

  /** A probe reads the replacement. */
  lemma ReplacementRead(allowed: Allowed) returns (steps: seq<Step>)
    ensures Legal(Start(0, {7}), steps, allowed)
    ensures After(Start(0, {7}), steps, allowed) ==
            Race(0, {7}, Marks1, map[0 := 0, 1 := 1], 1, 0, 1, 1, map[7 := 1], map[7 := 1], {1},
                 Pruned(Original0), 2, {}, Reading(map[7 := 1], 1, {}, false))
  {
    var r := Start(0, {7});
    steps := PruneFinished(allowed);
    Extend(r, steps, Begin, allowed);
    steps := steps + [Begin];
    Extend(r, steps, TakeTable, allowed);
    steps := steps + [TakeTable];
    Extend(r, steps, ReadFold(7), allowed);
    steps := steps + [ReadFold(7)];
    assert After(r, steps, allowed).probe.unread == {};
  }

  /** A probe that has read the replacement and loads the floor after the rollback finds nothing either, though it began
      after the prune's last store.
  */
  lemma RollbackMisses() returns (steps: seq<Step>)
    ensures Legal(Start(0, {7}), steps, Allowed(false, true))
    ensures !Sound(After(Start(0, {7}), steps, Allowed(false, true)))
  {
    var r, allowed := Start(0, {7}), Allowed(false, true);
    steps := ReplacementRead(allowed);
    Extend(r, steps, RollbackTable, allowed);
    steps := steps + [RollbackTable];
    Extend(r, steps, RollbackCount, allowed);
    steps := steps + [RollbackCount];
    Extend(r, steps, RollbackFloor, allowed);
    steps := steps + [RollbackFloor];
    Extend(r, steps, AnswerFloor, allowed);
    steps := steps + [AnswerFloor];
    assert At(After(r, steps, allowed).probe.seen, 7) == 1;
  }

  /** For every object, a probe never misses a purge completed before it began, in any interleaving with marks, rebuilds,
      reclaims, prunes and their rollbacks, exactly when no probe gives its answer while the stored floor is below the one that
      belongs to the table, or the entry count, it has read: neither inside the prune that stored that table nor after
      that prune was rolled back.
  */
  lemma SoundUnlessFloorLags(allowed: Allowed)
    ensures (forall regSeq: nat, folds, steps :: Legal(Start(regSeq, folds), steps, allowed) ==>
               Sound(After(Start(regSeq, folds), steps, allowed)))
            <==> !allowed.inPrune && !allowed.afterRollback
  {
    if allowed.inPrune {
      var steps := OverlapMisses();
      MoreAllowed(Start(0, {7}), steps, Allowed(true, false), allowed);
    } else if allowed.afterRollback {
      var steps := RollbackMisses();
      MoreAllowed(Start(0, {7}), steps, Allowed(false, true), allowed);
    } else {
      forall regSeq: nat, folds, steps | Legal(Start(regSeq, folds), steps, Nothing)
        ensures Sound(After(Start(regSeq, folds), steps, Nothing))
      {
        RunKeepsInv(Start(regSeq, folds), steps);
      }
    }
  }

  lemma {:induction false} MoreAllowed(r: Race, steps: seq<Step>, allowed: Allowed, more: Allowed)
    requires Legal(r, steps, allowed)
    requires (allowed.inPrune ==> more.inPrune) && (allowed.afterRollback ==> more.afterRollback)
    ensures Legal(r, steps, more) && After(r, steps, more) == After(r, steps, allowed)
    decreases |steps|
  {
    if steps != [] { MoreAllowed(Do(r, steps[0]), steps[1..], allowed, more); }
  }

  // ----- never stale for nothing -----

  /** Some fold has been marked at least as lately as `q`. */
  ghost predicate Issued(r: Race, q: nat) { q == 0 || exists f :: At(r.all, f) >= q }

  /** Tables and floors come only from marks that were made, and so does what the probe has found. */
  ghost predicate TablesTrue(r: Race) {
    && (forall t, f :: t in r.marks ==> At(r.marks[t], f) <= At(r.all, f))
    && (forall t :: t in r.due ==> Issued(r, r.due[t]))
  }

  ghost predicate FloorsTrue(r: Race) {
    && Issued(r, r.floor)
    && (r.writer.Pruning? ==> Issued(r, r.writer.floor))
    && (r.writer.Pruning? || r.writer.Pruned? || r.writer.Undoing? ==> Issued(r, r.writer.undo.floor))
  }

  ghost predicate FindingTrue(r: Race) {
    && (r.probe.Reading? && r.probe.found ==> exists f :: Reaches(r, r.all, f))
    && (r.probe.Answered? && r.probe.stale ==> exists f :: At(r.all, f) > r.regSeq)
  }

  lemma IssuedStays(r: Race, r': Race, q: nat)
    requires Issued(r, q) && forall f :: At(r.all, f) <= At(r'.all, f)
    ensures Issued(r', q)
  {
    if q > 0 {
      var f :| At(r.all, f) >= q;
      assert At(r'.all, f) >= q;
    }
  }

  lemma CutIsIssued(r: Race, q: nat, cutoff: nat)
    requires Issued(r, q)
    ensures Issued(r, Cut(q, cutoff))
  {
  }

  lemma AllGrows(r: Race, step: Step)
    requires Enabled(r, step, Everything)
    ensures forall f :: At(r.all, f) <= At(Do(r, step).all, f)
    ensures Do(r, step).regSeq == r.regSeq && Do(r, step).folds == r.folds
  {
  }

  lemma StepKeepsMarksTrue(r: Race, step: Step)
    requires TablesTrue(r) && Enabled(r, step, Everything)
    ensures forall t, f :: t in Do(r, step).marks ==> At(Do(r, step).marks[t], f) <= At(Do(r, step).all, f)
  {
    AllGrows(r, step);
  }

  lemma NewFloorIsIssued(r: Race, keep: set<Fold>, newFloor: nat)
    requires TablesTrue(r) && FloorsTrue(r) && Enabled(r, PruneTable(keep, newFloor), Everything)
    ensures Issued(r, newFloor)
  {
    if newFloor != r.floor {
      var f :| f in MarksOf(r, r.table) && f !in keep && newFloor == MarksOf(r, r.table)[f];
      assert r.table in r.marks && At(r.marks[r.table], f) == newFloor;
      assert At(r.all, f) >= newFloor;
    }
  }

  lemma StepKeepsDueTrue(r: Race, step: Step, t: TableId)
    requires TablesTrue(r) && FloorsTrue(r) && Enabled(r, step, Everything) && t in Do(r, step).due
    ensures Issued(Do(r, step), Do(r, step).due[t])
  {
    AllGrows(r, step);
    if step.PruneTable? { NewFloorIsIssued(r, step.keep, step.newFloor); }
    if t in r.due { IssuedStays(r, Do(r, step), r.due[t]); }
    if r.table in r.due { IssuedStays(r, Do(r, step), r.due[r.table]); }
  }

  lemma StepKeepsFloorsTrue(r: Race, step: Step)
    requires TablesTrue(r) && FloorsTrue(r) && Enabled(r, step, Everything)
    ensures FloorsTrue(Do(r, step))
  {
    AllGrows(r, step);
    if step.PruneTable? { NewFloorIsIssued(r, step.keep, step.newFloor); }
    IssuedStays(r, Do(r, step), r.floor);
    if r.writer.Pruning? { IssuedStays(r, Do(r, step), r.writer.floor); }
    if r.writer.Pruning? || r.writer.Pruned? || r.writer.Undoing? { IssuedStays(r, Do(r, step), r.writer.undo.floor); }
  }

  /** What an answer to stale rests on: a mark on one of the object's folds, or the floor. */
  lemma StepKeepsFindingTrue(r: Race, step: Step)
    requires TablesTrue(r) && FloorsTrue(r) && FindingTrue(r) && Enabled(r, step, Everything)
    requires r.probe.Reading? ==> r.probe.unread <= r.folds
    ensures FindingTrue(Do(r, step))
  {
    AllGrows(r, step);
    var r' := Do(r, step);
    if r.probe.Reading? && r.probe.found {
      var f :| Reaches(r, r.all, f);
      assert Reaches(r', r'.all, f) && At(r'.all, f) > r.regSeq;
    } else if step.ReadFold? && r'.probe.found {
      assert Reaches(r', r'.all, step.fold);
    } else if step.AnswerFloor? && r'.probe.stale {
      var f :| At(r.all, f) >= r.floor;
      assert At(r'.all, f) > r.regSeq;
    } else if r.probe.Answered? && r.probe.stale {
      var f :| At(r.all, f) > r.regSeq;
      assert At(r'.all, f) > r.regSeq;
    }
  }

  ghost predicate AllTrue(r: Race) {
    TablesTrue(r) && FloorsTrue(r) && FindingTrue(r) && (r.probe.Reading? ==> r.probe.unread <= r.folds)
  }

  lemma StepKeepsUnread(r: Race, step: Step)
    requires Enabled(r, step, Everything) && (r.probe.Reading? ==> r.probe.unread <= r.folds)
    ensures Do(r, step).probe.Reading? ==> Do(r, step).probe.unread <= Do(r, step).folds
  {
  }

  lemma {:induction false} RunKeepsTrue(r: Race, steps: seq<Step>, allowed: Allowed)
    requires AllTrue(r) && Legal(r, steps, allowed)
    ensures AllTrue(After(r, steps, allowed))
    decreases |steps|
  {
    if steps != [] {
      StepKeepsTrue(r, steps[0]);
      RunKeepsTrue(Do(r, steps[0]), steps[1..], allowed);
    }
  }

  lemma StepKeepsTrue(r: Race, step: Step)
    requires AllTrue(r) && Enabled(r, step, Everything)
    ensures AllTrue(Do(r, step))
  {
    StepKeepsMarksTrue(r, step);
    forall t | t in Do(r, step).due
      ensures Issued(Do(r, step), Do(r, step).due[t])
    {
      StepKeepsDueTrue(r, step, t);
    }
    StepKeepsFloorsTrue(r, step);
    StepKeepsFindingTrue(r, step);
    StepKeepsUnread(r, step);
  }

  /** In every run, whatever a probe overlaps with, it answers that the object is stale only if a purge has marked a fold
      since the object registered; and, when the floor it loads is not above that registration, one of the object's own.
  */
  lemma StaleOnlyAfterPurge(regSeq: nat, folds: set<Fold>, steps: seq<Step>)
    requires Legal(Start(regSeq, folds), steps, Everything)
    ensures var r := After(Start(regSeq, folds), steps, Everything);
            && (r.probe.Answered? && r.probe.stale ==> exists f :: At(r.all, f) > r.regSeq)
            && (Enabled(r, AnswerFloor, Everything) && Do(r, AnswerFloor).probe.stale && r.floor <= r.regSeq ==>
                  exists f :: f in r.folds && At(r.all, f) > r.regSeq)
  {
    RunKeepsTrue(Start(regSeq, folds), steps, Everything);
    var r := After(Start(regSeq, folds), steps, Everything);
    if Enabled(r, AnswerFloor, Everything) && Do(r, AnswerFloor).probe.stale && r.floor <= r.regSeq {
      var f :| Reaches(r, r.all, f);
    }
  }
}
