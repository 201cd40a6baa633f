/** What a purge map records and what a probe of it answers, as values.

    Every purge gets the next sequence number and marks its folds with it.  An object remembers the sequence it
    registered under; a mark above that sequence invalidates it.  Pruning trades the oldest marks for floors that count
    against every fold; reclaiming drops marks no living object can need.
*/
module PurgeHistory {

  type Fold = nat

  datatype Mode = Hard | Soft

  datatype Purge = Purge(folds: set<Fold>, mode: Mode)

  /** The newest hard and soft sequence of one fold; zero means never. */
  datatype Marks = Marks(hard: nat, soft: nat) {
    function Newest(): nat { if hard > soft then hard else soft }
    function Of(mode: Mode): nat { if mode == Hard then hard else soft }
  }

  datatype Result = Fresh | HardStale | SoftStale

  datatype History = History(entries: map<Fold, Marks>, hardFloor: nat, softFloor: nat) {
    function Floor(mode: Mode): nat { if mode == Hard then hardFloor else softFloor }
  }

  const Empty := History(map[], 0, 0)

  /** Some mark of `mode` on one of `folds`, or the floor, is newer than `regSeq`. */
  ghost predicate Newer(h: History, mode: Mode, regSeq: nat, folds: set<Fold>) {
    || h.Floor(mode) > regSeq
    || exists f :: f in folds && f in h.entries && h.entries[f].Of(mode) > regSeq
  }

  ghost function Probe(h: History, regSeq: nat, folds: set<Fold>): Result {
    if Newer(h, Hard, regSeq, folds) then HardStale
    else if Newer(h, Soft, regSeq, folds) then SoftStale
    else Fresh
  }

  // ----- the operations -----

  function UpsertMarks(entries: map<Fold, Marks>, fold: Fold, q: nat, mode: Mode): map<Fold, Marks> {
    if fold !in entries then
      entries[fold := if mode == Hard then Marks(q, 0) else Marks(0, q)]
    else if mode == Hard && entries[fold].hard < q then
      entries[fold := entries[fold].(hard := q)]
    else if mode == Soft && entries[fold].soft < q then
      entries[fold := entries[fold].(soft := q)]
    else
      entries
  }

  function Upsert(h: History, fold: Fold, q: nat, mode: Mode): History {
    h.(entries := UpsertMarks(h.entries, fold, q, mode))
  }

  function Survivors(entries: map<Fold, Marks>, cutoff: nat): map<Fold, Marks> {
    map f | f in entries && entries[f].Newest() > cutoff :: entries[f]
  }

  /** `floor` is the greatest of `before` and the marks of `mode` that the cutoff removes. */
  ghost predicate IsFloor(floor: nat, before: nat, entries: map<Fold, Marks>, cutoff: nat, mode: Mode) {
    && floor >= before
    && (forall f :: f in entries && entries[f].Newest() <= cutoff ==> floor >= entries[f].Of(mode))
    && (floor == before || exists f :: f in entries && entries[f].Newest() <= cutoff && floor == entries[f].Of(mode))
  }

  /** `h'` is `h` with every entry no newer than `cutoff` promoted to the floors. */
  ghost predicate IsPrune(h: History, h': History, cutoff: nat) {
    && h'.entries == Survivors(h.entries, cutoff)
    && IsFloor(h'.hardFloor, h.hardFloor, h.entries, cutoff, Hard)
    && IsFloor(h'.softFloor, h.softFloor, h.entries, cutoff, Soft)
  }

  function Cut(q: nat, cutoff: nat): nat { if q <= cutoff then 0 else q }

  function CutMarks(m: Marks, cutoff: nat): Marks { Marks(Cut(m.hard, cutoff), Cut(m.soft, cutoff)) }

  function Reclaimed(entries: map<Fold, Marks>, cutoff: nat): map<Fold, Marks> {
    map f | f in entries && CutMarks(entries[f], cutoff) != Marks(0, 0) :: CutMarks(entries[f], cutoff)
  }

  function Reclaim(h: History, cutoff: nat): History {
    History(Reclaimed(h.entries, cutoff), Cut(h.hardFloor, cutoff), Cut(h.softFloor, cutoff))
  }

  // ----- what each operation does to probes -----

  /** An upsert adds exactly its own mark: a probe sees it when the fold is asked for and the sequence is newer. */
  lemma UpsertProbe(h: History, fold: Fold, q: nat, mode: Mode, m: Mode, regSeq: nat, folds: set<Fold>)
    ensures Newer(Upsert(h, fold, q, mode), m, regSeq, folds)
            <==> Newer(h, m, regSeq, folds) || (m == mode && fold in folds && q > regSeq)
  {
    var h' := Upsert(h, fold, q, mode);
    if Newer(h, m, regSeq, folds) && h.Floor(m) <= regSeq {
      var f :| f in folds && f in h.entries && h.entries[f].Of(m) > regSeq;
      assert f in h'.entries && h'.entries[f].Of(m) > regSeq;
    }
    if m == mode && fold in folds && q > regSeq {
      assert fold in h'.entries && h'.entries[fold].Of(m) > regSeq;
    }
  }

  /** Pruning never hides an invalidation. */
  lemma PruneKeepsStale(h: History, h': History, cutoff: nat, mode: Mode, regSeq: nat, folds: set<Fold>)
    requires IsPrune(h, h', cutoff) && Newer(h, mode, regSeq, folds)
    ensures Newer(h', mode, regSeq, folds)
  {
    if h.Floor(mode) <= regSeq {
      var f :| f in folds && f in h.entries && h.entries[f].Of(mode) > regSeq;
      if h.entries[f].Newest() > cutoff { assert f in h'.entries && h'.entries[f].Of(mode) > regSeq; }
    }
  }

  /** What pruning over-invalidates: an object is newly stale exactly because a removed mark was newer than it. */
  lemma PruneAddsStale(h: History, h': History, cutoff: nat, mode: Mode, regSeq: nat, folds: set<Fold>)
    requires IsPrune(h, h', cutoff)
    ensures Newer(h', mode, regSeq, folds) <==>
            || Newer(h, mode, regSeq, folds)
            || exists f :: f in h.entries && h.entries[f].Newest() <= cutoff && h.entries[f].Of(mode) > regSeq
  {
    if Newer(h, mode, regSeq, folds) { PruneKeepsStale(h, h', cutoff, mode, regSeq, folds); }
    if Newer(h', mode, regSeq, folds) && h'.Floor(mode) <= regSeq {
      var f :| f in folds && f in h'.entries && h'.entries[f].Of(mode) > regSeq;
      assert f in h.entries && h.entries[f].Of(mode) > regSeq;
    }
  }

  /** An object registered at or after the cutoff is judged by the pruned map exactly as before. */
  lemma PruneIsExactAboveCutoff(h: History, h': History, cutoff: nat, regSeq: nat, folds: set<Fold>)
    requires IsPrune(h, h', cutoff) && regSeq >= cutoff
    ensures Probe(h', regSeq, folds) == Probe(h, regSeq, folds)
  {
    PruneAddsStale(h, h', cutoff, Hard, regSeq, folds);
    PruneAddsStale(h, h', cutoff, Soft, regSeq, folds);
  }

  /** Reclaiming forgets exactly the marks at or below the cutoff: an object registered at or after it is judged as
      before, and an older object as if it had registered at the cutoff.
  */
  lemma ReclaimProbe(h: History, cutoff: nat, regSeq: nat, folds: set<Fold>)
    ensures Probe(Reclaim(h, cutoff), regSeq, folds) == Probe(h, if regSeq < cutoff then cutoff else regSeq, folds)
  {
    ReclaimNewer(h, cutoff, Hard, regSeq, folds);
    ReclaimNewer(h, cutoff, Soft, regSeq, folds);
  }

  lemma ReclaimNewer(h: History, cutoff: nat, mode: Mode, regSeq: nat, folds: set<Fold>)
    ensures Newer(Reclaim(h, cutoff), mode, regSeq, folds)
            <==> Newer(h, mode, if regSeq < cutoff then cutoff else regSeq, folds)
  {
    var h' := Reclaim(h, cutoff);
    var from := if regSeq < cutoff then cutoff else regSeq;
    if h.Floor(mode) <= from {
      if f :| f in folds && f in h.entries && h.entries[f].Of(mode) > from {
        assert f in h'.entries && h'.entries[f].Of(mode) > regSeq;
      }
      if f :| f in folds && f in h'.entries && h'.entries[f].Of(mode) > regSeq {
        assert f in h.entries && h.entries[f].Of(mode) > from;
      }
    }
  }

  // ----- the meaning of a history -----

  /** Purge number `i + 1` of the list reaches an object: same mode, a common fold, and after its registration. */
  predicate Hits(purges: seq<Purge>, i: nat, mode: Mode, regSeq: nat, folds: set<Fold>)
    requires i < |purges|
  {
    purges[i].mode == mode && i >= regSeq && purges[i].folds * folds != {}
  }

  ghost predicate Reached(purges: seq<Purge>, mode: Mode, regSeq: nat, folds: set<Fold>) {
    exists i: nat :: i < |purges| && Hits(purges, i, mode, regSeq, folds)
  }

  /** The answer a probe should give: what the purges issued after registration did to the object. */
  ghost function Verdict(purges: seq<Purge>, regSeq: nat, folds: set<Fold>): Result {
    if Reached(purges, Hard, regSeq, folds) then HardStale
    else if Reached(purges, Soft, regSeq, folds) then SoftStale
    else Fresh
  }

  /** `h` answers for the purge list, for objects registered at or after `since`: exactly when they registered at or
      after `lost` too, and otherwise at least as severely.
  */
  ghost predicate Represents(h: History, purges: seq<Purge>, since: nat, lost: nat) {
    && (forall mode, regSeq: nat, folds :: regSeq >= since && Reached(purges, mode, regSeq, folds)
          ==> Newer(h, mode, regSeq, folds))
    && (forall mode, regSeq: nat, folds :: regSeq >= lost && Newer(h, mode, regSeq, folds)
          ==> Reached(purges, mode, regSeq, folds))
  }

  lemma RepresentsMeansVerdict(h: History, purges: seq<Purge>, since: nat, lost: nat, regSeq: nat, folds: set<Fold>)
    requires Represents(h, purges, since, lost) && regSeq >= since
    ensures regSeq >= lost ==> Probe(h, regSeq, folds) == Verdict(purges, regSeq, folds)
    ensures Verdict(purges, regSeq, folds) == HardStale ==> Probe(h, regSeq, folds) == HardStale
    ensures Verdict(purges, regSeq, folds) == SoftStale ==> Probe(h, regSeq, folds) != Fresh
  {
  }

  function FoldSet(folds: seq<Fold>): set<Fold> {
    set f | f in folds
  }

  /** Marking every fold of a purge, in any order. */
  ghost function UpsertAll(h: History, folds: seq<Fold>, q: nat, mode: Mode): History
    decreases |folds|
  {
    if folds == [] then h else UpsertAll(Upsert(h, folds[0], q, mode), folds[1..], q, mode)
  }

  lemma {:induction false} UpsertAllNewer(h: History, marked: seq<Fold>, q: nat, mode: Mode, m: Mode, regSeq: nat, folds: set<Fold>)
    ensures Newer(UpsertAll(h, marked, q, mode), m, regSeq, folds)
            <==> Newer(h, m, regSeq, folds) || (m == mode && q > regSeq && exists f :: f in marked && f in folds)
    decreases |marked|
  {
    if marked != [] {
      UpsertProbe(h, marked[0], q, mode, m, regSeq, folds);
      UpsertAllNewer(Upsert(h, marked[0], q, mode), marked[1..], q, mode, m, regSeq, folds);
      assert forall f :: f in marked <==> f == marked[0] || f in marked[1..];
    }
  }

  lemma ReachedBySnoc(purges: seq<Purge>, p: Purge, mode: Mode, regSeq: nat, folds: set<Fold>)
    ensures Reached(purges + [p], mode, regSeq, folds)
            <==> Reached(purges, mode, regSeq, folds) || (p.mode == mode && |purges| >= regSeq && p.folds * folds != {})
  {
    var all := purges + [p];
    if Reached(purges, mode, regSeq, folds) {
      var i: nat :| i < |purges| && Hits(purges, i, mode, regSeq, folds);
      assert Hits(all, i, mode, regSeq, folds);
    }
    if p.mode == mode && |purges| >= regSeq && p.folds * folds != {} {
      assert Hits(all, |purges|, mode, regSeq, folds);
    }
    if i: nat :| i < |all| && Hits(all, i, mode, regSeq, folds) {
      if i < |purges| { assert Hits(purges, i, mode, regSeq, folds); }
    }
  }

  /** A completed purge extends the meaning of the map by exactly that purge. */
  lemma PurgeRepresents(h: History, purges: seq<Purge>, since: nat, lost: nat, marked: seq<Fold>, mode: Mode)
    requires Represents(h, purges, since, lost)
    ensures Represents(UpsertAll(h, marked, |purges| + 1, mode), purges + [Purge(FoldSet(marked), mode)], since, lost)
  {
    var p := Purge(FoldSet(marked), mode);
    var h' := UpsertAll(h, marked, |purges| + 1, mode);
    forall m, regSeq: nat, folds
      ensures regSeq >= since && Reached(purges + [p], m, regSeq, folds) ==> Newer(h', m, regSeq, folds)
      ensures regSeq >= lost && Newer(h', m, regSeq, folds) ==> Reached(purges + [p], m, regSeq, folds)
    {
      ReachedBySnoc(purges, p, m, regSeq, folds);
      UpsertAllNewer(h, marked, |purges| + 1, mode, m, regSeq, folds);
      if p.folds * folds != {} {
        var f :| f in p.folds * folds;
        assert f in marked && f in folds;
      }
      if f :| f in marked && f in folds { assert f in p.folds * folds; }
    }
  }

  function Max(a: nat, b: nat): nat { if a < b then b else a }

  /** Pruning loses exactness only for objects registered before its cutoff. */
  lemma PruneRepresents(h: History, h': History, cutoff: nat, purges: seq<Purge>, since: nat, lost: nat)
    requires Represents(h, purges, since, lost) && IsPrune(h, h', cutoff)
    ensures Represents(h', purges, since, Max(cutoff, lost))
  {
    forall m, regSeq: nat, folds | regSeq >= since && Reached(purges, m, regSeq, folds)
      ensures Newer(h', m, regSeq, folds)
    {
      PruneKeepsStale(h, h', cutoff, m, regSeq, folds);
    }
    forall m, regSeq: nat, folds | regSeq >= cutoff && regSeq >= lost && Newer(h', m, regSeq, folds)
      ensures Reached(purges, m, regSeq, folds)
    {
      PruneAddsStale(h, h', cutoff, m, regSeq, folds);
    }
  }

  /** Reclaiming stops answering for objects registered before its cutoff, and changes nothing for the others. */
  lemma ReclaimRepresents(h: History, cutoff: nat, purges: seq<Purge>, since: nat, lost: nat)
    requires Represents(h, purges, since, lost)
    ensures Represents(Reclaim(h, cutoff), purges, Max(cutoff, since), lost)
  {
    forall m, regSeq: nat, folds
      ensures regSeq >= cutoff && regSeq >= since && Reached(purges, m, regSeq, folds)
              ==> Newer(Reclaim(h, cutoff), m, regSeq, folds)
      ensures regSeq >= lost && Newer(Reclaim(h, cutoff), m, regSeq, folds) ==> Reached(purges, m, regSeq, folds)
    {
      ReclaimNewer(h, cutoff, m, regSeq, folds);
      if regSeq < cutoff && Newer(h, m, cutoff, folds) { assert Newer(h, m, regSeq, folds); }
    }
  }
}
