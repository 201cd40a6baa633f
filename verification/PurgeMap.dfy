/** The purge map: the hash table with its counters, floors and sequence, as changed under the purge lock.

    The object carries the purges it has accepted as ghost state, and its invariant is that the map answers for them
    (`PurgeHistory.Represents`).  Rebuilding, pruning and reclaiming change the table but not what it must answer.
    Memory for a new table, a durable log record and a durable checkpoint may each fail; every operation takes them as
    arguments.
*/
module PurgeMap {
  import opened PurgeHistory
  import opened PurgeTable
  import opened TableCopies

  const EMPTY_MIN_DIVISOR := 8
  const MAX_SEQUENCE: nat := 0xFFFF_FFFF_FFFF_FFFF

  const DONE := -1
  const REFUSED := -2
  const NOT_DURABLE := -4

  /** A table of `n` slots with `entries` live and `tombs` tombstones is within the load the map keeps. */
  predicate Loaded(n: nat, entries: nat, tombs: nat) {
    && n >= INITIAL_SLOTS
    && entries * 100 <= n * MAX_LOAD_PERCENT + 100
    && (entries * 100 > n * MAX_LOAD_PERCENT ==> tombs == 0)
  }

  /** What a prune leaves: three quarters of the limit. */
  function Target(limit: nat): int {
    var target := limit * 75 / 100;
    if target >= limit then limit - 1 else target
  }

  /** Marking folds one after another needs no allocation when the table has room for all of them. */
  ghost predicate HasRoom(t: Table, more: nat)
    reads t.entries
  {
    && t.Valid()
    && |LiveSlots(t.entries[..])| + |Tombstones(t.entries[..])| + more < t.entries.Length
  }

  /** An exact map has no mark above the number of purges. */
  lemma MarksAreBounded(h: History, purges: seq<Purge>, since: nat, lost: nat)
    requires Represents(h, purges, since, lost) && lost <= |purges|
    ensures h.hardFloor <= |purges| && h.softFloor <= |purges|
    ensures forall f :: f in h.entries ==> h.entries[f].Newest() <= |purges|
  {
    assert !Newer(h, Hard, |purges|, {}) && !Newer(h, Soft, |purges|, {});
    forall f | f in h.entries
      ensures h.entries[f].Newest() <= |purges|
    {
      assert !Newer(h, Hard, |purges|, {f}) && !Newer(h, Soft, |purges|, {f});
      assert h.entries[f].Of(Hard) <= |purges| && h.entries[f].Of(Soft) <= |purges|;
    }
  }

  /** The least cutoff that makes room never reaches above the marks. */
  lemma CutoffIsAMark(m: map<Fold, Marks>, cutoff: nat, need: nat, top: nat)
    requires LeastCutoff(m, cutoff, need) && need <= |m|
    requires forall f :: f in m ==> m[f].Newest() <= top
    ensures cutoff <= top
  {
    assert OldFolds(m, top) == m.Keys;
  }

  /** `h'` is `h` pruned at the least cutoff that removes `need` entries. */
  ghost predicate PrunedAt(h: History, h': History, cutoff: nat, need: int) {
    need > 0 && IsPrune(h, h', cutoff) && LeastCutoff(h.entries, cutoff, need)
  }

  /** What is left of the map `h` after a prune that may be made (`can`): within the limit the map is not touched, and
      above it everything up to the least sufficient cutoff becomes floors, exactness being lost up to there.
  */
  ghost predicate Trimmed(limit: nat, can: bool, h: History, h': History, lost: nat, lost': nat) {
    if limit == 0 || |h.entries| <= limit || !can then h' == h && lost' == lost
    else exists cutoff: nat ::
      PrunedAt(h, h', cutoff, |h.entries| - Target(limit)) && lost' == Max(cutoff, lost)
      && |h'.entries| <= Target(limit)
  }

  lemma IsTrimmed(limit: nat, can: bool, h: History, h': History, lost: nat, lost': nat, cutoff: nat)
    requires if limit != 0 && |h.entries| > limit && can then
               PrunedAt(h, h', cutoff, |h.entries| - Target(limit)) && lost' == Max(cutoff, lost) && |h'.entries| <= Target(limit)
             else h' == h && lost' == lost
    ensures Trimmed(limit, can, h, h', lost, lost')
  {
  }

  lemma TrimmedFits(limit: nat, can: bool, h: History, h': History, lost: nat, lost': nat)
    requires Trimmed(limit, can, h, h', lost, lost') && limit != 0 && can
    ensures |h'.entries| <= limit
  {
  }

  /** Some mark is newer than the registration. */
  ghost predicate HasNewerMark(h: History, m: Mode, regSeq: nat) {
    exists f :: f in h.entries && h.entries[f].Of(m) > regSeq
  }

  lemma PrunedJudges(h: History, h': History, cutoff: nat, m: Mode, regSeq: nat, folds: set<Fold>)
    requires IsPrune(h, h', cutoff)
    ensures Newer(h, m, regSeq, folds) ==> Newer(h', m, regSeq, folds)
    ensures Newer(h', m, regSeq, folds) && !Newer(h, m, regSeq, folds) ==> regSeq < cutoff && HasNewerMark(h, m, regSeq)
  {
    PruneAddsStale(h, h', cutoff, m, regSeq, folds);
  }

  lemma TrimmedJudges(limit: nat, can: bool, h: History, h': History, lost: nat, lost': nat,
                      m: Mode, regSeq: nat, folds: set<Fold>)
    requires Trimmed(limit, can, h, h', lost, lost')
    ensures Newer(h, m, regSeq, folds) ==> Newer(h', m, regSeq, folds)
    ensures Newer(h', m, regSeq, folds) && !Newer(h, m, regSeq, folds) ==>
              limit != 0 && |h.entries| > limit && can && regSeq < lost' && HasNewerMark(h, m, regSeq)
  {
    if limit != 0 && |h.entries| > limit && can {
      var cutoff: nat :| PrunedAt(h, h', cutoff, |h.entries| - Target(limit)) && lost' == Max(cutoff, lost);
      PrunedJudges(h, h', cutoff, m, regSeq, folds);
    }
  }

  /** A purge asks for the object: it is of the mode, newer than the registration, and shares a fold. */
  predicate Asks(marked: seq<Fold>, q: nat, mode: Mode, m: Mode, regSeq: nat, folds: set<Fold>) {
    m == mode && q > regSeq && FoldSet(marked) * folds != {}
  }

  /** How the map judges after a purge and the prune behind it: as before, and besides as the purge asks, and, only if the
      map was above its limit, as a promoted mark asks of every object older than itself.
  */
  lemma PurgeJudges(limit: nat, can: bool, before: History, marked: seq<Fold>, q: nat, mode: Mode, after: History,
                    lost: nat, lost': nat, m: Mode, regSeq: nat, folds: set<Fold>)
    requires Trimmed(limit, can, UpsertAll(before, marked, q, mode), after, lost, lost')
    ensures Newer(before, m, regSeq, folds) || Asks(marked, q, mode, m, regSeq, folds) ==> Newer(after, m, regSeq, folds)
    ensures Newer(after, m, regSeq, folds) ==>
              || Newer(before, m, regSeq, folds)
              || Asks(marked, q, mode, m, regSeq, folds)
              || (var h := UpsertAll(before, marked, q, mode);
                  limit != 0 && |h.entries| > limit && can && regSeq < lost' && HasNewerMark(h, m, regSeq))
  {
    var h := UpsertAll(before, marked, q, mode);
    UpsertAllNewer(before, marked, q, mode, m, regSeq, folds);
    assert (exists f :: f in marked && f in folds) <==> FoldSet(marked) * folds != {} by {
      if FoldSet(marked) * folds != {} {
        var f :| f in FoldSet(marked) * folds;
        assert f in marked && f in folds;
      }
      if f :| f in marked && f in folds { assert f in FoldSet(marked) * folds; }
    }
    TrimmedJudges(limit, can, h, after, lost, lost', m, regSeq, folds);
  }

  /** An object that shares no fold with the purge, or registered after it, is judged as before, unless the map was above
      its limit and the object is older than the marks promoted.
  */
  lemma OthersJudgedAsBefore(limit: nat, can: bool, before: History, marked: seq<Fold>, q: nat, mode: Mode, after: History,
                             lost: nat, lost': nat, regSeq: nat, folds: set<Fold>)
    requires Trimmed(limit, can, UpsertAll(before, marked, q, mode), after, lost, lost')
    requires FoldSet(marked) * folds == {} || regSeq >= q
    requires limit == 0 || |UpsertAll(before, marked, q, mode).entries| <= limit || !can || regSeq >= lost'
    ensures Probe(after, regSeq, folds) == Probe(before, regSeq, folds)
  {
    PurgeJudges(limit, can, before, marked, q, mode, after, lost, lost', Hard, regSeq, folds);
    PurgeJudges(limit, can, before, marked, q, mode, after, lost, lost', Soft, regSeq, folds);
  }

  /** Severity order on probe results. */
  predicate AtLeast(r: Result, verdict: Result) {
    (verdict == HardStale ==> r == HardStale) && (verdict == SoftStale ==> r != Fresh)
  }

  lemma NewerSnoc(h: History, mode: Mode, regSeq: nat, folds: seq<Fold>, u: nat)
    requires u < |folds| && h.Floor(mode) == 0
    ensures Newer(h, mode, regSeq, FoldSet(folds[..u + 1])) <==>
            Newer(h, mode, regSeq, FoldSet(folds[..u])) || Newer(h, mode, regSeq, {folds[u]})
  {
    assert folds[..u + 1] == folds[..u] + [folds[u]];
    assert FoldSet(folds[..u + 1]) == FoldSet(folds[..u]) + {folds[u]};
  }

  lemma NewerGrows(h: History, regSeq: nat, folds: seq<Fold>, u: nat)
    requires u <= |folds| && Newer(h, Hard, regSeq, FoldSet(folds[..u]))
    ensures Newer(h, Hard, regSeq, FoldSet(folds))
  {
    assert FoldSet(folds[..u]) <= FoldSet(folds);
  }

  class Map {
    const maxEntries: nat
    var table: Table?
    var nentry: nat
    var ntombstone: nat
    var sequence: nat
    var memoSequence: nat
    var hardFloor: nat
    var softFloor: nat
    ghost var purges: seq<Purge>
    ghost var since: nat
    ghost var lost: nat

    ghost predicate TableIsCounted()
      reads this, if table == null then {} else {table.entries}
    {
      if table == null then nentry == 0 && ntombstone == 0
      else
        && table.Valid()
        && nentry == |LiveSlots(table.entries[..])|
        && ntombstone == |Tombstones(table.entries[..])|
    }

    ghost function View(): History
      requires TableIsCounted()
      reads this, if table == null then {} else {table.entries}
    {
      History(if table == null then map[] else table.Meaning(), hardFloor, softFloor)
    }

    ghost predicate Answers()
      requires TableIsCounted()
      reads this, if table == null then {} else {table.entries}
    {
      && |purges| == sequence <= MAX_SEQUENCE
      && since <= sequence
      && lost <= sequence
      && Represents(View(), purges, since, lost)
    }

    ghost predicate Valid()
      reads this, if table == null then {} else {table.entries}
    {
      && TableIsCounted()
      && (table != null ==> Loaded(table.entries.Length, nentry, ntombstone))
      && Answers()
    }

    /** The purges accepted, and what the map still answers for, are as before. */
    twostate predicate SameHistory()
      reads this
    {
      && purges == old(purges) && since == old(since) && lost == old(lost)
      && sequence == old(sequence) && memoSequence == old(memoSequence)
    }

    twostate predicate KeepsTableOrNew()
      reads this
    {
      table == old(table) || table == null || (fresh(table) && fresh(table.entries))
    }

    constructor (limit: nat)
      ensures Valid() && maxEntries == limit && purges == [] && since == 0 && lost == 0
    {
      maxEntries := limit;
      table, nentry, ntombstone, sequence, memoSequence := null, 0, 0, 0, 0;
      hardFloor, softFloor := 0, 0;
      purges, since, lost := [], 0, 0;
    }

    method NeedsSameSizeRebuild() returns (b: bool)
      requires TableIsCounted() && (table != null ==> Loaded(table.entries.Length, nentry, ntombstone))
      ensures b ==> table != null && nentry * 100 <= table.entries.Length * MAX_LOAD_PERCENT
      ensures b <==> table != null &&
                     (table.entries.Length - nentry - ntombstone < Max(1, table.entries.Length / EMPTY_MIN_DIVISOR)
                      || ntombstone >= Max(1, table.entries.Length / EMPTY_MIN_DIVISOR))
      ensures !b && table != null ==>
                nentry + ntombstone + 1 < table.entries.Length
                && ntombstone * EMPTY_MIN_DIVISOR <= table.entries.Length
    {
      if table == null { return false; }
      var n := table.entries.Length;
      var threshold := if n / EMPTY_MIN_DIVISOR == 0 then 1 else n / EMPTY_MIN_DIVISOR;
      var occupied := nentry + ntombstone;
      var empty := if n > occupied then n - occupied else 0;
      return empty < threshold || ntombstone >= threshold;
    }

    /** `cachetag_purgemap_rebuild_locked` */
    method Rebuild(minSlots: nat, grow: bool, memory: bool) returns (ok: bool)
      requires TableIsCounted() && (table != null ==> Loaded(table.entries.Length, nentry, ntombstone))
      requires minSlots > 0
      modifies this
      ensures TableIsCounted() && ok == memory
      ensures !ok ==> table == old(table) && ntombstone == old(ntombstone)
      ensures ok ==> table != null && fresh(table) && fresh(table.entries) && ntombstone == 0
                     && table.entries.Length >= minSlots && table.entries.Length >= INITIAL_SLOTS
                     && table.entries.Length >= (if old(table) == null then 0 else old(table.entries.Length))
      ensures View() == old(View()) && nentry == old(nentry) && SameHistory()
    {
      var n := RebuildSlots(minSlots, grow);
      if !memory { return false; }
      var t := CopyTable(n);
      table, ntombstone := t, 0;
      return true;
    }

    method RebuildSlots(minSlots: nat, grow: bool) returns (n: nat)
      requires table != null ==> table.entries.Length >= INITIAL_SLOTS
      ensures n >= minSlots && n >= INITIAL_SLOTS && (table != null ==> n >= table.entries.Length)
    {
      n := if table == null then INITIAL_SLOTS else if grow then table.entries.Length * 2 else table.entries.Length;
      while n < minSlots
        invariant n >= INITIAL_SLOTS && (table != null ==> n >= table.entries.Length)
      {
        n := n * 2;
      }
    }

    method CopyTable(n: nat) returns (t: Table)
      requires TableIsCounted() && (table != null ==> Loaded(table.entries.Length, nentry, ntombstone))
      requires n >= INITIAL_SLOTS && (table != null ==> n >= table.entries.Length)
      ensures fresh(t) && fresh(t.entries) && t.Valid() && t.entries.Length == n
      ensures t.Meaning() == View().entries && Tombstones(t.entries[..]) == {}
      ensures |LiveSlots(t.entries[..])| == nentry
    {
      if table == null {
        t := new Table(n);
      } else {
        ContentsSize(table.entries[..]);
        t := CopyAll(table, n);
        ContentsSize(t.entries[..]);
      }
    }

    /** `cachetag_purgemap_prepare_upsert_locked`: room for one more fold. */
    method PrepareUpsert(memory: bool) returns (ok: bool)
      requires Valid()
      modifies this
      ensures Valid() && View() == old(View()) && SameHistory() && KeepsTableOrNew()
      ensures memory ==> ok
      ensures ok ==> table != null && HasRoom(table, 1) && Loaded(table.entries.Length, nentry + 1, ntombstone)
    {
      ok := true;
      var rebuild := NeedsSameSizeRebuild();
      if rebuild {
        ok := Rebuild(table.entries.Length, false, memory);
      } else if table == null || (nentry + 1) * 100 > table.entries.Length * MAX_LOAD_PERCENT {
        ok := Rebuild(if table == null then INITIAL_SLOTS else table.entries.Length * 2, true, memory);
      }
    }

    /** `cachetag_purgemap_prepare_batch_locked`: room for `more` folds, whether or not they are new. */
    method PrepareBatch(more: nat, memory: bool) returns (ok: bool)
      requires Valid()
      modifies this
      ensures Valid() && View() == old(View()) && SameHistory() && KeepsTableOrNew()
      ensures memory ==> ok
      ensures ok ==> table != null && HasRoom(table, more) && Loaded(table.entries.Length, nentry + more, ntombstone)
      ensures ok ==> (nentry + more) * 100 <= table.entries.Length * MAX_LOAD_PERCENT
    {
      var n := SlotsFor(if table == null then INITIAL_SLOTS else table.entries.Length, nentry + more);
      var grow := table == null || n > table.entries.Length;
      var rebuild := NeedsSameSizeRebuild();
      if !grow && !rebuild { return true; }
      ok := Rebuild(n, grow, memory);
    }

    /** `cachetag_purgemap_apply_upsert_locked` with its counters. */
    method MarkFold(f: Fold, q: nat, mode: Mode, ghost more: nat)
      requires IsFold(f) && TableIsCounted() && table != null && more > 0 && HasRoom(table, more)
      modifies `nentry, `ntombstone, table.entries
      ensures TableIsCounted() && HasRoom(table, more - 1)
      ensures View() == Upsert(old(View()), f, q, mode)
      ensures nentry <= old(nentry) + 1 && ntombstone <= old(ntombstone)
    {
      var created, reused := table.ApplyUpsert(f, q, mode);
      if reused { ntombstone := ntombstone - 1; }
      if created { nentry := nentry + 1; }
    }

    method MarkOne(f: Fold, q: nat, mode: Mode)
      requires IsFold(f) && TableIsCounted() && table != null && HasRoom(table, 1)
      modifies `nentry, `ntombstone, table.entries
      ensures TableIsCounted() && View() == UpsertAll(old(View()), [f], q, mode)
      ensures nentry <= old(nentry) + 1 && ntombstone <= old(ntombstone)
    {
      ghost var h := View();
      MarkFold(f, q, mode, 1);
      assert [f][1..] == [] && UpsertAll(Upsert(h, f, q, mode), [], q, mode) == Upsert(h, f, q, mode);
    }

    method MarkFolds(folds: seq<Fold>, q: nat, mode: Mode)
      requires (forall f :: f in folds ==> IsFold(f)) && TableIsCounted() && table != null && HasRoom(table, |folds|)
      modifies `nentry, `ntombstone, table.entries
      ensures TableIsCounted() && View() == UpsertAll(old(View()), folds, q, mode)
      ensures nentry <= old(nentry) + |folds| && ntombstone <= old(ntombstone)
    {
      ghost var h := View();
      for u := 0 to |folds|
        invariant TableIsCounted() && HasRoom(table, |folds| - u)
        invariant UpsertAll(View(), folds[u..], q, mode) == UpsertAll(h, folds, q, mode)
        invariant nentry <= old(nentry) + u && ntombstone <= old(ntombstone)
      {
        assert folds[u..][0] == folds[u] && folds[u..][1..] == folds[u + 1..];
        MarkFold(folds[u], q, mode, |folds| - u);
      }
    }

    /** `cachetag_purge` on a folded key, without the prune that follows it. */
    method PurgeFold(f: Fold, mode: Mode, memory: bool, durable: bool) returns (code: int)
      requires Valid() && IsFold(f)
      modifies this, if table == null then {} else {table.entries}
      ensures Valid() && KeepsTableOrNew() && memoSequence == old(memoSequence)
      ensures since == old(since) && lost == old(lost)
      ensures code == DONE ==> purges == old(purges) + [Purge({f}, mode)]
      ensures code == DONE ==> View() == UpsertAll(old(View()), [f], sequence, mode)
      ensures code != DONE ==> View() == old(View()) && SameHistory()
      ensures code == DONE || (code == REFUSED && (!memory || old(sequence) == MAX_SEQUENCE))
              || (code == NOT_DURABLE && !durable && old(sequence) < MAX_SEQUENCE)
      ensures memory && durable && old(sequence) < MAX_SEQUENCE ==> code == DONE
    {
      var ok := PrepareUpsert(memory);
      if !ok || sequence == MAX_SEQUENCE { return REFUSED; }
      if !durable { return NOT_DURABLE; }
      RecordOne(f, mode);
      return DONE;
    }

    /** The purge takes its sequence and marks its fold. */
    method RecordOne(f: Fold, mode: Mode)
      requires Valid() && IsFold(f) && table != null && HasRoom(table, 1) && sequence < MAX_SEQUENCE
      requires Loaded(table.entries.Length, nentry + 1, ntombstone)
      modifies `nentry, `ntombstone, `sequence, `purges, table.entries
      ensures Valid() && sequence == old(sequence) + 1 && purges == old(purges) + [Purge({f}, mode)]
      ensures View() == UpsertAll(old(View()), [f], sequence, mode)
    {
      ghost var h := View();
      sequence := sequence + 1;
      MarkOne(f, sequence, mode);
      Accept(h, [f], mode);
      assert FoldSet([f]) == {f};
    }

    /** `cachetag_purge_batch` on folded keys, without the prune that follows it: one sequence for the whole batch.
        `fits`: the log record could be built.
    */
    method PurgeFolds(folds: seq<Fold>, mode: Mode, memory: bool, fits: bool, durable: bool) returns (code: int)
      requires Valid() && forall f :: f in folds ==> IsFold(f)
      modifies this, if table == null then {} else {table.entries}
      ensures Valid() && KeepsTableOrNew() && memoSequence == old(memoSequence)
      ensures since == old(since) && lost == old(lost)
      ensures code == DONE ==> purges == old(purges) + [Purge(FoldSet(folds), mode)]
      ensures code == DONE ==> View() == UpsertAll(old(View()), folds, sequence, mode)
      ensures code != DONE ==> View() == old(View()) && SameHistory()
      ensures code == DONE || (code == REFUSED && (!memory || !fits || old(sequence) == MAX_SEQUENCE))
              || (code == NOT_DURABLE && fits && !durable && old(sequence) < MAX_SEQUENCE)
      ensures memory && fits && durable && old(sequence) < MAX_SEQUENCE ==> code == DONE
    {
      if sequence == MAX_SEQUENCE { return REFUSED; }
      var ok := PrepareBatch(|folds|, memory);
      if !ok { return REFUSED; }
      if !fits { return REFUSED; }
      if !durable { return NOT_DURABLE; }
      ghost var h := View();
      sequence := sequence + 1;
      MarkFolds(folds, sequence, mode);
      Accept(h, folds, mode);
      return DONE;
    }

    /** The ghost record of an accepted purge. */
    ghost method Accept(h: History, folds: seq<Fold>, mode: Mode)
      requires TableIsCounted() && |purges| + 1 == sequence <= MAX_SEQUENCE && since < sequence && lost < sequence
      requires Represents(h, purges, since, lost) && View() == UpsertAll(h, folds, sequence, mode)
      modifies `purges
      ensures Answers() && purges == old(purges) + [Purge(FoldSet(folds), mode)]
    {
      PurgeRepresents(h, purges, since, lost, folds, mode);
      purges := purges + [Purge(FoldSet(folds), mode)];
    }

    predicate Overfull()
      reads this
    {
      maxEntries != 0 && nentry > maxEntries
    }

    /** What an overfull map prunes: every mark up to the least cutoff that leaves at most the target. */
    method PlanPrune() returns (cutoff: nat, removed: nat)
      requires Valid() && Overfull()
      ensures LeastCutoff(View().entries, cutoff, nentry - Target(maxEntries))
      ensures removed <= nentry && nentry - removed == |Survivors(View().entries, cutoff)| <= Target(maxEntries)
      ensures cutoff <= sequence
    {
      ContentsSize(table.entries[..]);
      cutoff, removed := CutoffFor(table, nentry, nentry - Target(maxEntries));
      SurvivorsCount(View().entries, cutoff);
      MarksAreBounded(View(), purges, since, lost);
      CutoffIsAMark(View().entries, cutoff, nentry - Target(maxEntries), sequence);
    }

    /** `cachetag_purgemap_prune_locked`: above the limit, the oldest marks become floors. */
    method Prune(memory: bool) returns (ok: bool, pruned: nat, cutoff: nat)
      requires Valid()
      modifies this
      ensures Valid() && KeepsTableOrNew() && ok == (old(Overfull()) ==> memory)
      ensures sequence == old(sequence) && memoSequence == old(memoSequence)
      ensures purges == old(purges) && since == old(since)
      ensures !(ok && old(Overfull())) ==>
                pruned == 0 && View() == old(View()) && nentry == old(nentry) && lost == old(lost)
      ensures ok && old(Overfull()) ==>
                && PrunedAt(old(View()), View(), cutoff, old(nentry) - Target(maxEntries))
                && lost == Max(cutoff, old(lost))
                && pruned > 0 && nentry == old(nentry) - pruned <= Target(maxEntries)
    {
      if !Overfull() { return true, 0, 0; }
      if !memory { return false, 0, 0; }
      cutoff, pruned := PlanPrune();
      InstallSurvivors(cutoff, nentry - pruned);
      ok := true;
    }

    method InstallSurvivors(cutoff: nat, kept: nat)
      requires Valid() && table != null && cutoff <= sequence && kept == |Survivors(View().entries, cutoff)|
      modifies this
      ensures Valid() && fresh(table) && fresh(table.entries)
      ensures sequence == old(sequence) && memoSequence == old(memoSequence)
      ensures purges == old(purges) && since == old(since) && lost == Max(cutoff, old(lost))
      ensures IsPrune(old(View()), View(), cutoff) && nentry == kept
    {
      var t, hard, soft, h := BuildSurvivors(cutoff, kept);
      SwapTable(t, kept, 0, hard, soft, Max(cutoff, lost), h);
    }

    method BuildSurvivors(cutoff: nat, kept: nat) returns (t: Table, hard: nat, soft: nat, ghost h: History)
      requires Valid() && table != null && kept == |Survivors(View().entries, cutoff)|
      ensures fresh(t) && fresh(t.entries) && t.Valid() && Loaded(t.entries.Length, kept, 0)
      ensures |LiveSlots(t.entries[..])| == kept && |Tombstones(t.entries[..])| == 0
      ensures h == History(t.Meaning(), hard, soft) && IsPrune(View(), h, cutoff)
      ensures Represents(h, purges, since, Max(cutoff, lost))
    {
      var n := SlotsFor(INITIAL_SLOTS, kept);
      t, hard, soft := CopySurvivors(table, cutoff, n, hardFloor, softFloor);
      ContentsSize(t.entries[..]);
      h := History(t.Meaning(), hard, soft);
      PruneRepresents(View(), h, cutoff, purges, since, lost);
    }

    /** The stores by which a prune publishes its table, and by which a rollback puts the old one back. */
    method SwapTable(t: Table, entries: nat, tombs: nat, hard: nat, soft: nat, ghost lost': nat, ghost h: History)
      requires Numbered() && t.Valid() && Loaded(t.entries.Length, entries, tombs)
      requires entries == |LiveSlots(t.entries[..])| && tombs == |Tombstones(t.entries[..])|
      requires h == History(t.Meaning(), hard, soft)
      requires lost' <= sequence && Represents(h, purges, since, lost')
      modifies this
      ensures Valid() && table == t && nentry == entries
      ensures View() == h && lost == lost'
      ensures sequence == old(sequence) && memoSequence == old(memoSequence)
      ensures purges == old(purges) && since == old(since)
    {
      table, nentry, ntombstone, hardFloor, softFloor := t, entries, tombs, hard, soft;
      lost := lost';
    }

    ghost predicate Numbered()
      reads this
    {
      |purges| == sequence <= MAX_SEQUENCE && since <= sequence
    }

    /** `cachetag_purgemap_prune_checkpoint_locked`: a prune that the log's checkpoint does not cover is undone. */
    method PruneCheckpoint(memory: bool, persist: bool, checkpointed: bool) returns (cutoff: nat)
      requires Valid()
      modifies this
      ensures Valid() && KeepsTableOrNew()
      ensures sequence == old(sequence) && memoSequence == old(memoSequence)
      ensures purges == old(purges) && since == old(since)
      ensures old(Overfull()) && memory && (persist ==> checkpointed) ==>
                && PrunedAt(old(View()), View(), cutoff, old(nentry) - Target(maxEntries))
                && nentry <= Target(maxEntries) && lost == Max(cutoff, old(lost))
      ensures !(old(Overfull()) && memory && (persist ==> checkpointed)) ==>
                View() == old(View()) && nentry == old(nentry) && lost == old(lost)
    {
      var original, nentry0, ntombstone0, hard0, soft0 := table, nentry, ntombstone, hardFloor, softFloor;
      ghost var lost0, h := lost, View();
      var ok, pruned;
      ok, pruned, cutoff := Prune(memory);
      if ok && persist && !checkpointed && pruned != 0 {
        SwapTable(original, nentry0, ntombstone0, hard0, soft0, lost0, h);
      }
    }

    lemma EntriesAreCounted()
      requires TableIsCounted()
      ensures |View().entries| == nentry
    {
      if table != null { ContentsSize(table.entries[..]); }
    }

    method CheckpointTrims(memory: bool, persist: bool, checkpointed: bool)
      requires Valid()
      modifies this
      ensures Valid() && purges == old(purges) && since == old(since)
      ensures sequence == old(sequence)
      ensures Trimmed(maxEntries, memory && (persist ==> checkpointed), old(View()), View(), old(lost), lost)
    {
      ghost var h, before := View(), lost;
      EntriesAreCounted();
      var cutoff := PruneCheckpoint(memory, persist, checkpointed);
      EntriesAreCounted();
      IsTrimmed(maxEntries, memory && (persist ==> checkpointed), h, View(), before, lost, cutoff);
    }

    /** How both purges end: a prune, and then the completion token. */
    method Complete(memory: bool, persist: bool, checkpointed: bool)
      requires Valid()
      modifies this
      ensures Valid() && purges == old(purges) && since == old(since)
      ensures memoSequence == sequence == old(sequence)
      ensures maxEntries > 0 && memory && (persist ==> checkpointed) ==> nentry <= maxEntries
      ensures Trimmed(maxEntries, memory && (persist ==> checkpointed), old(View()), View(), old(lost), lost)
    {
      CheckpointTrims(memory, persist, checkpointed);
      EntriesAreCounted();
      if maxEntries > 0 && memory && (persist ==> checkpointed) {
        TrimmedFits(maxEntries, true, old(View()), View(), old(lost), lost);
      }
      memoSequence := sequence;
    }

    /** `cachetag_purge` on a folded key. */
    method PurgeKey(f: Fold, mode: Mode, memory: bool, durable: bool,
                 pruneMemory: bool, persist: bool, checkpointed: bool) returns (code: int)
      requires Valid() && IsFold(f)
      modifies this, if table == null then {} else {table.entries}
      ensures Valid() && since == old(since)
      ensures code == DONE ==> purges == old(purges) + [Purge({f}, mode)] && memoSequence == sequence
      ensures code == DONE ==>
                Trimmed(maxEntries, pruneMemory && (persist ==> checkpointed), UpsertAll(old(View()), [f], sequence, mode),
                        View(), old(lost), lost)
      ensures code == DONE && maxEntries > 0 && pruneMemory && (persist ==> checkpointed) ==> nentry <= maxEntries
      ensures code != DONE ==> View() == old(View()) && SameHistory()
      ensures code == DONE || (code == REFUSED && (!memory || old(sequence) == MAX_SEQUENCE))
              || (code == NOT_DURABLE && !durable && old(sequence) < MAX_SEQUENCE)
      ensures memory && durable && old(sequence) < MAX_SEQUENCE ==> code == DONE
    {
      code := PurgeFold(f, mode, memory, durable);
      if code != DONE { return; }
      Complete(pruneMemory, persist, checkpointed);
    }

    /** `cachetag_purge_batch` on folded keys. */
    method PurgeBatch(folds: seq<Fold>, mode: Mode, memory: bool, fits: bool, durable: bool,
                      pruneMemory: bool, persist: bool, checkpointed: bool) returns (code: int)
      requires Valid() && forall f :: f in folds ==> IsFold(f)
      modifies this, if table == null then {} else {table.entries}
      ensures Valid() && since == old(since)
      ensures code == DONE ==>
                purges == old(purges) + [Purge(FoldSet(folds), mode)] && memoSequence == sequence
      ensures code == DONE ==>
                Trimmed(maxEntries, pruneMemory && (persist ==> checkpointed), UpsertAll(old(View()), folds, sequence, mode),
                        View(), old(lost), lost)
      ensures code == DONE && maxEntries > 0 && pruneMemory && (persist ==> checkpointed) ==> nentry <= maxEntries
      ensures code != DONE ==> View() == old(View()) && SameHistory()
      ensures code == DONE || (code == REFUSED && (!memory || !fits || old(sequence) == MAX_SEQUENCE))
              || (code == NOT_DURABLE && fits && !durable && old(sequence) < MAX_SEQUENCE)
      ensures memory && fits && durable && old(sequence) < MAX_SEQUENCE ==> code == DONE
    {
      code := PurgeFolds(folds, mode, memory, fits, durable);
      if code != DONE { return; }
      Complete(pruneMemory, persist, checkpointed);
    }

    /** `cachetag_purgemap_reclaim_locked`: drops the marks no living object can need. */
    method ReclaimUpTo(cutoff: nat, memory: bool) returns (ok: bool)
      requires Valid() && cutoff <= sequence
      modifies this
      ensures Valid() && SameRecord() && lost == old(lost) && (memory ==> ok)
      ensures ok ==> View() == Reclaim(old(View()), cutoff) && since == Max(cutoff, old(since))
      ensures !ok ==> View() == old(View()) && since == old(since)
    {
      var kept, t;
      ok, kept, t := BuildReclaimed(cutoff, memory);
      if !ok { return; }
      table, nentry, ntombstone := t, kept, 0;
      if hardFloor <= cutoff { hardFloor := 0; }
      if softFloor <= cutoff { softFloor := 0; }
      since := Max(cutoff, since);
    }

    method BuildReclaimed(cutoff: nat, memory: bool) returns (ok: bool, kept: nat, t: Table?)
      requires Valid()
      ensures memory ==> ok
      ensures ok ==>
                if t == null then kept == 0 && Reclaim(View(), cutoff).entries == map[]
                else
                  && fresh(t) && fresh(t.entries) && t.Valid() && Loaded(t.entries.Length, kept, 0)
                  && |LiveSlots(t.entries[..])| == kept && |Tombstones(t.entries[..])| == 0
                  && t.Meaning() == Reclaim(View(), cutoff).entries
      ensures Represents(Reclaim(View(), cutoff), purges, Max(cutoff, since), lost)
    {
      ReclaimRepresents(View(), cutoff, purges, since, lost);
      kept := 0;
      if table != null { kept := CountReclaimed(table, cutoff); }
      var n := SlotsFor(INITIAL_SLOTS, kept);
      if kept == 0 { return true, 0, null; }
      if !memory { return false, kept, null; }
      t := CopyReclaimed(table, cutoff, n);
      ContentsSize(t.entries[..]);
      ok := true;
    }

    twostate predicate SameRecord()
      reads this
    {
      purges == old(purges) && sequence == old(sequence) && memoSequence == old(memoSequence)
    }

    /** `cachetag_purgemap_probe_reader_guarded`: the answer is the verdict of the purges issued after registration, for
        every object the map still answers for exactly, and never milder for an older one.
    */
    method ProbeObject(regSeq: nat, folds: seq<Fold>) returns (r: Result)
      requires Valid() && forall f :: f in folds ==> IsFold(f)
      ensures r == Probe(View(), regSeq, FoldSet(folds))
      ensures regSeq >= since && regSeq >= lost ==> r == Verdict(purges, regSeq, FoldSet(folds))
      ensures regSeq >= since ==> AtLeast(r, Verdict(purges, regSeq, FoldSet(folds)))
    {
      if regSeq >= since { RepresentsMeansVerdict(View(), purges, since, lost, regSeq, FoldSet(folds)); }
      if nentry == 0 && hardFloor == 0 && softFloor == 0 {
        if table != null { ContentsSize(table.entries[..]); }
        return Fresh;
      }
      var soft, hard := ProbeEntries(regSeq, folds);
      if hard || hardFloor > regSeq { return HardStale; }
      return if soft || softFloor > regSeq then SoftStale else Fresh;
    }

    /** The loop of the probe: it stops at the first hard mark. */
    method ProbeEntries(regSeq: nat, folds: seq<Fold>) returns (soft: bool, hard: bool)
      requires Valid() && forall f :: f in folds ==> IsFold(f)
      ensures hard <==> Newer(View().(hardFloor := 0, softFloor := 0), Hard, regSeq, FoldSet(folds))
      ensures !hard ==> (soft <==> Newer(View().(hardFloor := 0, softFloor := 0), Soft, regSeq, FoldSet(folds)))
    {
      ghost var h := View().(hardFloor := 0, softFloor := 0);
      soft, hard := false, false;
      for u := 0 to |folds|
        invariant soft <==> Newer(h, Soft, regSeq, FoldSet(folds[..u]))
        invariant !hard && !Newer(h, Hard, regSeq, FoldSet(folds[..u]))
      {
        NewerSnoc(h, Soft, regSeq, folds, u);
        NewerSnoc(h, Hard, regSeq, folds, u);
        var one := Fresh;
        if table != null { one := table.ProbeOne(regSeq, folds[u]); }
        if one == HardStale {
          NewerGrows(h, regSeq, folds, u + 1);
          return soft, true;
        }
        if one == SoftStale { soft := true; }
      }
      assert folds[..|folds|] == folds;
    }
  }
}