/** The object index: a dense array of entries, a map from each object to its slot, and a sweep that scans the array from
    the top down while objects come and go.

    Removing an entry fills its slot from the end.  During a sweep the slots below the scan boundary hold what is still
    to be scanned, so a removal below it moves two entries: one from the boundary into the gap, and one from the end to
    the boundary.  What that achieves is stated on sets: the objects, and those the sweep has yet to see.
*/
module SweepVector {
  import opened PurgeHistory
  import Division

  type Oc = nat

  datatype Entry = Entry(oc: Oc, regSeq: nat, folds: set<Fold>)

  /** What a sweep does with an entry; one without folds has nothing to be probed by, and goes. */
  function Judgement(probe: Entry -> Result, e: Entry): Result { if e.folds == {} then HardStale else probe(e) }

  /** The probe at each turn of a sweep: purges change what it answers. */
  type Probes = nat -> (Entry -> Result)

  /** One turn of a sweep: a hard judgement kills the object and a soft one reduces it. */
  datatype Turn = Turn(e: Entry, verdict: Result)

  /** The counts a sweep reports. */
  datatype Observation = Observation(scanned: nat, killed: nat, reduced: nat, aborted: bool)

  function CountOf(trace: seq<Turn>, verdict: Result): nat {
    if trace == [] then 0
    else CountOf(trace[..|trace| - 1], verdict) + if trace[|trace| - 1].verdict == verdict then 1 else 0
  }

  function Observed(trace: seq<Turn>, aborted: bool): Observation {
    Observation(|trace|, CountOf(trace, HardStale), CountOf(trace, SoftStale), aborted)
  }

  // ----- arrays and maps, as values -----

  /** The map gives every entry's slot and nothing else. */
  ghost predicate Indexed(v: seq<Entry>, side: map<Oc, nat>) {
    && (forall i :: 0 <= i < |v| ==> v[i].oc in side && side[v[i].oc] == i)
    && forall oc :: oc in side ==> side[oc] < |v| && v[side[oc]].oc == oc
  }

  ghost function Meaning(v: seq<Entry>, side: map<Oc, nat>): map<Oc, Entry>
    requires Indexed(v, side)
  {
    map oc | oc in side :: v[side[oc]]
  }

  ghost function FirstOcs(v: seq<Entry>, n: nat): set<Oc>
    requires n <= |v|
  {
    set i | 0 <= i < n :: v[i].oc
  }

  /** Filling slot `slot` from the end. */
  function Filled(v: seq<Entry>, slot: nat): seq<Entry>
    requires slot < |v|
  {
    v[slot := v[|v| - 1]][..|v| - 1]
  }

  function FilledSide(v: seq<Entry>, side: map<Oc, nat>, slot: nat): map<Oc, nat>
    requires slot < |v|
  {
    side[v[|v| - 1].oc := slot] - {v[slot].oc}
  }

  lemma FilledIsIndexed(v: seq<Entry>, side: map<Oc, nat>, slot: nat)
    requires Indexed(v, side) && slot < |v|
    ensures Indexed(Filled(v, slot), FilledSide(v, side, slot))
    ensures Meaning(Filled(v, slot), FilledSide(v, side, slot)) == Meaning(v, side) - {v[slot].oc}
    ensures forall n: nat :: n <= slot ==> FirstOcs(Filled(v, slot), n) == FirstOcs(v, n)
  {
    var v', side' := Filled(v, slot), FilledSide(v, side, slot);
    forall n: nat | n <= slot
      ensures FirstOcs(v', n) == FirstOcs(v, n)
    {
      assert forall i :: 0 <= i < n ==> v'[i] == v[i];
    }
  }

  function Swapped(v: seq<Entry>, i: nat, j: nat): seq<Entry>
    requires i < |v| && j < |v|
  {
    v[i := v[j]][j := v[i]]
  }

  lemma SwappedIsIndexed(v: seq<Entry>, side: map<Oc, nat>, i: nat, j: nat)
    requires Indexed(v, side) && i <= j < |v|
    ensures Indexed(Swapped(v, i, j), side[v[j].oc := i][v[i].oc := j])
    ensures Meaning(Swapped(v, i, j), side[v[j].oc := i][v[i].oc := j]) == Meaning(v, side)
    ensures FirstOcs(Swapped(v, i, j), j) == FirstOcs(v, j + 1) - {v[i].oc}
  {
    var s := Swapped(v, i, j);
    forall k | 0 <= k < j
      ensures s[k].oc in FirstOcs(v, j + 1) - {v[i].oc}
    {
      assert s[k] == if k == i then v[j] else v[k];
    }
    forall k | 0 <= k <= j && v[k].oc != v[i].oc
      ensures v[k].oc in FirstOcs(s, j)
    {
      assert s[if k == j then i else k] == v[k];
    }
  }

  lemma SameFirstOcs(v: seq<Entry>, w: seq<Entry>, n: nat)
    requires n <= |v| && n <= |w| && forall i :: 0 <= i < n ==> v[i] == w[i]
    ensures FirstOcs(v, n) == FirstOcs(w, n)
  {
  }

  lemma NotAmongFirst(v: seq<Entry>, side: map<Oc, nat>, slot: nat, n: nat)
    requires Indexed(v, side) && n <= slot < |v|
    ensures v[slot].oc !in FirstOcs(v, n)
  {
  }

  /** The boundary entry fills the slot, and the last entry fills the boundary. */
  function MovedTwice(v: seq<Entry>, slot: nat, boundary: nat): seq<Entry>
    requires slot <= boundary < |v|
  {
    v[slot := v[boundary]][boundary := v[|v| - 1]][..|v| - 1]
  }

  function MovedTwiceSide(v: seq<Entry>, side: map<Oc, nat>, slot: nat, boundary: nat): map<Oc, nat>
    requires slot <= boundary < |v|
  {
    var side1 := if slot != boundary then side[v[boundary].oc := slot] else side;
    var side2 := if boundary != |v| - 1 then side1[v[|v| - 1].oc := boundary] else side1;
    side2 - {v[slot].oc}
  }

  /** Moving twice is exchanging the slot with the boundary and then removing at the boundary. */
  lemma TwoMoves(v: seq<Entry>, side: map<Oc, nat>, slot: nat, boundary: nat)
    requires Indexed(v, side) && slot <= boundary < |v|
    ensures var v', side' := MovedTwice(v, slot, boundary), MovedTwiceSide(v, side, slot, boundary);
            && Indexed(v', side')
            && Meaning(v', side') == Meaning(v, side) - {v[slot].oc}
            && FirstOcs(v', boundary) == FirstOcs(v, boundary + 1) - {v[slot].oc}
  {
    var s, side1 := Swapped(v, slot, boundary), side[v[boundary].oc := slot][v[slot].oc := boundary];
    SwappedIsIndexed(v, side, slot, boundary);
    FilledIsIndexed(s, side1, boundary);
    assert MovedTwice(v, slot, boundary) == Filled(s, boundary);
    TwoMovesSide(v, side, slot, boundary);
  }

  lemma TwoMovesSide(v: seq<Entry>, side: map<Oc, nat>, slot: nat, boundary: nat)
    requires Indexed(v, side) && slot <= boundary < |v|
    ensures MovedTwiceSide(v, side, slot, boundary)
            == FilledSide(Swapped(v, slot, boundary), side[v[boundary].oc := slot][v[slot].oc := boundary], boundary)
  {
  }

  // ----- the index -----

  class ObjectIndex {
    const slots: array<Entry>
    var nobjects: nat
    var side: map<Oc, nat>
    var sweepActive: bool
    var sweepRemaining: nat

    ghost predicate Valid()
      reads this, slots
    {
      && nobjects <= slots.Length
      && Indexed(slots[..nobjects], side)
      && sweepRemaining <= nobjects
      && (!sweepActive ==> sweepRemaining == 0)
    }

    ghost function Objects(): map<Oc, Entry>
      requires Valid()
      reads this, slots
    {
      Meaning(slots[..nobjects], side)
    }

    /** The objects the sweep has yet to see. */
    ghost function Unseen(): set<Oc>
      requires Valid()
      reads this, slots
    {
      FirstOcs(slots[..nobjects], sweepRemaining)
    }

    constructor (capacity: nat)
      ensures Valid() && fresh(slots) && slots.Length == capacity && Objects() == map[] && !sweepActive
    {
      slots := new Entry[capacity](_ => Entry(0, 0, {}));
      nobjects, side, sweepActive, sweepRemaining := 0, map[], false, 0;
    }

    /** The indexing part of `cachetag_record_attach_purgemap_take`, with capacity reserved: a new object goes to the end,
        which a running sweep has passed; a known one is refused.
    */
    method Attach(e: Entry) returns (ok: bool)
      requires Valid() && nobjects < slots.Length
      modifies `nobjects, `side, slots
      ensures Valid() && ok == (e.oc !in old(Objects()))
      ensures Objects() == if ok then old(Objects())[e.oc := e] else old(Objects())
      ensures Unseen() == old(Unseen())
    {
      if e.oc in side { return false; }
      ghost var v := slots[..nobjects];
      slots[nobjects] := e;
      side := side[e.oc := nobjects];
      nobjects := nobjects + 1;
      assert slots[..nobjects] == v + [e];
      SameFirstOcs(v + [e], v, sweepRemaining);
      ok := true;
    }

    /** `cachetag_side_remove_locked` */
    method RemoveSlot(slot: nat)
      requires Valid() && slot < nobjects
      modifies `nobjects, `side, `sweepRemaining, slots
      ensures Valid()
      ensures Objects() == old(Objects()) - {old(slots[slot].oc)}
      ensures Unseen() == old(Unseen()) - {old(slots[slot].oc)}
      ensures sweepRemaining == old(sweepRemaining) - if slot < old(sweepRemaining) then 1 else 0
    {
      if !sweepActive || slot >= sweepRemaining { RemoveScanned(slot); } else { RemoveUnscanned(slot); }
    }

    /** Outside a sweep, or above its boundary: the last entry fills the slot. */
    method RemoveScanned(slot: nat)
      requires Valid() && sweepRemaining <= slot < nobjects
      modifies `nobjects, `side, slots
      ensures Valid()
      ensures Objects() == old(Objects()) - {old(slots[slot].oc)}
      ensures Unseen() == old(Unseen()) - {old(slots[slot].oc)}
    {
      var last := nobjects - 1;
      var oc := slots[slot].oc;
      ghost var v, side0 := slots[..nobjects], side;
      FilledIsIndexed(v, side, slot);
      NotAmongFirst(v, side, slot, sweepRemaining);
      if slot != last {
        side := side[slots[last].oc := slot];
        slots[slot] := slots[last];
      }
      side := side - {oc};
      nobjects := last;
      assert slots[..nobjects] == Filled(v, slot);
      assert side == FilledSide(v, side0, slot);
    }

    /** Below the boundary of a sweep: the boundary entry fills the slot and the last entry fills the boundary. */
    method RemoveUnscanned(slot: nat)
      requires Valid() && slot < sweepRemaining
      modifies `nobjects, `side, `sweepRemaining, slots
      ensures Valid()
      ensures Objects() == old(Objects()) - {old(slots[slot].oc)}
      ensures Unseen() == old(Unseen()) - {old(slots[slot].oc)}
      ensures sweepRemaining == old(sweepRemaining) - 1
    {
      var last, boundary := nobjects - 1, sweepRemaining - 1;
      var oc := slots[slot].oc;
      ghost var v, side0 := slots[..nobjects], side;
      TwoMoves(v, side, slot, boundary);
      if slot != boundary {
        side := side[slots[boundary].oc := slot];
        slots[slot] := slots[boundary];
      }
      if boundary != last {
        side := side[slots[last].oc := boundary];
        slots[boundary] := slots[last];
      }
      sweepRemaining := boundary;
      side := side - {oc};
      nobjects := last;
      assert slots[..nobjects] == MovedTwice(v, slot, boundary);
      assert side == MovedTwiceSide(v, side0, slot, boundary);
    }

    /** `cachetag_record_invalidate` */
    method Invalidate(oc: Oc)
      requires Valid()
      modifies `nobjects, `side, `sweepRemaining, slots
      ensures Valid() && Objects() == old(Objects()) - {oc} && Unseen() == old(Unseen()) - {oc}
      ensures sweepRemaining <= old(sweepRemaining)
    {
      if oc !in side { return; }
      RemoveSlot(side[oc]);
    }

    method BeginSweep()
      requires Valid() && !sweepActive
      modifies `sweepActive, `sweepRemaining
      ensures Valid() && sweepActive && Objects() == old(Objects()) && Unseen() == Objects().Keys
    {
      sweepActive, sweepRemaining := true, nobjects;
      AllAreFirst(slots[..nobjects], side);
    }

    /** One turn of the scan: the object at the boundary is judged, and removed if the judgement is hard. */
    method ScanOne(probe: Entry -> Result) returns (turn: Turn)
      requires Valid() && sweepActive && sweepRemaining > 0
      modifies `nobjects, `side, `sweepRemaining, slots
      ensures Valid() && turn.e.oc in old(Unseen()) && turn.e.oc in old(Objects())
      ensures turn == Turn(old(Objects())[turn.e.oc], Judgement(probe, turn.e))
      ensures Unseen() == old(Unseen()) - {turn.e.oc} && sweepRemaining == old(sweepRemaining) - 1
      ensures Objects() == if turn.verdict == HardStale then old(Objects()) - {turn.e.oc} else old(Objects())
    {
      var u := sweepRemaining - 1;
      ghost var v := slots[..nobjects];
      turn := Turn(slots[u], Judgement(probe, slots[u]));
      assert v[u] == slots[u] && Objects()[slots[u].oc] == slots[u];
      if turn.verdict == HardStale {
        RemoveSlot(u);
      } else {
        BoundaryDrops(v, side, sweepRemaining);
        sweepRemaining := u;
      }
    }

    /** What requests do to the index between two batches of a sweep. */
    method Apply(changes: seq<Change>)
      requires Valid()
      requires Unseen() <= Objects().Keys
      modifies `nobjects, `side, `sweepRemaining, slots
      ensures Valid() && sweepRemaining <= old(sweepRemaining)
      ensures Drifted(old(Objects()), old(Unseen()), Objects(), Unseen(), Arrivals(changes), Departures(changes))
    {
      for i := 0 to |changes|
        invariant Valid() && sweepRemaining <= old(sweepRemaining)
        invariant Drifted(old(Objects()), old(Unseen()), Objects(), Unseen(), Arrivals(changes), Departures(changes))
      {
        ApplyOne(changes[i]);
        assert changes[i] in changes;
      }
    }

    method ApplyOne(c: Change)
      requires Valid()
      modifies `nobjects, `side, `sweepRemaining, slots
      ensures Valid() && sweepRemaining <= old(sweepRemaining)
      ensures c.Arrive? ==> Unseen() == old(Unseen())
      ensures c.Arrive? ==>
                Objects() == if old(nobjects) < slots.Length && c.e.oc !in old(Objects()) then old(Objects())[c.e.oc := c.e]
                             else old(Objects())
      ensures c.Depart? ==> Objects() == old(Objects()) - {c.oc} && Unseen() == old(Unseen()) - {c.oc}
    {
      match c
      case Arrive(e) => if nobjects < slots.Length { var _ := Attach(e); }
      case Depart(oc) => Invalidate(oc);
    }

    /** One more turn, after those of `trace0`, of a sweep that began with the objects `o0`. */
    method ScanTurn(probes: Probes, trace0: seq<Turn>, ghost o0: map<Oc, Entry>, ghost came: set<Oc>, ghost gone: set<Oc>)
      returns (trace: seq<Turn>)
      requires Valid() && sweepActive && sweepRemaining > 0
      requires Swept(o0, Objects(), Unseen(), trace0, probes, came, gone)
      modifies `nobjects, `side, `sweepRemaining, slots
      ensures Valid() && sweepRemaining == old(sweepRemaining) - 1 && |trace| == |trace0| + 1
      ensures Swept(o0, Objects(), Unseen(), trace, probes, came, gone)
    {
      ghost var o, u := Objects(), Unseen();
      var turn := ScanOne(probes(|trace0|));
      trace := trace0 + [turn];
      SweptByTurn(o0, o, u, Objects(), Unseen(), trace0, turn, probes, came, gone);
    }

    /** A batch of the scan: until nothing is left, or `batch` objects are scanned, or the batch has taken too long, or the
        sweep is stopped.
    */
    method ScanBatch(probes: Probes, late: nat -> bool, stop: nat -> bool, batch: nat, trace0: seq<Turn>,
                     ghost o0: map<Oc, Entry>, ghost came: set<Oc>, ghost gone: set<Oc>)
      returns (trace: seq<Turn>, aborted: bool)
      requires Valid() && sweepActive && sweepRemaining > 0 && batch > 0
      requires Swept(o0, Objects(), Unseen(), trace0, probes, came, gone)
      modifies `nobjects, `side, `sweepRemaining, slots
      ensures Valid() && Swept(o0, Objects(), Unseen(), trace, probes, came, gone)
      ensures sweepRemaining + |trace| == old(sweepRemaining) + |trace0| && |trace0| <= |trace| <= |trace0| + batch
      ensures forall k: nat :: |trace0| <= k < |trace| ==> !stop(k)
      ensures aborted ==> stop(|trace|) && sweepRemaining > 0
      ensures !aborted ==> |trace| > |trace0| && (sweepRemaining == 0 || |trace| == |trace0| + batch || late(|trace|))
    {
      trace, aborted := trace0, false;
      var more := true;
      while more
        invariant Valid() && sweepActive && |trace0| <= |trace| <= |trace0| + batch
        invariant sweepRemaining + |trace| == old(sweepRemaining) + |trace0|
        invariant Swept(o0, Objects(), Unseen(), trace, probes, came, gone)
        invariant forall k: nat :: |trace0| <= k < |trace| ==> !stop(k)
        invariant more ==> !aborted && sweepRemaining > 0 && |trace| < |trace0| + batch
        invariant aborted ==> stop(|trace|) && sweepRemaining > 0
        invariant !more && !aborted ==>
                    |trace| > |trace0| && (sweepRemaining == 0 || |trace| == |trace0| + batch || late(|trace|))
        decreases sweepRemaining, more
      {
        if stop(|trace|) {
          aborted, more := true, false;
        } else {
          trace := ScanTurn(probes, trace, o0, came, gone);
          more := sweepRemaining > 0 && |trace| < |trace0| + batch && !late(|trace|);
        }
      }
    }

    /** `cachetag_record_sweep_purgemap`: batches, with requests changing the index in between.  `trace` is what it did, turn
        by turn, and `left` what a sweep that was stopped had not come to.
    */
    method Sweep(probes: Probes, late: nat -> bool, stop: nat -> bool, batchObjects: nat, gaps: seq<seq<Change>>)
      returns (trace: seq<Turn>, obs: Observation, ghost left: set<Oc>)
      requires Valid() && !sweepActive
      modifies `nobjects, `side, `sweepActive, `sweepRemaining, slots
      ensures Valid() && !sweepActive
      ensures Swept(old(Objects()), Objects(), left, trace, probes, AllArrivals(gaps), AllDepartures(gaps))
      ensures obs == Observed(trace, obs.aborted)
      ensures forall k: nat :: k < |trace| ==> !stop(k)
      ensures if obs.aborted then stop(|trace|) && left != {} else left == {}
    {
      var batch := if batchObjects == 0 then 1 else batchObjects;
      ghost var o0, came, gone := Objects(), AllArrivals(gaps), AllDepartures(gaps);
      BeginSweep();
      var gap, aborted := 0, false;
      trace := [];
      SweptAtStart(o0, probes, came, gone);
      while !aborted && sweepRemaining > 0
        invariant Valid() && sweepActive && gap <= |gaps|
        invariant Swept(o0, Objects(), Unseen(), trace, probes, came, gone)
        invariant forall k: nat :: k < |trace| ==> !stop(k)
        invariant aborted ==> stop(|trace|) && sweepRemaining > 0
        decreases sweepRemaining, !aborted
      {
        trace, aborted := ScanBatch(probes, late, stop, batch, trace, o0, came, gone);
        if !aborted && sweepRemaining > 0 && gap < |gaps| {
          Gap(gaps, gap, o0, trace, probes);
          gap := gap + 1;
        }
      }
      obs := Observed(trace, aborted);
      left := EndSweep();
    }

    method EndSweep() returns (ghost left: set<Oc>)
      requires Valid()
      modifies `sweepActive, `sweepRemaining
      ensures Valid() && !sweepActive && Objects() == old(Objects())
      ensures left == old(Unseen()) && (left == {} <==> old(sweepRemaining) == 0)
    {
      left := Unseen();
      SomeLeft(slots[..nobjects], sweepRemaining);
      sweepActive, sweepRemaining := false, 0;
    }

    /** Between two batches, requests have the index. */
    method Gap(gaps: seq<seq<Change>>, gap: nat, ghost o0: map<Oc, Entry>, ghost trace: seq<Turn>, ghost probes: Probes)
      requires Valid() && gap < |gaps|
      requires Swept(o0, Objects(), Unseen(), trace, probes, AllArrivals(gaps), AllDepartures(gaps))
      modifies `nobjects, `side, `sweepRemaining, slots
      ensures Valid() && sweepRemaining <= old(sweepRemaining)
      ensures Swept(o0, Objects(), Unseen(), trace, probes, AllArrivals(gaps), AllDepartures(gaps))
    {
      ghost var o, u := Objects(), Unseen();
      UnseenAreThere(slots[..nobjects], side, sweepRemaining);
      Apply(gaps[gap]);
      GapIsPart(gaps, gap);
      SweptByDrift(o0, o, u, Objects(), Unseen(), trace, probes, Arrivals(gaps[gap]), Departures(gaps[gap]),
                   AllArrivals(gaps), AllDepartures(gaps));
    }
  }

  // ----- what a sweep and the requests beside it do -----

  /** Requests add only arrivals, remove only departures, and leave what is unseen as it is unless it departs. */
  ghost predicate Drifted(o: map<Oc, Entry>, u: set<Oc>, o': map<Oc, Entry>, u': set<Oc>, came: set<Oc>, gone: set<Oc>) {
    && u' <= u
    && (forall oc :: oc in o' ==> oc in came || (oc in o && o'[oc] == o[oc]))
    && (forall oc :: oc in o && oc !in o' ==> oc in gone)
    && (forall oc :: oc in u' ==> oc in o && oc in o' && o'[oc] == o[oc])
    && (forall oc :: oc in u ==> oc in u' || oc in gone)
    && forall oc :: oc in o' && oc in u ==> oc in came || oc in u'
  }

  /** Some turn has judged the object hard, or not hard. */
  ghost predicate Judged(trace: seq<Turn>, oc: Oc, hard: bool) {
    exists k :: 0 <= k < |trace| && trace[k].e.oc == oc && (trace[k].verdict == HardStale) == hard
  }

  /** Every turn is on an entry of the start, under the probe of that turn, and no object has two. */
  ghost predicate TurnsInOrder(o0: map<Oc, Entry>, trace: seq<Turn>, probes: Probes) {
    && (forall k: nat :: k < |trace| ==>
          trace[k].e.oc in o0 && trace[k].e == o0[trace[k].e.oc] && trace[k].verdict == Judgement(probes(k), trace[k].e))
    && forall j: nat, k: nat :: j < k < |trace| ==> trace[j].e.oc != trace[k].e.oc
  }

  /** Where a sweep stands that began with `o0`, while `came` may arrive and `gone` may depart: what is still unseen is as
      it was and has had no turn; every other object of the start has had its turn or departed; what is there has
      arrived, is unseen, or was judged not hard; and what is missing departed or was judged hard.
  */
  ghost predicate Swept(o0: map<Oc, Entry>, o: map<Oc, Entry>, unseen: set<Oc>, trace: seq<Turn>, probes: Probes,
                        came: set<Oc>, gone: set<Oc>)
  {
    && TurnsInOrder(o0, trace, probes)
    && (forall oc :: oc in unseen ==> oc in o0 && oc in o && o[oc] == o0[oc])
    && (forall k: nat :: k < |trace| ==> trace[k].e.oc !in unseen)
    && (forall oc :: oc in o0 ==> oc in gone || oc in unseen || Judged(trace, oc, true) || Judged(trace, oc, false))
    && (forall oc :: oc in o ==>
          oc in came || (oc in o0 && o[oc] == o0[oc] && (oc in unseen || Judged(trace, oc, false))))
    && forall oc :: oc in o0 && oc !in o ==> oc in gone || Judged(trace, oc, true)
  }

  lemma SweptAtStart(o0: map<Oc, Entry>, probes: Probes, came: set<Oc>, gone: set<Oc>)
    ensures Swept(o0, o0, o0.Keys, [], probes, came, gone)
  {
  }

  lemma JudgedByTurn(trace: seq<Turn>, turn: Turn)
    ensures forall oc, hard :: Judged(trace, oc, hard) ==> Judged(trace + [turn], oc, hard)
    ensures Judged(trace + [turn], turn.e.oc, turn.verdict == HardStale)
  {
    var all := trace + [turn];
    forall oc, hard | Judged(trace, oc, hard)
      ensures Judged(all, oc, hard)
    {
      var k :| 0 <= k < |trace| && trace[k].e.oc == oc && (trace[k].verdict == HardStale) == hard;
      assert all[k] == trace[k];
    }
    assert all[|trace|] == turn;
  }

  lemma OneMoreInOrder(o0: map<Oc, Entry>, trace: seq<Turn>, turn: Turn, probes: Probes)
    requires TurnsInOrder(o0, trace, probes) && turn.e.oc in o0 && turn.e == o0[turn.e.oc]
    requires turn.verdict == Judgement(probes(|trace|), turn.e)
    requires forall k: nat :: k < |trace| ==> trace[k].e.oc != turn.e.oc
    ensures TurnsInOrder(o0, trace + [turn], probes)
  {
  }

  lemma SweptByTurn(o0: map<Oc, Entry>, o: map<Oc, Entry>, u: set<Oc>, o': map<Oc, Entry>, u': set<Oc>,
                    trace: seq<Turn>, turn: Turn, probes: Probes, came: set<Oc>, gone: set<Oc>)
    requires Swept(o0, o, u, trace, probes, came, gone)
    requires turn.e.oc in u && turn.e.oc in o
    requires turn == Turn(o[turn.e.oc], Judgement(probes(|trace|), turn.e))
    requires u' == u - {turn.e.oc} && o' == if turn.verdict == HardStale then o - {turn.e.oc} else o
    ensures Swept(o0, o', u', trace + [turn], probes, came, gone)
  {
    OneMoreInOrder(o0, trace, turn, probes);
    JudgedByTurn(trace, turn);
  }

  lemma SweptByDrift(o0: map<Oc, Entry>, o: map<Oc, Entry>, u: set<Oc>, o': map<Oc, Entry>, u': set<Oc>,
                     trace: seq<Turn>, probes: Probes, cameNow: set<Oc>, goneNow: set<Oc>, came: set<Oc>, gone: set<Oc>)
    requires Swept(o0, o, u, trace, probes, came, gone) && Drifted(o, u, o', u', cameNow, goneNow)
    requires cameNow <= came && goneNow <= gone
    ensures Swept(o0, o', u', trace, probes, came, gone)
  {
  }

  /** What is judged hard once stays hard, as when purges only add marks. */
  ghost predicate OnlyHarder(probes: Probes) {
    forall j: nat, k: nat, e :: j <= k && probes(j)(e) == HardStale ==> probes(k)(e) == HardStale
  }

  /** A sweep that was not stopped leaves nothing that would have been judged hard as it began, if judgements only get
      harder meanwhile.
  */
  lemma SweepIsThorough(o0: map<Oc, Entry>, o: map<Oc, Entry>, trace: seq<Turn>, probes: Probes, came: set<Oc>,
                        gone: set<Oc>, oc: Oc)
    requires Swept(o0, o, {}, trace, probes, came, gone) && OnlyHarder(probes)
    requires oc in o && oc !in came
    ensures Judgement(probes(0), o[oc]) != HardStale
  {
    var k :| 0 <= k < |trace| && trace[k].e.oc == oc && trace[k].verdict != HardStale;
    HardStays(probes, k, o[oc]);
  }

  lemma HardStays(probes: Probes, k: nat, e: Entry)
    requires OnlyHarder(probes) && Judgement(probes(k), e) != HardStale
    ensures Judgement(probes(0), e) != HardStale
  {
  }

  /** It kills and reduces each object at most once, and only objects of the start: the killed, the reduced and those it
      found fresh are together no more than there were.
  */
  lemma TurnsAreFew(o0: map<Oc, Entry>, trace: seq<Turn>, probes: Probes)
    requires TurnsInOrder(o0, trace, probes)
    ensures CountOf(trace, HardStale) + CountOf(trace, SoftStale) + CountOf(trace, Fresh) == |trace| <= |o0|
  {
    VerdictsAddUp(trace);
    var f := (k: nat) => if k < |trace| then trace[k].e.oc else 0;
    Division.ImageSize(f, |trace|);
    assert Division.Image(f, |trace|) <= o0.Keys;
    Division.SubsetIsSmaller(Division.Image(f, |trace|), o0.Keys);
  }

  lemma {:induction false} VerdictsAddUp(trace: seq<Turn>)
    ensures CountOf(trace, HardStale) + CountOf(trace, SoftStale) + CountOf(trace, Fresh) == |trace|
  {
    if trace != [] { VerdictsAddUp(trace[..|trace| - 1]); }
  }

  datatype Change = Arrive(e: Entry) | Depart(oc: Oc)

  ghost function Arrivals(changes: seq<Change>): set<Oc> {
    set c | c in changes && c.Arrive? :: c.e.oc
  }

  ghost function Departures(changes: seq<Change>): set<Oc> {
    set c | c in changes && c.Depart? :: c.oc
  }

  ghost function AllArrivals(gaps: seq<seq<Change>>): set<Oc> {
    set i, oc | 0 <= i < |gaps| && oc in Arrivals(gaps[i]) :: oc
  }

  ghost function AllDepartures(gaps: seq<seq<Change>>): set<Oc> {
    set i, oc | 0 <= i < |gaps| && oc in Departures(gaps[i]) :: oc
  }

  lemma GapIsPart(gaps: seq<seq<Change>>, i: nat)
    requires i < |gaps|
    ensures Arrivals(gaps[i]) <= AllArrivals(gaps) && Departures(gaps[i]) <= AllDepartures(gaps)
  {
  }

  lemma UnseenAreThere(v: seq<Entry>, side: map<Oc, nat>, n: nat)
    requires Indexed(v, side) && n <= |v|
    ensures FirstOcs(v, n) <= Meaning(v, side).Keys
  {
  }

  lemma SomeLeft(v: seq<Entry>, n: nat)
    requires n <= |v|
    ensures FirstOcs(v, n) == {} <==> n == 0
  {
    if n > 0 { assert v[0].oc in FirstOcs(v, n); }
  }

  lemma AllAreFirst(v: seq<Entry>, side: map<Oc, nat>)
    requires Indexed(v, side)
    ensures FirstOcs(v, |v|) == Meaning(v, side).Keys
  {
    assert forall oc :: oc in side ==> v[side[oc]].oc == oc;
  }

  lemma BoundaryDrops(v: seq<Entry>, side: map<Oc, nat>, n: nat)
    requires Indexed(v, side) && 0 < n <= |v|
    ensures FirstOcs(v, n - 1) == FirstOcs(v, n) - {v[n - 1].oc}
  {
    NotAmongFirst(v, side, n - 1, n - 1);
  }
}
