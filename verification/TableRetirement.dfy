/** Publishing and freeing purge-map tables behind the reader gate.

    Readers take the current table only after a stable acquire, and may keep reading it until they release.  The writer
    stores a new table, flips the gate, waits for the slot that was current when the old table was replaced, and frees
    the old table.  When pruning is followed by a failed checkpoint, the writer puts the original table back, flips
    again, and retires the replacement instead.
*/
module TableRetirement {
  import opened EpochGate

  type TableId = nat

  /** The null table: nothing to probe, nothing to free. */
  const NULL: TableId := 0

  datatype Writer =
    | Idle
    | Stored(was: TableId, slot: nat)    // replacement stored, phase not yet flipped
    | Retiring(was: TableId, slot: nat)  // flipped, waiting for `slot` to reach zero
    | Drained(was: TableId)              // zero seen, about to free

  /** `holds` says which table a pinned reader has taken; `unused` is the next unused table. */
  datatype Tables = Tables(
    sys: System, table: TableId, holds: map<ReaderId, TableId>, writer: Writer, freed: set<TableId>, unused: TableId)

  datatype Move =
    | ReaderMove(step: Step)
    | TakeTable(r: ReaderId)
    | Replace(withNull: bool)
    | FlipPhase
    | Rollback
    | SeeZero
    | Free

  const Start := Tables(Init, NULL, map[], Idle, {}, 1)

  /** `undrained` says whether a replacement may be rolled back while readers are left in the slot it retired. */
  predicate CanMove(t: Tables, m: Move, undrained: bool) {
    match m
    case ReaderMove(step) => !step.Flip? && !step.ObserveZero? && Enabled(t.sys, step)
    case TakeTable(r) => r in t.sys.readers && t.sys.readers[r].Pinned? && r !in t.holds
    case Replace(_) => t.writer.Idle?
    case FlipPhase => t.writer.Stored?
    case Rollback =>
      t.writer.Retiring? && t.table != NULL && (undrained || t.sys.gate.Readers(t.writer.slot) == 0)
    case SeeZero => t.writer.Retiring? && t.sys.gate.Readers(t.writer.slot) == 0
    case Free => t.writer.Drained?
  }

  function DoMove(t: Tables, m: Move): Tables
    requires CanMove(t, m, true)
  {
    match m
    case ReaderMove(step) =>
      t.(sys := Apply(t.sys, step), holds := if step.Release? then t.holds - {step.r} else t.holds)
    case TakeTable(r) => t.(holds := t.holds[r := t.table])
    case Replace(withNull) =>
      var t' := if withNull then t.(table := NULL) else t.(table := t.unused, unused := t.unused + 1);
      if t.table == NULL then t' else t'.(writer := Stored(t.table, t.sys.gate.Slot()))
    case FlipPhase => t.(sys := Apply(t.sys, Flip), writer := Retiring(t.writer.was, t.writer.slot))
    case Rollback =>
      t.(table := t.writer.was, writer := Stored(t.table, t.sys.gate.Slot()),
         sys := t.sys.(drained := t.sys.gate.Readers(t.writer.slot) == 0))
    case SeeZero => t.(sys := t.sys.(drained := true), writer := Drained(t.writer.was))
    case Free => t.(writer := Idle, freed := t.freed + {t.writer.was})
  }

  predicate LegalRun(t: Tables, moves: seq<Move>, undrained: bool)
    decreases |moves|
  {
    moves == [] ||
    (CanMove(t, moves[0], undrained) && CanMove(t, moves[0], true) &&
     LegalRun(DoMove(t, moves[0]), moves[1..], undrained))
  }

  function Reached(t: Tables, moves: seq<Move>, undrained: bool): Tables
    requires LegalRun(t, moves, undrained)
    decreases |moves|
  {
    if moves == [] then t else Reached(DoMove(t, moves[0]), moves[1..], undrained)
  }

  /** No reader is left with a freed table, and the current table is never freed. */
  predicate Safe(t: Tables) {
    && t.table !in t.freed
    && forall r :: r in t.holds ==> t.holds[r] !in t.freed
  }

  // ----- safety when rollbacks find the slot empty -----

  /** What a reader may hold, by where the writer stands.  After the flip, only a pin of the previous epoch can still
      have the old table.
  */
  predicate MayHold(t: Tables, pc: Reader, held: TableId) {
    || held == NULL
    || held == t.table
    || (t.writer.Stored? && held == t.writer.was)
    || (t.writer.Retiring? && held == t.writer.was && pc.Pinned? && pc.epoch < t.sys.flips)
  }

  ghost predicate WriterInv(t: Tables) {
    && (t.sys.drained <==> !t.writer.Retiring?)
    && (t.writer.Stored? ==> t.writer.slot == t.sys.gate.Slot())
    && (t.writer.Retiring? ==> t.writer.slot == 1 - t.sys.gate.Slot())
    && (!t.writer.Idle? ==> t.writer.was != NULL && t.writer.was != t.table && t.writer.was < t.unused && t.writer.was !in t.freed)
    && (forall id :: id in t.freed ==> 0 < id < t.unused)
    && t.table < t.unused && t.table !in t.freed
  }

  ghost predicate Inv(t: Tables) {
    && Exact(t.sys) && Fresh(t.sys)
    && WriterInv(t)
    && (forall r :: r in t.holds ==>
          r in t.sys.readers && t.sys.readers[r].Pinned? && MayHold(t, t.sys.readers[r], t.holds[r]))
  }

  lemma InvIsSafe(t: Tables)
    requires Inv(t)
    ensures Safe(t)
  {
  }

  lemma ReaderMoveKeepsInv(t: Tables, step: Step)
    requires Inv(t) && CanMove(t, ReaderMove(step), false)
    ensures Inv(DoMove(t, ReaderMove(step)))
  {
    StepKeepsExact(t.sys, step);
    StepKeepsFresh(t.sys, step);
  }

  lemma FlipKeepsInv(t: Tables)
    requires Inv(t) && CanMove(t, FlipPhase, false)
    ensures Inv(DoMove(t, FlipPhase))
  {
    StepKeepsExact(t.sys, Flip);
    StepKeepsFresh(t.sys, Flip);
  }

  lemma SeeZeroKeepsInv(t: Tables)
    requires Inv(t) && CanMove(t, SeeZero, false)
    ensures Inv(DoMove(t, SeeZero))
  {
    StepKeepsExact(t.sys, ObserveZero);
    StepKeepsFresh(t.sys, ObserveZero);
    ZeroMeansCurrent(t.sys);
  }

  lemma RollbackKeepsInv(t: Tables)
    requires Inv(t) && CanMove(t, Rollback, false)
    ensures Inv(DoMove(t, Rollback))
  {
    StepKeepsExact(t.sys, ObserveZero);
    StepKeepsFresh(t.sys, ObserveZero);
    ZeroMeansCurrent(t.sys);
  }

  lemma MoveKeepsInv(t: Tables, m: Move)
    requires Inv(t) && CanMove(t, m, false)
    ensures Inv(DoMove(t, m))
  {
    match m
    case ReaderMove(step) => ReaderMoveKeepsInv(t, step);
    case FlipPhase => FlipKeepsInv(t);
    case SeeZero => SeeZeroKeepsInv(t);
    case Rollback => RollbackKeepsInv(t);
    case _ =>
  }

  lemma {:induction false} RunKeepsInv(t: Tables, moves: seq<Move>)
    requires Inv(t) && LegalRun(t, moves, false)
    ensures Inv(Reached(t, moves, false))
    decreases |moves|
  {
    if moves != [] {
      MoveKeepsInv(t, moves[0]);
      RunKeepsInv(DoMove(t, moves[0]), moves[1..]);
    }
  }

  // ----- a rollback with a reader left -----

  lemma {:induction false} Extend(t: Tables, moves: seq<Move>, m: Move)
    requires LegalRun(t, moves, true) && CanMove(Reached(t, moves, true), m, true)
    ensures LegalRun(t, moves + [m], true)
    ensures Reached(t, moves + [m], true) == DoMove(Reached(t, moves, true), m)
    decreases |moves|
  {
    if moves == [] {
      assert moves + [m] == [m] && [m][1..] == [];
    } else {
      Extend(DoMove(t, moves[0]), moves[1..], m);
      assert (moves + [m])[1..] == moves[1..] + [m];
    }
  }

  const Pinned0 := map[0 := Pinned(0, 0)]

  /** A first table is installed and a reader becomes stable. */
  lemma ReaderPins() returns (moves: seq<Move>)
    ensures LegalRun(Start, moves, true)
    ensures Reached(Start, moves, true) == Tables(System(Gate(0, 1, 0), Pinned0, 0, true), 1, map[], Idle, {}, 2)
  {
    moves := [];
    Extend(Start, moves, Replace(false));
    moves := moves + [Replace(false)];
    Extend(Start, moves, ReaderMove(LoadPhase(0)));
    moves := moves + [ReaderMove(LoadPhase(0))];
    Extend(Start, moves, ReaderMove(Count(0)));
    moves := moves + [ReaderMove(Count(0))];
    Extend(Start, moves, ReaderMove(Recheck(0)));
    moves := moves + [ReaderMove(Recheck(0))];
  }

  /** A prune stores its replacement; the reader, still pinned in the old slot, takes it before the flip. */
  lemma ReaderTakesReplacement() returns (moves: seq<Move>)
    ensures LegalRun(Start, moves, true)
    ensures Reached(Start, moves, true) ==
            Tables(System(Gate(1, 1, 0), Pinned0, 1, false), 2, map[0 := 2], Retiring(1, 0), {}, 3)
  {
    moves := ReaderPins();
    Extend(Start, moves, Replace(false));
    moves := moves + [Replace(false)];
    Extend(Start, moves, TakeTable(0));
    moves := moves + [TakeTable(0)];
    Extend(Start, moves, FlipPhase);
    moves := moves + [FlipPhase];
  }

  /** The rollback then drains only the slot that was current between its two flips, and frees the replacement. */
  lemma RollbackFreesHeldTable() returns (moves: seq<Move>)
    ensures LegalRun(Start, moves, true) && !Safe(Reached(Start, moves, true))
  {
    moves := ReaderTakesReplacement();
    Extend(Start, moves, Rollback);
    moves := moves + [Rollback];
    Extend(Start, moves, FlipPhase);
    moves := moves + [FlipPhase];
    assert Reached(Start, moves, true).sys.gate == Gate(0, 1, 0);
    Extend(Start, moves, SeeZero);
    moves := moves + [SeeZero];
    Extend(Start, moves, Free);
    moves := moves + [Free];
    assert Reached(Start, moves, true).holds[0] == 2 && 2 in Reached(Start, moves, true).freed;
  }

  /** Tables are never freed under a reader, in any interleaving of any number of readers with table replacements and
      their rollbacks, exactly when no replacement is rolled back while a reader is left in the slot it retired.  The
      source does not look at that slot before it rolls back.
  */
  lemma SafeUnlessRolledBackUndrained(undrained: bool)
    ensures (forall moves :: LegalRun(Start, moves, undrained) ==> Safe(Reached(Start, moves, undrained)))
            <==> !undrained
  {
    if undrained {
      var moves := RollbackFreesHeldTable();
    } else {
      assert Holders(map[], 0) == {} && Holders(map[], 1) == {};
      forall moves | LegalRun(Start, moves, false)
        ensures Safe(Reached(Start, moves, false))
      {
        RunKeepsInv(Start, moves);
        InvIsSafe(Reached(Start, moves, false));
      }
    }
  }

  // ----- nothing leaks -----

  /** Every table made so far is the current one, the one being retired, or freed. */
  predicate Accounted(t: Tables) {
    && t.table < t.unused
    && forall id :: 0 < id < t.unused ==> id == t.table || id in t.freed || (!t.writer.Idle? && id == t.writer.was)
  }

  lemma {:induction false} RunKeepsAccounted(t: Tables, moves: seq<Move>, undrained: bool)
    requires Accounted(t) && (!t.writer.Idle? ==> t.writer.was < t.unused) && LegalRun(t, moves, undrained)
    ensures Accounted(Reached(t, moves, undrained))
    decreases |moves|
  {
    if moves != [] { RunKeepsAccounted(DoMove(t, moves[0]), moves[1..], undrained); }
  }

  /** In every run, whenever the writer is idle, every table but the current one has been freed. */
  lemma NothingLeaks(moves: seq<Move>, undrained: bool, id: TableId)
    requires LegalRun(Start, moves, undrained) && Reached(Start, moves, undrained).writer.Idle?
    requires 0 < id < Reached(Start, moves, undrained).unused && id != Reached(Start, moves, undrained).table
    ensures id in Reached(Start, moves, undrained).freed
  {
    RunKeepsAccounted(Start, moves, undrained);
  }
}
