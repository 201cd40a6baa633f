/** One stale check of an object that may still be in its insert callback.

    In `Strictness` a stale check finds its object.  In the source it looks the object up in the index; if it is not
    there, among the pending publications, whose keys it then probes; and if it is not there either, in the index once
    more, in case it was attached meanwhile.  Here these three lookups interleave with the protocol, and with the pending
    publication being unlisted at the end of its task.
*/
module StaleLookups {
  import opened PurgeHistory
  import opened Strictness

  /** Where the check is; `owed` is how many purges were complete when it began. */
  datatype Check =
    | NotStarted
    | First(owed: nat)
    | Second(owed: nat)
    | Third(owed: nat)
    | Answered(owed: nat, refuses: bool)

  /** The object `id`, with its registration and tags, and the publication it belongs to. */
  datatype Lookups = Lookups(
    c: Cache, pub: PubId, id: ObjId, regSeq: nat, tags: set<Fold>, listed: bool, attached: bool, check: Check)

  datatype Move =
    | Protocol(step: Step)
    | Unlist
    | Begin
    | LookUp
    | LookAmongPending
    | LookUpAgain

  /** The object has left the cache. */
  predicate Gone(l: Lookups) { l.attached && l.id !in l.c.objects }

  /** Only the object's publication attaches it, once and under its tags, and that publication is not abandoned. */
  predicate Respects(l: Lookups, step: Step) {
    && (step.Attach? ==> (step.p == l.pub <==> step.id == l.id))
    && (step.Attach? && step.p == l.pub ==> !l.attached && step.tags == l.tags)
    && (step == Abandon(l.pub) ==> l.attached)
  }

  /** `late` says whether a check may be answered for an object that has left the cache since the check began. */
  ghost predicate CanMove(l: Lookups, m: Move, late: bool) {
    match m
    case Protocol(step) => Enabled(l.c, step) && Respects(l, step)
    case Unlist => l.listed && l.attached
    case Begin => l.check.NotStarted? && !Gone(l)
    case LookUp => l.check.First?
    case LookAmongPending => l.check.Second? && (l.listed && Gone(l) ==> late)
    case LookUpAgain => l.check.Third? && (Gone(l) ==> late)
  }

  /** A check that has found its object in the index. */
  ghost function Found(l: Lookups): Lookups
    requires l.id in l.c.objects && !l.check.NotStarted?
  {
    l.(c := Do(l.c, StaleCheck(l.id)), check := Answered(l.check.owed, Probe(l.c.map_, l.regSeq, l.tags) == HardStale))
  }

  ghost function DoMove(l: Lookups, m: Move): Lookups
    requires CanMove(l, m, true)
  {
    match m
    case Protocol(step) =>
      l.(c := Do(l.c, step), attached := l.attached || (step.Attach? && step.p == l.pub))
    case Unlist => l.(listed := false)
    case Begin => l.(check := First(l.c.done))
    case LookUp => if l.id in l.c.objects then Found(l) else l.(check := Second(l.check.owed))
    case LookAmongPending =>
      if l.listed then l.(check := Answered(l.check.owed, Probe(l.c.map_, l.regSeq, l.tags) == HardStale))
      else l.(check := Third(l.check.owed))
    case LookUpAgain => if l.id in l.c.objects then Found(l) else l.(check := Answered(l.check.owed, false))
  }

  ghost predicate LegalMoves(l: Lookups, moves: seq<Move>, late: bool)
    decreases |moves|
  {
    moves == [] ||
    (CanMove(l, moves[0], late) && CanMove(l, moves[0], true) && LegalMoves(DoMove(l, moves[0]), moves[1..], late))
  }

  ghost function Reached(l: Lookups, moves: seq<Move>, late: bool): Lookups
    requires LegalMoves(l, moves, late)
    decreases |moves|
  {
    if moves == [] then l else Reached(DoMove(l, moves[0]), moves[1..], late)
  }

  /** A publication that has registered and has yet to attach its object. */
  ghost predicate Publishes(steps: seq<Step>, pub: PubId, id: ObjId) {
    && Legal(Start, steps)
    && pub in After(Start, steps).pubs && After(Start, steps).pubs[pub].Open? && id !in After(Start, steps).objects
  }

  ghost function Pending(steps: seq<Step>, pub: PubId, id: ObjId, tags: set<Fold>): Lookups
    requires Publishes(steps, pub, id)
  {
    Lookups(After(Start, steps), pub, id, After(Start, steps).pubs[pub].regSeq, tags, true, false, NotStarted)
  }

  /** None of the first `upto` purges is a hard purge that reaches the object. */
  predicate Unreached(l: Lookups, upto: nat) {
    forall i: nat :: i < upto && i < |l.c.purges| ==> !Hits(l.c.purges, i, Hard, l.regSeq, l.tags)
  }

  /** The object is let through only if no hard purge complete when the check began reaches it. */
  predicate Right(l: Lookups) { l.check.Answered? && !l.check.refuses ==> Unreached(l, l.check.owed) }

  // ----- right while the object stays -----

  ghost predicate LookupsInv(l: Lookups) {
    && Inv(l.c)
    && (!l.attached ==> l.listed && l.pub in l.c.pubs && l.c.pubs[l.pub] == Open(l.regSeq) && l.id !in l.c.objects)
    && (l.id in l.c.objects ==> l.c.objects[l.id].regSeq == l.regSeq && l.c.objects[l.id].folds == l.tags)
    && (l.check.NotStarted? || l.check.owed <= l.c.done)
    && (l.check.Third? ==> l.attached)
    && Right(l)
  }

  lemma StepGrows(c: Cache, step: Step)
    requires Inv(c) && Enabled(c, step)
    ensures c.done <= Do(c, step).done && c.purges <= Do(c, step).purges
  {
  }

  /** The object is what it was, except that it may have been reduced. */
  predicate Kept(c: Cache, c': Cache, id: ObjId) {
    id in c'.objects ==>
      id in c.objects && c'.objects[id].regSeq == c.objects[id].regSeq && c'.objects[id].folds == c.objects[id].folds
  }

  lemma ProbedKeepsObject(c: Cache, probed: ObjId, id: ObjId)
    requires probed in c.objects
    ensures Kept(c, Probed(c, probed), id)
  {
  }

  lemma StepKeepsObject(c: Cache, step: Step, id: ObjId)
    requires Enabled(c, step) && (step.Attach? ==> step.id != id)
    ensures Kept(c, Do(c, step), id)
  {
    if step.StaleCheck? || step.SweepOne? { ProbedKeepsObject(c, step.id, id); }
  }

  /** Purges already issued stay what they are. */
  lemma UnreachedStays(l: Lookups, l': Lookups, upto: nat)
    requires l.c.purges <= l'.c.purges && l'.regSeq == l.regSeq && l'.tags == l.tags && upto <= |l.c.purges|
    ensures Unreached(l, upto) <==> Unreached(l', upto)
  {
    assert forall i: nat :: i < |l.c.purges| ==> l'.c.purges[i] == l.c.purges[i];
    assert forall i: nat :: i < upto ==>
             (Hits(l.c.purges, i, Hard, l.regSeq, l.tags) <==> Hits(l'.c.purges, i, Hard, l.regSeq, l.tags));
  }

  lemma ProtocolKeepsInv(l: Lookups, step: Step)
    requires LookupsInv(l) && CanMove(l, Protocol(step), false)
    ensures LookupsInv(DoMove(l, Protocol(step)))
  {
    var l' := DoMove(l, Protocol(step));
    StepKeepsInv(l.c, step);
    StepGrows(l.c, step);
    if !l.check.NotStarted? { UnreachedStays(l, l', l.check.owed); }
    var attaches := step.Attach? && step.p == l.pub;
    if !attaches {
      if !l.attached { StepKeepsOpenPublication(l.c, step, l.pub); }
      if l.id in l'.c.objects { StepKeepsObject(l.c, step, l.id); }
    }
  }

  /** A probe of the object, while it is pending or in the index, misses no completed hard purge that reaches it. */
  lemma ProbeTells(l: Lookups)
    requires LookupsInv(l) && !Gone(l)
    ensures Probe(l.c.map_, l.regSeq, l.tags) != HardStale ==> Unreached(l, l.c.done)
  {
    var o := if l.id in l.c.objects then l.c.objects[l.id] else Object(l.regSeq, l.tags, false);
    assert o.regSeq == l.regSeq && o.folds == l.tags;
    if l.id !in l.c.objects {
      assert l.c.pubs[l.pub].regSeq >= l.c.reclaimed;
      assert Clean(l.c, o, l.c.reclaimed);
    }
    ProbeClears(l.c, o);
    if Probe(l.c.map_, l.regSeq, l.tags) != HardStale {
      forall i: nat | i < l.c.done && i < |l.c.purges|
        ensures !Hits(l.c.purges, i, Hard, l.regSeq, l.tags)
      {
        assert !Hit(l.c, i, Hard, o);
      }
    }
  }

  lemma FoundKeepsInv(l: Lookups)
    requires LookupsInv(l) && l.id in l.c.objects && !l.check.NotStarted?
    ensures LookupsInv(Found(l))
  {
    ProbeTells(l);
    StepKeepsInv(l.c, StaleCheck(l.id));
    StepGrows(l.c, StaleCheck(l.id));
    UnreachedStays(l, Found(l), l.check.owed);
    if l.id in Found(l).c.objects { StepKeepsObject(l.c, StaleCheck(l.id), l.id); }
  }

  lemma MoveKeepsInv(l: Lookups, m: Move)
    requires LookupsInv(l) && CanMove(l, m, false)
    ensures LookupsInv(DoMove(l, m))
  {
    match m
    case Protocol(step) => ProtocolKeepsInv(l, step);
    case LookUp => if l.id in l.c.objects { FoundKeepsInv(l); }
    case LookUpAgain => if l.id in l.c.objects { FoundKeepsInv(l); }
    case LookAmongPending => if l.listed { ProbeTells(l); }
    case _ =>
  }

  lemma {:induction false} MovesKeepInv(l: Lookups, moves: seq<Move>)
    requires LookupsInv(l) && LegalMoves(l, moves, false)
    ensures LookupsInv(Reached(l, moves, false))
    decreases |moves|
  {
    if moves != [] {
      MoveKeepsInv(l, moves[0]);
      MovesKeepInv(DoMove(l, moves[0]), moves[1..]);
    }
  }

  // ----- a check that lets a removed object through -----

  lemma {:induction false} ExtendMoves(l: Lookups, moves: seq<Move>, m: Move)
    requires LegalMoves(l, moves, true) && CanMove(Reached(l, moves, true), m, true)
    ensures LegalMoves(l, moves + [m], true)
    ensures Reached(l, moves + [m], true) == DoMove(Reached(l, moves, true), m)
    decreases |moves|
  {
    if moves == [] {
      assert moves + [m] == [m] && [m][1..] == [];
    } else {
      ExtendMoves(DoMove(l, moves[0]), moves[1..], m);
      assert (moves + [m])[1..] == moves[1..] + [m];
    }
  }

  /** A publication registers under sequence 0. */
  lemma Registered() returns (steps: seq<Step>)
    ensures Publishes(steps, 0, 0)
    ensures After(Start, steps) ==
            Cache([], 0, {}, Empty, NoPrune, Pinned0, map[0 := Open(0)], map[], NoCertificate, Resting, 0)
  {
    steps := [];
    Extend(Start, steps, Enter(0));
    steps := steps + [Enter(0)];
    Extend(Start, steps, ReadSeq(0));
    steps := steps + [ReadSeq(0)];
  }

  /** The cache after a hard purge of tag 7. */
  function Purged(pub: Publication, objects: map<ObjId, Object>): Cache {
    Cache([Purge({7}, Hard)], 1, {}, Marked1, NoPrune, Pinned0, map[0 := pub], objects, NoCertificate, Resting, 0)
  }

  /** A hard purge of the object's tag completes; a check begins, and does not find the object in the index. */
  lemma CheckMisses(steps: seq<Step>) returns (moves: seq<Move>)
    requires Publishes(steps, 0, 0)
    requires After(Start, steps) ==
             Cache([], 0, {}, Empty, NoPrune, Pinned0, map[0 := Open(0)], map[], NoCertificate, Resting, 0)
    ensures LegalMoves(Pending(steps, 0, 0, {7}), moves, true)
    ensures Reached(Pending(steps, 0, 0, {7}), moves, true) ==
            Lookups(Purged(Open(0), map[]), 0, 0, 0, {7}, true, false, Second(1))
  {
    var l := Pending(steps, 0, 0, {7});
    moves := [];
    ExtendMoves(l, moves, Protocol(BeginPurge({7}, Hard)));
    moves := moves + [Protocol(BeginPurge({7}, Hard))];
    ExtendMoves(l, moves, Protocol(MarkFold(7)));
    moves := moves + [Protocol(MarkFold(7))];
    assert Reached(l, moves, true).c.todo == {};
    ExtendMoves(l, moves, Protocol(FinishPurge));
    moves := moves + [Protocol(FinishPurge)];
    ExtendMoves(l, moves, Begin);
    moves := moves + [Begin];
    ExtendMoves(l, moves, LookUp);
    moves := moves + [LookUp];
  }

  /** The object is attached, and condemned by its insert probe. */
  lemma ObjectCondemned(steps: seq<Step>) returns (moves: seq<Move>)
    requires Publishes(steps, 0, 0)
    requires After(Start, steps) ==
             Cache([], 0, {}, Empty, NoPrune, Pinned0, map[0 := Open(0)], map[], NoCertificate, Resting, 0)
    ensures LegalMoves(Pending(steps, 0, 0, {7}), moves, true)
    ensures Reached(Pending(steps, 0, 0, {7}), moves, true) ==
            Lookups(Purged(Finishing(0, true, Marked1), map[0 := Object(0, {7}, false)]), 0, 0, 0, {7}, true, true, Second(1))
  {
    var l := Pending(steps, 0, 0, {7});
    moves := CheckMisses(steps);
    assert 7 in Marked1.entries && Marked1.entries[7].Of(Hard) == 1;
    assert Newer(Marked1, Hard, 0, {7});
    ExtendMoves(l, moves, Protocol(Attach(0, 0, {7})));
    moves := moves + [Protocol(Attach(0, 0, {7}))];
  }

  /** It is removed, and its publication is unlisted. */
  lemma ObjectGoes(steps: seq<Step>) returns (moves: seq<Move>)
    requires Publishes(steps, 0, 0)
    requires After(Start, steps) ==
             Cache([], 0, {}, Empty, NoPrune, Pinned0, map[0 := Open(0)], map[], NoCertificate, Resting, 0)
    ensures LegalMoves(Pending(steps, 0, 0, {7}), moves, true)
    ensures Reached(Pending(steps, 0, 0, {7}), moves, true) ==
            Lookups(Purged(Leaving, map[]), 0, 0, 0, {7}, false, true, Second(1))
  {
    var l := Pending(steps, 0, 0, {7});
    moves := ObjectCondemned(steps);
    ExtendMoves(l, moves, Protocol(ApplyVerdict(0)));
    moves := moves + [Protocol(ApplyVerdict(0))];
    assert Reached(l, moves, true).c.objects == map[];
    ExtendMoves(l, moves, Unlist);
    moves := moves + [Unlist];
  }

  /** The check goes on, finds the object nowhere, and lets it through. */
  lemma RemovedObjectPasses() returns (steps: seq<Step>, moves: seq<Move>)
    ensures Publishes(steps, 0, 0) && LegalMoves(Pending(steps, 0, 0, {7}), moves, true)
    ensures !Right(Reached(Pending(steps, 0, 0, {7}), moves, true))
  {
    steps := Registered();
    var l := Pending(steps, 0, 0, {7});
    moves := ObjectGoes(steps);
    ExtendMoves(l, moves, LookAmongPending);
    moves := moves + [LookAmongPending];
    ExtendMoves(l, moves, LookUpAgain);
    moves := moves + [LookUpAgain];
    assert 7 in Reached(l, moves, true).c.purges[0].folds * {7};
    assert Hits(Reached(l, moves, true).c.purges, 0, Hard, 0, {7});
  }

  /** Every check of every object, begun before or after the object is attached, refuses it when a hard purge complete by
      then reaches it, in any interleaving with the protocol, exactly when no check is answered for an object that has left
      the cache since the check began.  The source looks for that only before its first lookup.
  */
  lemma RightUnlessGone(late: bool)
    ensures (forall steps, pub, id, tags, moves ::
               Publishes(steps, pub, id) && LegalMoves(Pending(steps, pub, id, tags), moves, late) ==>
               Right(Reached(Pending(steps, pub, id, tags), moves, late)))
            <==> !late
  {
    if late {
      var steps, moves := RemovedObjectPasses();
    } else {
      forall steps, pub, id, tags, moves |
        Publishes(steps, pub, id) && LegalMoves(Pending(steps, pub, id, tags), moves, false)
        ensures Right(Reached(Pending(steps, pub, id, tags), moves, false))
      {
        RunKeepsInv(Start, steps);
        MovesKeepInv(Pending(steps, pub, id, tags), moves);
      }
    }
  }

  // ----- and refuses nothing else -----

  lemma {:induction false} MovesKeepMarksTrue(l: Lookups, moves: seq<Move>)
    requires MarksTrue(l.c) && LegalMoves(l, moves, true)
    ensures MarksTrue(Reached(l, moves, true).c)
    decreases |moves|
  {
    if moves != [] {
      match moves[0] {
        case Protocol(step) => StepKeepsMarksTrue(l.c, step);
        case LookUp => if l.id in l.c.objects { StepKeepsMarksTrue(l.c, StaleCheck(l.id)); }
        case LookUpAgain => if l.id in l.c.objects { StepKeepsMarksTrue(l.c, StaleCheck(l.id)); }
        case _ =>
      }
      MovesKeepMarksTrue(DoMove(l, moves[0]), moves[1..]);
    }
  }

  /** In any interleaving, a check is answered with a refusal only on the strength of a hard purge issued after the object
      registered.
  */
  lemma RefusesOnlyIfWarranted(steps: seq<Step>, pub: PubId, id: ObjId, tags: set<Fold>, moves: seq<Move>, m: Move)
    requires Publishes(steps, pub, id) && LegalMoves(Pending(steps, pub, id, tags), moves, true)
    requires var l := Reached(Pending(steps, pub, id, tags), moves, true);
             && CanMove(l, m, true) && !l.check.Answered? && DoMove(l, m).check.Answered? && DoMove(l, m).check.refuses
    ensures var l := Reached(Pending(steps, pub, id, tags), moves, true);
            Warranted(l.c, l.c.map_, Hard, Object(l.regSeq, l.tags, false))
  {
    RunKeepsMarksTrue(Start, steps);
    MovesKeepMarksTrue(Pending(steps, pub, id, tags), moves);
    var l := Reached(Pending(steps, pub, id, tags), moves, true);
    NewerIsWarranted(l.c, l.c.map_, Hard, Object(l.regSeq, l.tags, false));
  }
}
