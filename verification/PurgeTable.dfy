/** The purge map's hash table: open addressing with linear probing over a power-of-two array.

    A slot is empty (fold 0), a tombstone (fold 2^64 - 1) or live.  A lookup walks from the fold's home slot to the
    first empty slot, so a live slot must be reachable from its home without passing an empty one.  `Contents` is what
    the array means; the methods below compute on the array and are specified on the meaning.
*/
module PurgeTable {
  import opened Division
  import opened PurgeHistory

  const EMPTY: nat := 0
  const TOMBSTONE: nat := 0xFFFF_FFFF_FFFF_FFFF

  datatype Slot = Slot(fold: nat, hard: nat, soft: nat)

  const Blank := Slot(EMPTY, 0, 0)

  predicate IsFold(f: nat) { f != EMPTY && f != TOMBSTONE }

  predicate Live(e: Slot) { IsFold(e.fold) }

  /** The home slot: the low bits of the fold, `fold & (n - 1)` for a power of two `n`. */
  function Home(f: nat, n: nat): (h: nat)
    requires n > 0
    ensures h < n
  {
    f % n
  }

  /** The slot `k` steps after `h`, cyclically. */
  function At(h: nat, k: nat, n: nat): nat
    requires h < n && k <= n
  {
    if h + k < n then h + k else h + k - n
  }

  /** How many steps `i` is after `h`. */
  function Distance(h: nat, i: nat, n: nat): nat
    requires h < n && i < n
  {
    if h <= i then i - h else i + n - h
  }

  // ----- the meaning of an array -----

  ghost predicate Unique(s: seq<Slot>) {
    forall i, j :: 0 <= i < |s| && 0 <= j < |s| && Live(s[i]) && Live(s[j]) && s[i].fold == s[j].fold ==> i == j
  }

  /** No empty slot between the home of `s[i]` and `i`. */
  ghost predicate Reachable(s: seq<Slot>, i: nat)
    requires i < |s|
  {
    var h := Home(s[i].fold, |s|);
    forall k: nat :: k < Distance(h, i, |s|) ==> s[At(h, k, |s|)].fold != EMPTY
  }

  ghost predicate WellFormed(s: seq<Slot>) {
    && |s| > 0
    && Unique(s)
    && forall i: nat :: i < |s| && Live(s[i]) ==> Reachable(s, i)
  }

  ghost function Contents(s: seq<Slot>): map<Fold, Marks>
    requires Unique(s)
  {
    map i | 0 <= i < |s| && Live(s[i]) :: s[i].fold := Marks(s[i].hard, s[i].soft)
  }

  ghost function LiveSlots(s: seq<Slot>): set<nat> {
    set i: nat | i < |s| && Live(s[i])
  }

  ghost function Tombstones(s: seq<Slot>): set<nat> {
    set i: nat | i < |s| && s[i].fold == TOMBSTONE
  }

  ghost predicate HasEmpty(s: seq<Slot>) {
    exists i :: 0 <= i < |s| && s[i].fold == EMPTY
  }

  // ----- counting slots -----

  lemma NoEmptyMeansFull(s: seq<Slot>)
    requires !HasEmpty(s)
    ensures |LiveSlots(s)| + |Tombstones(s)| == |s|
  {
    assert LiveSlots(s) + Tombstones(s) == Below(|s|);
  }

  lemma RoomMeansEmpty(s: seq<Slot>)
    requires |LiveSlots(s)| + |Tombstones(s)| < |s|
    ensures HasEmpty(s)
  {
    if !HasEmpty(s) { NoEmptyMeansFull(s); }
  }

  lemma LiveIsInContents(s: seq<Slot>)
    requires Unique(s)
    ensures forall i: nat :: i < |s| && Live(s[i]) ==>
              s[i].fold in Contents(s) && Contents(s)[s[i].fold] == Marks(s[i].hard, s[i].soft)
  {
  }

  lemma InContentsIsLive(s: seq<Slot>, f: Fold) returns (i: nat)
    requires Unique(s) && f in Contents(s)
    ensures i < |s| && Live(s[i]) && s[i].fold == f
  {
    i :| i < |s| && Live(s[i]) && s[i].fold == f;
  }

  lemma ContentsSnoc(t: seq<Slot>, e: Slot)
    requires Unique(t + [e])
    ensures Unique(t)
    ensures Contents(t + [e]) == if Live(e) then Contents(t)[e.fold := Marks(e.hard, e.soft)] else Contents(t)
    ensures Live(e) ==> e.fold !in Contents(t)
  {
    PrefixIsUnique(t, e);
    var c, d := Contents(t), Contents(t + [e]);
    forall f
      ensures f in d <==> f in c || (Live(e) && f == e.fold)
      ensures f in c ==> f in d && d[f] == c[f]
    {
      ContentsSnocAt(t, e, f);
    }
    LastIsNew(t, e);
  }

  lemma LastIsNew(t: seq<Slot>, e: Slot)
    requires Unique(t + [e]) && Unique(t)
    ensures Live(e) ==> e.fold !in Contents(t)
  {
    assert (t + [e])[|t|] == e;
    forall i: nat | i < |t| && Live(t[i])
      ensures Live(e) ==> t[i].fold != e.fold
    {
      assert (t + [e])[i] == t[i];
    }
  }

  lemma PrefixIsUnique(t: seq<Slot>, e: Slot)
    requires Unique(t + [e])
    ensures Unique(t)
  {
    assert forall i: nat :: i < |t| ==> (t + [e])[i] == t[i];
  }

  lemma ContentsSnocAt(t: seq<Slot>, e: Slot, f: Fold)
    requires Unique(t + [e]) && Unique(t)
    ensures f in Contents(t + [e]) <==> f in Contents(t) || (Live(e) && f == e.fold)
    ensures f in Contents(t) ==> Contents(t + [e])[f] == Contents(t)[f]
  {
    var s := t + [e];
    if f in Contents(t) {
      var i := InContentsIsLive(t, f);
      assert s[i] == t[i];
      LiveIsInContents(t);
      LiveIsInContents(s);
    }
    if f in Contents(s) {
      var i := InContentsIsLive(s, f);
      if i < |t| {
        assert s[i] == t[i];
        LiveIsInContents(t);
      }
    }
    if Live(e) && f == e.fold {
      assert s[|t|] == e;
      LiveIsInContents(s);
    }
  }

  lemma LiveSlotsSnoc(t: seq<Slot>, e: Slot)
    ensures |LiveSlots(t + [e])| == |LiveSlots(t)| + if Live(e) then 1 else 0
  {
    assert LiveSlots(t + [e]) == if Live(e) then LiveSlots(t) + {|t|} else LiveSlots(t);
  }

  lemma ContentsSizeSnoc(t: seq<Slot>, e: Slot)
    requires Unique(t + [e])
    ensures Unique(t) && |Contents(t + [e])| == |Contents(t)| + if Live(e) then 1 else 0
  {
    ContentsSnoc(t, e);
    var c := Contents(t);
    if Live(e) { assert c[e.fold := Marks(e.hard, e.soft)].Keys == c.Keys + {e.fold}; }
  }

  /** There are as many live slots as entries. */
  lemma {:induction false} ContentsSize(s: seq<Slot>)
    requires Unique(s)
    ensures |Contents(s)| == |LiveSlots(s)|
  {
    if s != [] {
      var t, e := s[..|s| - 1], s[|s| - 1];
      assert s == t + [e];
      ContentsSizeSnoc(t, e);
      LiveSlotsSnoc(t, e);
      ContentsSize(t);
    }
  }

  // ----- walking from home -----

  /** `k` steps from home saw neither the fold nor an empty slot. */
  ghost predicate Walked(s: seq<Slot>, f: Fold, k: nat)
    requires |s| > 0
  {
    && k <= |s|
    && forall j: nat :: j < k ==>
         s[At(Home(f, |s|), j, |s|)].fold != EMPTY && s[At(Home(f, |s|), j, |s|)].fold != f
  }

  /** Every slot is some number of steps from home. */
  lemma EverySlotIsOnTheWalk(h: nat, i: nat, n: nat)
    requires h < n && i < n
    ensures Distance(h, i, n) < n && At(h, Distance(h, i, n), n) == i
  {
  }

  lemma WalkEnds(s: seq<Slot>, f: Fold, k: nat)
    requires |s| > 0 && HasEmpty(s) && Walked(s, f, k)
    ensures k < |s|
  {
    var e: nat :| e < |s| && s[e].fold == EMPTY;
    EverySlotIsOnTheWalk(Home(f, |s|), e, |s|);
  }

  /** A walk that reaches an empty slot has passed every place the fold could be. */
  lemma EmptyMeansAbsent(s: seq<Slot>, f: Fold, k: nat)
    requires WellFormed(s) && IsFold(f) && Walked(s, f, k) && k < |s|
    requires s[At(Home(f, |s|), k, |s|)].fold == EMPTY
    ensures f !in Contents(s)
  {
    var h := Home(f, |s|);
    forall i: nat | i < |s| && Live(s[i])
      ensures s[i].fold != f
    {
      EverySlotIsOnTheWalk(h, i, |s|);
      assert Reachable(s, i);
    }
  }

  // ----- writing one slot -----

  /** Filling slot `i`, empty or a tombstone, with a new fold whose walk reaches it. */
  lemma PlaceNew(s: seq<Slot>, i: nat, k: nat, e: Slot)
    requires WellFormed(s) && i < |s| && !Live(s[i]) && Live(e) && e.fold !in Contents(s)
    requires k < |s| && i == At(Home(e.fold, |s|), k, |s|)
    requires forall j: nat :: j < k ==> s[At(Home(e.fold, |s|), j, |s|)].fold != EMPTY
    ensures WellFormed(s[i := e])
    ensures Contents(s[i := e]) == Contents(s)[e.fold := Marks(e.hard, e.soft)]
    ensures |LiveSlots(s[i := e])| == |LiveSlots(s)| + 1
    ensures |Tombstones(s[i := e])| == |Tombstones(s)| - if s[i].fold == TOMBSTONE then 1 else 0
  {
    var t := s[i := e];
    LiveIsInContents(s);
    assert Unique(t);
    forall x: nat | x < |t| && Live(t[x])
      ensures Reachable(t, x)
    {
      PlacedIsReachable(s, i, k, e, x);
    }
    PlacedContents(s, i, e);
    assert LiveSlots(t) == LiveSlots(s) + {i};
    assert Tombstones(t) == Tombstones(s) - {i};
  }

  /** A new fold on its own walk is reachable, and filling a slot blocks no other walk. */
  lemma PlacedIsReachable(s: seq<Slot>, i: nat, k: nat, e: Slot, x: nat)
    requires WellFormed(s) && i < |s| && Live(e) && x < |s| && Live(s[i := e][x])
    requires k < |s| && i == At(Home(e.fold, |s|), k, |s|)
    requires forall j: nat :: j < k ==> s[At(Home(e.fold, |s|), j, |s|)].fold != EMPTY
    ensures Reachable(s[i := e], x)
  {
    if x != i { assert Reachable(s, x); }
  }

  lemma PlacedContents(s: seq<Slot>, i: nat, e: Slot)
    requires i < |s| && Live(e) && (!Live(s[i]) || s[i].fold == e.fold)
    requires Unique(s) && Unique(s[i := e])
    ensures Contents(s[i := e]) == Contents(s)[e.fold := Marks(e.hard, e.soft)]
  {
    var t := s[i := e];
    LiveIsInContents(s);
    LiveIsInContents(t);
    assert t[i] == e;
    forall f | f in Contents(t) && f != e.fold
      ensures f in Contents(s) && Contents(s)[f] == Contents(t)[f]
    {
      var x := InContentsIsLive(t, f);
      assert t[x] == s[x];
    }
    forall f | f in Contents(s) && f != e.fold
      ensures f in Contents(t)
    {
      var x := InContentsIsLive(s, f);
      assert t[x] == s[x];
    }
  }

  /** Changing the marks of a live slot. */
  lemma Restamp(s: seq<Slot>, i: nat, hard: nat, soft: nat)
    requires WellFormed(s) && i < |s| && Live(s[i])
    ensures WellFormed(s[i := Slot(s[i].fold, hard, soft)])
    ensures Contents(s[i := Slot(s[i].fold, hard, soft)]) == Contents(s)[s[i].fold := Marks(hard, soft)]
    ensures LiveSlots(s[i := Slot(s[i].fold, hard, soft)]) == LiveSlots(s)
    ensures Tombstones(s[i := Slot(s[i].fold, hard, soft)]) == Tombstones(s)
  {
    var t := s[i := Slot(s[i].fold, hard, soft)];
    forall x: nat | x < |t| && Live(t[x])
      ensures Reachable(t, x)
    {
      assert Reachable(s, x);
    }
    PlacedContents(s, i, t[i]);
  }

  // ----- the table -----

  class Table {
    const entries: array<Slot>

    ghost predicate Valid()
      reads entries
    {
      WellFormed(entries[..]) && |LiveSlots(entries[..])| + |Tombstones(entries[..])| < entries.Length
    }

    ghost function Meaning(): map<Fold, Marks>
      requires Valid()
      reads entries
    {
      Contents(entries[..])
    }

    constructor (n: nat)
      requires n > 0
      ensures Valid() && fresh(entries) && entries.Length == n
      ensures Meaning() == map[] && Tombstones(entries[..]) == {} && LiveSlots(entries[..]) == {}
    {
      entries := new Slot[n](_ => Blank);
      new;
      assert forall i :: 0 <= i < n ==> entries[..][i] == Blank;
      assert LiveSlots(entries[..]) == {} && Tombstones(entries[..]) == {};
    }

    /** Walks from home to the fold's slot, or to the first empty slot; `tomb` is the first tombstone passed. */
    method Walk(f: Fold) returns (pos: nat, found: bool, tomb: nat, sawTomb: bool, ghost steps: nat, ghost tombSteps: nat)
      requires Valid() && IsFold(f)
      ensures pos < entries.Length && steps < entries.Length
      ensures found <==> f in Meaning()
      ensures found ==> entries[pos].fold == f
      ensures !found ==> entries[pos].fold == EMPTY && pos == At(Home(f, entries.Length), steps, entries.Length)
      ensures !found ==> Walked(entries[..], f, steps)
      ensures sawTomb ==> tombSteps < steps && tomb == At(Home(f, entries.Length), tombSteps, entries.Length)
      ensures sawTomb ==> tomb < entries.Length && entries[tomb].fold == TOMBSTONE
    {
      var n := entries.Length;
      ghost var s := entries[..];
      RoomMeansEmpty(s);
      pos, found, tomb, sawTomb, steps, tombSteps := Home(f, n), false, 0, false, 0, 0;
      while entries[pos].fold != EMPTY
        invariant pos < n && steps < n && pos == At(Home(f, n), steps, n) && !found
        invariant Walked(s, f, steps)
        invariant sawTomb ==> tombSteps < steps && tomb == At(Home(f, n), tombSteps, n)
        invariant sawTomb ==> tomb < n && entries[tomb].fold == TOMBSTONE
        decreases n - steps
      {
        if entries[pos].fold == f {
          found := true;
          assert s[pos].fold in Contents(s);
          return;
        }
        if entries[pos].fold == TOMBSTONE && !sawTomb {
          tomb, sawTomb, tombSteps := pos, true, steps;
        }
        steps := steps + 1;
        WalkEnds(s, f, steps);
        pos := if pos + 1 == n then 0 else pos + 1;
      }
      EmptyMeansAbsent(s, f, steps);
    }

    /** `cachetag_purgemap_probe_one` */
    method ProbeOne(regSeq: nat, f: Fold) returns (r: Result)
      requires Valid() && IsFold(f)
      ensures r == Probe(History(Meaning(), 0, 0), regSeq, {f})
    {
      var pos, found, _, _, _, _ := Walk(f);
      ghost var h := History(Meaning(), 0, 0);
      if !found { return Fresh; }
      var e := entries[pos];
      assert entries[..][pos] == e && h.entries[f] == Marks(e.hard, e.soft);
      if e.hard > regSeq {
        assert h.entries[f].Of(Hard) > regSeq;
        return HardStale;
      }
      if e.soft > regSeq { assert h.entries[f].Of(Soft) > regSeq; }
      return if e.soft > regSeq then SoftStale else Fresh;
    }

    /** `cachetag_purgemap_table_insert_existing`: the table has no tombstones and not this fold. */
    method InsertExisting(e: Slot)
      requires Valid() && Live(e) && e.fold !in Meaning() && Tombstones(entries[..]) == {}
      requires |Meaning()| + 1 < entries.Length
      modifies entries
      ensures Valid() && Tombstones(entries[..]) == {}
      ensures Meaning() == old(Meaning())[e.fold := Marks(e.hard, e.soft)]
    {
      ContentsSize(entries[..]);
      var pos, _, _, _, steps, _ := Walk(e.fold);
      PlaceNew(entries[..], pos, steps, e);
      ghost var s := entries[..];
      entries[pos] := e;
      assert entries[..] == s[pos := e];
    }

    /** `cachetag_purgemap_apply_upsert_locked`: raises the fold's mark, or adds the fold in the first tombstone passed
        or else the empty slot reached.  The caller has made room.
    */
    method ApplyUpsert(f: Fold, q: nat, mode: Mode) returns (created: bool, reused: bool)
      requires Valid() && IsFold(f)
      requires |LiveSlots(entries[..])| + |Tombstones(entries[..])| + 1 < entries.Length
      modifies entries
      ensures Valid() && Meaning() == UpsertMarks(old(Meaning()), f, q, mode)
      ensures created <==> f !in old(Meaning())
      ensures reused ==> created
      ensures |LiveSlots(entries[..])| == old(|LiveSlots(entries[..])|) + if created then 1 else 0
      ensures |Tombstones(entries[..])| == old(|Tombstones(entries[..])|) - if reused then 1 else 0
    {
      var pos, found, tomb, sawTomb, steps, tombSteps := Walk(f);
      ghost var s := entries[..];
      if found {
        var e := entries[pos];
        assert s[pos] == e && Contents(s)[f] == Marks(e.hard, e.soft);
        if mode == Hard && e.hard < q {
          entries[pos] := e.(hard := q);
          Restamp(s, pos, q, e.soft);
          assert entries[..] == s[pos := Slot(f, q, e.soft)];
        } else if mode == Soft && e.soft < q {
          entries[pos] := e.(soft := q);
          Restamp(s, pos, e.hard, q);
          assert entries[..] == s[pos := Slot(f, e.hard, q)];
        }
        return false, false;
      }
      var e := if mode == Hard then Slot(f, q, 0) else Slot(f, 0, q);
      var at := if sawTomb then tomb else pos;
      PlaceNew(s, at, if sawTomb then tombSteps else steps, e);
      entries[at] := e;
      assert entries[..] == s[at := e];
      return true, sawTomb;
    }
  }
}
