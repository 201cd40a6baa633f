/** Copying a purge table slot by slot into a new one: everything (rebuild), the entries newer than a cutoff (prune), or
    the marks newer than a cutoff (reclaim).  Each copy is specified by what happens to the meaning.
*/
module TableCopies {
  import opened PurgeHistory
  import opened PurgeTable
  import opened Select
  import opened Division

  const INITIAL_SLOTS := 16
  const MAX_LOAD_PERCENT := 70

  // ----- counting entries by age -----

  ghost function OldFolds(entries: map<Fold, Marks>, c: nat): set<Fold> {
    set f | f in entries && entries[f].Newest() <= c
  }

  lemma OldFoldsSnoc(m: map<Fold, Marks>, f: Fold, k: Marks, c: nat)
    requires f !in m
    ensures |OldFolds(m[f := k], c)| == |OldFolds(m, c)| + if k.Newest() <= c then 1 else 0
  {
    assert OldFolds(m[f := k], c) == if k.Newest() <= c then OldFolds(m, c) + {f} else OldFolds(m, c);
  }

  // ----- copying a table slot by slot -----

  /** What the first `u` slots contribute is part of the whole. */
  lemma PrefixContents(s: seq<Slot>, u: nat)
    requires Unique(s) && u <= |s|
    ensures Unique(s[..u])
    ensures forall f :: f in Contents(s[..u]) ==> f in Contents(s) && Contents(s)[f] == Contents(s[..u])[f]
    ensures u == |s| ==> Contents(s[..u]) == Contents(s)
    ensures u == 0 ==> Contents(s[..u]) == map[]
  {
    LiveIsInContents(s);
    forall f | f in Contents(s[..u])
      ensures f in Contents(s) && Contents(s)[f] == Contents(s[..u])[f]
    {
      var i := InContentsIsLive(s[..u], f);
      LiveIsInContents(s[..u]);
      assert s[i] == s[..u][i];
    }
    if u == |s| { assert s[..u] == s; }
  }

  lemma PrefixStep(s: seq<Slot>, u: nat)
    requires Unique(s) && u < |s|
    ensures Unique(s[..u]) && Unique(s[..u + 1])
    ensures Contents(s[..u + 1]) ==
            if Live(s[u]) then Contents(s[..u])[s[u].fold := Marks(s[u].hard, s[u].soft)] else Contents(s[..u])
    ensures Live(s[u]) ==> s[u].fold !in Contents(s[..u])
  {
    assert s[..u + 1] == s[..u] + [s[u]];
    ContentsSnoc(s[..u], s[u]);
  }

  lemma SubmapIsSmaller<K, V>(a: map<K, V>, b: map<K, V>)
    requires forall k :: k in a ==> k in b
    ensures |a| <= |b|
  {
    SubsetIsSmaller(a.Keys, b.Keys);
  }

  lemma SurvivorsSnoc(m: map<Fold, Marks>, f: Fold, k: Marks, cutoff: nat)
    requires f !in m
    ensures Survivors(m[f := k], cutoff) ==
            if k.Newest() > cutoff then Survivors(m, cutoff)[f := k] else Survivors(m, cutoff)
  {
  }

  lemma ReclaimedSnoc(m: map<Fold, Marks>, f: Fold, k: Marks, cutoff: nat)
    requires f !in m
    ensures Reclaimed(m[f := k], cutoff) ==
            if CutMarks(k, cutoff) != Marks(0, 0) then Reclaimed(m, cutoff)[f := CutMarks(k, cutoff)]
            else Reclaimed(m, cutoff)
  {
  }

  lemma FloorSnoc(floor: nat, before: nat, m: map<Fold, Marks>, cutoff: nat, mode: Mode, f: Fold, k: Marks)
    requires f !in m && IsFloor(floor, before, m, cutoff, mode)
    ensures IsFloor(if k.Newest() <= cutoff && k.Of(mode) > floor then k.Of(mode) else floor,
                    before, m[f := k], cutoff, mode)
  {
    var m' := m[f := k];
    if k.Newest() <= cutoff && k.Of(mode) > floor {
      assert f in m' && m'[f].Newest() <= cutoff && m'[f].Of(mode) == k.Of(mode);
      forall g | g in m' && m'[g].Newest() <= cutoff
        ensures k.Of(mode) >= m'[g].Of(mode)
      {
        assert g != f ==> m'[g] == m[g];
      }
    } else {
      forall g | g in m' && m'[g].Newest() <= cutoff
        ensures floor >= m'[g].Of(mode)
      {
        assert g != f ==> m'[g] == m[g];
      }
      if floor != before {
        var g :| g in m && m[g].Newest() <= cutoff && floor == m[g].Of(mode);
        assert g in m' && m'[g] == m[g];
      }
    }
  }

  lemma SurvivorsCount(m: map<Fold, Marks>, cutoff: nat)
    ensures |Survivors(m, cutoff)| + |OldFolds(m, cutoff)| == |m|
  {
    assert Survivors(m, cutoff).Keys + OldFolds(m, cutoff) == m.Keys;
  }

  /** The smallest table, doubling from `start`, that holds `kept` entries within the load limit. */
  method SlotsFor(start: nat, kept: nat) returns (n: nat)
    requires start >= INITIAL_SLOTS
    ensures n >= start && kept * 100 <= n * MAX_LOAD_PERCENT
    ensures n == start || kept * 200 > n * MAX_LOAD_PERCENT
  {
    n := start;
    while kept * 100 > n * MAX_LOAD_PERCENT
      invariant n >= start && (n == start || kept * 200 > n * MAX_LOAD_PERCENT)
      decreases kept * 100 - n * MAX_LOAD_PERCENT
    {
      n := n * 2;
    }
  }

  // ----- copies -----

  /** Every live entry. */
  method CopyAll(src: Table, n: nat) returns (dst: Table)
    requires src.Valid() && |src.Meaning()| + 1 < n
    ensures fresh(dst) && fresh(dst.entries) && dst.Valid() && dst.entries.Length == n
    ensures dst.Meaning() == src.Meaning() && Tombstones(dst.entries[..]) == {}
  {
    dst := new Table(n);
    ghost var s := src.entries[..];
    PrefixContents(s, 0);
    for u := 0 to src.entries.Length
      invariant src.entries[..] == s && fresh(dst.entries) && dst.Valid() && Tombstones(dst.entries[..]) == {}
      invariant Unique(s[..u]) && dst.Meaning() == Contents(s[..u])
    {
      PrefixStep(s, u);
      if Live(src.entries[u]) {
        PrefixContents(s, u);
        SubmapIsSmaller(Contents(s[..u]), Contents(s));
        dst.InsertExisting(src.entries[u]);
      }
    }
    PrefixContents(s, |s|);
  }

  /** One entry of a prune: it is kept, or it raises the floors.  `m` is what has been passed before it. */
  method KeepOrPromote(dst: Table, e: Slot, cutoff: nat, hard: nat, soft: nat,
                       ghost m: map<Fold, Marks>, ghost hard0: nat, ghost soft0: nat)
    returns (hardFloor: nat, softFloor: nat)
    requires dst.Valid() && Tombstones(dst.entries[..]) == {} && dst.Meaning() == Survivors(m, cutoff)
    requires Live(e) && e.fold !in m && |Survivors(m, cutoff)| + 1 < dst.entries.Length
    requires IsFloor(hard, hard0, m, cutoff, Hard) && IsFloor(soft, soft0, m, cutoff, Soft)
    modifies dst.entries
    ensures dst.Valid() && Tombstones(dst.entries[..]) == {}
    ensures dst.Meaning() == Survivors(m[e.fold := Marks(e.hard, e.soft)], cutoff)
    ensures IsFloor(hardFloor, hard0, m[e.fold := Marks(e.hard, e.soft)], cutoff, Hard)
    ensures IsFloor(softFloor, soft0, m[e.fold := Marks(e.hard, e.soft)], cutoff, Soft)
  {
    ghost var k := Marks(e.hard, e.soft);
    SurvivorsSnoc(m, e.fold, k, cutoff);
    FloorSnoc(hard, hard0, m, cutoff, Hard, e.fold, k);
    FloorSnoc(soft, soft0, m, cutoff, Soft, e.fold, k);
    hardFloor, softFloor := hard, soft;
    if (if e.hard > e.soft then e.hard else e.soft) <= cutoff {
      if e.hard > hardFloor { hardFloor := e.hard; }
      if e.soft > softFloor { softFloor := e.soft; }
    } else {
      dst.InsertExisting(e);
    }
  }

  lemma RoomForSurvivor(s: seq<Slot>, u: nat, cutoff: nat)
    requires Unique(s) && u < |s|
    ensures Unique(s[..u]) && |Survivors(Contents(s[..u]), cutoff)| <= |Survivors(Contents(s), cutoff)|
  {
    PrefixContents(s, u);
    SubmapIsSmaller(Survivors(Contents(s[..u]), cutoff), Survivors(Contents(s), cutoff));
  }

  /** What the prune's copying loop has built from the first `u` slots. */
  ghost predicate PrunedSoFar(s: seq<Slot>, u: nat, dst: Table, cutoff: nat,
                              hard0: nat, soft0: nat, hard: nat, soft: nat)
    requires Unique(s) && u <= |s|
    reads dst.entries
  {
    && dst.Valid()
    && Tombstones(dst.entries[..]) == {}
    && Unique(s[..u])
    && IsPrune(History(Contents(s[..u]), hard0, soft0), History(dst.Meaning(), hard, soft), cutoff)
  }

  /** Slot `u` of the prune's copying loop. */
  method PruneSlot(src: Table, u: nat, dst: Table, cutoff: nat, hard: nat, soft: nat,
                   ghost hard0: nat, ghost soft0: nat)
    returns (hardFloor: nat, softFloor: nat)
    requires src.Valid() && u < src.entries.Length && src.entries != dst.entries
    requires PrunedSoFar(src.entries[..], u, dst, cutoff, hard0, soft0, hard, soft)
    requires |Survivors(src.Meaning(), cutoff)| + 1 < dst.entries.Length
    modifies dst.entries
    ensures PrunedSoFar(src.entries[..], u + 1, dst, cutoff, hard0, soft0, hardFloor, softFloor)
  {
    ghost var s := src.entries[..];
    PrefixStep(s, u);
    hardFloor, softFloor := hard, soft;
    if Live(src.entries[u]) {
      RoomForSurvivor(s, u, cutoff);
      hardFloor, softFloor :=
        KeepOrPromote(dst, src.entries[u], cutoff, hard, soft, Contents(s[..u]), hard0, soft0);
    }
  }

  /** Every entry newer than the cutoff; the others raise the floors. */
  method CopySurvivors(src: Table, cutoff: nat, n: nat, hard0: nat, soft0: nat)
    returns (dst: Table, hardFloor: nat, softFloor: nat)
    requires src.Valid() && |Survivors(src.Meaning(), cutoff)| + 1 < n
    ensures fresh(dst) && fresh(dst.entries) && dst.Valid() && dst.entries.Length == n
    ensures Tombstones(dst.entries[..]) == {}
    ensures IsPrune(History(src.Meaning(), hard0, soft0), History(dst.Meaning(), hardFloor, softFloor), cutoff)
  {
    dst := new Table(n);
    hardFloor, softFloor := hard0, soft0;
    ghost var s := src.entries[..];
    PrefixContents(s, 0);
    for u := 0 to src.entries.Length
      invariant src.entries[..] == s && fresh(dst.entries)
      invariant PrunedSoFar(s, u, dst, cutoff, hard0, soft0, hardFloor, softFloor)
    {
      hardFloor, softFloor := PruneSlot(src, u, dst, cutoff, hardFloor, softFloor, hard0, soft0);
    }
    PrefixContents(s, |s|);
  }

  /** One entry of a reclaim: its old marks are dropped, and it is kept if a mark is left. */
  method KeepIfMarked(dst: Table, e: Slot, cutoff: nat, ghost m: map<Fold, Marks>)
    requires dst.Valid() && Tombstones(dst.entries[..]) == {} && dst.Meaning() == Reclaimed(m, cutoff)
    requires Live(e) && e.fold !in m && |Reclaimed(m, cutoff)| + 1 < dst.entries.Length
    modifies dst.entries
    ensures dst.Valid() && Tombstones(dst.entries[..]) == {}
    ensures dst.Meaning() == Reclaimed(m[e.fold := Marks(e.hard, e.soft)], cutoff)
  {
    ReclaimedSnoc(m, e.fold, Marks(e.hard, e.soft), cutoff);
    var cut := Slot(e.fold, Cut(e.hard, cutoff), Cut(e.soft, cutoff));
    if cut.hard != 0 || cut.soft != 0 { dst.InsertExisting(cut); }
  }

  lemma RoomForReclaimed(s: seq<Slot>, u: nat, cutoff: nat)
    requires Unique(s) && u < |s|
    ensures Unique(s[..u]) && |Reclaimed(Contents(s[..u]), cutoff)| <= |Reclaimed(Contents(s), cutoff)|
  {
    PrefixContents(s, u);
    SubmapIsSmaller(Reclaimed(Contents(s[..u]), cutoff), Reclaimed(Contents(s), cutoff));
  }

  /** Every entry with a mark above the cutoff, its older mark dropped. */
  method CopyReclaimed(src: Table, cutoff: nat, n: nat) returns (dst: Table)
    requires src.Valid() && |Reclaimed(src.Meaning(), cutoff)| + 1 < n
    ensures fresh(dst) && fresh(dst.entries) && dst.Valid() && dst.entries.Length == n
    ensures dst.Meaning() == Reclaimed(src.Meaning(), cutoff) && Tombstones(dst.entries[..]) == {}
  {
    dst := new Table(n);
    ghost var s := src.entries[..];
    PrefixContents(s, 0);
    for u := 0 to src.entries.Length
      invariant src.entries[..] == s && fresh(dst.entries) && dst.Valid() && Tombstones(dst.entries[..]) == {}
      invariant Unique(s[..u]) && dst.Meaning() == Reclaimed(Contents(s[..u]), cutoff)
    {
      PrefixStep(s, u);
      if Live(src.entries[u]) {
        RoomForReclaimed(s, u, cutoff);
        KeepIfMarked(dst, src.entries[u], cutoff, Contents(s[..u]));
      }
    }
    PrefixContents(s, |s|);
  }

  /** How many entries a reclaim keeps. */
  method CountReclaimed(src: Table, cutoff: nat) returns (kept: nat)
    requires src.Valid()
    ensures kept == |Reclaimed(src.Meaning(), cutoff)|
  {
    kept := 0;
    ghost var s := src.entries[..];
    PrefixContents(s, 0);
    for u := 0 to src.entries.Length
      invariant Unique(s[..u]) && kept == |Reclaimed(Contents(s[..u]), cutoff)|
    {
      var e := src.entries[u];
      PrefixStep(s, u);
      if Live(e) {
        ReclaimedSnoc(Contents(s[..u]), e.fold, Marks(e.hard, e.soft), cutoff);
        if Cut(e.hard, cutoff) != 0 || Cut(e.soft, cutoff) != 0 { kept := kept + 1; }
      }
    }
    PrefixContents(s, |s|);
  }

  // ----- the cutoff of a prune -----

  /** As many of `v` are at most `c` as entries of `m` are, for every `c`. */
  ghost predicate Ages(v: seq<nat>, m: map<Fold, Marks>) {
    |v| == |m| && forall c :: CountUpTo(v, c) == |OldFolds(m, c)|
  }

  lemma AgesSnoc(v: seq<nat>, m: map<Fold, Marks>, f: Fold, k: Marks)
    requires Ages(v, m) && f !in m
    ensures Ages(v + [k.Newest()], m[f := k])
  {
    assert m[f := k].Keys == m.Keys + {f};
    forall c
      ensures CountUpTo(v + [k.Newest()], c) == |OldFolds(m[f := k], c)|
    {
      CountSnoc(v, k.Newest(), c);
      OldFoldsSnoc(m, f, k, c);
    }
  }

  /** What collecting from the first `u` slots gives. */
  ghost predicate Collected(s: seq<Slot>, u: nat, v: seq<nat>)
    requires Unique(s) && u <= |s|
  {
    Unique(s[..u]) && Ages(v, Contents(s[..u]))
  }

  lemma CollectedStep(s: seq<Slot>, u: nat, v: seq<nat>)
    requires Unique(s) && u < |s| && Collected(s, u, v)
    ensures !Live(s[u]) ==> Collected(s, u + 1, v)
    ensures Live(s[u]) ==> Collected(s, u + 1, v + [Marks(s[u].hard, s[u].soft).Newest()])
    ensures Live(s[u]) ==> |v| < |Contents(s)|
  {
    PrefixStep(s, u);
    if Live(s[u]) {
      AgesSnoc(v, Contents(s[..u]), s[u].fold, Marks(s[u].hard, s[u].soft));
      PrefixContents(s, u + 1);
      SubmapIsSmaller(Contents(s[..u + 1]), Contents(s));
    }
  }

  lemma CollectedEnds(s: seq<Slot>, v: seq<nat>)
    requires Unique(s)
    ensures Collected(s, 0, [])
    ensures Collected(s, |s|, v) ==> Ages(v, Contents(s))
  {
    PrefixContents(s, 0);
    PrefixContents(s, |s|);
  }

  /** The newest mark of every entry, in slot order. */
  method CollectNewest(src: Table, count: nat) returns (newest: array<nat>)
    requires src.Valid() && count == |src.Meaning()|
    ensures fresh(newest) && Ages(newest[..], src.Meaning())
  {
    newest := new nat[count];
    var kept: nat := 0;
    ghost var s, v := src.entries[..], [];
    CollectedEnds(s, v);
    for u := 0 to src.entries.Length
      invariant src.entries[..] == s && kept <= count && newest[..kept] == v && Collected(s, u, v)
    {
      kept, v := CollectSlot(src.entries[u], s, u, newest, kept, v);
    }
    CollectedEnds(s, v);
    assert newest[..] == newest[..kept];
  }

  method CollectSlot(e: Slot, ghost s: seq<Slot>, ghost u: nat, newest: array<nat>, kept0: nat, ghost v0: seq<nat>)
    returns (kept: nat, ghost v: seq<nat>)
    requires Unique(s) && u < |s| && s[u] == e && newest.Length == |Contents(s)|
    requires kept0 <= newest.Length && newest[..kept0] == v0 && Collected(s, u, v0)
    modifies newest
    ensures kept <= newest.Length && newest[..kept] == v && Collected(s, u + 1, v)
  {
    CollectedStep(s, u, v0);
    kept, v := kept0, v0;
    if Live(e) {
      v := v0 + [Marks(e.hard, e.soft).Newest()];
      newest[kept] := if e.hard > e.soft then e.hard else e.soft;
      kept := kept + 1;
    }
  }

  /** The least cutoff that removes at least `need` entries of `m`. */
  ghost predicate LeastCutoff(m: map<Fold, Marks>, cutoff: nat, need: nat) {
    |OldFolds(m, cutoff)| >= need && forall c: nat :: c < cutoff ==> |OldFolds(m, c)| < need
  }

  lemma RankIsLeastCutoff(v: seq<nat>, w: seq<nat>, m: map<Fold, Marks>, need: nat)
    requires Ages(v, m) && multiset(v) == multiset(w) && 0 < need <= |w|
    requires forall k :: 0 <= k < need - 1 ==> w[k] <= w[need - 1]
    requires forall k :: need - 1 < k < |w| ==> w[k] >= w[need - 1]
    ensures LeastCutoff(m, w[need - 1], need)
    ensures CountUpTo(w, w[need - 1]) == |OldFolds(m, w[need - 1])|
  {
    var cutoff := w[need - 1];
    CountOfPermutation(v, w, cutoff);
    RankCountsUpTo(w, need - 1);
    forall c: nat | c < cutoff
      ensures |OldFolds(m, c)| < need
    {
      CountOfPermutation(v, w, c);
      RankCountsBelow(w, need - 1, c);
    }
  }

  /** The cutoff a prune computes, the mark of rank `need`, and how many entries it removes. */
  method CutoffFor(src: Table, count: nat, need: nat) returns (cutoff: nat, removed: nat)
    requires src.Valid() && count == |src.Meaning()| && 0 < need <= count
    ensures LeastCutoff(src.Meaning(), cutoff, need)
    ensures removed == |OldFolds(src.Meaning(), cutoff)|
  {
    var newest := CollectNewest(src, count);
    ghost var before := newest[..];
    ghost var m := src.Meaning();
    cutoff := Kth(newest, need - 1);
    assert multiset(before) == multiset(newest[..]);
    RankIsLeastCutoff(before, newest[..], m, need);
    removed := CountAtMost(newest, cutoff);
  }
}
