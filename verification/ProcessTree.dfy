/** Two ways of asking whether one process descends from another in a snapshot of parent links: growing the set of a
    root's descendants until nothing changes, and walking up from the process.

    A snapshot may hold cycles and parents that are not in it.  Process ids in it are positive; parent ids may be zero.
*/
module ProcessTree {

  type Pid = int

  /** Process to parent. */
  type Snapshot = map<Pid, Pid>

  predicate Positive(parents: Snapshot) {
    forall p :: p in parents ==> p > 0
  }

  // ----- the relation both compute -----

  /** `root` is `k` parent links above `pid`. */
  ghost predicate Above(parents: Snapshot, pid: Pid, root: Pid, k: nat)
    decreases k
  {
    if k == 0 then pid == root else pid in parents && Above(parents, parents[pid], root, k - 1)
  }

  ghost predicate Descends(parents: Snapshot, pid: Pid, root: Pid) {
    exists k: nat :: Above(parents, pid, root, k)
  }

  ghost predicate Closed(parents: Snapshot, s: set<Pid>) {
    forall p :: p in parents && parents[p] in s ==> p in s
  }

  lemma DescendsStep(parents: Snapshot, pid: Pid, root: Pid)
    requires pid in parents && Descends(parents, parents[pid], root)
    ensures Descends(parents, pid, root)
  {
    var k: nat :| Above(parents, parents[pid], root, k);
    assert Above(parents, pid, root, k + 1);
  }

  /** A closed set that holds the root holds everything below it. */
  lemma {:induction false} ClosedHoldsDescendants(parents: Snapshot, s: set<Pid>, pid: Pid, root: Pid, k: nat)
    requires root in s && Closed(parents, s) && Above(parents, pid, root, k)
    ensures pid in s
    decreases k
  {
    if k > 0 { ClosedHoldsDescendants(parents, s, parents[pid], root, k - 1); }
  }

  // ----- growing the set -----

  /** One pass over the snapshot. */
  method Pass(root: Pid, parents: Snapshot, order: seq<Pid>, before: set<Pid>)
    returns (result: set<Pid>, changed: bool)
    requires forall p :: p in order <==> p in parents
    requires forall p :: p in before ==> Descends(parents, p, root)
    ensures before <= result && (forall p :: p in result ==> p in before || p in parents)
    ensures forall p :: p in result ==> Descends(parents, p, root)
    ensures changed <==> exists p :: p in result && p !in before
    ensures !changed ==> Closed(parents, result)
  {
    result, changed := before, false;
    for i := 0 to |order|
      invariant before <= result && (forall p :: p in result ==> p in before || p in parents)
      invariant forall p :: p in result ==> Descends(parents, p, root)
      invariant changed <==> exists p :: p in result && p !in before
      invariant !changed ==> forall k :: 0 <= k < i ==> order[k] in parents && (parents[order[k]] in result ==> order[k] in result)
    {
      var pid := order[i];
      if pid !in result && parents[pid] in result {
        DescendsStep(parents, pid, root);
        result := result + {pid};
        changed := true;
      }
    }
  }

  /** `descendants`: the least set that holds the root and every process whose parent it holds. */
  method Descendants(root: Pid, parents: Snapshot, order: seq<Pid>) returns (result: set<Pid>)
    requires forall p :: p in order <==> p in parents
    ensures forall p :: p in result <==> Descends(parents, p, root)
    ensures root in result && Closed(parents, result)
    ensures forall s :: root in s && Closed(parents, s) ==> result <= s
  {
    result := {root};
    var changed := true;
    assert Above(parents, root, root, 0);
    while changed
      invariant root in result && forall p :: p in result ==> Descends(parents, p, root)
      invariant !changed ==> Closed(parents, result)
      decreases parents.Keys - result, changed
    {
      ghost var before := result;
      result, changed := Pass(root, parents, order, result);
      if changed {
        ghost var p :| p in result && p !in before;
        assert p in parents.Keys - before && p !in parents.Keys - result;
      }
    }
    forall s, p | root in s && Closed(parents, s) && Descends(parents, p, root)
      ensures p in s
    {
      var k: nat :| Above(parents, p, root, k);
      ClosedHoldsDescendants(parents, s, p, root, k);
    }
    assert forall s :: root in s && Closed(parents, s) ==> forall p :: p in result ==> p in s;
  }

  // ----- walking up -----

  /** The processes from `pid` upwards, up to the first that is missing, repeated or not positive. */
  ghost function Walk(parents: Snapshot, pid: Pid, seen: set<Pid>): seq<Pid>
    decreases parents.Keys - seen
  {
    if pid <= 0 || pid in seen then []
    else if pid !in parents then [pid]
    else [pid] + Walk(parents, parents[pid], seen + {pid})
  }

  /** `lineage` */
  method Lineage(start: Pid, parents: Snapshot) returns (result: seq<Pid>)
    ensures result == Walk(parents, start, {})
  {
    var pid := start;
    result := [];
    var seen: set<Pid> := {};
    while pid > 0 && pid !in seen
      invariant result + Walk(parents, pid, seen) == Walk(parents, start, {})
      decreases parents.Keys - seen, pid !in seen
    {
      result := result + [pid];
      seen := seen + {pid};
      if pid !in parents { return; }
      pid := parents[pid];
    }
  }

  ghost predicate IsLink(parents: Snapshot, w: seq<Pid>, i: nat)
    requires i + 1 < |w|
  {
    w[i] in parents && w[i + 1] == parents[w[i]]
  }

  /** A walk goes from child to parent and never visits a process twice. */
  lemma {:induction false} WalkIsSimple(parents: Snapshot, pid: Pid, seen: set<Pid>)
    ensures var w := Walk(parents, pid, seen);
            && (w != [] ==> w[0] == pid)
            && (forall i :: 0 <= i < |w| ==> w[i] > 0 && w[i] !in seen)
            && (forall i: nat :: i + 1 < |w| ==> IsLink(parents, w, i))
            && (forall i, j :: 0 <= i < j < |w| ==> w[i] != w[j])
    decreases parents.Keys - seen
  {
    if pid > 0 && pid !in seen && pid in parents {
      var rest := Walk(parents, parents[pid], seen + {pid});
      WalkIsSimple(parents, parents[pid], seen + {pid});
      forall i: nat | i + 1 < |[pid] + rest|
        ensures IsLink(parents, [pid] + rest, i)
      {
        if i > 0 { assert IsLink(parents, rest, i - 1); }
      }
    }
  }

  lemma {:induction false} WalkedIsAbove(parents: Snapshot, pid: Pid, seen: set<Pid>, root: Pid)
    requires root in Walk(parents, pid, seen)
    ensures Descends(parents, pid, root)
    decreases parents.Keys - seen
  {
    if root == pid {
      assert Above(parents, pid, root, 0);
    } else {
      WalkedIsAbove(parents, parents[pid], seen + {pid}, root);
      DescendsStep(parents, pid, root);
    }
  }

  /** Links compose. */
  lemma {:induction false} AboveSplits(parents: Snapshot, pid: Pid, mid: Pid, root: Pid, m: nat, k: nat)
    requires Above(parents, pid, mid, m) && Above(parents, pid, root, k) && m <= k
    ensures Above(parents, mid, root, k - m)
    decreases m
  {
    if m > 0 { AboveSplits(parents, parents[pid], mid, root, m - 1, k - 1); }
  }

  ghost predicate Nearest(parents: Snapshot, pid: Pid, root: Pid, k: nat) {
    Above(parents, pid, root, k) && forall j: nat :: j < k ==> !Above(parents, pid, root, j)
  }

  lemma {:induction false} NearestExists(parents: Snapshot, pid: Pid, root: Pid, k: nat) returns (n: nat)
    requires Above(parents, pid, root, k)
    ensures Nearest(parents, pid, root, n)
    decreases k
  {
    if j: nat :| j < k && Above(parents, pid, root, j) {
      n := NearestExists(parents, pid, root, j);
    } else {
      n := k;
    }
  }

  /** The walk reaches the nearest occurrence of a root that it has not passed. */
  lemma {:induction false} WalkReaches(parents: Snapshot, pid: Pid, seen: set<Pid>, root: Pid, k: nat)
    requires Positive(parents) && root > 0 && Nearest(parents, pid, root, k)
    requires forall j: nat, p :: j <= k && Above(parents, pid, p, j) ==> p !in seen
    ensures root in Walk(parents, pid, seen)
    decreases k
  {
    assert Above(parents, pid, pid, 0);
    if k > 0 {
      var next := parents[pid];
      forall j: nat | j < k - 1
        ensures !Above(parents, next, root, j)
      {
        assert !Above(parents, pid, root, j + 1);
      }
      forall j: nat, p | j <= k - 1 && Above(parents, next, p, j)
        ensures p !in seen + {pid}
      {
        assert Above(parents, pid, p, j + 1);
        // coming back to `pid` would give a shorter way to the root
        if p == pid { AboveSplits(parents, pid, pid, root, j + 1, k); }
      }
      WalkReaches(parents, next, seen + {pid}, root, k - 1);
    }
  }

  // ----- agreement -----

  /** Walking up finds the root exactly for its descendants. */
  lemma WalkAgrees(parents: Snapshot, pid: Pid, root: Pid)
    requires Positive(parents) && root > 0
    ensures Descends(parents, pid, root) <==> root in Walk(parents, pid, {})
  {
    if Descends(parents, pid, root) {
      var k: nat :| Above(parents, pid, root, k);
      var n := NearestExists(parents, pid, root, k);
      WalkReaches(parents, pid, {}, root, n);
    }
    if root in Walk(parents, pid, {}) { WalkedIsAbove(parents, pid, {}, root); }
  }

  ghost predicate Agree(parents: Snapshot, root: Pid) {
    forall pid :: Descends(parents, pid, root) <==> root in Walk(parents, pid, {})
  }

  /** The two agree on every process if and only if the root is a process id. */
  lemma AgreeIffPositiveRoot(parents: Snapshot, root: Pid)
    requires Positive(parents)
    ensures Agree(parents, root) <==> root > 0
  {
    if root > 0 {
      forall pid
        ensures Descends(parents, pid, root) <==> root in Walk(parents, pid, {})
      {
        WalkAgrees(parents, pid, root);
      }
    } else {
      assert Above(parents, root, root, 0) && Descends(parents, root, root);
      assert Walk(parents, root, {}) == [];
    }
  }
}
