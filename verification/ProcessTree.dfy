/** The descendant walk of src/core/_process_orphans.py, over one process snapshot.

    The walk keeps no visited set. What makes it finish, and what makes every
    process appear at most once, is that a parent map gives each process one
    parent: the walk can only meet a process twice by going round a parent
    cycle through its own root.
 */
module ProcessTree {
  import opened Common

  type Pid = nat

  /** A Python dict of PID to parent PID: lookup plus insertion order. */
  datatype Snapshot = Snapshot(order: seq<Pid>, parent: map<Pid, Pid>) {
    ghost predicate Valid() {
      Distinct(order) && forall p :: p in order <==> p in parent
    }
  }

  // ------------------------------------------------------------ parent chains

  /** The process reached from `p` by following `k` parent links, if all exist. */
  ghost function Up(parent: map<Pid, Pid>, p: Pid, k: nat): Option<Pid>
    decreases k
  {
    if k == 0 then Some(p)
    else if p in parent then Up(parent, parent[p], k - 1)
    else None
  }

  /** The parent chain of `p` reaches `root` in one step or more. */
  ghost predicate Descends(parent: map<Pid, Pid>, p: Pid, root: Pid) {
    exists k: nat :: k >= 1 && Up(parent, p, k) == Some(root)
  }

  ghost predicate OnCycle(parent: map<Pid, Pid>, p: Pid) {
    Descends(parent, p, p)
  }

  lemma {:induction false} UpCompose(parent: map<Pid, Pid>, p: Pid, j: nat, k: nat)
    requires Up(parent, p, j).Some?
    ensures Up(parent, p, j + k) == Up(parent, Up(parent, p, j).value, k)
    decreases j
  {
    if j > 0 {
      UpCompose(parent, parent[p], j - 1, k);
    }
  }

  lemma ChildDescends(parent: map<Pid, Pid>, kid: Pid, root: Pid)
    requires kid in parent
    requires parent[kid] == root || Descends(parent, parent[kid], root)
    ensures Descends(parent, kid, root)
  {
    if parent[kid] == root {
      assert Up(parent, root, 0) == Some(root);
      assert Up(parent, kid, 1) == Some(root);
    } else {
      var k: nat :| k >= 1 && Up(parent, parent[kid], k) == Some(root);
      assert Up(parent, kid, k + 1) == Some(root);
    }
  }

  /** A process on a cycle has a child on the same cycle. */
  lemma CycleChild(parent: map<Pid, Pid>, p: Pid) returns (kid: Pid)
    requires OnCycle(parent, p)
    ensures kid in parent && parent[kid] == p && OnCycle(parent, kid)
  {
    var k: nat :| k >= 1 && Up(parent, p, k) == Some(p);
    UpPrefix(parent, p, k - 1, k);
    kid := Up(parent, p, k - 1).value;
    UpCompose(parent, p, k - 1, 1);
    assert kid in parent && Up(parent, kid, 1) == Up(parent, parent[kid], 0);
    UpCompose(parent, p, k, k - 1);
    assert Up(parent, kid, k) == Up(parent, parent[kid], k - 1);
  }

  lemma {:induction false} UpPrefix(parent: map<Pid, Pid>, p: Pid, j: nat, k: nat)
    requires j <= k && Up(parent, p, k).Some?
    ensures Up(parent, p, j).Some?
    decreases j
  {
    if j > 0 {
      UpPrefix(parent, parent[p], j - 1, k - 1);
    }
  }

  /** Removing processes from a map creates no new descent, so no new cycle. */
  lemma DescendsInSubmap(small: map<Pid, Pid>, big: map<Pid, Pid>, p: Pid, root: Pid)
    requires forall q :: q in small ==> q in big && big[q] == small[q]
    requires Descends(small, p, root)
    ensures Descends(big, p, root)
  {
    var k: nat :| k >= 1 && Up(small, p, k) == Some(root);
    UpInSubmap(small, big, p, k);
  }

  lemma {:induction false} UpInSubmap(small: map<Pid, Pid>, big: map<Pid, Pid>, p: Pid, k: nat)
    requires forall q :: q in small ==> q in big && big[q] == small[q]
    requires Up(small, p, k).Some?
    ensures Up(big, p, k) == Up(small, p, k)
    decreases k
  {
    if k > 0 {
      UpInSubmap(small, big, small[p], k - 1);
    }
  }

  // ------------------------------------------------------------ children

  /** The processes whose parent is `p`, in snapshot order. */
  function KidsIn(order: seq<Pid>, parent: map<Pid, Pid>, p: Pid): (kids: seq<Pid>)
    ensures forall k :: k in kids <==> k in order && k in parent && parent[k] == p
  {
    if order == [] then []
    else
      var rest := order[..|order| - 1];
      var last := order[|order| - 1];
      KidsIn(rest, parent, p) + if last in parent && parent[last] == p then [last] else []
  }

  lemma {:induction false} KidsDistinct(order: seq<Pid>, parent: map<Pid, Pid>, p: Pid)
    requires Distinct(order)
    ensures Distinct(KidsIn(order, parent, p))
  {
    if order != [] {
      KidsDistinct(order[..|order| - 1], parent, p);
    }
  }

  function Lookup(children: map<Pid, seq<Pid>>, p: Pid): seq<Pid> {
    if p in children then children[p] else []
  }

  /** Inverts the parent map, as the walk does before it starts. */
  method ChildrenOf(s: Snapshot) returns (children: map<Pid, seq<Pid>>)
    requires s.Valid()
    ensures forall p :: Lookup(children, p) == KidsIn(s.order, s.parent, p)
  {
    children := map[];
    for i := 0 to |s.order|
      invariant forall p :: Lookup(children, p) == KidsIn(s.order[..i], s.parent, p)
    {
      var pid := s.order[i];
      assert s.order[..i + 1][..i] == s.order[..i];
      assert pid in s.order;
      var parentPid := s.parent[pid];
      children := children[parentPid := Lookup(children, parentPid) + [pid]];
    }
    assert s.order[..|s.order|] == s.order;
  }

  // ------------------------------------------------------------ the walk

  datatype Walk = Walk(frontier: seq<Pid>, descendants: seq<Pid>)

  function Start(root: Pid): Walk {
    Walk([root], [])
  }

  /** One turn of the loop: pop the last of the frontier, push its children. */
  function Step(s: Snapshot, w: Walk): Walk
    requires w.frontier != []
  {
    var current := w.frontier[|w.frontier| - 1];
    var kids := KidsIn(s.order, s.parent, current);
    Walk(w.frontier[..|w.frontier| - 1] + kids, w.descendants + kids)
  }

  /** The walk after `n` turns, standing still once its frontier is empty. */
  ghost function WalkAfter(s: Snapshot, root: Pid, n: nat): Walk {
    if n == 0 then Start(root)
    else
      var w := WalkAfter(s, root, n - 1);
      if w.frontier == [] then w else Step(s, w)
  }

  /** What every turn keeps while the root is on no cycle. */
  ghost predicate WalkInv(s: Snapshot, root: Pid, w: Walk) {
    && Distinct(w.frontier)
    && Distinct(w.descendants)
    && root !in w.descendants
    && (forall p :: p in w.frontier ==> p == root || p in w.descendants)
    && (forall p :: p in w.descendants ==>
          && p in s.parent
          && Descends(s.parent, p, root)
          && Settled(root, w, s.parent[p]))
    && (forall p :: p in s.parent && Settled(root, w, s.parent[p]) ==> p in w.descendants)
  }

  /** Already popped: its children have been collected. */
  ghost predicate Settled(root: Pid, w: Walk, p: Pid) {
    (p == root || p in w.descendants) && p !in w.frontier
  }

  /** The children pushed by one turn are new to the walk. */
  lemma KidsAreNew(s: Snapshot, root: Pid, w: Walk, kid: Pid)
    requires s.Valid() && !OnCycle(s.parent, root)
    requires WalkInv(s, root, w) && w.frontier != []
    requires kid in KidsIn(s.order, s.parent, w.frontier[|w.frontier| - 1])
    ensures kid !in w.descendants && kid !in w.frontier && kid != root
    ensures Descends(s.parent, kid, root)
  {
    var current := w.frontier[|w.frontier| - 1];
    assert current in w.frontier;
    assert s.parent[kid] == current && !Settled(root, w, current);
    ChildDescends(s.parent, kid, root);
  }

  /** Popping settles the popped process and nothing else. */
  lemma StepSettles(s: Snapshot, root: Pid, w: Walk, p: Pid)
    requires s.Valid() && !OnCycle(s.parent, root)
    requires WalkInv(s, root, w) && w.frontier != []
    ensures Settled(root, Step(s, w), p)
       <==> Settled(root, w, p) || p == w.frontier[|w.frontier| - 1]
  {
    var n := |w.frontier| - 1;
    var current := w.frontier[n];
    var rest := w.frontier[..n];
    var kids := KidsIn(s.order, s.parent, current);
    assert w.frontier == rest + [current];
    assert current in w.frontier && current !in rest;
    assert p in Step(s, w).frontier <==> p in rest || p in kids;
    assert p in Step(s, w).descendants <==> p in w.descendants || p in kids;
    if p in kids {
      KidsAreNew(s, root, w, p);
    }
    if current in kids {
      KidsAreNew(s, root, w, current);
    }
  }

  lemma StepKeepsDistinct(s: Snapshot, root: Pid, w: Walk)
    requires s.Valid() && !OnCycle(s.parent, root)
    requires WalkInv(s, root, w) && w.frontier != []
    ensures Distinct(Step(s, w).frontier) && Distinct(Step(s, w).descendants)
  {
    var rest := w.frontier[..|w.frontier| - 1];
    var kids := KidsIn(s.order, s.parent, w.frontier[|w.frontier| - 1]);
    KidsDistinct(s.order, s.parent, w.frontier[|w.frontier| - 1]);
    forall k | k in kids ensures k !in w.descendants && k !in rest {
      KidsAreNew(s, root, w, k);
    }
    DistinctAppend(rest, kids);
    DistinctAppend(w.descendants, kids);
  }

  lemma StepKeepsInv(s: Snapshot, root: Pid, w: Walk)
    requires s.Valid() && !OnCycle(s.parent, root)
    requires WalkInv(s, root, w) && w.frontier != []
    ensures WalkInv(s, root, Step(s, w))
  {
    var current := w.frontier[|w.frontier| - 1];
    var kids := KidsIn(s.order, s.parent, current);
    var w' := Step(s, w);
    StepKeepsDistinct(s, root, w);
    assert w'.descendants == w.descendants + kids;
    assert forall p :: p in w'.frontier ==> p in w.frontier || p in kids;
    forall p | p in w'.descendants
      ensures p in s.parent && p != root && Descends(s.parent, p, root)
      ensures Settled(root, w', s.parent[p])
    {
      if p in kids {
        KidsAreNew(s, root, w, p);
      }
      StepSettles(s, root, w, s.parent[p]);
    }
    forall p | p in s.parent && Settled(root, w', s.parent[p]) ensures p in w'.descendants {
      StepSettles(s, root, w, s.parent[p]);
    }
  }

  /** Everything the finished walk must contain. */
  lemma {:induction false} ClosedUnderDescent(s: Snapshot, root: Pid, w: Walk, p: Pid, k: nat)
    requires WalkInv(s, root, w) && w.frontier == []
    requires k >= 1 && Up(s.parent, p, k) == Some(root)
    ensures p in w.descendants
    decreases k
  {
    if k == 1 {
      assert Up(s.parent, s.parent[p], 0) == Some(s.parent[p]);
      assert Settled(root, w, s.parent[p]);
    } else {
      ClosedUnderDescent(s, root, w, s.parent[p], k - 1);
      assert Settled(root, w, s.parent[p]);
    }
  }

  lemma RoomLeft(s: Snapshot, root: Pid, w: Walk)
    requires WalkInv(s, root, w)
    ensures |w.descendants| <= |s.parent.Keys|
  {
    DistinctFits(w.descendants, s.parent.Keys);
  }

  /** The list the walk returns from an intermediate state. */
  function Finish(s: Snapshot, root: Pid, w: Walk): (found: seq<Pid>)
    requires s.Valid() && !OnCycle(s.parent, root) && WalkInv(s, root, w)
    ensures Distinct(found)
    ensures forall p :: p in found <==> Descends(s.parent, p, root)
    decreases |s.parent.Keys| - |w.descendants|, |w.frontier|
  {
    if w.frontier == [] then
      assert forall p :: Descends(s.parent, p, root) ==> p in w.descendants by {
        forall p | Descends(s.parent, p, root) ensures p in w.descendants {
          var k: nat :| k >= 1 && Up(s.parent, p, k) == Some(root);
          ClosedUnderDescent(s, root, w, p, k);
        }
      }
      w.descendants
    else
      StepKeepsInv(s, root, w);
      RoomLeft(s, root, Step(s, w));
      Finish(s, root, Step(s, w))
  }

  /** `_descendant_pids`, as a function of its snapshot. */
  function DescendantList(s: Snapshot, root: Pid): (found: seq<Pid>)
    requires s.Valid() && !OnCycle(s.parent, root)
    ensures Distinct(found)
    ensures forall p :: p in found <==> Descends(s.parent, p, root)
  {
    Finish(s, root, Start(root))
  }

  /** `_descendant_pids`: every process whose parent chain reaches `root`, once.

      The source states no condition on the snapshot; off a cycle is exactly
      where its loop ends (see `EndsExactlyOffCycle`). */
  method DescendantPids(s: Snapshot, root: Pid) returns (descendants: seq<Pid>)
    requires s.Valid() && !OnCycle(s.parent, root)
    ensures descendants == DescendantList(s, root)
    ensures Distinct(descendants)
    ensures forall p :: p in descendants <==> Descends(s.parent, p, root)
  {
    var children := ChildrenOf(s);
    descendants := [];
    var frontier := [root];
    while frontier != []
      invariant WalkInv(s, root, Walk(frontier, descendants))
      invariant Finish(s, root, Walk(frontier, descendants)) == DescendantList(s, root)
      decreases |s.parent.Keys| - |descendants|, |frontier|
    {
      ghost var w := Walk(frontier, descendants);
      StepKeepsInv(s, root, w);
      RoomLeft(s, root, Step(s, w));
      var current := frontier[|frontier| - 1];
      frontier := frontier[..|frontier| - 1];
      var kids := Lookup(children, current);
      descendants := descendants + kids;
      frontier := frontier + kids;
      assert Walk(frontier, descendants) == Step(s, w);
    }
  }

  // ------------------------------------------------------------ termination

  /** A turn that meets a cyclic process leaves a cyclic process behind. */
  lemma CycleStays(s: Snapshot, w: Walk, p: Pid) returns (q: Pid)
    requires s.Valid() && p in w.frontier && OnCycle(s.parent, p)
    ensures q in Step(s, w).frontier && OnCycle(s.parent, q)
  {
    var rest := w.frontier[..|w.frontier| - 1];
    var current := w.frontier[|w.frontier| - 1];
    assert w.frontier == rest + [current];
    if p == current {
      q := CycleChild(s.parent, p);
      assert q in KidsIn(s.order, s.parent, current);
    } else {
      q := p;
      assert q in rest;
    }
  }

  lemma {:induction false} CycleNeverEmpties(s: Snapshot, root: Pid, n: nat)
    requires s.Valid() && OnCycle(s.parent, root)
    ensures exists p :: p in WalkAfter(s, root, n).frontier && OnCycle(s.parent, p)
  {
    hide OnCycle, Step;
    if n == 0 {
      assert root in Start(root).frontier;
    } else {
      CycleNeverEmpties(s, root, n - 1);
      var w := WalkAfter(s, root, n - 1);
      var p :| p in w.frontier && OnCycle(s.parent, p);
      var q := CycleStays(s, w, p);
    }
  }

  lemma {:induction false} OffCycleEnds(s: Snapshot, root: Pid, n: nat)
    requires s.Valid() && !OnCycle(s.parent, root)
    requires WalkInv(s, root, WalkAfter(s, root, n))
    ensures exists m :: m >= n && WalkAfter(s, root, m).frontier == []
    decreases |s.parent.Keys| - |WalkAfter(s, root, n).descendants|, |WalkAfter(s, root, n).frontier|
  {
    var w := WalkAfter(s, root, n);
    if w.frontier != [] {
      StepKeepsInv(s, root, w);
      assert WalkAfter(s, root, n + 1) == Step(s, w);
      RoomLeft(s, root, Step(s, w));
      OffCycleEnds(s, root, n + 1);
    }
  }

  /** The walk ends for some number of turns exactly when its root is on no parent cycle. */
  lemma EndsExactlyOffCycle(s: Snapshot, root: Pid)
    requires s.Valid()
    ensures (exists n: nat :: WalkAfter(s, root, n).frontier == []) <==> !OnCycle(s.parent, root)
  {
    if OnCycle(s.parent, root) {
      forall n: nat ensures WalkAfter(s, root, n).frontier != [] {
        CycleNeverEmpties(s, root, n);
      }
    } else {
      assert WalkAfter(s, root, 0) == Start(root);
      OffCycleEnds(s, root, 0);
    }
  }

  /** A walk whose frontier has emptied stands still. */
  lemma {:induction false} WalkStands(s: Snapshot, root: Pid, n: nat, m: nat)
    requires n <= m && WalkAfter(s, root, n).frontier == []
    ensures WalkAfter(s, root, m) == WalkAfter(s, root, n)
    decreases m
  {
    if n < m {
      WalkStands(s, root, n, m - 1);
    }
  }

  /** Off a cycle every turn keeps the invariant and the list still to be returned. */
  lemma {:induction false} WalkAims(s: Snapshot, root: Pid, n: nat)
    requires s.Valid() && !OnCycle(s.parent, root)
    ensures WalkInv(s, root, WalkAfter(s, root, n))
    ensures Finish(s, root, WalkAfter(s, root, n)) == DescendantList(s, root)
  {
    hide WalkInv, OnCycle, Step;
    if n == 0 {
      StartInv(s, root);
    } else {
      WalkAims(s, root, n - 1);
      var w := WalkAfter(s, root, n - 1);
      if w.frontier != [] {
        StepKeepsInv(s, root, w);
      }
    }
  }

  lemma StartInv(s: Snapshot, root: Pid)
    ensures WalkInv(s, root, Start(root))
  {
  }

  /** A walk that has ended returned the list. */
  lemma EndedWalkIsList(s: Snapshot, root: Pid, n: nat)
    requires s.Valid() && WalkAfter(s, root, n).frontier == []
    ensures !OnCycle(s.parent, root)
    ensures WalkAfter(s, root, n).descendants == DescendantList(s, root)
  {
    EndsExactlyOffCycle(s, root);
    hide OnCycle, WalkInv;
    WalkAims(s, root, n);
    hide WalkAfter;
  }
}
