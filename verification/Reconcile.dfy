/** Startup reconciliation of src/core/_process_orphans.py, over a process table
    that its own kills change.

    The operating system is the table below and nothing else moves it while the
    routine runs; `OpenProcess` may be refused per process, for reading or for
    terminating.
 */
module Reconcile {
  import opened Common
  import opened ProcessTree
  import opened Ledger

  /** `readable`: its handle opens for a query. `killable`: it can be terminated. */
  datatype Process = Process(start: real, parent: Pid, readable: bool, killable: bool)

  /** `order` fixes the order in which a snapshot lists the live processes;
      `jobs` holds the Job Objects that can still be reopened, with their members. */
  datatype Os = Os(order: seq<Pid>, procs: map<Pid, Process>, jobs: map<string, set<Pid>>) {
    ghost predicate Valid() {
      Distinct(order) && forall p :: p in procs ==> p in order
    }
  }

  const START_TIME_TOLERANCE_S: real := 0.001

  function Abs(x: real): real {
    if x < 0.0 then -x else x
  }

  // ------------------------------------------------------------ what the OS answers

  predicate IsAlive(os: Os, pid: Pid) {
    pid in os.procs && os.procs[pid].readable
  }

  function StartTime(os: Os, pid: Pid): Option<real> {
    if IsAlive(os, pid) then Some(os.procs[pid].start) else None
  }

  /** PID and start time together name one process. */
  predicate SameProcess(os: Os, pid: Pid, start: real) {
    var observed := StartTime(os, pid);
    observed.Some? && Abs(observed.value - start) <= START_TIME_TOLERANCE_S
  }

  predicate SupervisorIsAlive(os: Os, e: Entry) {
    && e.supervisorPid.Some?
    && e.supervisorStart.Some?
    && IsAlive(os, e.supervisorPid.value)
    && SameProcess(os, e.supervisorPid.value, e.supervisorStart.value)
  }

  function LiveOrder(order: seq<Pid>, procs: map<Pid, Process>): (live: seq<Pid>)
    ensures forall p :: p in live <==> p in order && p in procs
  {
    if order == [] then []
    else (if order[0] in procs then [order[0]] else []) + LiveOrder(order[1..], procs)
  }

  lemma {:induction false} LiveOrderDistinct(order: seq<Pid>, procs: map<Pid, Process>)
    requires Distinct(order)
    ensures Distinct(LiveOrder(order, procs))
  {
    if order != [] {
      LiveOrderDistinct(order[1..], procs);
      assert order[0] !in order[1..];
    }
  }

  function Parents(os: Os): map<Pid, Pid> {
    map p | p in os.procs :: os.procs[p].parent
  }

  /** `_snapshot_parent_pids`. */
  function SnapshotOf(os: Os): (s: Snapshot)
    requires os.Valid()
    ensures s.Valid()
  {
    LiveOrderDistinct(os.order, os.procs);
    Snapshot(LiveOrder(os.order, os.procs), Parents(os))
  }

  // ------------------------------------------------------------ what the OS does

  predicate CanTerminate(os: Os, pid: Pid) {
    pid in os.procs && os.procs[pid].killable
  }

  function Terminate(os: Os, pids: set<Pid>): Os {
    os.(procs := os.procs - pids)
  }

  /** Terminating a Job Object takes every member and closes the name. */
  function TerminateJob(os: Os, name: string): Os
    requires name in os.jobs
  {
    Terminate(os, os.jobs[name]).(jobs := os.jobs - {name})
  }

  /** The candidates, in order, that a best-effort sweep really terminates. */
  function Swept(os: Os, targets: seq<Pid>): (killed: seq<Pid>)
    ensures forall p :: p in killed <==> p in targets && CanTerminate(os, p)
  {
    if targets == [] then []
    else
      var rest := Swept(os, targets[..|targets| - 1]);
      var last := targets[|targets| - 1];
      rest + if CanTerminate(os, last) then [last] else []
  }

  ghost predicate Acyclic(os: Os, pid: Pid) {
    !OnCycle(Parents(os), pid)
  }

  function TreeOf(os: Os, root: Pid): (targets: seq<Pid>)
    requires os.Valid() && Acyclic(os, root)
    ensures Distinct(targets) && targets != [] && targets[0] == root
    ensures forall p :: p in targets <==> p == root || Descends(Parents(os), p, root)
  {
    [root] + DescendantList(SnapshotOf(os), root)
  }

  /** `small` is `big` after some processes and Job Objects went away. */
  ghost predicate Shrinks(big: Os, small: Os) {
    && small.order == big.order
    && (forall p :: p in small.procs ==> p in big.procs && small.procs[p] == big.procs[p])
    && (forall n :: n in small.jobs ==> n in big.jobs && small.jobs[n] == big.jobs[n])
  }

  lemma DescendsBefore(big: Os, small: Os, p: Pid, root: Pid)
    requires Shrinks(big, small)
    requires Descends(Parents(small), p, root)
    ensures Descends(Parents(big), p, root)
  {
    DescendsInSubmap(Parents(small), Parents(big), p, root);
  }

  lemma AcyclicStays(big: Os, small: Os, pid: Pid)
    requires Shrinks(big, small) && Acyclic(big, pid)
    ensures Acyclic(small, pid)
  {
    if OnCycle(Parents(small), pid) {
      DescendsBefore(big, small, pid, pid);
    }
  }

  // ------------------------------------------------------------ one entry

  /** The recorded process is running and nobody recorded as its owner is. */
  predicate Condemned(os: Os, e: Entry) {
    !SupervisorIsAlive(os, e) && SameProcess(os, e.pid, e.startTime)
  }

  predicate JobReopens(os: Os, e: Entry) {
    e.jobObject.Some? && e.jobObject.value in os.jobs
  }

  /** Only such an entry has its process tree walked. */
  predicate TakesTree(os: Os, e: Entry) {
    Condemned(os, e) && !JobReopens(os, e)
  }

  /** The entry's turn ends: if its tree is walked, its process is on no parent cycle. */
  ghost predicate Ends(os: Os, e: Entry) {
    TakesTree(os, e) ==> Acyclic(os, e.pid)
  }

  /** The five ways the loop can leave an entry. */
  datatype Verdict = Spared | Gone | NotOurs | ViaJob | ViaTree(killed: seq<Pid>) | Stuck

  function Judge(os: Os, e: Entry): Verdict
    requires os.Valid() && Ends(os, e)
  {
    if SupervisorIsAlive(os, e) then Spared
    else if !IsAlive(os, e.pid) then Gone
    else if !SameProcess(os, e.pid, e.startTime) then NotOurs
    else if e.jobObject.Some? && e.jobObject.value in os.jobs then ViaJob
    else
      var killed := Swept(os, TreeOf(os, e.pid));
      if killed == [] then Stuck else ViaTree(killed)
  }

  datatype Outcome = Outcome(os: Os, killed: seq<Pid>, surviving: seq<Item>)

  function ReconcileOne(os: Os, item: Item): (r: Outcome)
    requires os.Valid() && Ends(os, item.entry)
    ensures r.os.Valid() && Shrinks(os, r.os)
  {
    match Judge(os, item.entry)
    case Spared => Outcome(os, [], [item])
    case Gone => Outcome(os, [], [])
    case NotOurs => Outcome(os, [], [])
    case ViaJob => Outcome(TerminateJob(os, item.entry.jobObject.value), [item.entry.pid], [])
    case ViaTree(killed) => Outcome(Terminate(os, Elements(killed)), killed, [])
    case Stuck => Outcome(os, [], [item])
  }

  // ------------------------------------------------------------ the whole ledger

  /** Every entry's turn ends, on the table as the earlier ones have left it. This is
      exactly when the routine ends: see `EndsExactly`. */
  ghost predicate Walkable(os: Os, items: seq<Item>)
    decreases |items|, 0
  {
    os.Valid() &&
    (items == [] ||
     (Walkable(os, items[..|items| - 1])
      && Ends(ReconcileAll(os, items[..|items| - 1]).os, items[|items| - 1].entry)))
  }

  /** `reconcile_orphans`, as a function of the table and the ledger it starts from. */
  function ReconcileAll(os: Os, items: seq<Item>): (r: Outcome)
    requires Walkable(os, items)
    ensures r.os.Valid() && Shrinks(os, r.os)
    decreases |items|, 1
  {
    if items == [] then Outcome(os, [], [])
    else
      var n := |items| - 1;
      var before := ReconcileAll(os, items[..n]);
      var one := ReconcileOne(before.os, items[n]);
      Outcome(one.os, before.killed + one.killed, before.surviving + one.surviving)
  }

  /** What ends for a ledger ends for a beginning of it, and for its next entry. */
  lemma {:induction false} WalkablePrefix(os: Os, items: seq<Item>, i: nat)
    requires Walkable(os, items) && i <= |items|
    ensures Walkable(os, items[..i])
    ensures i < |items| ==> Ends(ReconcileAll(os, items[..i]).os, items[i].entry)
    decreases |items|
  {
    if i == |items| {
      assert items[..i] == items;
    } else {
      var init := items[..|items| - 1];
      WalkablePrefix(os, init, i);
      assert init[..i] == items[..i];
    }
  }

  /** The table as the loop finds it when it comes to item `i`. */
  function OsAt(os: Os, items: seq<Item>, i: nat): (at: Os)
    requires Walkable(os, items) && i <= |items|
    ensures Shrinks(os, at) && at.Valid()
    ensures i < |items| ==> Ends(at, items[i].entry)
  {
    WalkablePrefix(os, items, i);
    ReconcileAll(os, items[..i]).os
  }

  /** The processes a condemned entry puts in reach: its own, its Job Object's
      members, or, with no Job Object to reopen, its descendants. */
  ghost predicate InReach(os: Os, e: Entry, p: Pid) {
    || p == e.pid
    || (JobReopens(os, e) && p in os.jobs[e.jobObject.value])
    || (!JobReopens(os, e) && Descends(Parents(os), p, e.pid))
  }

  /** Neither kill path terminates anything. */
  ghost predicate Unkillable(os: Os, e: Entry) {
    && !JobReopens(os, e) && Acyclic(os, e.pid)
    && forall p :: p == e.pid || Descends(Parents(os), p, e.pid) ==> !CanTerminate(os, p)
  }

  ghost predicate WasKilled(os: Os, r: Outcome, p: Pid) {
    p in r.killed || (p in os.procs && p !in r.os.procs)
  }

  /** The table shows a process of this PID whose data can be read and whose start is
      within a millisecond of the recorded one. */
  predicate RunsAs(os: Os, pid: Pid, start: real) {
    pid in os.procs && os.procs[pid].readable && start - 0.001 <= os.procs[pid].start <= start + 0.001
  }

  /** So does it of the supervisor, if one is recorded. */
  predicate Supervised(os: Os, e: Entry) {
    e.supervisorPid.Some? && e.supervisorStart.Some? && RunsAs(os, e.supervisorPid.value, e.supervisorStart.value)
  }

  predicate Orphan(os: Os, e: Entry) {
    RunsAs(os, e.pid, e.startTime) && !Supervised(os, e)
  }

  /** What the checks of PID and start time amount to: a PID that was reused by a process
      started at another time is neither an orphan nor a supervisor. */
  lemma OrphanExactly(os: Os, e: Entry)
    ensures SupervisorIsAlive(os, e) <==> Supervised(os, e)
    ensures Condemned(os, e) <==> Orphan(os, e)
  {
  }

  /** No Job Object to reopen, and nothing in the process tree can be terminated. */
  ghost predicate OutOfReach(os: Os, e: Entry) {
    && !(e.jobObject.Some? && e.jobObject.value in os.jobs)
    && !OnCycle(Parents(os), e.pid)
    && forall p :: p in os.procs && (p == e.pid || Descends(Parents(os), p, e.pid)) ==> !os.procs[p].killable
  }

  /** What an entry's turn terminates. */
  ghost function Struck(os: Os, e: Entry): set<Pid> {
    if !Orphan(os, e) then {}
    else if e.jobObject.Some? && e.jobObject.value in os.jobs then os.jobs[e.jobObject.value] * os.procs.Keys
    else set p | p in os.procs && os.procs[p].killable && (p == e.pid || Descends(Parents(os), p, e.pid))
  }

  /** One turn, on the fields of the table: what goes, what is reported and whether the
      entry stays. */
  lemma TurnIsExactly(os: Os, item: Item)
    requires os.Valid() && Ends(os, item.entry)
    ensures var e, one := item.entry, ReconcileOne(os, item);
      var viaJob := Orphan(os, e) && e.jobObject.Some? && e.jobObject.value in os.jobs;
      && one.os.order == os.order && one.os.procs == os.procs - Struck(os, e)
      && one.os.jobs == (if viaJob then os.jobs - {e.jobObject.value} else os.jobs)
      && (if viaJob then one.killed == [e.pid] else Elements(one.killed) == Struck(os, e) && Distinct(one.killed))
      && (!viaJob && e.pid in Struck(os, e) ==> one.killed != [] && one.killed[0] == e.pid)
      && one.surviving ==
         (if Supervised(os, e) || (Orphan(os, e) && !viaJob && Struck(os, e) == {}) then [item] else [])
  {
    var e := item.entry;
    OrphanExactly(os, e);
    hide Descends, Acyclic, TreeOf, SupervisorIsAlive, Supervised, RunsAs, Shrinks, Swept;
    match Judge(os, e)
    case ViaJob => assert os.procs - os.jobs[e.jobObject.value] == os.procs - Struck(os, e);
    case ViaTree(killed) =>
      TreeIsStruck(os, e, killed);
      assert killed[0] in killed;
    case Stuck => TreeIsStruck(os, e, []);
    case _ =>
      assert Struck(os, e) == {} && os.procs - {} == os.procs && Elements<Pid>([]) == {};
  }

  lemma TreeIsStruck(os: Os, e: Entry, killed: seq<Pid>)
    requires os.Valid() && TakesTree(os, e) && Acyclic(os, e.pid) && killed == Swept(os, TreeOf(os, e.pid))
    ensures Orphan(os, e) && Elements(killed) == Struck(os, e) && Distinct(killed)
    ensures e.pid in Struck(os, e) ==> killed != [] && killed[0] == e.pid
  {
    SweptHead(os, TreeOf(os, e.pid));
    OrphanExactly(os, e);
    SweptOnce(os, TreeOf(os, e.pid));
    hide Descends, Acyclic, TreeOf, SupervisorIsAlive, Supervised, RunsAs, Swept;
  }

  function Killable(procs: map<Pid, Process>): set<Pid> {
    set p | p in procs && procs[p].killable
  }

  /** A sweep takes the targets that can be terminated, in their order. */
  lemma {:induction false} SweptFilters(os: Os, targets: seq<Pid>)
    ensures Filters(Swept(os, targets), targets, Killable(os.procs))
  {
    if targets == [] {
      FiltersNone(Killable(os.procs));
    } else {
      var front, last := targets[..|targets| - 1], targets[|targets| - 1];
      SweptFilters(os, front);
      assert targets == front + [last];
      assert CanTerminate(os, last) <==> last in Killable(os.procs);
      assert Swept(os, targets) == Swept(os, front) + if CanTerminate(os, last) then [last] else [];
      assert Swept(os, front) + [] == Swept(os, front);
      hide Filters, Swept, Killable, CanTerminate;
      FiltersBack(Swept(os, front), front, last, Killable(os.procs));
    }
  }

  /** The first target goes first. */
  lemma {:induction false} SweptHead(os: Os, targets: seq<Pid>)
    requires targets != []
    ensures CanTerminate(os, targets[0]) ==> Swept(os, targets) != [] && Swept(os, targets)[0] == targets[0]
  {
    if |targets| > 1 {
      SweptHead(os, targets[..|targets| - 1]);
    }
  }

  lemma {:induction false} SweptOnce(os: Os, targets: seq<Pid>)
    requires Distinct(targets)
    ensures Distinct(Swept(os, targets))
  {
    if targets != [] {
      var front, last := targets[..|targets| - 1], targets[|targets| - 1];
      SweptOnce(os, front);
      assert last !in front;
    }
  }

  lemma StepKills(os: Os, item: Item, p: Pid)
    requires os.Valid() && Ends(os, item.entry)
    requires WasKilled(os, ReconcileOne(os, item), p)
    ensures Orphan(os, item.entry) && InReach(os, item.entry, p)
  {
    TurnIsExactly(os, item);
    hide ReconcileOne, Ends, Shrinks, Descends, Orphan, Supervised;
    assert p in ReconcileOne(os, item).killed ==> p in Elements(ReconcileOne(os, item).killed);
  }

  lemma StepSurvives(os: Os, item: Item)
    requires os.Valid() && Ends(os, item.entry)
    ensures Judge(os, item.entry).Spared? <==> SupervisorIsAlive(os, item.entry)
    ensures Judge(os, item.entry).Stuck?
       <==> Condemned(os, item.entry) && Unkillable(os, item.entry)
  {
    var e := item.entry;
    if TakesTree(os, e) {
      hide TreeOf, Acyclic, Descends, SupervisorIsAlive, Swept;
      var targets := TreeOf(os, e.pid);
      if Swept(os, targets) != [] {
        assert Swept(os, targets)[0] in Swept(os, targets);
      }
      forall p | p in targets && CanTerminate(os, p) ensures Swept(os, targets) != [] {
        assert p in Swept(os, targets);
      }
    }
  }

  /** Nothing is killed, or reported killed, except in reach of an entry that at
      its turn matched a running process by PID and start time and whose recorded
      supervisor was not alive. */
  lemma {:induction false} KillsAreJustified(os: Os, items: seq<Item>, p: Pid)
    requires Walkable(os, items)
    requires WasKilled(os, ReconcileAll(os, items), p)
    ensures exists i ::
      && 0 <= i < |items|
      && Orphan(OsAt(os, items, i), items[i].entry)
      && InReach(OsAt(os, items, i), items[i].entry, p)
  {
    hide ReconcileOne, Orphan, InReach, Shrinks, Ends;
    var n := |items| - 1;
    var before := ReconcileAll(os, items[..n]);
    assert OsAt(os, items, n) == before.os;
    if WasKilled(os, before, p) {
      KillsAreJustified(os, items[..n], p);
      var i :| 0 <= i < n && Orphan(OsAt(os, items[..n], i), items[i].entry)
               && InReach(OsAt(os, items[..n], i), items[i].entry, p);
      assert items[..n][..i] == items[..i];
    } else {
      StepKills(before.os, items[n], p);
    }
  }

  lemma StruckNothing(os: Os, e: Entry)
    requires Orphan(os, e) && !JobReopens(os, e)
    ensures Struck(os, e) == {} <==>
      forall p :: p in os.procs && (p == e.pid || Descends(Parents(os), p, e.pid)) ==> !os.procs[p].killable
  {
    hide Orphan, Descends;
    if Struck(os, e) == {} {
      forall p | p in os.procs && (p == e.pid || Descends(Parents(os), p, e.pid)) ensures !os.procs[p].killable {
        assert p !in Struck(os, e);
      }
    }
  }

  lemma SurvivesHere(os: Os, item: Item)
    requires os.Valid() && Ends(os, item.entry)
    ensures ReconcileOne(os, item).surviving ==
      if Supervised(os, item.entry) || (Orphan(os, item.entry) && OutOfReach(os, item.entry)) then [item] else []
  {
    TurnIsExactly(os, item);
    OrphanExactly(os, item.entry);
    hide ReconcileOne, SupervisorIsAlive, Supervised, Orphan, Condemned, Descends, Shrinks, OnCycle;
    var e := item.entry;
    if Orphan(os, e) && !JobReopens(os, e) {
      StruckNothing(os, e);
    }
  }

  /** An entry stays in the ledger exactly when, at its turn, its supervisor was running,
      or it was an orphan and neither kill path terminated anything. */
  lemma {:induction false} SurvivesExactly(os: Os, items: seq<Item>, i: nat)
    requires Walkable(os, items) && KeysDistinct(items) && i < |items|
    ensures items[i] in ReconcileAll(os, items).surviving
       <==> var at := OsAt(os, items, i);
            || Supervised(at, items[i].entry)
            || (Orphan(at, items[i].entry) && OutOfReach(at, items[i].entry))
  {
    hide ReconcileOne, Shrinks, Ends, Orphan, OutOfReach, Supervised;
    var n := |items| - 1;
    var before := ReconcileAll(os, items[..n]);
    SurvivesHere(before.os, items[n]);
    SurvivorsAreItems(os, items[..n]);
    if i < n {
      SurvivesExactly(os, items[..n], i);
      assert items[..n][..i] == items[..i];
    }
  }

  /** Survivors are entries of the ledger, in its order, each job once. */
  lemma {:induction false} SurvivorsAreItems(os: Os, items: seq<Item>)
    requires Walkable(os, items)
    ensures forall x :: x in ReconcileAll(os, items).surviving ==> x in items
    ensures KeysDistinct(items) ==> KeysDistinct(ReconcileAll(os, items).surviving)
    ensures |ReconcileAll(os, items).surviving| <= |items|
  {
    hide Judge, Shrinks, Ends;
    if items != [] {
      var n := |items| - 1;
      SurvivorsAreItems(os, items[..n]);
      var before := ReconcileAll(os, items[..n]).surviving;
      if KeysDistinct(items) {
        forall k | 0 <= k < |before| ensures before[k].job != items[n].job {
          assert before[k] in before;
        }
      }
    }
  }

  // ------------------------------------------------------------ what is reported

  function Ended(before: Os, after: Os): set<Pid> {
    before.procs.Keys - after.procs.Keys
  }

  /** A condemned entry's Job Object, if it reopens, holds its process and no other
      that is still running. */
  ghost predicate JobIsOwn(os: Os, e: Entry) {
    Condemned(os, e) && JobReopens(os, e) ==> os.jobs[e.jobObject.value] * os.procs.Keys == {e.pid}
  }

  /** What one entry adds to the list of terminated PIDs is what it terminated exactly
      when its Job Object is its own. The tree path reports exactly; the Job Object path
      reports the ledgered PID whatever the job held. */
  lemma ReportedExactly(os: Os, item: Item)
    requires os.Valid() && Ends(os, item.entry)
    ensures var one := ReconcileOne(os, item);
      Elements(one.killed) == Ended(os, one.os) <==> JobIsOwn(os, item.entry)
  {
    hide Acyclic, TreeOf, Shrinks, SupervisorIsAlive;
    var e := item.entry;
    var one := ReconcileOne(os, item);
    match Judge(os, e)
    case ViaJob =>
      assert Ended(os, one.os) == os.jobs[e.jobObject.value] * os.procs.Keys;
      assert Elements([e.pid]) == {e.pid};
    case ViaTree(killed) =>
      assert Ended(os, one.os) == Elements(killed);
    case _ =>
      assert one.os == os && one.killed == [];
      assert Ended(os, os) == {} && Elements<Pid>([]) == {};
  }

  /** One such entry: its Job Object holds a second process, which falls unreported. */
  lemma ReportCanMiss()
    ensures var os := Os([1, 2], map[1 := Process(1.0, 0, true, true), 2 := Process(2.0, 1, true, true)],
                         map["j" := {1, 2}]);
      var item := Item("a", Entry(1, 1.0, Some("j"), None, None));
      && os.Valid() && Ends(os, item.entry)
      && ReconcileOne(os, item).killed == [1] && Ended(os, ReconcileOne(os, item).os) == {1, 2}
  {
    var os := Os([1, 2], map[1 := Process(1.0, 0, true, true), 2 := Process(2.0, 1, true, true)],
                 map["j" := {1, 2}]);
    var e := Entry(1, 1.0, Some("j"), None, None);
    hide Acyclic, TreeOf, Swept;
    assert os.Valid() by {
      assert os.order[0] == 1 && os.order[1] == 2;
    }
    assert JobReopens(os, e);
    assert Judge(os, e) == ViaJob;
  }

  lemma EndedAddsUp(a: Os, b: Os, c: Os)
    requires Shrinks(a, b) && Shrinks(b, c)
    ensures Ended(a, c) == Ended(a, b) + Ended(b, c)
  {
  }

  /** The turn of entry `i`: what it does to the table as it finds it. */
  function Turn(os: Os, items: seq<Item>, i: nat): (r: Outcome)
    requires Walkable(os, items) && i < |items|
    ensures r.os.Valid() && Shrinks(OsAt(os, items, i), r.os)
  {
    ReconcileOne(OsAt(os, items, i), items[i])
  }

  /** The turn kills through a reopened Job Object. */
  ghost predicate JobTurn(os: Os, items: seq<Item>, i: nat)
    requires Walkable(os, items) && i < |items|
  {
    Condemned(OsAt(os, items, i), items[i].entry) && JobReopens(OsAt(os, items, i), items[i].entry)
  }

  lemma TurnEnds(os: Os, items: seq<Item>, i: nat)
    requires Walkable(os, items) && i < |items|
    ensures OsAt(os, items, i + 1) == Turn(os, items, i).os
  {
    hide ReconcileOne, Shrinks, Ends;
    assert items[..i + 1][..i] == items[..i];
    WalkablePrefix(os, items, i + 1);
  }

  lemma ShrinksThrough(a: Os, b: Os, c: Os)
    requires Shrinks(a, b) && Shrinks(b, c)
    ensures Shrinks(a, c)
  {
  }

  lemma ShrinksNot(os: Os)
    ensures Shrinks(os, os)
  {
  }

  lemma {:induction false} TurnsShrink(os: Os, items: seq<Item>, i: nat, j: nat)
    requires Walkable(os, items) && i < j <= |items|
    ensures Shrinks(Turn(os, items, i).os, OsAt(os, items, j))
    decreases j
  {
    hide *;
    TurnEnds(os, items, j - 1);
    if i < j - 1 {
      TurnsShrink(os, items, i, j - 1);
      ShrinksThrough(Turn(os, items, i).os, OsAt(os, items, j - 1), OsAt(os, items, j));
    } else {
      ShrinksNot(OsAt(os, items, j));
    }
  }

  lemma {:induction false} KilledAtATurn(os: Os, items: seq<Item>, p: Pid)
    requires Walkable(os, items)
    ensures p in ReconcileAll(os, items).killed <==> exists i: nat :: i < |items| && p in Turn(os, items, i).killed
  {
    hide ReconcileOne, Shrinks, Ends;
    if items != [] {
      var n := |items| - 1;
      KilledAtATurn(os, items[..n], p);
      SameTurns(os, items, n);
      assert p in ReconcileAll(os, items).killed <==>
        p in ReconcileAll(os, items[..n]).killed || p in Turn(os, items, n).killed;
      hide Walkable, ReconcileAll, Turn, OsAt;
    }
  }

  lemma {:induction false} EndedAtATurn(os: Os, items: seq<Item>, p: Pid)
    requires Walkable(os, items)
    ensures p in Ended(os, ReconcileAll(os, items).os)
      <==> exists i: nat :: i < |items| && p in Ended(OsAt(os, items, i), Turn(os, items, i).os)
  {
    hide ReconcileOne, Shrinks, Ends;
    if items != [] {
      var n := |items| - 1;
      EndedAtATurn(os, items[..n], p);
      SameTurns(os, items, n);
      assert OsAt(os, items, n) == ReconcileAll(os, items[..n]).os;
      assert Turn(os, items, n).os == ReconcileAll(os, items).os;
      EndedAddsUp(os, OsAt(os, items, n), Turn(os, items, n).os);
      hide Walkable, ReconcileAll, Turn, OsAt, Ended;
    }
  }

  lemma SameTurns(os: Os, items: seq<Item>, n: nat)
    requires Walkable(os, items) && items != [] && n == |items| - 1
    ensures forall i: nat :: i < n ==>
      OsAt(os, items[..n], i) == OsAt(os, items, i) && Turn(os, items[..n], i) == Turn(os, items, i)
  {
    hide ReconcileOne, Shrinks, Ends, ReconcileAll;
    assert forall i: nat :: i < n ==> items[..n][..i] == items[..i];
  }

  /** What a turn reports was running, and is what it ended, unless it was a Job Object
      turn: that one reports the ledgered PID, whatever it ended. */
  lemma TurnReports(os: Os, items: seq<Item>, i: nat)
    requires Walkable(os, items) && i < |items|
    ensures var at, one := OsAt(os, items, i), Turn(os, items, i);
      && (forall p :: p in one.killed ==> p in at.procs)
      && (if JobTurn(os, items, i) then one.killed == [items[i].entry.pid]
          else Elements(one.killed) == Ended(at, one.os))
  {
    OneReports(OsAt(os, items, i), items[i]);
    hide ReconcileOne, OsAt, Condemned, JobReopens, Ends;
  }

  lemma OneReports(os: Os, item: Item)
    requires os.Valid() && Ends(os, item.entry)
    ensures var e, one := item.entry, ReconcileOne(os, item);
      && (forall p :: p in one.killed ==> p in os.procs)
      && (if Condemned(os, e) && JobReopens(os, e) then one.killed == [e.pid]
          else Elements(one.killed) == Ended(os, one.os))
  {
    ReportedExactly(os, item);
    hide Acyclic, TreeOf, SupervisorIsAlive, Shrinks;
  }

  /** A process seen at a turn and gone after it is gone for good. */
  lemma TurnIsFinal(os: Os, items: seq<Item>, i: nat)
    requires Walkable(os, items) && i < |items|
    ensures Shrinks(os, OsAt(os, items, i)) && Shrinks(Turn(os, items, i).os, ReconcileAll(os, items).os)
  {
    TurnsShrink(os, items, i, |items|);
    assert items[..|items|] == items;
    hide Shrinks;
  }

  /** Every process a Job Object turn reports is gone in the end, and every running member
      it ends is reported by it or an earlier such turn. */
  ghost predicate Accounted(os: Os, items: seq<Item>)
    requires Walkable(os, items)
  {
    forall i: nat :: i < |items| && JobTurn(os, items, i) ==>
      && items[i].entry.pid !in ReconcileAll(os, items).os.procs
      && forall p :: p in Ended(OsAt(os, items, i), Turn(os, items, i).os) ==> ReportedBy(os, items, i, p)
  }

  ghost predicate ReportedBy(os: Os, items: seq<Item>, i: nat, p: Pid)
    requires Walkable(os, items) && i < |items|
  {
    exists j: nat :: j <= i && JobTurn(os, items, j) && items[j].entry.pid == p
  }

  /** So the whole list `reconcile_orphans` returns is what it terminated exactly when its
      Job Object turns account for each other. */
  lemma {:induction false} ReportIsExact(os: Os, items: seq<Item>)
    requires Walkable(os, items)
    ensures Elements(ReconcileAll(os, items).killed) == Ended(os, ReconcileAll(os, items).os)
      <==> Accounted(os, items)
  {
    hide Walkable, ReconcileAll, Turn, OsAt, Accounted, Shrinks;
    var all := ReconcileAll(os, items);
    if Accounted(os, items) {
      forall p ensures p in all.killed <==> p in Ended(os, all.os) {
        AccountedIsExact(os, items, p);
      }
    }
    if Elements(all.killed) == Ended(os, all.os) {
      ExactIsAccounted(os, items);
    }
  }

  lemma AccountedIsExact(os: Os, items: seq<Item>, p: Pid)
    requires Walkable(os, items) && Accounted(os, items)
    ensures p in ReconcileAll(os, items).killed <==> p in Ended(os, ReconcileAll(os, items).os)
  {
    KilledAtATurn(os, items, p);
    EndedAtATurn(os, items, p);
    hide *;
    if p in ReconcileAll(os, items).killed {
      var i: nat :| i < |items| && p in Turn(os, items, i).killed;
      KilledIsEnded(os, items, i, p);
    }
    if p in Ended(os, ReconcileAll(os, items).os) {
      var i: nat :| i < |items| && p in Ended(OsAt(os, items, i), Turn(os, items, i).os);
      var j := EndedIsKilled(os, items, i, p);
    }
  }

  lemma KilledIsEnded(os: Os, items: seq<Item>, i: nat, p: Pid)
    requires Walkable(os, items) && Accounted(os, items) && i < |items| && p in Turn(os, items, i).killed
    ensures p in Ended(os, ReconcileAll(os, items).os)
  {
    TurnReports(os, items, i);
    TurnIsFinal(os, items, i);
    hide Walkable, ReconcileAll, Turn, OsAt, JobTurn, ReportedBy;
  }

  lemma EndedIsKilled(os: Os, items: seq<Item>, i: nat, p: Pid) returns (j: nat)
    requires Walkable(os, items) && Accounted(os, items)
    requires i < |items| && p in Ended(OsAt(os, items, i), Turn(os, items, i).os)
    ensures j < |items| && p in Turn(os, items, j).killed
  {
    TurnReports(os, items, i);
    hide Walkable, ReconcileAll, Turn, OsAt, JobTurn, Ended;
    j := i;
    if JobTurn(os, items, i) {
      assert ReportedBy(os, items, i, p);
      j :| j <= i && JobTurn(os, items, j) && items[j].entry.pid == p;
      TurnReports(os, items, j);
    }
  }

  lemma ExactIsAccounted(os: Os, items: seq<Item>)
    requires Walkable(os, items)
    requires Elements(ReconcileAll(os, items).killed) == Ended(os, ReconcileAll(os, items).os)
    ensures Accounted(os, items)
  {
    hide Walkable, ReconcileAll, Turn, OsAt, JobTurn, ReportedBy;
    forall i: nat | i < |items| && JobTurn(os, items, i)
      ensures items[i].entry.pid !in ReconcileAll(os, items).os.procs
      ensures forall p :: p in Ended(OsAt(os, items, i), Turn(os, items, i).os) ==> ReportedBy(os, items, i, p)
    {
      TurnReports(os, items, i);
      KilledAtATurn(os, items, items[i].entry.pid);
      assert items[i].entry.pid in Turn(os, items, i).killed;
      forall p | p in Ended(OsAt(os, items, i), Turn(os, items, i).os) ensures ReportedBy(os, items, i, p) {
        EndedIsReported(os, items, i, p);
      }
    }
  }

  lemma EndedIsReported(os: Os, items: seq<Item>, i: nat, p: Pid)
    requires Walkable(os, items) && i < |items| && JobTurn(os, items, i)
    requires p in Ended(OsAt(os, items, i), Turn(os, items, i).os)
    requires p in Ended(os, ReconcileAll(os, items).os) ==> p in ReconcileAll(os, items).killed
    ensures ReportedBy(os, items, i, p)
  {
    EndedAtATurn(os, items, p);
    KilledAtATurn(os, items, p);
    hide Walkable, ReconcileAll, Turn, OsAt, JobTurn, Ended;
    var j: nat :| j < |items| && p in Turn(os, items, j).killed;
    OnlyEarlierJobsReport(os, items, i, j, p);
  }

  /** Nobody but a Job Object turn, no later than it, can report what one ends. */
  lemma OnlyEarlierJobsReport(os: Os, items: seq<Item>, i: nat, j: nat, p: Pid)
    requires Walkable(os, items) && i < |items| && j < |items| && JobTurn(os, items, i)
    requires p in Ended(OsAt(os, items, i), Turn(os, items, i).os) && p in Turn(os, items, j).killed
    ensures j <= i && JobTurn(os, items, j) && items[j].entry.pid == p
  {
    TurnReports(os, items, j);
    hide Walkable, ReconcileAll, Turn, OsAt, JobTurn;
    if i < j {
      TurnsShrink(os, items, i, j);
      assert false;
    } else if j < i {
      TurnsShrink(os, items, j, i);
    }
  }

  // ------------------------------------------------------------ a second run

  /** A run that ends, kills nothing and leaves table and ledger as they were. */
  ghost predicate IdleRun(os: Os, items: seq<Item>) {
    Walkable(os, items) && ReconcileAll(os, items) == Outcome(os, [], items)
  }

  ghost predicate Keeps(os: Os, e: Entry) {
    SupervisorIsAlive(os, e) || (Condemned(os, e) && Unkillable(os, e))
  }

  lemma KeepsEnds(os: Os, e: Entry)
    requires Keeps(os, e)
    ensures Ends(os, e)
  {
    hide SupervisorIsAlive, Acyclic;
  }

  lemma OneSurvives(os: Os, item: Item)
    requires os.Valid() && Ends(os, item.entry)
    ensures var one := ReconcileOne(os, item);
      if Keeps(os, item.entry) then one == Outcome(os, [], [item]) else one.surviving == []
  {
    StepSurvives(os, item);
    hide SupervisorIsAlive, TreeOf, Swept, Ends, Shrinks, Unkillable, Condemned;
  }

  lemma {:induction false} AllKeptIsIdle(os: Os, items: seq<Item>)
    requires os.Valid()
    requires forall i :: 0 <= i < |items| ==> Keeps(os, items[i].entry)
    ensures IdleRun(os, items)
  {
    hide ReconcileOne, Keeps, Shrinks, Ends;
    if items != [] {
      var n := |items| - 1;
      AllKeptIsIdle(os, items[..n]);
      KeepsEnds(os, items[n].entry);
      OneSurvives(os, items[n]);
      assert items == items[..n] + [items[n]];
    }
  }

  lemma {:induction false} IdleKeepsAll(os: Os, items: seq<Item>)
    requires IdleRun(os, items)
    ensures forall i :: 0 <= i < |items| ==> Keeps(os, items[i].entry)
  {
    hide ReconcileOne, Keeps, Shrinks, Ends;
    if items != [] {
      var n := |items| - 1;
      var before := ReconcileAll(os, items[..n]);
      SurvivorsAreItems(os, items[..n]);
      OneSurvives(before.os, items[n]);
      assert items == items[..n] + [items[n]];
      assert before.surviving == items[..n];
      IdleKeepsAll(os, items[..n]);
    }
  }

  lemma UnkillableStays(big: Os, small: Os, e: Entry)
    requires Shrinks(big, small) && Unkillable(big, e)
    ensures Unkillable(small, e)
  {
    AcyclicStays(big, small, e.pid);
    forall p | p == e.pid || Descends(Parents(small), p, e.pid) ensures !CanTerminate(small, p) {
      if p != e.pid {
        DescendsBefore(big, small, p, e.pid);
      }
      assert !CanTerminate(big, p);
    }
  }

  /** A survivor of the first run is kept by the second exactly when the first run
      left alive what protected it: its supervisor if it had one, else its own
      unkillable process. */
  ghost predicate StillProtected(first: Os, second: Os, e: Entry) {
    if SupervisorIsAlive(first, e)
    then e.supervisorPid.value in second.procs || (Condemned(second, e) && Unkillable(second, e))
    else e.pid in second.procs
  }

  lemma {:induction false} SurvivorWasProtected(os: Os, items: seq<Item>, item: Item) returns (at: Os)
    requires Walkable(os, items) && item in ReconcileAll(os, items).surviving
    ensures Shrinks(os, at) && Shrinks(at, ReconcileAll(os, items).os)
    ensures Keeps(at, item.entry)
  {
    hide Judge, Keeps, Ends, Terminate, TerminateJob;
    var n := |items| - 1;
    var before := ReconcileAll(os, items[..n]);
    assert before.surviving <= ReconcileAll(os, items).surviving;
    if item in before.surviving {
      at := SurvivorWasProtected(os, items[..n], item);
    } else {
      at := before.os;
      OneSurvives(at, items[n]);
    }
  }

  lemma ProtectedExactly(first: Os, at: Os, second: Os, e: Entry)
    requires Shrinks(first, at) && Shrinks(at, second) && Keeps(at, e)
    ensures StillProtected(first, second, e) <==> Keeps(second, e)
  {
    hide Unkillable;
    if Unkillable(at, e) {
      UnkillableStays(at, second, e);
    }
  }

  /** Running again straight away ends and does nothing exactly when the first run killed
      no survivor's protection. */
  lemma SecondRunIdleExactly(os: Os, items: seq<Item>)
    requires Walkable(os, items)
    ensures var r := ReconcileAll(os, items);
      IdleRun(r.os, r.surviving) <==> forall x :: x in r.surviving ==> StillProtected(os, r.os, x.entry)
  {
    hide Judge, ReconcileAll, Keeps, Ends, StillProtected, Shrinks, Walkable;
    var r := ReconcileAll(os, items);
    if IdleRun(r.os, r.surviving) {
      IdleKeepsAll(r.os, r.surviving);
    }
    if forall i :: 0 <= i < |r.surviving| ==> Keeps(r.os, r.surviving[i].entry) {
      AllKeptIsIdle(r.os, r.surviving);
    }
    forall i | 0 <= i < |r.surviving|
      ensures StillProtected(os, r.os, r.surviving[i].entry) <==> Keeps(r.os, r.surviving[i].entry)
    {
      var at := SurvivorWasProtected(os, items, r.surviving[i]);
      ProtectedExactly(os, at, r.os, r.surviving[i].entry);
    }
  }

  /** The condition can fail: here the first run spares process 10, supervised by
      process 20, and then kills 20 as an orphan, so the second run kills 10. */
  lemma SecondRunCanKill()
    ensures var os, items := ExampleOs(), [ExampleChild(), ExampleOwner()];
      Walkable(os, items) && KeysDistinct(items) &&
      var r := ReconcileAll(os, items);
      Walkable(r.os, r.surviving) && ReconcileAll(r.os, r.surviving).killed == [10]
  {
    ExampleRuns();
    hide ExampleOs, ExampleChild, ExampleOwner, ReconcileOne, Judge, Ends, TerminateJob, Shrinks;
    TwoItems(ExampleOs(), ExampleChild(), ExampleOwner());
    OneItem(TerminateJob(ExampleOs(), "jb"), ExampleChild());
  }

  function ExampleOs(): Os {
    Os([10, 20], map[10 := Process(1.0, 0, true, true), 20 := Process(2.0, 0, true, true)],
       map["ja" := {10}, "jb" := {20}])
  }

  function ExampleChild(): Item {
    Item("a", Entry(10, 1.0, Some("ja"), Some(20), Some(2.0)))
  }

  function ExampleOwner(): Item {
    Item("b", Entry(20, 2.0, Some("jb"), None, None))
  }

  lemma ExampleRuns()
    ensures var os, child, owner := ExampleOs(), ExampleChild(), ExampleOwner();
      && os.Valid() && Ends(os, child.entry) && Ends(os, owner.entry)
      && "jb" in os.jobs
      && var after := TerminateJob(os, "jb");
      && after.Valid() && Ends(after, child.entry)
      && child.job != owner.job
      && ReconcileOne(os, child) == Outcome(os, [], [child])
      && ReconcileOne(os, owner) == Outcome(after, [20], [])
      && ReconcileOne(after, child).killed == [10]
  {
    var os, child, owner := ExampleOs(), ExampleChild(), ExampleOwner();
    hide Acyclic, TreeOf, Swept;
    assert os.Valid() by {
      assert os.order[0] == 10 && os.order[1] == 20;
    }
    var after := TerminateJob(os, "jb");
    assert after.Valid();
    assert JobReopens(os, child.entry) && JobReopens(os, owner.entry) && JobReopens(after, child.entry);
    assert SupervisorIsAlive(os, child.entry);
    assert Judge(os, owner.entry) == ViaJob;
    assert !SupervisorIsAlive(after, child.entry);
    assert Judge(after, child.entry) == ViaJob;
  }

  lemma OneItem(os: Os, item: Item)
    requires os.Valid() && Ends(os, item.entry)
    ensures Walkable(os, [item])
    ensures ReconcileAll(os, [item]) == ReconcileOne(os, item)
  {
    hide ReconcileOne, Ends, Shrinks;
    assert [item][0] == item && [item][..0] == [];
    assert Walkable(os, [item][..0]) && ReconcileAll(os, [item][..0]) == Outcome(os, [], []);
  }

  lemma TwoItems(os: Os, a: Item, b: Item)
    requires os.Valid() && Ends(os, a.entry) && Ends(ReconcileOne(os, a).os, b.entry)
    ensures Walkable(os, [a, b])
    ensures var one := ReconcileOne(os, a); var two := ReconcileOne(one.os, b);
      ReconcileAll(os, [a, b]) == Outcome(two.os, one.killed + two.killed, one.surviving + two.surviving)
  {
    hide ReconcileOne, Ends, Shrinks;
    var items := [a, b];
    assert items[0] == a && items[1] == b && items[..1] == [a];
    OneItem(os, a);
  }

  // ------------------------------------------------------------ when the routine ends

  /** One turn in which the tree walk is given up after `fuel` turns of its own loop. */
  ghost function OneWithin(os: Os, item: Item, fuel: nat): (r: Option<Outcome>)
    requires os.Valid()
    ensures r.Some? ==> r.value.os.Valid()
  {
    if !TakesTree(os, item.entry) then Some(ReconcileOne(os, item))
    else
      var walk := WalkAfter(SnapshotOf(os), item.entry.pid, fuel);
      if walk.frontier != [] then None
      else Some(TreeOutcome(os, item, [item.entry.pid] + walk.descendants))
  }

  /** The tree path, once the walk has listed the targets. */
  function TreeOutcome(os: Os, item: Item, targets: seq<Pid>): (r: Outcome)
    requires os.Valid()
    ensures r.os.Valid()
  {
    var killed := Swept(os, targets);
    if killed == [] then Outcome(os, [], [item]) else Outcome(Terminate(os, Elements(killed)), killed, [])
  }

  lemma TreeTurn(os: Os, item: Item)
    requires os.Valid() && TakesTree(os, item.entry) && Acyclic(os, item.entry.pid)
    ensures ReconcileOne(os, item) == TreeOutcome(os, item, TreeOf(os, item.entry.pid))
  {
    hide SupervisorIsAlive, TreeOf, Swept, Terminate, Shrinks, Acyclic;
  }

  /** The routine, with every walk so bounded. Nothing is assumed of the table: it ends,
      if it does, within some bound. */
  ghost function AllWithin(os: Os, items: seq<Item>, fuel: nat): (r: Option<Outcome>)
    requires os.Valid()
    ensures r.Some? ==> r.value.os.Valid()
  {
    if items == [] then Some(Outcome(os, [], []))
    else
      match AllWithin(os, items[..|items| - 1], fuel)
      case None => None
      case Some(before) =>
        match OneWithin(before.os, items[|items| - 1], fuel)
        case None => None
        case Some(one) => Some(Outcome(one.os, before.killed + one.killed, before.surviving + one.surviving))
  }

  /** A bounded turn that ends is the turn, and was on no cycle. */
  lemma OneWithinIs(os: Os, item: Item, fuel: nat)
    requires os.Valid() && OneWithin(os, item, fuel).Some?
    ensures Ends(os, item.entry) && OneWithin(os, item, fuel) == Some(ReconcileOne(os, item))
  {
    if TakesTree(os, item.entry) {
      hide TakesTree, OnCycle, WalkAfter, ReconcileOne, TreeOutcome, SnapshotOf, Finish, Descends;
      EndedWalkIsList(SnapshotOf(os), item.entry.pid, fuel);
      assert SnapshotOf(os).parent == Parents(os) by { SnapshotParents(os); }
      TreeTurn(os, item);
    }
  }

  lemma SnapshotParents(os: Os)
    requires os.Valid()
    ensures SnapshotOf(os).parent == Parents(os)
  {
  }

  lemma OneEndsWithin(os: Os, item: Item) returns (fuel: nat)
    requires os.Valid() && Ends(os, item.entry)
    ensures OneWithin(os, item, fuel).Some?
  {
    fuel := 0;
    if TakesTree(os, item.entry) {
      EndsExactlyOffCycle(SnapshotOf(os), item.entry.pid);
      fuel :| WalkAfter(SnapshotOf(os), item.entry.pid, fuel).frontier == [];
    }
  }

  lemma OneWithinMore(os: Os, item: Item, fuel: nat, more: nat)
    requires os.Valid() && fuel <= more && OneWithin(os, item, fuel).Some?
    ensures OneWithin(os, item, more) == OneWithin(os, item, fuel)
  {
    if TakesTree(os, item.entry) {
      WalkStands(SnapshotOf(os), item.entry.pid, fuel, more);
    }
  }

  lemma {:induction false} AllWithinMore(os: Os, items: seq<Item>, fuel: nat, more: nat)
    requires os.Valid() && fuel <= more && AllWithin(os, items, fuel).Some?
    ensures AllWithin(os, items, more) == AllWithin(os, items, fuel)
  {
    hide OneWithin;
    if items != [] {
      var n := |items| - 1;
      AllWithinMore(os, items[..n], fuel, more);
      OneWithinMore(AllWithin(os, items[..n], fuel).value.os, items[n], fuel, more);
    }
  }

  lemma {:induction false} AllWithinIs(os: Os, items: seq<Item>, fuel: nat)
    requires os.Valid() && AllWithin(os, items, fuel).Some?
    ensures Walkable(os, items) && AllWithin(os, items, fuel) == Some(ReconcileAll(os, items))
  {
    hide OneWithin, ReconcileOne, Ends, Shrinks;
    if items != [] {
      var n := |items| - 1;
      AllWithinIs(os, items[..n], fuel);
      OneWithinIs(AllWithin(os, items[..n], fuel).value.os, items[n], fuel);
    }
  }

  lemma {:induction false} AllEndsWithin(os: Os, items: seq<Item>) returns (fuel: nat)
    requires Walkable(os, items)
    ensures AllWithin(os, items, fuel).Some?
  {
    hide OneWithin, ReconcileOne, Ends, Shrinks;
    fuel := 0;
    if items != [] {
      var n := |items| - 1;
      var f := AllEndsWithin(os, items[..n]);
      AllWithinIs(os, items[..n], f);
      var before := ReconcileAll(os, items[..n]).os;
      var g := OneEndsWithin(before, items[n]);
      fuel := if f < g then g else f;
      AllWithinMore(os, items[..n], f, fuel);
      OneWithinMore(before, items[n], g, fuel);
    }
  }

  /** The routine ends exactly when no entry whose tree it walks is, at its turn, on a
      parent cycle; entries that are spared, gone, not ours or killed through their Job
      Object may be. When it ends it does what `ReconcileAll` says. */
  lemma {:induction false} EndsExactly(os: Os, items: seq<Item>)
    requires os.Valid()
    ensures (exists fuel: nat :: AllWithin(os, items, fuel).Some?) <==> Walkable(os, items)
    ensures forall fuel: nat :: AllWithin(os, items, fuel).Some? ==>
      Walkable(os, items) && AllWithin(os, items, fuel).value == ReconcileAll(os, items)
  {
    hide AllWithin, ReconcileAll, Walkable;
    forall fuel: nat | AllWithin(os, items, fuel).Some?
      ensures Walkable(os, items) && AllWithin(os, items, fuel) == Some(ReconcileAll(os, items))
    {
      AllWithinIs(os, items, fuel);
    }
    if Walkable(os, items) {
      var fuel := AllEndsWithin(os, items);
    }
  }

  // ------------------------------------------------------------ the routine itself

  class ProcessTable {
    const order: seq<Pid>
    var procs: map<Pid, Process>
    var jobs: map<string, set<Pid>>

    function View(): Os reads this {
      Os(order, procs, jobs)
    }

    /** `_kill_via_named_job_object`. */
    method KillViaNamedJobObject(name: string) returns (killed: bool)
      modifies this
      ensures killed <==> name in old(jobs)
      ensures killed ==> procs == old(procs) - old(jobs)[name] && jobs == old(jobs) - {name}
      ensures !killed ==> procs == old(procs) && jobs == old(jobs)
    {
      killed := name in jobs;
      if killed {
        procs := procs - jobs[name];
        jobs := jobs - {name};
      }
    }

    /** Terminates each target on its own; one refusal does not stop the rest. */
    method Sweep(targets: seq<Pid>) returns (killed: seq<Pid>)
      requires Distinct(targets)
      modifies this
      ensures killed == Swept(old(View()), targets)
      ensures Filters(killed, targets, Killable(old(procs)))
      ensures procs == old(procs) - Elements(killed) && jobs == old(jobs)
    {
      ghost var os := View();
      SweptFilters(os, targets);
      killed := [];
      for i := 0 to |targets|
        invariant killed == Swept(os, targets[..i])
        invariant procs == os.procs - Elements(killed) && jobs == os.jobs
      {
        assert targets[..i + 1][..i] == targets[..i];
        var pid := targets[i];
        assert pid !in Elements(killed);
        assert CanTerminate(View(), pid) <==> CanTerminate(os, pid);
        if CanTerminate(View(), pid) {
          assert Elements(killed + [pid]) == Elements(killed) + {pid};
          procs := procs - {pid};
          killed := killed + [pid];
        }
      }
      assert targets[..|targets|] == targets;
    }

    /** `_kill_via_process_tree`: the snapshot is taken once, before the first kill. */
    method KillViaProcessTree(root: Pid) returns (killed: seq<Pid>)
      requires View().Valid() && Acyclic(View(), root)
      modifies this
      ensures killed == Swept(old(View()), TreeOf(old(View()), root))
      ensures Elements(killed) == set p | p in old(procs) && old(procs)[p].killable
                                          && (p == root || Descends(Parents(old(View())), p, root))
      ensures procs == old(procs) - Elements(killed) && jobs == old(jobs)
    {
      var found := DescendantPids(SnapshotOf(View()), root);
      assert [root] + found == TreeOf(View(), root);
      killed := Sweep([root] + found);
    }
  }

  /** The body of the loop, for one ledger entry. */
  method ReconcileEntry(table: ProcessTable, item: Item) returns (killed: seq<Pid>, survives: bool)
    requires table.View().Valid() && Ends(table.View(), item.entry)
    modifies table
    ensures Outcome(table.View(), killed, if survives then [item] else [])
         == ReconcileOne(old(table.View()), item)
  {
    hide SupervisorIsAlive, IsAlive, TreeOf, Swept, Acyclic, Shrinks;
    var e := item.entry;
    if SupervisorIsAlive(table.View(), e) {
      return [], true;
    }
    if !IsAlive(table.View(), e.pid) || !SameProcess(table.View(), e.pid, e.startTime) {
      return [], false;
    }
    if e.jobObject.Some? {
      var viaJob := table.KillViaNamedJobObject(e.jobObject.value);
      if viaJob {
        return [e.pid], false;
      }
    }
    killed := table.KillViaProcessTree(e.pid);
    survives := killed == [];
    assert survives ==> table.View() == old(table.View());
  }

  /** `reconcile_orphans`: one pass over the ledger as it was read. */
  method ReconcileOrphans(table: ProcessTable, ledger: LedgerFile) returns (killed: seq<Pid>)
    requires ledger.Valid() && Walkable(table.View(), ledger.items)
    modifies table, ledger
    ensures ledger.Valid()
    ensures Outcome(table.View(), killed, ledger.items)
         == ReconcileAll(old(table.View()), old(ledger.items))
  {
    hide ReconcileOne, Ends;
    ghost var os := table.View();
    var entries := ledger.items;
    killed := [];
    var surviving := [];
    WalkablePrefix(os, entries, 0);
    for i := 0 to |entries|
      invariant ledger.items == entries && Walkable(os, entries[..i])
      invariant Outcome(table.View(), killed, surviving) == ReconcileAll(os, entries[..i])
    {
      assert entries[..i + 1][..i] == entries[..i];
      WalkablePrefix(os, entries, i + 1);
      var one, survives := ReconcileEntry(table, entries[i]);
      killed := killed + one;
      if survives {
        surviving := surviving + [entries[i]];
      }
    }
    assert entries[..|entries|] == entries;
    SurvivorsAreItems(os, entries);
    ledger.Write(surviving);
  }
}
