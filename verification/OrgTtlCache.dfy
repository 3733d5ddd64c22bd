/** The per-organization cache of src/api/crawl_activity.py, under every thread
    interleaving.

    A step is one action of one thread between lock operations, or the passing of
    time. Two levels of locks are taken: `_guard`, under which `setdefault` gets or
    makes the org's lock, and then that lock. A step that is not enabled changes
    nothing; a run is any sequence of steps.
 */
module OrgTtlCache {
  import opened Common

  type Org = string
  type Tid = nat
  type LockId = nat

  /** What a thread inside `get` has done so far. `Guarding` and `Seen` hold `_guard`;
      from `Locked` on the thread holds `lock`. `start` is where its compute is listed. */
  datatype Phase =
    | Idle
    | Wanting(org: Org)
    | Guarding(org: Org)
    | Seen(org: Org, found: Option<LockId>)
    | Waiting(org: Org, lock: LockId)
    | Locked(org: Org, lock: LockId)
    | Timed(org: Org, lock: LockId, now: real)
    | Computing(org: Org, lock: LockId, now: real, start: nat)
    | Computed(org: Org, lock: LockId, now: real, start: nat, value: int, endedAt: real)
  {
    predicate Guards() {
      Guarding? || Seen?
    }

    predicate Inside() {
      Locked? || Timed? || Computing? || Computed?
    }

    predicate Flies() {
      Computing? || Computed?
    }
  }

  /** Who holds `_guard`, the dict of org locks, and who holds which lock. */
  datatype Locks = Locks(guard: Option<Tid>, orgLocks: map<Org, LockId>, nextLock: LockId, held: map<LockId, Tid>)

  /** One finished recompute: when its caller read the clock before it, when it
      returned, and the clock read its lifetime is counted from. */
  datatype Compute = Compute(org: Org, startedAt: real, endedAt: real, stamp: real, value: int)

  /** One recompute from its start: raised, finished as a compute, or neither yet. */
  datatype Start = Start(org: Org, at: real, done: Option<nat>, raised: bool)

  /** What `get` returned: `source` is the compute the value came from. */
  datatype Answer = Answer(org: Org, value: int, readAt: real, source: nat, hit: bool)

  datatype Entry = Entry(deadline: real, value: int, source: nat)

  /** `computes`, `starts` and `answers` are the history; no step reads them. */
  datatype Sys = Sys(
    ttl: real,
    clock: real,
    lk: Locks,
    phases: map<Tid, Phase>,
    entries: map<Org, Entry>,
    computes: seq<Compute>,
    starts: seq<Start>,
    answers: seq<Answer>)

  datatype Step =
    | Tick(d: real)
    | Call(t: Tid, org: Org)
    | TakeGuard(t: Tid)
    | Look(t: Tid)
    | Keep(t: Tid)
    | Acquire(t: Tid)
    | ReadClock(t: Tid)
    | Lookup(t: Tid)
    | Returns(t: Tid, value: int)
    | Raises(t: Tid)
    | Store(t: Tid)

  function PhaseOf(phases: map<Tid, Phase>, t: Tid): Phase {
    if t in phases then phases[t] else Idle
  }

  function Init(ttl: real): Sys {
    Sys(ttl, 0.0, Locks(None, map[], 0, map[]), map[], map[], [], [], [])
  }

  function LockOf(orgLocks: map<Org, LockId>, org: Org): Option<LockId> {
    if org in orgLocks then Some(orgLocks[org]) else None
  }

  function Apply(s: Sys, step: Step): Sys {
    match step
    case Tick(d) => if d < 0.0 then s else s.(clock := s.clock + d)
    case Call(t, org) => if !PhaseOf(s.phases, t).Idle? then s else s.(phases := s.phases[t := Wanting(org)])
    case TakeGuard(t) => DoTakeGuard(s, t, PhaseOf(s.phases, t))
    case Look(t) => DoLook(s, t, PhaseOf(s.phases, t))
    case Keep(t) => DoKeep(s, t, PhaseOf(s.phases, t))
    case Acquire(t) => DoAcquire(s, t, PhaseOf(s.phases, t))
    case ReadClock(t) => DoReadClock(s, t, PhaseOf(s.phases, t))
    case Lookup(t) => DoLookup(s, t, PhaseOf(s.phases, t))
    case Returns(t, value) => DoReturns(s, t, PhaseOf(s.phases, t), value)
    case Raises(t) => DoRaises(s, t, PhaseOf(s.phases, t))
    case Store(t) => DoStore(s, t, PhaseOf(s.phases, t))
  }

  function DoTakeGuard(s: Sys, t: Tid, ph: Phase): Sys {
    if !ph.Wanting? || s.lk.guard.Some? then s
    else s.(phases := s.phases[t := Guarding(ph.org)], lk := s.lk.(guard := Some(t)))
  }

  /** `setdefault` looks the org up. */
  function DoLook(s: Sys, t: Tid, ph: Phase): Sys {
    if !ph.Guarding? then s
    else s.(phases := s.phases[t := Seen(ph.org, LockOf(s.lk.orgLocks, ph.org))])
  }

  /** It answers with the lock it found, or keeps the new one it was given; the guard is
      released with it. */
  function DoKeep(s: Sys, t: Tid, ph: Phase): Sys {
    if !ph.Seen? then s
    else
      var lock := if ph.found.Some? then ph.found.value else s.lk.nextLock;
      s.(phases := s.phases[t := Waiting(ph.org, lock)],
         lk := s.lk.(guard := None, nextLock := s.lk.nextLock + 1,
                     orgLocks := if ph.found.Some? then s.lk.orgLocks else s.lk.orgLocks[ph.org := lock]))
  }

  function DoAcquire(s: Sys, t: Tid, ph: Phase): Sys {
    if !ph.Waiting? || ph.lock in s.lk.held then s
    else s.(phases := s.phases[t := Locked(ph.org, ph.lock)], lk := s.lk.(held := s.lk.held[ph.lock := t]))
  }

  function DoReadClock(s: Sys, t: Tid, ph: Phase): Sys {
    if !ph.Locked? then s else s.(phases := s.phases[t := Timed(ph.org, ph.lock, s.clock)])
  }

  /** The thread leaves `get`, giving the org's lock back. */
  function Left(s: Sys, t: Tid, lock: LockId): Sys {
    s.(phases := s.phases[t := Idle], lk := s.lk.(held := s.lk.held - {lock}))
  }

  /** The entry is read under `_guard`. A hit answers from it and leaves; anything else
      goes on to compute. */
  function DoLookup(s: Sys, t: Tid, ph: Phase): Sys {
    if !ph.Timed? || s.lk.guard.Some? then s
    else if ph.org in s.entries && ph.now < s.entries[ph.org].deadline then
      var e := s.entries[ph.org];
      Left(s, t, ph.lock).(answers := s.answers + [Answer(ph.org, e.value, ph.now, e.source, true)])
    else
      s.(phases := s.phases[t := Computing(ph.org, ph.lock, ph.now, |s.starts|)],
         starts := s.starts + [Start(ph.org, ph.now, None, false)])
  }

  function DoReturns(s: Sys, t: Tid, ph: Phase, value: int): Sys {
    if !ph.Computing? then s
    else s.(phases := s.phases[t := Computed(ph.org, ph.lock, ph.now, ph.start, value, s.clock)])
  }

  function Marked(starts: seq<Start>, i: nat, mark: Start): seq<Start> {
    if i < |starts| then starts[i := mark] else starts
  }

  /** An exception leaves `get` without storing anything. */
  function DoRaises(s: Sys, t: Tid, ph: Phase): Sys {
    if !ph.Computing? then s
    else Left(s, t, ph.lock).(starts := Marked(s.starts, ph.start, Start(ph.org, ph.now, None, true)))
  }

  /** The value is stored under `_guard` too. */
  function DoStore(s: Sys, t: Tid, ph: Phase): Sys {
    if !ph.Computed? || s.lk.guard.Some? then s
    else
      Left(s, t, ph.lock).(
        entries := s.entries[ph.org := Entry(s.clock + s.ttl, ph.value, |s.computes|)],
        computes := s.computes + [Compute(ph.org, ph.now, ph.endedAt, s.clock, ph.value)],
        starts := Marked(s.starts, ph.start, Start(ph.org, ph.now, Some(|s.computes|), false)),
        answers := s.answers + [Answer(ph.org, ph.value, ph.now, |s.computes|, false)])
  }

  function Exec(ttl: real, steps: seq<Step>): Sys {
    if steps == [] then Init(ttl)
    else Apply(Exec(ttl, steps[..|steps| - 1]), steps[|steps| - 1])
  }

  // ------------------------------------------------------------ the invariant

  /** The one thread that gets or makes an org's lock is the one holding `_guard`. */
  ghost predicate GuardOk(guard: Option<Tid>, phases: map<Tid, Phase>) {
    && (forall t :: t in phases && phases[t].Guards() ==> guard == Some(t))
    && (guard.Some? ==> guard.value in phases && phases[guard.value].Guards())
  }

  /** Every thread past `setdefault` has the lock the dict lists for its org; what a
      thread saw is still so; and no two orgs share a lock. */
  ghost predicate LocksOk(orgLocks: map<Org, LockId>, nextLock: LockId, phases: map<Tid, Phase>) {
    && (forall o :: o in orgLocks ==> orgLocks[o] < nextLock)
    && (forall o, p :: o in orgLocks && p in orgLocks && orgLocks[o] == orgLocks[p] ==> o == p)
    && (forall t :: t in phases ==> HasOwnLock(orgLocks, phases[t]))
  }

  predicate HasOwnLock(orgLocks: map<Org, LockId>, ph: Phase) {
    && (ph.Waiting? || ph.Inside() ==> LockOf(orgLocks, ph.org) == Some(ph.lock))
    && (ph.Seen? ==> ph.found == LockOf(orgLocks, ph.org))
  }

  /** The thread inside is the one holding its lock. */
  ghost predicate HeldOk(held: map<LockId, Tid>, phases: map<Tid, Phase>) {
    && (forall t :: t in phases && phases[t].Inside() ==> phases[t].lock in held && held[phases[t].lock] == t)
    && (forall l :: l in held ==> held[l] in phases && phases[held[l]].Inside() && phases[held[l]].lock == l)
  }

  /** An entry is the org's latest compute, good for `ttl` from its stamp. */
  ghost predicate Entries(s: Sys) {
    && (forall o :: o in s.entries ==> EntryOf(s, o, s.entries[o]))
    && (forall i :: 0 <= i < |s.computes| ==>
          s.computes[i].org in s.entries && i <= s.entries[s.computes[i].org].source)
  }

  ghost predicate EntryOf(s: Sys, o: Org, e: Entry) {
    && e.source < |s.computes|
    && var c := s.computes[e.source];
       c.org == o && c.value == e.value && e.deadline == c.stamp + s.ttl && c.stamp <= s.clock
  }

  /** What one thread's progress has to satisfy. */
  ghost predicate ClockOk(s: Sys, ph: Phase) {
    match ph
    case Timed(o, _, now) =>
      now <= s.clock && (o in s.entries ==> s.entries[o].deadline - s.ttl <= now)
    case Computing(o, _, now, _) =>
      now <= s.clock && (o in s.entries ==> s.entries[o].deadline <= now)
    case Computed(o, _, now, _, _, endedAt) =>
      now <= endedAt <= s.clock && (o in s.entries ==> s.entries[o].deadline <= now)
    case _ => true
  }

  /** A thread that read the clock did so after the entry it will look at was stored. */
  ghost predicate Clocks(s: Sys) {
    forall t :: t in s.phases ==> ClockOk(s, s.phases[t])
  }

  /** Computes of one org are at least `ttl` apart, stamp to next start. */
  ghost predicate Spaced(s: Sys) {
    && (forall i :: 0 <= i < |s.computes| ==>
          s.computes[i].startedAt <= s.computes[i].endedAt <= s.computes[i].stamp <= s.clock)
    && (forall i, j :: 0 <= i < j < |s.computes| ==> s.computes[i].stamp <= s.computes[j].stamp)
    && (forall i, j :: 0 <= i < j < |s.computes| && s.computes[i].org == s.computes[j].org ==>
          s.computes[i].stamp + s.ttl <= s.computes[j].startedAt)
  }

  /** A value handed out came from a compute for the same org: the caller's own, or
      one stamped less than `ttl` before the caller's clock read. */
  ghost predicate Fresh(s: Sys, a: Answer) {
    && a.source < |s.computes|
    && var c := s.computes[a.source];
       && c.org == a.org && c.value == a.value
       && (if a.hit then c.stamp <= a.readAt < c.stamp + s.ttl else c.startedAt == a.readAt)
  }

  ghost predicate Answers(s: Sys) {
    forall k :: 0 <= k < |s.answers| ==> Fresh(s, s.answers[k])
  }

  /** A thread's compute is listed as neither raised nor finished. */
  ghost predicate Flights(starts: seq<Start>, phases: map<Tid, Phase>) {
    && (forall t :: t in phases && phases[t].Flies() ==>
          phases[t].start < |starts| && starts[phases[t].start] == Start(phases[t].org, phases[t].now, None, false))
    && (forall i :: 0 <= i < |starts| && starts[i].done.None? && !starts[i].raised ==> FliesSomewhere(phases, i))
  }

  ghost predicate FliesSomewhere(phases: map<Tid, Phase>, i: nat) {
    exists t :: t in phases && phases[t].Flies() && phases[t].start == i
  }

  ghost predicate Finished(starts: seq<Start>, computes: seq<Compute>) {
    forall i :: 0 <= i < |starts| && starts[i].done.Some? ==>
      && starts[i].done.value < |computes|
      && computes[starts[i].done.value].org == starts[i].org
      && computes[starts[i].done.value].startedAt == starts[i].at
  }

  /** Computes of one org that did not raise start at least `ttl` apart. */
  ghost predicate StartsApart(starts: seq<Start>, ttl: real) {
    forall i, j :: 0 <= i < j < |starts| && starts[i].org == starts[j].org && !starts[i].raised && !starts[j].raised ==>
      starts[i].at + ttl <= starts[j].at
  }

  ghost predicate Locking(s: Sys) {
    GuardOk(s.lk.guard, s.phases) && LocksOk(s.lk.orgLocks, s.lk.nextLock, s.phases) && HeldOk(s.lk.held, s.phases)
  }

  ghost predicate Starts(s: Sys) {
    Flights(s.starts, s.phases) && Finished(s.starts, s.computes) && StartsApart(s.starts, s.ttl)
  }

  ghost predicate Inv(s: Sys) {
    Locking(s) && Entries(s) && Clocks(s) && Spaced(s) && Answers(s) && Starts(s)
  }

  // ------------------------------------------------------------ locks

  /** A step moves one thread, if any. */
  lemma OneMoves(s: Sys, step: Step)
    requires Apply(s, step) != s && !step.Tick?
    ensures step.t in Apply(s, step).phases
    ensures Apply(s, step).phases == s.phases[step.t := Apply(s, step).phases[step.t]]
  {
  }

  lemma GuardKept(s: Sys, step: Step)
    requires GuardOk(s.lk.guard, s.phases)
    ensures GuardOk(Apply(s, step).lk.guard, Apply(s, step).phases)
  {
  }

  /** Only the thread that holds `_guard` adds to the dict, so nobody else's lookup goes
      stale. */
  lemma KeepKeepsLocks(s: Sys, t: Tid, ph: Phase)
    requires GuardOk(s.lk.guard, s.phases) && LocksOk(s.lk.orgLocks, s.lk.nextLock, s.phases)
    requires ph == PhaseOf(s.phases, t) && ph.Seen?
    ensures var r := DoKeep(s, t, ph); LocksOk(r.lk.orgLocks, r.lk.nextLock, r.phases)
  {
    var r := DoKeep(s, t, ph);
    assert HasOwnLock(s.lk.orgLocks, ph);
    forall u | u in r.phases ensures HasOwnLock(r.lk.orgLocks, r.phases[u]) {
      if u != t {
        assert HasOwnLock(s.lk.orgLocks, s.phases[u]) && !s.phases[u].Seen?;
      }
    }
  }

  /** Elsewhere a thread keeps the lock it has, or sees what the dict lists. */
  lemma MoverHasOwnLock(s: Sys, step: Step)
    requires LocksOk(s.lk.orgLocks, s.lk.nextLock, s.phases)
    requires Apply(s, step) != s && !step.Tick? && !step.Keep?
    ensures var r := Apply(s, step);
      && step.t in r.phases && HasOwnLock(s.lk.orgLocks, r.phases[step.t])
      && r.lk.orgLocks == s.lk.orgLocks && r.lk.nextLock == s.lk.nextLock
  {
    assert step.t in s.phases ==> HasOwnLock(s.lk.orgLocks, s.phases[step.t]);
    hide LocksOk;
  }

  lemma LocksKept(s: Sys, step: Step)
    requires GuardOk(s.lk.guard, s.phases) && LocksOk(s.lk.orgLocks, s.lk.nextLock, s.phases)
    ensures var r := Apply(s, step); LocksOk(r.lk.orgLocks, r.lk.nextLock, r.phases)
  {
    if step.Keep? && PhaseOf(s.phases, step.t).Seen? {
      KeepKeepsLocks(s, step.t, PhaseOf(s.phases, step.t));
      hide LocksOk, GuardOk, DoKeep;
    } else if Apply(s, step) != s && !step.Tick? {
      OneMoves(s, step);
      MoverHasOwnLock(s, step);
      hide Apply, HasOwnLock;
    }
  }

  /** Entering takes the lock, leaving gives it back, and nothing in between does either. */
  lemma MoverHolds(s: Sys, step: Step)
    requires HeldOk(s.lk.held, s.phases)
    requires Apply(s, step) != s && !step.Tick?
    ensures var r := Apply(s, step);
      var before, after := PhaseOf(s.phases, step.t), PhaseOf(r.phases, step.t);
      && step.t in r.phases
      && (step.Acquire? ==>
            before.Waiting? && before.lock !in s.lk.held && after.Inside() && after.lock == before.lock
            && r.lk.held == s.lk.held[after.lock := step.t])
      && (!step.Acquire? && before.Inside() && after.Inside() ==>
            after.lock == before.lock && r.lk.held == s.lk.held)
      && (!step.Acquire? && before.Inside() && !after.Inside() ==> r.lk.held == s.lk.held - {before.lock})
      && (!step.Acquire? && !before.Inside() ==> !after.Inside() && r.lk.held == s.lk.held)
  {
    hide HeldOk;
  }

  lemma HeldKept(s: Sys, step: Step)
    requires HeldOk(s.lk.held, s.phases)
    ensures HeldOk(Apply(s, step).lk.held, Apply(s, step).phases)
  {
    if Apply(s, step) != s && !step.Tick? {
      OneMoves(s, step);
      MoverHolds(s, step);
      hide Apply;
    }
  }

  /** Two threads inside for one org are one thread: they hold the same lock. */
  lemma OneInside(s: Sys, t: Tid, u: Tid)
    requires Locking(s) && t in s.phases && u in s.phases && s.phases[t].Inside() && s.phases[u].Inside()
    requires s.phases[t].org == s.phases[u].org
    ensures t == u
  {
    assert HasOwnLock(s.lk.orgLocks, s.phases[t]) && HasOwnLock(s.lk.orgLocks, s.phases[u]);
  }

  // ------------------------------------------------------------ entries and answers

  /** Only a store touches entries and computes, and time never runs back. */
  lemma Frame(s: Sys, step: Step)
    ensures var t := Apply(s, step);
      && t.ttl == s.ttl && s.clock <= t.clock && s.answers <= t.answers && s.computes <= t.computes
      && (!step.Store? ==> t.entries == s.entries && t.computes == s.computes)
  {
  }

  lemma EntriesKept(s: Sys, step: Step)
    requires Entries(s)
    ensures Entries(Apply(s, step))
  {
    Frame(s, step);
    if step.Store? {
      StoreKeepsEntries(s, step.t, PhaseOf(s.phases, step.t));
    } else {
      hide Apply;
      var t := Apply(s, step);
      forall o | o in t.entries ensures EntryOf(t, o, t.entries[o]) {
        assert EntryOf(s, o, s.entries[o]);
      }
    }
  }

  lemma StoreKeepsEntries(s: Sys, t: Tid, ph: Phase)
    requires Entries(s)
    ensures Entries(DoStore(s, t, ph))
  {
    var s' := DoStore(s, t, ph);
    if s' == s { return; }
    forall o | o in s'.entries ensures EntryOf(s', o, s'.entries[o]) {
      if o != ph.org {
        assert EntryOf(s, o, s.entries[o]);
      }
    }
  }

  /** A thread that did not move still finds the entry it read the clock against: a store
      for its org would have needed the lock it holds. */
  lemma RestingClock(s: Sys, step: Step, t: Tid)
    requires Locking(s) && t in s.phases && ClockOk(s, s.phases[t])
    requires Apply(s, step) != s && (step.Tick? || step.t != t)
    ensures ClockOk(Apply(s, step), s.phases[t])
  {
    Frame(s, step);
    if step.Store? {
      StoreSpares(s, step.t, PhaseOf(s.phases, step.t), t);
      hide Locking, DoStore;
    } else {
      hide Apply, Locking;
    }
  }

  lemma StoreSpares(s: Sys, storer: Tid, ph: Phase, t: Tid)
    requires Locking(s) && t in s.phases && t != storer && ph == PhaseOf(s.phases, storer)
    ensures var r := DoStore(s, storer, ph);
      && r.clock == s.clock && r.ttl == s.ttl
      && (s.phases[t].Inside() ==>
            var o := s.phases[t].org;
            (o in r.entries <==> o in s.entries) && (o in s.entries ==> r.entries[o] == s.entries[o]))
  {
    if ph.Inside() && s.phases[t].Inside() && s.phases[t].org == ph.org {
      OneInside(s, storer, t);
    }
    hide Locking;
  }

  lemma MovingClock(s: Sys, step: Step)
    requires Entries(s) && Clocks(s) && Apply(s, step) != s && !step.Tick?
    ensures step.t in Apply(s, step).phases && ClockOk(Apply(s, step), Apply(s, step).phases[step.t])
  {
    var t := step.t;
    if t in s.phases {
      assert ClockOk(s, s.phases[t]);
      var o := if s.phases[t].Idle? then "" else s.phases[t].org;
      if o in s.entries {
        assert EntryOf(s, o, s.entries[o]);
      }
    }
    hide Entries, Clocks;
  }

  lemma ClocksKept(s: Sys, step: Step)
    requires Locking(s) && Entries(s) && Clocks(s)
    ensures Clocks(Apply(s, step))
  {
    if Apply(s, step) != s {
      if !step.Tick? {
        OneMoves(s, step);
        MovingClock(s, step);
      }
      var r := Apply(s, step);
      forall t | t in r.phases ensures ClockOk(r, r.phases[t]) {
        if step.Tick? || t != step.t {
          assert t in s.phases && r.phases[t] == s.phases[t] && ClockOk(s, s.phases[t]);
          RestingClock(s, step, t) by { hide Entries, Clocks; }
        }
      }
    }
    hide Entries, Locking, Apply;
  }

  lemma SpacedKept(s: Sys, step: Step)
    requires Entries(s) && Clocks(s) && Spaced(s)
    ensures Spaced(Apply(s, step))
  {
    Frame(s, step);
    if step.Store? {
      StoreKeepsSpaced(s, step.t, PhaseOf(s.phases, step.t));
    } else {
      hide Apply;
    }
  }

  lemma StoreKeepsSpaced(s: Sys, t: Tid, ph: Phase)
    requires Entries(s) && Spaced(s) && ClockOk(s, ph)
    ensures Spaced(DoStore(s, t, ph))
  {
    var s' := DoStore(s, t, ph);
    if s' == s { return; }
    var n := |s.computes|;
    forall i | 0 <= i < n && s'.computes[i].org == s'.computes[n].org
      ensures s'.computes[i].stamp + s.ttl <= s'.computes[n].startedAt
    {
      LatestIsLast(s, i);
    }
    hide Entries;
  }

  /** An org's entry was stamped no earlier than any of its computes. */
  lemma LatestIsLast(s: Sys, i: nat)
    requires Entries(s) && Spaced(s) && i < |s.computes|
    ensures var o := s.computes[i].org;
      o in s.entries && s.computes[i].stamp + s.ttl <= s.entries[o].deadline
  {
    assert EntryOf(s, s.computes[i].org, s.entries[s.computes[i].org]);
  }

  lemma AnswersKept(s: Sys, step: Step)
    requires Entries(s) && Clocks(s) && Answers(s)
    ensures Answers(Apply(s, step))
  {
    var s' := Apply(s, step);
    Frame(s, step);
    forall k | 0 <= k < |s'.answers| ensures Fresh(s', s'.answers[k]) {
      if k < |s.answers| {
        assert Fresh(s, s.answers[k]) && s'.answers[k] == s.answers[k];
      } else {
        NewAnswerFresh(s, step, k);
      }
    }
    hide Apply, Entries, Clocks;
  }

  lemma NewAnswerFresh(s: Sys, step: Step, k: nat)
    requires Entries(s) && Clocks(s)
    requires |s.answers| <= k < |Apply(s, step).answers|
    ensures Fresh(Apply(s, step), Apply(s, step).answers[k])
  {
    if step.Lookup? {
      var ph := PhaseOf(s.phases, step.t);
      assert ClockOk(s, ph) && EntryOf(s, ph.org, s.entries[ph.org]);
    }
    hide Entries, Clocks;
  }

  // ------------------------------------------------------------ starts

  lemma NewFlight(starts: seq<Start>, phases: map<Tid, Phase>, t: Tid, ph: Phase)
    requires Flights(starts, phases) && ph.Flies() && ph.start == |starts| && !PhaseOf(phases, t).Flies()
    ensures Flights(starts + [Start(ph.org, ph.now, None, false)], phases[t := ph])
  {
    var more, after := starts + [Start(ph.org, ph.now, None, false)], phases[t := ph];
    forall i | 0 <= i < |more| && more[i].done.None? && !more[i].raised ensures FliesSomewhere(after, i) {
      if i < |starts| {
        var u :| u in phases && phases[u].Flies() && phases[u].start == i;
        assert after[u] == phases[u];
      } else {
        assert after[t].start == i;
      }
    }
  }

  /** A thread that flies on, or never did, changes nothing about the list. */
  lemma SameFlight(starts: seq<Start>, phases: map<Tid, Phase>, t: Tid, ph: Phase)
    requires Flights(starts, phases)
    requires if PhaseOf(phases, t).Flies()
             then ph.Flies() && ph.start == phases[t].start && ph.org == phases[t].org && ph.now == phases[t].now
             else !ph.Flies()
    ensures Flights(starts, phases[t := ph])
  {
    var after := phases[t := ph];
    forall i | 0 <= i < |starts| && starts[i].done.None? && !starts[i].raised ensures FliesSomewhere(after, i) {
      var u :| u in phases && phases[u].Flies() && phases[u].start == i;
      assert after[u].Flies() && after[u].start == i;
    }
  }

  /** A thread that lands marks its own compute, which is nobody else's. */
  lemma EndFlight(starts: seq<Start>, phases: map<Tid, Phase>, t: Tid, mark: Start)
    requires Flights(starts, phases) && t in phases && phases[t].Flies() && (mark.done.Some? || mark.raised)
    requires forall u :: u in phases && phases[u].Flies() && phases[u].start == phases[t].start ==> u == t
    ensures Flights(starts[phases[t].start := mark], phases[t := Idle])
  {
    var k := phases[t].start;
    var less, after := starts[k := mark], phases[t := Idle];
    forall i | 0 <= i < |less| && less[i].done.None? && !less[i].raised ensures FliesSomewhere(after, i) {
      var u :| u in phases && phases[u].Flies() && phases[u].start == i;
      assert after[u] == phases[u];
    }
  }

  /** A new compute starts at least `ttl` after every earlier one of its org that did not
      raise: those have finished, since a running one would hold the lock. */
  lemma MissIsApart(s: Sys, t: Tid, i: nat)
    requires Locking(s) && Entries(s) && Spaced(s) && Starts(s)
    requires t in s.phases && s.phases[t].Timed? && i < |s.starts|
    requires s.starts[i].org == s.phases[t].org && !s.starts[i].raised
    requires s.phases[t].org in s.entries ==> s.entries[s.phases[t].org].deadline <= s.phases[t].now
    ensures s.starts[i].at + s.ttl <= s.phases[t].now
  {
    forall u | u in s.phases && s.phases[u].Flies() && s.phases[u].start == i ensures u == t {
      OneInside(s, t, u);
    }
    assert s.starts[i].done.Some?;
    LatestIsLast(s, s.starts[i].done.value);
  }

  lemma LookupStarts(s: Sys, t: Tid)
    requires Locking(s) && Entries(s) && Spaced(s) && Starts(s)
    ensures Starts(DoLookup(s, t, PhaseOf(s.phases, t)))
  {
    var ph := PhaseOf(s.phases, t);
    var r := DoLookup(s, t, ph);
    if r != s {
      if r.starts == s.starts {
        SameFlight(s.starts, s.phases, t, Idle);
      } else {
        NewFlight(s.starts, s.phases, t, r.phases[t]);
        forall i | 0 <= i < |s.starts| && s.starts[i].org == ph.org && !s.starts[i].raised
          ensures s.starts[i].at + s.ttl <= ph.now
        {
          MissIsApart(s, t, i);
        }
      }
    }
    hide Locking, Entries, Spaced, Flights;
  }

  lemma AloneInFlight(s: Sys, t: Tid)
    requires Locking(s) && Flights(s.starts, s.phases) && t in s.phases && s.phases[t].Flies()
    ensures forall u :: u in s.phases && s.phases[u].Flies() && s.phases[u].start == s.phases[t].start ==> u == t
  {
    forall u | u in s.phases && s.phases[u].Flies() && s.phases[u].start == s.phases[t].start ensures u == t {
      OneInside(s, t, u);
    }
  }

  lemma EndStarts(s: Sys, t: Tid, value: bool)
    requires Locking(s) && Starts(s)
    ensures Starts(if value then DoStore(s, t, PhaseOf(s.phases, t)) else DoRaises(s, t, PhaseOf(s.phases, t)))
  {
    var ph := PhaseOf(s.phases, t);
    var r := if value then DoStore(s, t, ph) else DoRaises(s, t, ph);
    if r != s {
      AloneInFlight(s, t);
      assert s.starts[ph.start] == Start(ph.org, ph.now, None, false);
      EndFlight(s.starts, s.phases, t, r.starts[ph.start]);
      hide Locking, Flights;
    }
  }

  lemma StartsKept(s: Sys, step: Step)
    requires Locking(s) && Entries(s) && Spaced(s) && Starts(s)
    ensures Starts(Apply(s, step))
  {
    match step
    case Lookup(t) => LookupStarts(s, t) by { hide DoStore, DoRaises; }
    case Raises(t) => EndStarts(s, t, false);
    case Store(t) => EndStarts(s, t, true);
    case _ => OtherStarts(s, step);
    hide Starts, Locking, Entries, Spaced, DoLookup, DoStore, DoRaises;
  }

  lemma OtherStarts(s: Sys, step: Step)
    requires Starts(s) && !step.Lookup? && !step.Raises? && !step.Store?
    ensures Starts(Apply(s, step))
  {
    var r := Apply(s, step);
    if r != s && !step.Tick? {
      OneMoves(s, step);
      SameFlight(s.starts, s.phases, step.t, r.phases[step.t]);
      assert r.starts == s.starts && r.computes == s.computes && r.ttl == s.ttl;
      hide Apply, Flights, Finished, StartsApart;
    }
  }

  lemma {:induction false} RunsKeepInv(ttl: real, steps: seq<Step>)
    ensures Inv(Exec(ttl, steps)) && Exec(ttl, steps).ttl == ttl
  {
    if steps != [] {
      hide Apply, GuardOk, LocksOk, HeldOk, Entries, Clocks, Spaced, Answers, Starts;
      var n := |steps| - 1;
      RunsKeepInv(ttl, steps[..n]);
      var s := Exec(ttl, steps[..n]);
      GuardKept(s, steps[n]);
      LocksKept(s, steps[n]);
      HeldKept(s, steps[n]);
      EntriesKept(s, steps[n]);
      ClocksKept(s, steps[n]);
      SpacedKept(s, steps[n]);
      AnswersKept(s, steps[n]);
      StartsKept(s, steps[n]);
      Frame(s, steps[n]);
    }
  }

  // ------------------------------------------------------------ what callers can rely on

  /** Every value returned in every run is fresh and belongs to the org asked for. */
  lemma ValuesAreFresh(ttl: real, steps: seq<Step>, k: nat)
    requires k < |Exec(ttl, steps).answers|
    ensures Fresh(Exec(ttl, steps), Exec(ttl, steps).answers[k])
  {
    RunsKeepInv(ttl, steps);
    hide Exec, Locking, Entries, Clocks, Spaced, Starts;
  }

  /** Get-or-create under the guard hands every thread of one org the same lock, in every
      interleaving, and never one lock to two orgs. */
  lemma {:induction false} OrgsShareLocksExactly(ttl: real, steps: seq<Step>, t: Tid, u: Tid)
    requires var ps := Exec(ttl, steps).phases;
      t in ps && u in ps && (ps[t].Waiting? || ps[t].Inside()) && (ps[u].Waiting? || ps[u].Inside())
    ensures var ps := Exec(ttl, steps).phases; ps[t].lock == ps[u].lock <==> ps[t].org == ps[u].org
  {
    RunsKeepInv(ttl, steps);
    var s := Exec(ttl, steps);
    hide Exec, Entries, Clocks, Spaced, Answers, Starts, HeldOk, GuardOk;
    assert HasOwnLock(s.lk.orgLocks, s.phases[t]) && HasOwnLock(s.lk.orgLocks, s.phases[u]);
  }

  /** At most one compute per org is in flight, because its threads share one lock. */
  lemma {:induction false} SingleFlight(ttl: real, steps: seq<Step>, t: Tid, u: Tid)
    requires var ps := Exec(ttl, steps).phases;
      t in ps && u in ps && ps[t].Inside() && ps[u].Inside() && ps[t].org == ps[u].org
    ensures t == u
  {
    RunsKeepInv(ttl, steps);
    hide Exec, Entries, Clocks, Spaced, Answers, Starts, Locking;
    OneInside(Exec(ttl, steps), t, u);
  }

  /** Indices of starts of one org, in order. */
  ghost predicate StartsOf(starts: seq<Start>, org: Org, picked: seq<nat>) {
    && (forall k :: 0 <= k < |picked| ==> picked[k] < |starts| && starts[picked[k]].org == org)
    && (forall k, l :: 0 <= k < l < |picked| ==> picked[k] < picked[l])
  }

  ghost predicate NoneRaised(starts: seq<Start>, picked: seq<nat>) {
    forall k :: 0 <= k < |picked| ==> picked[k] < |starts| && !starts[picked[k]].raised
  }

  function Raised(starts: seq<Start>, picked: seq<nat>): nat
    requires forall k :: 0 <= k < |picked| ==> picked[k] < |starts|
  {
    if picked == [] then 0
    else
      Raised(starts, picked[..|picked| - 1]) + if starts[picked[|picked| - 1]].raised then 1 else 0
  }

  /** The picked starts without those that raised. */
  function Unraised(starts: seq<Start>, picked: seq<nat>): (r: seq<nat>)
    requires forall k :: 0 <= k < |picked| ==> picked[k] < |starts|
    ensures forall x :: x in r ==> x in picked
    ensures |r| + Raised(starts, picked) == |picked|
  {
    if picked == [] then []
    else
      Unraised(starts, picked[..|picked| - 1])
      + if starts[picked[|picked| - 1]].raised then [] else [picked[|picked| - 1]]
  }

  lemma OneMoreStart(starts: seq<Start>, org: Org, rest: seq<nat>, last: nat)
    requires StartsOf(starts, org, rest) && NoneRaised(starts, rest)
    requires last < |starts| && starts[last].org == org && !starts[last].raised
    requires forall x :: x in rest ==> x < last
    ensures StartsOf(starts, org, rest + [last]) && NoneRaised(starts, rest + [last])
  {
    assert forall k :: 0 <= k < |rest| ==> rest[k] in rest;
  }

  lemma {:induction false} UnraisedOf(starts: seq<Start>, org: Org, picked: seq<nat>)
    requires StartsOf(starts, org, picked)
    ensures StartsOf(starts, org, Unraised(starts, picked)) && NoneRaised(starts, Unraised(starts, picked))
  {
    if picked != [] {
      var n := |picked| - 1;
      var init, last := picked[..n], picked[n];
      UnraisedOf(starts, org, init);
      var rest := Unraised(starts, init);
      assert Unraised(starts, picked) == rest + if starts[last].raised then [] else [last];
      forall x | x in rest ensures x < last {
        var k :| 0 <= k < |init| && init[k] == x;
        assert picked[k] < picked[n];
      }
      hide Unraised, NoneRaised;
      if starts[last].raised {
        assert Unraised(starts, picked) == rest;
      } else {
        OneMoreStart(starts, org, rest, last);
      }
    }
  }

  lemma {:induction false} SpacingAddsUp(starts: seq<Start>, ttl: real, org: Org, picked: seq<nat>)
    requires StartsApart(starts, ttl) && StartsOf(starts, org, picked) && NoneRaised(starts, picked) && picked != []
    ensures (|picked| - 1) as real * ttl <= starts[picked[|picked| - 1]].at - starts[picked[0]].at
  {
    var n := |picked| - 1;
    if n > 0 {
      SpacingAddsUp(starts, ttl, org, picked[..n]);
      assert picked[n - 1] < picked[n];
      OneMoreTimes(n - 1, ttl);
      hide StartsOf, NoneRaised;
    }
  }

  lemma OneMoreTimes(n: nat, ttl: real)
    ensures n as real * ttl + ttl == (n + 1) as real * ttl
  {
    assert (n + 1) as real == n as real + 1.0;
  }

  lemma DivideOut(n: real, ttl: real, T: real)
    requires ttl > 0.0 && n * ttl <= T
    ensures n <= T / ttl
  {
    var q := T / ttl;
    assert q * ttl == T;
    assert n * ttl <= q * ttl;
  }

  lemma UnraisedAreBounded(starts: seq<Start>, ttl: real, org: Org, picked: seq<nat>, from: real, T: real)
    requires ttl > 0.0 && T >= 0.0 && StartsApart(starts, ttl)
    requires StartsOf(starts, org, picked) && NoneRaised(starts, picked)
    requires forall x :: x in picked ==> x < |starts| && from <= starts[x].at <= from + T
    ensures |picked| as real <= T / ttl + 1.0
  {
    DivideOut(0.0, ttl, T);
    if picked != [] {
      SpacingAddsUp(starts, ttl, org, picked);
      assert picked[0] in picked && picked[|picked| - 1] in picked;
      hide StartsApart, StartsOf, NoneRaised;
      DivideOut((|picked| - 1) as real, ttl, T);
    }
  }

  lemma StartsAreBounded(starts: seq<Start>, ttl: real, org: Org, picked: seq<nat>, from: real, T: real)
    requires ttl > 0.0 && T >= 0.0 && StartsApart(starts, ttl) && StartsOf(starts, org, picked)
    requires forall k :: 0 <= k < |picked| ==> from <= starts[picked[k]].at <= from + T
    ensures |picked| as real <= T / ttl + 1.0 + Raised(starts, picked) as real
  {
    hide Raised, Unraised, StartsApart, NoneRaised;
    UnraisedOf(starts, org, picked);
    var rest := Unraised(starts, picked);
    assert forall x :: x in rest ==> x in picked;
    hide StartsOf;
    UnraisedAreBounded(starts, ttl, org, rest, from, T);
  }

  /** Over any span `T`, an org starts at most `T / ttl + 1` computes, in flight ones
      included, plus those that raised. */
  lemma {:induction false} ComputesAreBounded(ttl: real, steps: seq<Step>, org: Org, picked: seq<nat>,
                                              from: real, T: real)
    requires ttl > 0.0 && T >= 0.0
    requires StartsOf(Exec(ttl, steps).starts, org, picked)
    requires forall k :: 0 <= k < |picked| ==>
      from <= Exec(ttl, steps).starts[picked[k]].at <= from + T
    ensures |picked| as real <= T / ttl + 1.0 + Raised(Exec(ttl, steps).starts, picked) as real
  {
    RunsKeepInv(ttl, steps);
    hide Exec, Locking, Entries, Clocks, Spaced, Answers, Flights, Finished, StartsApart;
    StartsAreBounded(Exec(ttl, steps).starts, ttl, org, picked, from, T);
  }

  /** The two levels of locks never deadlock: while any thread is inside `get`, some
      thread can take its next step. */
  lemma {:induction false} NeverDeadlocks(ttl: real, steps: seq<Step>, t: Tid) returns (mover: Tid, step: Step)
    requires var ps := Exec(ttl, steps).phases; t in ps && !ps[t].Idle?
    ensures var s := Exec(ttl, steps);
      && mover in s.phases && !s.phases[mover].Idle?
      && mover in Apply(s, step).phases && Apply(s, step).phases[mover] != s.phases[mover]
      && !step.Call? && !step.Tick? && step.t == mover
  {
    RunsKeepInv(ttl, steps);
    var s := Exec(ttl, steps);
    hide Exec, Entries, Clocks, Spaced, Answers, Starts, LocksOk;
    mover := if s.lk.guard.Some? then s.lk.guard.value
             else if s.phases[t].Waiting? && s.phases[t].lock in s.lk.held then s.lk.held[s.phases[t].lock]
             else t;
    step := NextStep(mover, s.phases[mover]);
    StepMoves(s, mover);
  }

  /** What a thread does next; a compute may as well return. */
  function NextStep(t: Tid, ph: Phase): Step {
    match ph
    case Idle => Call(t, "")
    case Wanting(_) => TakeGuard(t)
    case Guarding(_) => Look(t)
    case Seen(_, _) => Keep(t)
    case Waiting(_, _) => Acquire(t)
    case Locked(_, _) => ReadClock(t)
    case Timed(_, _, _) => Lookup(t)
    case Computing(_, _, _, _) => Returns(t, 0)
    case Computed(_, _, _, _, _, _) => Store(t)
  }

  /** It is held up only by a guard another thread holds, or by its org's lock. */
  lemma StepMoves(s: Sys, t: Tid)
    requires t in s.phases && !s.phases[t].Idle?
    requires s.lk.guard.Some? ==> s.phases[t].Guards()
    requires s.phases[t].Waiting? ==> s.phases[t].lock !in s.lk.held
    ensures var r := Apply(s, NextStep(t, s.phases[t])); t in r.phases && r.phases[t] != s.phases[t]
  {
    hide Marked;
  }

  // ------------------------------------------------------------ how old an answer can be

  /** Answer `k` was read from compute `i`. */
  ghost predicate Hits(s: Sys, i: nat, k: nat) {
    i < |s.computes| && k < |s.answers| && s.answers[k].hit && s.answers[k].source == i
  }

  /** In every run an answer read from a compute is younger than the lifetime plus the
      time the storing thread was held up after `compute` returned. */
  lemma {:induction false} AgeIsBounded(ttl: real, steps: seq<Step>, i: nat, k: nat)
    requires Hits(Exec(ttl, steps), i, k)
    ensures var s := Exec(ttl, steps);
      s.answers[k].readAt - s.computes[i].endedAt < ttl + (s.computes[i].stamp - s.computes[i].endedAt)
  {
    RunsKeepInv(ttl, steps);
    var s := Exec(ttl, steps);
    assert Fresh(s, s.answers[k]);
  }

  /** One call to `get` for `org` that nobody interrupts, up to its look at the entry. */
  function Opening(t: Tid, org: Org): seq<Step> {
    [Call(t, org), TakeGuard(t), Look(t), Keep(t), Acquire(t), ReadClock(t)]
  }

  function Run(s: Sys, steps: seq<Step>): Sys
    decreases |steps|
  {
    if steps == [] then s else Run(Apply(s, steps[0]), steps[1..])
  }

  lemma {:induction false} ExecThenRun(ttl: real, a: seq<Step>, b: seq<Step>)
    ensures Exec(ttl, a + b) == Run(Exec(ttl, a), b)
    decreases |b|
  {
    hide Apply;
    if b == [] {
      assert a + b == a;
    } else {
      assert a + b == (a + [b[0]]) + b[1..];
      assert (a + [b[0]])[..|a|] == a;
      ExecThenRun(ttl, a + [b[0]], b[1..]);
    }
  }

  lemma {:induction false} RunThenOne(s: Sys, a: seq<Step>, step: Step)
    ensures Run(s, a + [step]) == Apply(Run(s, a), step)
    decreases |a|
  {
    hide Apply;
    if a == [] {
      assert ([] + [step])[1..] == [];
    } else {
      assert (a + [step])[0] == a[0] && (a + [step])[1..] == a[1..] + [step];
      RunThenOne(Apply(s, a[0]), a[1..], step);
    }
  }

  /** Nobody holds the guard, or the org's lock. */
  predicate Free(lk: Locks, org: Org) {
    lk.guard.None? && match LockOf(lk.orgLocks, org) case Some(l) => l !in lk.held case None => lk.nextLock !in lk.held
  }

  lemma SixSteps(s: Sys, a: Step, b: Step, c: Step, d: Step, e: Step, f: Step)
    ensures Run(s, [a, b, c, d, e, f])
         == Apply(Apply(Apply(Apply(Apply(Apply(s, a), b), c), d), e), f)
  {
    hide Apply;
    assert [a, b, c, d, e, f][1..] == [b, c, d, e, f] && [b, c, d, e, f][1..] == [c, d, e, f];
    assert [c, d, e, f][1..] == [d, e, f] && [d, e, f][1..] == [e, f] && [e, f][1..] == [f] && [f][1..] == [];
    var s1 := Apply(s, a);
    var s2 := Apply(s1, b);
    var s3 := Apply(s2, c);
    var s4 := Apply(s3, d);
    assert Run(s4, [e, f]) == Run(Apply(s4, e), [f]);
    assert Run(s3, [d, e, f]) == Run(s4, [e, f]);
    assert Run(s2, [c, d, e, f]) == Run(s3, [d, e, f]);
    assert Run(s1, [b, c, d, e, f]) == Run(s2, [c, d, e, f]);
  }

  function OpenLock(lk: Locks, org: Org): LockId {
    if org in lk.orgLocks then lk.orgLocks[org] else lk.nextLock
  }

  lemma OpensGuard(s: Sys, t: Tid, org: Org)
    requires PhaseOf(s.phases, t).Idle? && s.lk.guard.None?
    ensures Apply(Apply(s, Call(t, org)), TakeGuard(t))
         == s.(phases := s.phases[t := Guarding(org)], lk := s.lk.(guard := Some(t)))
  {
    var s1 := Apply(s, Call(t, org));
    assert s1.phases[t := Guarding(org)] == s.phases[t := Guarding(org)];
  }

  lemma OpensLock(s: Sys, t: Tid, org: Org)
    requires t in s.phases && s.phases[t] == Guarding(org)
    ensures var r := Apply(Apply(s, Look(t)), Keep(t)); var lock := OpenLock(s.lk, org);
      && r == s.(phases := r.phases, lk := r.lk)
      && r.phases == s.phases[t := Waiting(org, lock)]
      && r.lk.guard.None? && r.lk.held == s.lk.held
  {
    var s1 := Apply(s, Look(t));
    assert s1.phases[t] == Seen(org, LockOf(s.lk.orgLocks, org));
  }

  lemma OpensInside(s: Sys, t: Tid, org: Org, lock: LockId)
    requires t in s.phases && s.phases[t] == Waiting(org, lock) && lock !in s.lk.held
    ensures Apply(Apply(s, Acquire(t)), ReadClock(t))
         == s.(phases := s.phases[t := Timed(org, lock, s.clock)], lk := s.lk.(held := s.lk.held[lock := t]))
  {
    var s1 := Apply(s, Acquire(t));
    assert s1.phases[t := Timed(org, lock, s.clock)] == s.phases[t := Timed(org, lock, s.clock)];
  }

  /** A thread that opens alone ends up inside, with the clock as it was, having touched
      only locks and itself. */
  lemma Opens(s: Sys, t: Tid, org: Org)
    requires PhaseOf(s.phases, t).Idle? && Free(s.lk, org)
    ensures var r := Run(s, Opening(t, org)); var lock := OpenLock(s.lk, org);
      && r == s.(phases := s.phases[t := Timed(org, lock, s.clock)], lk := r.lk)
      && lock !in s.lk.held && r.lk.guard.None? && r.lk.held == s.lk.held[lock := t]
  {
    hide Apply;
    SixSteps(s, Call(t, org), TakeGuard(t), Look(t), Keep(t), Acquire(t), ReadClock(t));
    OpensGuard(s, t, org);
    var s2 := s.(phases := s.phases[t := Guarding(org)], lk := s.lk.(guard := Some(t)));
    OpensLock(s2, t, org);
    var s4 := Apply(Apply(s2, Look(t)), Keep(t));
    var lock := OpenLock(s.lk, org);
    assert s4.phases == s.phases[t := Waiting(org, lock)];
    OpensInside(s4, t, org, lock);
    assert s4.phases[t := Timed(org, lock, s.clock)] == s.phases[t := Timed(org, lock, s.clock)];
  }

  /** Looking at a live entry answers from it. */
  lemma LookHits(s: Sys, t: Tid)
    requires t in s.phases && s.phases[t].Timed? && s.lk.guard.None?
    requires s.phases[t].org in s.entries && s.phases[t].now < s.entries[s.phases[t].org].deadline
    ensures var r := Apply(s, Lookup(t)); var e := s.entries[s.phases[t].org];
      r.answers == s.answers + [Answer(s.phases[t].org, e.value, s.phases[t].now, e.source, true)]
      && r.computes == s.computes
  {
  }

  /** A compute stored in this state is answered from, by a thread that comes `d` later,
      as long as `d` is less than the lifetime. */
  lemma LaterHit(ttl: real, steps: seq<Step>, t: Tid, org: Org, d: real)
    requires var s := Exec(ttl, steps);
      && PhaseOf(s.phases, t).Idle? && Free(s.lk, org) && d >= 0.0
      && org in s.entries && s.clock + d < s.entries[org].deadline
    ensures var s := Exec(ttl, steps);
      var r := Exec(ttl, steps + ([Tick(d)] + Opening(t, org) + [Lookup(t)]));
      && r.computes == s.computes && |r.answers| == |s.answers| + 1
      && r.answers[|s.answers|].hit && r.answers[|s.answers|].source == s.entries[org].source
      && r.answers[|s.answers|].readAt == s.clock + d
  {
    hide Opening, Apply;
    var s := Exec(ttl, steps);
    var more := Opening(t, org) + [Lookup(t)];
    assert [Tick(d)] + Opening(t, org) + [Lookup(t)] == [Tick(d)] + more;
    ExecThenRun(ttl, steps, [Tick(d)] + more);
    assert ([Tick(d)] + more)[0] == Tick(d) && ([Tick(d)] + more)[1..] == more;
    var s1 := s.(clock := s.clock + d);
    assert Apply(s, Tick(d)) == s1 by { TickIs(s, d); }
    RunThenOne(s1, Opening(t, org), Lookup(t));
    Opens(s1, t, org);
    LookHits(Run(s1, Opening(t, org)), t);
    hide Exec, Run;
  }

  lemma TickIs(s: Sys, d: real)
    requires d >= 0.0
    ensures Apply(s, Tick(d)) == s.(clock := s.clock + d)
  {
  }

  /** What the last step must have been for a compute to be new: a store. */
  lemma StoreLeaves(s: Sys, t: Tid)
    requires Inv(s) && Apply(s, Store(t)) != s
    ensures var r := Apply(s, Store(t)); var n := |s.computes|;
      && |r.computes| == n + 1
      && var c := r.computes[n];
      && PhaseOf(r.phases, t).Idle? && Free(r.lk, c.org) && r.clock == c.stamp
      && c.org in r.entries && r.entries[c.org] == Entry(c.stamp + s.ttl, c.value, n)
      && c.endedAt <= c.stamp
  {
    var ph := PhaseOf(s.phases, t);
    assert HasOwnLock(s.lk.orgLocks, ph) && ClockOk(s, ph);
    hide Inv;
  }

  /** Whether every answer a continuation reads from compute `i` is younger than the
      lifetime, counted from when that compute returned. */
  ghost predicate AlwaysYoung(ttl: real, steps: seq<Step>, i: nat) {
    forall after: seq<Step>, k: nat :: Hits(Exec(ttl, steps + after), i, k) ==> Young(ttl, Exec(ttl, steps + after), i, k)
  }

  ghost predicate Young(ttl: real, s: Sys, i: nat, k: nat)
    requires Hits(s, i, k)
  {
    s.answers[k].readAt - s.computes[i].endedAt < ttl
  }

  lemma {:induction false} ComputesStay(ttl: real, steps: seq<Step>, after: seq<Step>)
    ensures Exec(ttl, steps).computes <= Exec(ttl, steps + after).computes
  {
    hide Apply;
    if after == [] {
      assert steps + after == steps;
    } else {
      var n := |after| - 1;
      assert (steps + after)[..|steps| + n] == steps + after[..n];
      ComputesStay(ttl, steps, after[..n]);
      Frame(Exec(ttl, steps + after[..n]), after[n]);
    }
  }

  /** For every stored compute: all answers ever read from it are younger than the
      lifetime, counted from when it returned, if and only if its thread was not held up
      before the clock read its lifetime is counted from. */
  lemma {:induction false} AgeExactly(ttl: real, steps: seq<Step>, t: Tid)
    requires ttl > 0.0 && Apply(Exec(ttl, steps), Store(t)) != Exec(ttl, steps)
    ensures var i := |Exec(ttl, steps).computes|; var r := Exec(ttl, steps + [Store(t)]);
      i < |r.computes| && (AlwaysYoung(ttl, steps + [Store(t)], i) <==> r.computes[i].stamp == r.computes[i].endedAt)
  {
    var s := Exec(ttl, steps);
    var stored := steps + [Store(t)];
    assert stored[..|steps|] == steps;
    assert Exec(ttl, stored) == Apply(s, Store(t));
    RunsKeepInv(ttl, steps);
    StoreLeaves(s, t);
    var i, r := |s.computes|, Exec(ttl, stored);
    hide Exec, Apply, Inv, Hits;
    var c := r.computes[i];
    if c.stamp == c.endedAt {
      YoungWhenPrompt(ttl, stored, i);
    } else {
      var held := c.stamp - c.endedAt;
      var d := if held < ttl then ttl - held else 0.0;
      LaterHit(ttl, stored, t, c.org, d);
      var after := [Tick(d)] + Opening(t, c.org) + [Lookup(t)];
      OldHit(ttl, Exec(ttl, stored + after), i, |r.answers|);
      assert !AlwaysYoung(ttl, stored, i);
    }
  }

  lemma OldHit(ttl: real, s: Sys, i: nat, k: nat)
    requires i < |s.computes| && k < |s.answers| && s.answers[k].hit && s.answers[k].source == i
    requires s.answers[k].readAt - s.computes[i].endedAt >= ttl
    ensures Hits(s, i, k) && !Young(ttl, s, i, k)
  {
  }

  lemma YoungWhenPrompt(ttl: real, steps: seq<Step>, i: nat)
    requires i < |Exec(ttl, steps).computes|
    requires Exec(ttl, steps).computes[i].stamp == Exec(ttl, steps).computes[i].endedAt
    ensures AlwaysYoung(ttl, steps, i)
  {
    forall after: seq<Step>, k: nat | Hits(Exec(ttl, steps + after), i, k)
      ensures Young(ttl, Exec(ttl, steps + after), i, k)
    {
      ComputesStay(ttl, steps, after);
      AgeIsBounded(ttl, steps + after, i, k);
    }
  }

  // ------------------------------------------------------------ one call on its own

  /** The dict itself: deadline and value per org. */
  type Table = map<Org, (real, int)>

  predicate Hit(table: Table, org: Org, now: real) {
    org in table && now < table[org].0
  }

  /** What one call leaves and returns; `None` is the exception of a failed compute. */
  function AfterGet(table: Table, ttl: real, org: Org, now: real, compute: Option<int>, stamp: real)
    : (Table, Option<int>)
  {
    if Hit(table, org, now) then (table, Some(table[org].1))
    else if compute.None? then (table, None)
    else (table[org := (stamp + ttl, compute.value)], compute)
  }

  /** `_OrgTtlCache` as one caller drives it: the two clock reads and what `compute`
      answers are inputs. */
  class Cache {
    const ttl: real
    var entries: Table

    constructor (ttl: real)
      ensures this.ttl == ttl && entries == map[]
    {
      this.ttl := ttl;
      entries := map[];
    }

    method Get(org: Org, now: real, compute: Option<int>, stamp: real) returns (r: Option<int>)
      modifies this
      ensures (entries, r) == AfterGet(old(entries), ttl, org, now, compute, stamp)
    {
      if org in entries && now < entries[org].0 {
        return Some(entries[org].1);
      }
      if compute.None? {
        return None;
      }
      entries := entries[org := (stamp + ttl, compute.value)];
      return compute;
    }
  }

  function TableOf(s: Sys): Table {
    map o | o in s.entries :: (s.entries[o].deadline, s.entries[o].value)
  }

  /** How a call goes on once it is inside, with time `d` passing while it computes. */
  function Closing(s: Sys, t: Tid, compute: Option<int>, d: real): Sys {
    var s1 := Apply(Apply(s, Lookup(t)), Tick(d));
    match compute
    case None => Apply(s1, Raises(t))
    case Some(v) => Apply(Apply(s1, Returns(t, v)), Store(t))
  }

  /** Run alone, the interleaved protocol does to the table, and answers, what `Cache.Get`
      does, and leaves every lock free as it found it. */
  lemma SoloCallIsGet(s: Sys, t: Tid, org: Org, compute: Option<int>, d: real)
    requires PhaseOf(s.phases, t).Idle? && Free(s.lk, org) && d >= 0.0
    ensures var s' := Closing(Run(s, Opening(t, org)), t, compute, d);
            var (table, r) := AfterGet(TableOf(s), s.ttl, org, s.clock, compute, s.clock + d);
      && PhaseOf(s'.phases, t).Idle? && s'.lk.guard.None? && s'.lk.held == s.lk.held && TableOf(s') == table
      && |s'.answers| == |s.answers| + (if r.Some? then 1 else 0)
      && (r.Some? ==> s'.answers[|s.answers|].org == org && s'.answers[|s.answers|].value == r.value)
  {
    hide Closing, AfterGet, TableOf, Opening, Run, Apply;
    Opens(s, t, org);
    var s1 := Run(s, Opening(t, org));
    SameTable(s1, s);
    ClosesAsGet(s1, t, compute, d);
    Released(s.lk.held, OpenLock(s.lk, org), t);
  }

  lemma SameTable(a: Sys, b: Sys)
    requires a.entries == b.entries
    ensures TableOf(a) == TableOf(b)
  {
  }

  lemma Released(held: map<LockId, Tid>, lock: LockId, t: Tid)
    requires lock !in held
    ensures held[lock := t] - {lock} == held
  {
  }

  lemma ClosesAsGet(s: Sys, t: Tid, compute: Option<int>, d: real)
    requires t in s.phases && s.phases[t].Timed? && s.lk.guard.None? && d >= 0.0
    ensures var s' := Closing(s, t, compute, d); var ph := s.phases[t];
            var (table, r) := AfterGet(TableOf(s), s.ttl, ph.org, ph.now, compute, s.clock + d);
      && PhaseOf(s'.phases, t).Idle? && s'.lk.guard.None? && s'.lk.held == s.lk.held - {ph.lock}
      && TableOf(s') == table
      && |s'.answers| == |s.answers| + (if r.Some? then 1 else 0)
      && (r.Some? ==> s'.answers[|s.answers|].org == ph.org && s'.answers[|s.answers|].value == r.value)
  {
    if Hit(TableOf(s), s.phases[t].org, s.phases[t].now) {
      ClosesHit(s, t, compute, d);
    } else {
      ClosesMiss(s, t, compute, d);
    }
    hide Closing;
  }

  lemma ClosesHit(s: Sys, t: Tid, compute: Option<int>, d: real)
    requires t in s.phases && s.phases[t].Timed? && s.lk.guard.None? && d >= 0.0
    requires Hit(TableOf(s), s.phases[t].org, s.phases[t].now)
    ensures var r := Closing(s, t, compute, d); var ph := s.phases[t];
      && PhaseOf(r.phases, t).Idle? && r.lk.guard.None? && r.lk.held == s.lk.held - {ph.lock}
      && r.entries == s.entries && |r.answers| == |s.answers| + 1
      && r.answers[|s.answers|].org == ph.org && r.answers[|s.answers|].value == s.entries[ph.org].value
  {
    LookHits(s, t);
    var s1 := Apply(s, Lookup(t));
    assert PhaseOf(s1.phases, t).Idle?;
  }

  lemma ClosesMiss(s: Sys, t: Tid, compute: Option<int>, d: real)
    requires t in s.phases && s.phases[t].Timed? && s.lk.guard.None? && d >= 0.0
    requires !Hit(TableOf(s), s.phases[t].org, s.phases[t].now)
    ensures var r := Closing(s, t, compute, d); var ph := s.phases[t];
      && PhaseOf(r.phases, t).Idle? && r.lk.guard.None? && r.lk.held == s.lk.held - {ph.lock}
      && (compute.None? ==> r.entries == s.entries && r.answers == s.answers)
      && (compute.Some? ==>
            && TableOf(r) == TableOf(s)[ph.org := (s.clock + d + s.ttl, compute.value)]
            && |r.answers| == |s.answers| + 1
            && r.answers[|s.answers|].org == ph.org && r.answers[|s.answers|].value == compute.value)
  {
    var ph := s.phases[t];
    var s1 := Apply(Apply(s, Lookup(t)), Tick(d));
    assert s1.phases[t] == Computing(ph.org, ph.lock, ph.now, |s.starts|);
    assert s1.entries == s.entries && s1.answers == s.answers && s1.clock == s.clock + d && s1.lk == s.lk;
    hide Apply;
    MissEnds(s1, t, compute);
  }

  lemma MissEnds(s: Sys, t: Tid, compute: Option<int>)
    requires t in s.phases && s.phases[t].Computing? && s.lk.guard.None?
    ensures var ph := s.phases[t];
      var r := match compute
        case None => Apply(s, Raises(t))
        case Some(v) => Apply(Apply(s, Returns(t, v)), Store(t));
      && PhaseOf(r.phases, t).Idle? && r.lk.guard.None? && r.lk.held == s.lk.held - {ph.lock}
      && (compute.None? ==> r.entries == s.entries && r.answers == s.answers)
      && (compute.Some? ==>
            && TableOf(r) == TableOf(s)[ph.org := (s.clock + s.ttl, compute.value)]
            && |r.answers| == |s.answers| + 1
            && r.answers[|s.answers|].org == ph.org && r.answers[|s.answers|].value == compute.value)
  {
  }
}
