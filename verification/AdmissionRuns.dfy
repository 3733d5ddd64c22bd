/** Every interleaving of crawl admission, dispatch, cancel and delete
    (src/api/server.py).

    Handlers and dispatch tasks run on one event loop, which takes callbacks from a
    first-in first-out queue; crawls and password checks run on the threads of one
    bounded executor. A run is any sequence of steps from the empty server. A step that
    is not enabled changes nothing, so quantifying over all step sequences quantifies
    over all interleavings. Store failure is a step like any other.
 */
module AdmissionRuns {
  import opened Common
  import opened Admission
  import SeedUrl

  type EventId = nat

  /** Python crawls are handed their cancel event; Screaming Frog runs are not. */
  datatype Kind = Crawl | Frog(url: SeedUrl.Url)

  /** The Screaming Frog handler builds the tool's input after the reservation and
      before its `try`: on a normalised URL over the limit it dies right there. */
  predicate Doomed(kind: Kind) {
    kind.Frog? && SeedUrl.TooLong(kind.url)
  }

  /** An admission between reserve and rekey; `event` is the one it was given. */
  datatype Claimant = Claimant(facet: Facet, kind: Kind, event: EventId)

  /** `Queued`: the dispatch task waits for its first turn. `Pooled`: it asked for a
      thread. `Working`: the thread runs. `Returned`: it ended and the `finally` is due.
      `handed` is the event the thread watches, if it watches one. */
  datatype Stage =
    | Queued
    | Pooled(handed: Option<EventId>)
    | Working(handed: Option<EventId>)
    | Returned(handed: Option<EventId>)
    | Ended(handed: Option<EventId>)

  datatype Job = Job(facet: Facet, kind: Kind, event: EventId, stage: Stage)

  /** A delete signals only if the record it read said running. */
  datatype Verb = Cancel | Delete(running: bool)

  /** A cancel or delete request: it has read the record and asked for a password check,
      the check runs, its handler is due to go on, or it is over. */
  datatype Phase = Asked | Checking | Due | Over

  datatype Request = Request(job: Id, verb: Verb, phase: Phase)

  /** What the event loop has ready: a task's first turn, or a handler going on. */
  datatype Callback = Start(job: Id) | Resume(request: nat)

  /** What the handlers share. `claims` records who holds a slot, `bearer` for whose claim
      an event was made and `stranded` what dead handlers left behind; no step reads
      them to decide anything but the freshness of a uuid. */
  datatype Registry = Registry(
    slots: Slots<EventId>,
    nextEvent: EventId,
    claims: map<Id, Facet>,
    bearer: map<EventId, Id>,
    signalled: set<EventId>,
    admissions: map<Id, Claimant>,
    stranded: map<Id, Facet>)

  /** `live` counts the executor's busy threads. */
  datatype Sys = Sys(
    reg: Registry,
    jobs: map<Id, Job>,
    deleted: set<Id>,
    requests: map<nat, Request>,
    ready: seq<Callback>,
    live: nat)

  datatype Step =
    | Reserve(p: Id, f: Facet, kind: Kind)
    | Dies(p: Id)
    | CreateFails(p: Id)
    | CreateSucceeds(p: Id, id: Id)
    | Turn
    | TakeThread(j: Id)
    | ThreadEnds(j: Id)
    | Finish(j: Id)
    | Ask(r: nat, j: Id, verb: Verb)
    | TakeCheck(r: nat)
    | CheckEnds(r: nat, passed: bool)

  const EMPTY := Registry(Slots({}, map[], map[]), 0, map[], map[], {}, map[], map[])

  function Init(): Sys {
    Sys(EMPTY, map[], {}, map[], [], 0)
  }

  // ------------------------------------------------------------ the registry

  predicate Grants(cfg: Config, g: Registry, p: Id, f: Facet) {
    p.Pending? && p !in g.claims && Verdict(cfg, g.slots, f).Reserved?
  }

  function Admitted(g: Registry, p: Id, f: Facet, kind: Kind): Registry {
    g.(slots := Claimed(g.slots, p, f, g.nextEvent),
       nextEvent := g.nextEvent + 1,
       claims := g.claims[p := f],
       bearer := g.bearer[g.nextEvent := p],
       admissions := g.admissions[p := Claimant(f, kind, g.nextEvent)])
  }

  /** The handler dies and nothing it claimed is released. */
  function Died(g: Registry, p: Id): Registry
    requires p in g.admissions
  {
    g.(admissions := g.admissions - {p}, stranded := g.stranded[p := g.admissions[p].facet])
  }

  /** The store raised: the provisional claim is released and the request fails. */
  function Failed(g: Registry, p: Id): Registry
    requires p in g.admissions
  {
    g.(slots := Dropped(g.slots, p, g.admissions[p].facet),
       claims := g.claims - {p},
       admissions := g.admissions - {p})
  }

  /** The event `rekey` leaves under the stored id: the one it finds, else a new one. */
  function EventMoved(g: Registry, p: Id): EventId {
    if p in g.slots.flags then g.slots.flags[p] else g.nextEvent
  }

  function Rekeyed(g: Registry, p: Id, id: Id): Registry
    requires p in g.admissions
  {
    var f, e := g.admissions[p].facet, EventMoved(g, p);
    g.(slots := Moved(g.slots, p, id, f, e),
       nextEvent := g.nextEvent + 1,
       claims := (g.claims - {p})[id := f],
       bearer := g.bearer[e := id],
       admissions := g.admissions - {p})
  }

  /** `release`, naming the facet of the job's record. */
  function Freed(g: Registry, j: Id, f: Facet): Registry {
    g.(slots := Dropped(g.slots, j, f), claims := g.claims - {j})
  }

  function Signal(g: Registry, j: Id): Registry {
    g.(signalled := if j in g.slots.flags then g.signalled + {g.slots.flags[j]} else g.signalled)
  }

  // ------------------------------------------------------------ the steps

  function Stages(jobs: map<Id, Job>, j: Id, stage: Stage): map<Id, Job>
    requires j in jobs
  {
    jobs[j := jobs[j].(stage := stage)]
  }

  function Phases(requests: map<nat, Request>, r: nat, phase: Phase): map<nat, Request>
    requires r in requests
  {
    requests[r := requests[r].(phase := phase)]
  }

  predicate Creates(s: Sys, p: Id, id: Id) {
    p in s.reg.admissions && !Doomed(s.reg.admissions[p].kind) && id.Stored? && id !in s.jobs
  }

  /** The store minted a record: `rekey`, then the dispatch task, with nothing awaited
      from `create` on. */
  function DoCreate(s: Sys, p: Id, id: Id): Sys
    requires p in s.reg.admissions
  {
    var a := s.reg.admissions[p];
    s.(reg := Rekeyed(s.reg, p, id),
       jobs := s.jobs[id := Job(a.facet, a.kind, a.event, Queued)],
       ready := s.ready + [Start(id)])
  }

  /** `_dispatch` begins: it asks for the event, or makes one nobody else holds. */
  function DoStart(s: Sys, j: Id): Sys {
    if j !in s.jobs || !s.jobs[j].stage.Queued? then s
    else if s.jobs[j].kind.Frog? then s.(jobs := Stages(s.jobs, j, Pooled(None)))
    else
      s.(jobs := Stages(s.jobs, j, Pooled(Some(EventMoved(s.reg, j)))),
         reg := s.reg.(nextEvent := s.reg.nextEvent + 1))
  }

  /** Whether a request that goes on will look up the event, set it and release. */
  predicate Acts(verb: Verb) {
    verb.Cancel? || verb.running
  }

  /** The rest of `cancel_job` or `delete_job` after the password check: nothing is
      awaited from the event's lookup to the release. */
  function DoResume(s: Sys, r: nat): Sys {
    if r !in s.requests || !s.requests[r].phase.Due? || s.requests[r].job !in s.jobs then s
    else
      var j, verb := s.requests[r].job, s.requests[r].verb;
      s.(reg := if Acts(verb) then Freed(Signal(s.reg, j), j, s.jobs[j].facet) else s.reg,
         requests := Phases(s.requests, r, Over),
         deleted := if verb.Delete? then s.deleted + {j} else s.deleted)
  }

  /** The event loop runs what has been ready longest. */
  function DoTurn(s: Sys): Sys {
    if s.ready == [] then s
    else
      var rest := s.(ready := s.ready[1..]);
      match s.ready[0]
      case Start(j) => DoStart(rest, j)
      case Resume(r) => DoResume(rest, r)
  }

  function OneLess(n: nat): nat {
    if n == 0 then 0 else n - 1
  }

  /** A cancel or delete finds the record and asks for the password check. A record says
      running only once its thread has started. */
  predicate MayAsk(s: Sys, r: nat, j: Id, verb: Verb) {
    && r !in s.requests && j in s.jobs && j !in s.deleted
    && !(verb == Delete(true) && (s.jobs[j].stage.Queued? || s.jobs[j].stage.Pooled?))
  }

  function Apply(cfg: Config, s: Sys, step: Step): Sys {
    match step
    case Reserve(p, f, kind) =>
      if Grants(cfg, s.reg, p, f) then s.(reg := Admitted(s.reg, p, f, kind)) else s
    case Dies(p) =>
      if p in s.reg.admissions && Doomed(s.reg.admissions[p].kind) then s.(reg := Died(s.reg, p)) else s
    case CreateFails(p) =>
      if p in s.reg.admissions && !Doomed(s.reg.admissions[p].kind) then s.(reg := Failed(s.reg, p)) else s
    case CreateSucceeds(p, id) =>
      if Creates(s, p, id) then DoCreate(s, p, id) else s
    case Turn => DoTurn(s)
    case TakeThread(j) =>
      if j in s.jobs && s.jobs[j].stage.Pooled? && s.live < cfg.threads
      then s.(jobs := Stages(s.jobs, j, Working(s.jobs[j].stage.handed)), live := s.live + 1)
      else s
    case ThreadEnds(j) =>
      if j in s.jobs && s.jobs[j].stage.Working?
      then s.(jobs := Stages(s.jobs, j, Returned(s.jobs[j].stage.handed)), live := OneLess(s.live))
      else s
    // The `finally` of `_dispatch` or `_dispatch_sf_job`.
    case Finish(j) =>
      if j in s.jobs && s.jobs[j].stage.Returned?
      then s.(reg := Freed(s.reg, j, s.jobs[j].facet), jobs := Stages(s.jobs, j, Ended(s.jobs[j].stage.handed)))
      else s
    case Ask(r, j, verb) =>
      if MayAsk(s, r, j, verb) then s.(requests := s.requests[r := Request(j, verb, Asked)]) else s
    case TakeCheck(r) =>
      if r in s.requests && s.requests[r].phase.Asked? && s.live < cfg.threads
      then s.(requests := Phases(s.requests, r, Checking), live := s.live + 1)
      else s
    // Only once the check has ended does the handler join the queue again.
    case CheckEnds(r, passed) =>
      if r in s.requests && s.requests[r].phase.Checking?
      then s.(requests := Phases(s.requests, r, if passed then Due else Over), live := OneLess(s.live),
              ready := if passed then s.ready + [Resume(r)] else s.ready)
      else s
  }

  function Exec(cfg: Config, steps: seq<Step>): Sys {
    if steps == [] then Init()
    else Apply(cfg, Exec(cfg, steps[..|steps| - 1]), steps[|steps| - 1])
  }

  // ------------------------------------------------------------ the invariant

  /** The slots mean the claims, and no cap is exceeded. */
  ghost predicate Books(cfg: Config, g: Registry) {
    Represents(g.slots, g.claims) && WithinCaps(cfg, g.slots)
  }

  /** A provisional claim is held by an admission between reserve and rekey, or was by
      one whose handler died there; each under its facet. */
  ghost predicate Claimants(g: Registry) {
    && (forall id :: id in g.claims && id.Pending? ==>
          || (id in g.admissions && g.admissions[id].facet == g.claims[id])
          || (id in g.stranded && g.stranded[id] == g.claims[id]))
    && (forall p :: p in g.admissions ==> p.Pending? && p in g.claims && p !in g.stranded)
    && (forall p :: p in g.stranded ==> p.Pending? && p in g.claims)
  }

  /** Any other claim is held by a job whose dispatch has not finished, under its facet;
      until its first turn a job surely holds it. */
  ghost predicate Owners(claims: map<Id, Facet>, jobs: map<Id, Job>) {
    && (forall id :: id in claims && id.Stored? ==>
          id in jobs && !jobs[id].stage.Ended? && jobs[id].facet == claims[id])
    && (forall j :: j in jobs ==> j.Stored?)
    && (forall j :: j in jobs && jobs[j].stage.Queued? ==> j in claims)
  }

  /** Every claim has an event of its own from its reservation on, and keeps it. */
  ghost predicate Events(g: Registry) {
    && (forall e :: e in g.bearer ==> e < g.nextEvent)
    && (forall id :: id in g.slots.flags ==>
          g.slots.flags[id] in g.bearer && g.bearer[g.slots.flags[id]] == id)
    && (forall p :: p in g.admissions && p in g.slots.flags ==> g.slots.flags[p] == g.admissions[p].event)
    && (forall e :: e in g.signalled ==> e in g.bearer && g.bearer[e].Stored?)
  }

  ghost predicate JobEvents(g: Registry, jobs: map<Id, Job>) {
    && (forall j :: j in jobs ==> jobs[j].event in g.bearer && g.bearer[jobs[j].event] == j)
    && (forall j :: j in jobs && j in g.slots.flags ==> g.slots.flags[j] == jobs[j].event)
  }

  function HandedTo(jobs: map<Id, Job>, j: Id): Option<EventId>
    requires j in jobs
  {
    if jobs[j].stage.Queued? then None else jobs[j].stage.handed
  }

  /** A crawl whose dispatch began was handed its own event. */
  ghost predicate Handed(jobs: map<Id, Job>) {
    forall j :: j in jobs && !jobs[j].stage.Queued? ==>
      HandedTo(jobs, j) == if jobs[j].kind.Crawl? then Some(jobs[j].event) else None
  }

  /** The first turn of `j` is ready, before place `i`. */
  ghost predicate StartsBefore(ready: seq<Callback>, j: Id, i: nat) {
    exists k: nat :: k < i && k < |ready| && ready[k] == Start(j)
  }

  ghost predicate RequestsKnow(jobs: map<Id, Job>, requests: map<nat, Request>) {
    forall r :: r in requests ==> requests[r].job in jobs
  }

  /** No handler goes on about a job whose first turn is still behind it in the queue. */
  ghost predicate Ordered(jobs: map<Id, Job>, requests: map<nat, Request>, ready: seq<Callback>) {
    && (forall j :: j in jobs && jobs[j].stage.Queued? ==> StartsBefore(ready, j, |ready|))
    && (forall i: nat :: i < |ready| && ready[i].Resume? ==> InOrder(jobs, requests, ready, i))
  }

  ghost predicate InOrder(jobs: map<Id, Job>, requests: map<nat, Request>, ready: seq<Callback>, i: nat)
    requires i < |ready| && ready[i].Resume?
  {
    && ready[i].request in requests && requests[ready[i].request].job in jobs
    && (jobs[requests[ready[i].request].job].stage.Queued? ==>
          StartsBefore(ready, requests[ready[i].request].job, i))
  }

  /** The jobs whose worker thread is running. */
  function Threads(jobs: map<Id, Job>): set<Id> {
    set j | j in jobs && jobs[j].stage.Working?
  }

  function Checks(requests: map<nat, Request>): set<nat> {
    set r | r in requests && requests[r].phase.Checking?
  }

  ghost predicate Pool(cfg: Config, s: Sys) {
    s.live == |Threads(s.jobs)| + |Checks(s.requests)| && s.live <= cfg.threads
  }

  ghost predicate RegOk(cfg: Config, g: Registry) {
    Books(cfg, g) && Claimants(g) && Events(g)
  }

  ghost predicate Inv(cfg: Config, s: Sys) {
    && RegOk(cfg, s.reg) && Owners(s.reg.claims, s.jobs) && JobEvents(s.reg, s.jobs) && Handed(s.jobs)
    && RequestsKnow(s.jobs, s.requests) && Ordered(s.jobs, s.requests, s.ready) && Pool(cfg, s)
  }

  // ------------------------------------------------------------ the registry keeps it

  lemma FlagsAreClaims(cfg: Config, g: Registry)
    requires Books(cfg, g)
    ensures g.slots.flags.Keys == g.claims.Keys && g.slots.active == g.claims.Keys
  {
    hide WithinCaps;
  }

  lemma ReservedBooks(cfg: Config, g: Registry, p: Id, f: Facet, kind: Kind)
    requires Books(cfg, g) && Grants(cfg, g, p, f)
    ensures Books(cfg, Admitted(g, p, f, kind))
  {
    hide Represents, WithinCaps, Verdict, Claimed;
    ClaimRepresents(g.slots, g.claims, p, f, g.nextEvent);
    ClaimWithinCaps(cfg, g.slots, p, f, g.nextEvent);
  }

  lemma ReservedClaimants(g: Registry, p: Id, f: Facet, kind: Kind)
    requires Claimants(g) && p.Pending? && p !in g.claims
    ensures Claimants(Admitted(g, p, f, kind))
  {
    hide Claimed;
  }

  lemma ReservedEvents(g: Registry, p: Id, f: Facet, kind: Kind)
    requires Events(g) && p !in g.slots.flags
    ensures Events(Admitted(g, p, f, kind))
  {
    assert Admitted(g, p, f, kind).slots.flags == g.slots.flags[p := g.nextEvent];
    hide Claimed;
  }

  lemma ReservedKeeps(cfg: Config, g: Registry, p: Id, f: Facet, kind: Kind)
    requires RegOk(cfg, g) && Grants(cfg, g, p, f)
    ensures RegOk(cfg, Admitted(g, p, f, kind))
  {
    FlagsAreClaims(cfg, g);
    hide Books, Verdict, Claimants, Events, Admitted;
    ReservedBooks(cfg, g, p, f, kind);
    ReservedClaimants(g, p, f, kind);
    ReservedEvents(g, p, f, kind);
  }

  lemma DiedKeeps(cfg: Config, g: Registry, p: Id)
    requires RegOk(cfg, g) && p in g.admissions
    ensures RegOk(cfg, Died(g, p))
  {
    hide Represents, WithinCaps;
  }

  lemma DroppedBooks(cfg: Config, g: Registry, h: Registry, id: Id, f: Facet)
    requires Books(cfg, g) && (id in g.claims ==> g.claims[id] == f)
    requires h.slots == Dropped(g.slots, id, f) && h.claims == g.claims - {id}
    ensures Books(cfg, h)
    ensures id !in g.claims ==> h.slots == g.slots && h.claims == g.claims
  {
    hide Represents, WithinCaps, Dropped;
    DropRepresents(g.slots, g.claims, id, f);
    DropWithinCaps(cfg, g.slots, id, f);
    assert id !in g.claims ==> g.claims - {id} == g.claims;
  }

  lemma DroppedEvents(g: Registry, h: Registry, id: Id, f: Facet)
    requires Events(g) && h.slots == Dropped(g.slots, id, f)
    requires h.nextEvent == g.nextEvent && h.bearer == g.bearer && h.signalled == g.signalled
    requires forall p :: p in h.admissions ==> p in g.admissions && h.admissions[p] == g.admissions[p]
    ensures Events(h)
  {
    assert h.slots.flags == g.slots.flags - {id};
    hide Dropped;
  }

  lemma FailedClaimants(g: Registry, p: Id)
    requires Claimants(g) && p in g.admissions
    ensures Claimants(Failed(g, p))
  {
    hide Dropped;
  }

  lemma FailedKeeps(cfg: Config, g: Registry, p: Id)
    requires RegOk(cfg, g) && p in g.admissions
    ensures RegOk(cfg, Failed(g, p))
  {
    assert p in g.claims && g.claims[p] == g.admissions[p].facet;
    hide Books, Claimants, Events, Dropped;
    DroppedBooks(cfg, g, Failed(g, p), p, g.admissions[p].facet);
    DroppedEvents(g, Failed(g, p), p, g.admissions[p].facet);
    FailedClaimants(g, p);
  }

  lemma RekeyedBooks(cfg: Config, g: Registry, p: Id, id: Id)
    requires Books(cfg, g) && Claimants(g) && p in g.admissions && id !in g.claims
    ensures Books(cfg, Rekeyed(g, p, id))
  {
    var f, e := g.admissions[p].facet, EventMoved(g, p);
    assert p in g.claims && g.claims[p] == f;
    hide Represents, WithinCaps, Claimants, Moved;
    MoveRepresents(g.slots, g.claims, p, id, f, e);
    MoveWithinCaps(cfg, g.slots, g.claims, p, id, f, e);
  }

  /** A rekey meets what it relies on: the provisional id holds its claim and event, and
      the event stays with the claim. */
  lemma RekeyedKeeps(cfg: Config, g: Registry, p: Id, id: Id)
    requires RegOk(cfg, g) && p in g.admissions && id.Stored? && id !in g.claims
    ensures p in g.slots.flags && g.slots.flags[p] == g.admissions[p].event && id !in g.slots.active
    ensures EventMoved(g, p) == g.admissions[p].event
    ensures RegOk(cfg, Rekeyed(g, p, id))
  {
    FlagsAreClaims(cfg, g);
    RekeyedBooks(cfg, g, p, id);
    hide Books;
    assert g.bearer[g.slots.flags[p]] == p && p.Pending?;
    RekeyedClaimants(g, p, id);
    RekeyedEvents(g, p, id);
    hide Rekeyed, Claimants;
  }

  lemma RekeyedClaimants(g: Registry, p: Id, id: Id)
    requires Claimants(g) && p in g.admissions && id.Stored?
    ensures Claimants(Rekeyed(g, p, id))
  {
    hide Moved;
  }

  lemma RekeyedEvents(g: Registry, p: Id, id: Id)
    requires Events(g) && p in g.admissions && p in g.slots.flags && p.Pending? && id.Stored?
    requires forall q :: q in g.admissions ==> q.Pending?
    ensures Events(Rekeyed(g, p, id))
  {
    var e := g.slots.flags[p];
    assert Rekeyed(g, p, id).slots.flags == (g.slots.flags - {p})[id := e];
    assert g.bearer[e] == p;
    hide Moved;
  }

  lemma FreedClaimants(g: Registry, j: Id, f: Facet)
    requires Claimants(g) && j.Stored?
    ensures Claimants(Freed(g, j, f))
  {
    hide Dropped;
  }

  lemma FreedKeeps(cfg: Config, g: Registry, j: Id, f: Facet)
    requires RegOk(cfg, g) && j.Stored? && (j in g.claims ==> g.claims[j] == f)
    ensures RegOk(cfg, Freed(g, j, f))
    ensures j !in g.claims ==> Freed(g, j, f) == g
  {
    hide Books, Claimants, Events, Dropped;
    DroppedBooks(cfg, g, Freed(g, j, f), j, f);
    DroppedEvents(g, Freed(g, j, f), j, f);
    FreedClaimants(g, j, f);
  }

  lemma SignalKeeps(cfg: Config, g: Registry, j: Id)
    requires RegOk(cfg, g) && j.Stored?
    ensures RegOk(cfg, Signal(g, j))
  {
    hide Represents, WithinCaps;
  }

  // ------------------------------------------------------------ the jobs keep it

  lemma StartOwners(claims: map<Id, Facet>, jobs: map<Id, Job>, j: Id, stage: Stage)
    requires Owners(claims, jobs) && j in jobs && !stage.Queued?
    requires stage.Ended? ==> j !in claims
    ensures Owners(claims, Stages(jobs, j, stage))
  {
  }

  lemma CreatedOwners(claims: map<Id, Facet>, jobs: map<Id, Job>, p: Id, id: Id, job: Job)
    requires Owners(claims, jobs) && p.Pending? && id.Stored? && !job.stage.Ended?
    ensures Owners((claims - {p})[id := job.facet], jobs[id := job])
  {
  }

  lemma FreedOwners(claims: map<Id, Facet>, jobs: map<Id, Job>, j: Id)
    requires Owners(claims, jobs) && j in jobs && !jobs[j].stage.Queued?
    ensures Owners(claims - {j}, jobs)
  {
  }

  /** Claims of admissions do not concern the jobs. */
  lemma PendingOwners(claims: map<Id, Facet>, claims': map<Id, Facet>, jobs: map<Id, Job>)
    requires Owners(claims, jobs)
    requires forall id: Id :: id.Stored? ==> (id in claims <==> id in claims')
    requires forall id: Id :: id.Stored? && id in claims ==> claims[id] == claims'[id]
    ensures Owners(claims', jobs)
  {
  }

  lemma StagesEvents(g: Registry, jobs: map<Id, Job>, j: Id, stage: Stage)
    requires JobEvents(g, jobs) && j in jobs
    ensures JobEvents(g, Stages(jobs, j, stage))
  {
  }

  /** Events of jobs outlive what happens to admissions and slots. */
  lemma RegJobEvents(g: Registry, h: Registry, jobs: map<Id, Job>)
    requires JobEvents(g, jobs)
    requires forall j :: j in jobs && jobs[j].event in g.bearer ==>
      jobs[j].event in h.bearer && h.bearer[jobs[j].event] == g.bearer[jobs[j].event]
    requires forall j :: j in jobs && j in h.slots.flags ==>
      j in g.slots.flags && h.slots.flags[j] == g.slots.flags[j]
    ensures JobEvents(h, jobs)
  {
  }

  lemma StagesHanded(jobs: map<Id, Job>, j: Id, stage: Stage)
    requires Handed(jobs) && j in jobs && !stage.Queued?
    requires stage.handed == if jobs[j].kind.Crawl? then Some(jobs[j].event) else None
    ensures Handed(Stages(jobs, j, stage))
  {
  }

  // ------------------------------------------------------------ the queue keeps its order

  lemma StartsStay(ready: seq<Callback>, more: seq<Callback>, j: Id, i: nat)
    requires StartsBefore(ready, j, i)
    ensures StartsBefore(ready + more, j, i) && StartsBefore(ready + more, j, |ready + more|)
  {
    var k: nat :| k < i && k < |ready| && ready[k] == Start(j);
    assert (ready + more)[k] == Start(j);
  }

  lemma StartsShift(ready: seq<Callback>, j: Id, i: nat)
    requires ready != [] && i > 0 && StartsBefore(ready, j, i) && ready[0] != Start(j)
    ensures StartsBefore(ready[1..], j, i - 1)
  {
    var k: nat :| k < i && k < |ready| && ready[k] == Start(j);
    assert ready[1..][k - 1] == Start(j);
  }

  lemma StagesOrder(jobs: map<Id, Job>, requests: map<nat, Request>, ready: seq<Callback>, j: Id, stage: Stage)
    requires Ordered(jobs, requests, ready) && j in jobs && !stage.Queued?
    ensures Ordered(Stages(jobs, j, stage), requests, ready)
  {
    hide StartsBefore;
    forall i: nat | i < |ready| && ready[i].Resume? ensures InOrder(Stages(jobs, j, stage), requests, ready, i) {
      assert InOrder(jobs, requests, ready, i);
    }
  }

  lemma RequestOrder(jobs: map<Id, Job>, requests: map<nat, Request>, more: map<nat, Request>, ready: seq<Callback>)
    requires Ordered(jobs, requests, ready)
    requires forall r :: r in requests ==> r in more && more[r].job == requests[r].job
    ensures Ordered(jobs, more, ready)
  {
    hide StartsBefore;
    forall i: nat | i < |ready| && ready[i].Resume? ensures InOrder(jobs, more, ready, i) {
      assert InOrder(jobs, requests, ready, i);
    }
  }

  /** A new job's first turn joins the end of the queue with it. */
  lemma CreateOrder(jobs: map<Id, Job>, requests: map<nat, Request>, ready: seq<Callback>, id: Id, job: Job)
    requires Ordered(jobs, requests, ready) && RequestsKnow(jobs, requests) && id !in jobs
    ensures Ordered(jobs[id := job], requests, ready + [Start(id)])
  {
    var after, queue := jobs[id := job], ready + [Start(id)];
    assert queue[|ready|] == Start(id);
    assert StartsBefore(queue, id, |queue|);
    hide StartsBefore;
    forall j | j in after && after[j].stage.Queued? ensures StartsBefore(queue, j, |queue|) {
      if j != id {
        StartsStay(ready, [Start(id)], j, |ready|);
      }
    }
    forall i: nat | i < |queue| && queue[i].Resume? ensures InOrder(after, requests, queue, i) {
      assert queue[i] == ready[i] && InOrder(jobs, requests, ready, i);
      var j := requests[ready[i].request].job;
      if jobs[j].stage.Queued? {
        StartsStay(ready, [Start(id)], j, i);
      }
    }
  }

  /** A handler that goes on joins the end of the queue: behind the first turn of any job
      it can know. */
  lemma ResumeOrder(jobs: map<Id, Job>, requests: map<nat, Request>, ready: seq<Callback>, r: nat)
    requires Ordered(jobs, requests, ready) && RequestsKnow(jobs, requests) && r in requests
    ensures Ordered(jobs, requests, ready + [Resume(r)])
  {
    var queue := ready + [Resume(r)];
    forall j | j in jobs && jobs[j].stage.Queued?
      ensures StartsBefore(queue, j, |queue|) && StartsBefore(queue, j, |ready|)
    {
      StartsStay(ready, [Resume(r)], j, |ready|);
    }
    hide StartsBefore;
    forall i: nat | i < |queue| && queue[i].Resume? ensures InOrder(jobs, requests, queue, i) {
      if i < |ready| {
        assert queue[i] == ready[i] && InOrder(jobs, requests, ready, i);
        var j := requests[ready[i].request].job;
        if jobs[j].stage.Queued? {
          StartsStay(ready, [Resume(r)], j, i);
        }
      }
    }
  }

  /** Taking the first callback leaves the others in order, once its job is past its
      first turn. */
  lemma PopOrder(jobs: map<Id, Job>, requests: map<nat, Request>, ready: seq<Callback>)
    requires Ordered(jobs, requests, ready) && ready != []
    requires ready[0].Start? && ready[0].job in jobs ==> !jobs[ready[0].job].stage.Queued?
    ensures Ordered(jobs, requests, ready[1..])
  {
    hide StartsBefore;
    forall j | j in jobs && jobs[j].stage.Queued? ensures StartsBefore(ready[1..], j, |ready[1..]|) {
      StartsShift(ready, j, |ready|);
    }
    forall i: nat | i < |ready[1..]| && ready[1..][i].Resume? ensures InOrder(jobs, requests, ready[1..], i) {
      assert ready[1..][i] == ready[i + 1] && InOrder(jobs, requests, ready, i + 1);
      var j := requests[ready[i + 1].request].job;
      if jobs[j].stage.Queued? {
        StartsShift(ready, j, i + 1);
      }
    }
  }

  /** So whatever handler goes on first, its job's dispatch has begun. */
  lemma HeadHasBegun(jobs: map<Id, Job>, requests: map<nat, Request>, ready: seq<Callback>)
    requires Ordered(jobs, requests, ready) && ready != [] && ready[0].Resume?
    ensures var r := ready[0].request;
      r in requests && requests[r].job in jobs && !jobs[requests[r].job].stage.Queued?
  {
    assert InOrder(jobs, requests, ready, 0);
  }

  // ------------------------------------------------------------ the pool keeps count

  lemma StagesThreads(jobs: map<Id, Job>, j: Id, stage: Stage)
    requires j in jobs
    ensures Threads(Stages(jobs, j, stage)) == if stage.Working? then Threads(jobs) + {j} else Threads(jobs) - {j}
  {
  }

  lemma PhasesChecks(requests: map<nat, Request>, r: nat, phase: Phase)
    requires r in requests
    ensures Checks(Phases(requests, r, phase))
         == if phase.Checking? then Checks(requests) + {r} else Checks(requests) - {r}
  {
  }

  // ------------------------------------------------------------ every step keeps it

  lemma ReservedJobs(g: Registry, jobs: map<Id, Job>, p: Id, f: Facet, kind: Kind)
    requires Owners(g.claims, jobs) && JobEvents(g, jobs) && Events(g) && p.Pending?
    ensures Owners(Admitted(g, p, f, kind).claims, jobs) && JobEvents(Admitted(g, p, f, kind), jobs)
  {
    var h := Admitted(g, p, f, kind);
    assert h.slots.flags == g.slots.flags[p := g.nextEvent];
    assert h.claims == g.claims[p := f] && h.bearer == g.bearer[g.nextEvent := p];
    PendingOwners(g.claims, h.claims, jobs);
    assert forall j :: j in jobs ==> j.Stored?;
    hide Owners, Admitted, Claimed;
    RegJobEvents(g, h, jobs);
  }

  lemma ReserveStep(cfg: Config, s: Sys, p: Id, f: Facet, kind: Kind)
    requires Inv(cfg, s) && Grants(cfg, s.reg, p, f)
    ensures Inv(cfg, s.(reg := Admitted(s.reg, p, f, kind)))
  {
    hide Books, Claimants, Events, Owners, JobEvents, Handed, RequestsKnow, Ordered, Threads, Checks, Verdict, Admitted;
    ReservedJobs(s.reg, s.jobs, p, f, kind);
    ReservedKeeps(cfg, s.reg, p, f, kind);
  }

  lemma DiesStep(cfg: Config, s: Sys, p: Id)
    requires Inv(cfg, s) && p in s.reg.admissions
    ensures Inv(cfg, s.(reg := Died(s.reg, p)))
  {
    DiedKeeps(cfg, s.reg, p);
    RegJobEvents(s.reg, Died(s.reg, p), s.jobs);
    hide RegOk, Owners, JobEvents, Handed, RequestsKnow, Ordered;
  }

  lemma FailsStep(cfg: Config, s: Sys, p: Id)
    requires Inv(cfg, s) && p in s.reg.admissions
    ensures Inv(cfg, s.(reg := Failed(s.reg, p)))
  {
    hide RegOk, Owners, JobEvents, Handed, RequestsKnow, Ordered, Threads, Checks, Dropped;
    AdmissionFacts(cfg, s.reg, p);
    FailedKeeps(cfg, s.reg, p);
    PendingOwners(s.reg.claims, s.reg.claims - {p}, s.jobs);
    FreedJobEvents(s.reg, s.jobs, p, s.reg.admissions[p].facet);
    SameJobEvents(Freed(s.reg, p, s.reg.admissions[p].facet), Failed(s.reg, p), s.jobs);
  }

  lemma SameJobEvents(g: Registry, h: Registry, jobs: map<Id, Job>)
    requires JobEvents(g, jobs) && h.slots.flags == g.slots.flags && h.bearer == g.bearer
    ensures JobEvents(h, jobs)
  {
  }

  lemma CreateJobEvents(g: Registry, jobs: map<Id, Job>, p: Id, id: Id, job: Job)
    requires JobEvents(g, jobs) && p in g.admissions && p in g.slots.flags && p.Pending?
    requires g.slots.flags[p] == job.event && job.event in g.bearer && g.bearer[job.event] == p
    requires forall j :: j in jobs ==> j.Stored?
    requires id !in jobs
    ensures JobEvents(Rekeyed(g, p, id), jobs[id := job])
  {
    assert Rekeyed(g, p, id).slots.flags == (g.slots.flags - {p})[id := job.event];
    hide Moved;
  }

  lemma JobFacts(claims: map<Id, Facet>, jobs: map<Id, Job>, j: Id)
    requires Owners(claims, jobs) && j in jobs
    ensures j.Stored? && (j in claims ==> claims[j] == jobs[j].facet)
  {
  }

  lemma NewJobFacts(claims: map<Id, Facet>, jobs: map<Id, Job>, id: Id)
    requires Owners(claims, jobs) && id.Stored? && id !in jobs
    ensures id !in claims && forall j :: j in jobs ==> j.Stored?
  {
  }

  lemma AdmissionFacts(cfg: Config, g: Registry, p: Id)
    requires RegOk(cfg, g) && p in g.admissions
    ensures p.Pending? && g.admissions[p].event in g.bearer && g.bearer[g.admissions[p].event] == p
  {
    FlagsAreClaims(cfg, g);
    hide Books;
  }

  lemma CreatedRest(jobs: map<Id, Job>, requests: map<nat, Request>, id: Id, job: Job)
    requires Handed(jobs) && RequestsKnow(jobs, requests) && id !in jobs && job.stage.Queued?
    ensures Handed(jobs[id := job]) && RequestsKnow(jobs[id := job], requests)
    ensures Threads(jobs[id := job]) == Threads(jobs)
  {
  }

  lemma CreateStep(cfg: Config, s: Sys, p: Id, id: Id)
    requires Inv(cfg, s) && Creates(s, p, id)
    ensures Inv(cfg, DoCreate(s, p, id))
  {
    var a := s.reg.admissions[p];
    var job := Job(a.facet, a.kind, a.event, Queued);
    hide RegOk, Handed, RequestsKnow, Ordered, Threads, Checks, Doomed, Owners, JobEvents, Rekeyed;
    AdmissionFacts(cfg, s.reg, p);
    NewJobFacts(s.reg.claims, s.jobs, id);
    RekeyedKeeps(cfg, s.reg, p, id);
    CreateJobEvents(s.reg, s.jobs, p, id, job);
    CreatedOwners(s.reg.claims, s.jobs, p, id, job);
    CreateOrder(s.jobs, s.requests, s.ready, id, job);
    CreatedRest(s.jobs, s.requests, id, job);
    RekeyedClaims(s.reg, p, id);
  }

  lemma RekeyedClaims(g: Registry, p: Id, id: Id)
    requires p in g.admissions
    ensures Rekeyed(g, p, id).claims == (g.claims - {p})[id := g.admissions[p].facet]
  {
    hide Moved;
  }

  lemma NextEventKeeps(cfg: Config, g: Registry, jobs: map<Id, Job>)
    requires RegOk(cfg, g) && JobEvents(g, jobs)
    ensures RegOk(cfg, g.(nextEvent := g.nextEvent + 1)) && JobEvents(g.(nextEvent := g.nextEvent + 1), jobs)
  {
    hide Represents, WithinCaps;
  }

  /** A job that waits for its first turn still holds its slot, so the event its dispatch
      finds is its own. */
  lemma FindsOwnEvent(cfg: Config, g: Registry, jobs: map<Id, Job>, j: Id)
    requires RegOk(cfg, g) && Owners(g.claims, jobs) && JobEvents(g, jobs)
    requires j in jobs && jobs[j].stage.Queued?
    ensures EventMoved(g, j) == jobs[j].event
  {
    FlagsAreClaims(cfg, g);
    hide Books, Claimants, Events;
  }

  lemma StartStep(cfg: Config, s: Sys, j: Id)
    requires RegOk(cfg, s.reg) && Owners(s.reg.claims, s.jobs) && JobEvents(s.reg, s.jobs) && Handed(s.jobs)
    ensures var t := DoStart(s, j);
      RegOk(cfg, t.reg) && Owners(t.reg.claims, t.jobs) && JobEvents(t.reg, t.jobs) && Handed(t.jobs)
  {
    hide RegOk, Owners, JobEvents, Handed;
    if j in s.jobs && s.jobs[j].stage.Queued? {
      FindsOwnEvent(cfg, s.reg, s.jobs, j);
      NextEventKeeps(cfg, s.reg, s.jobs);
      var handed := if s.jobs[j].kind.Frog? then None else Some(EventMoved(s.reg, j));
      StartOwners(s.reg.claims, s.jobs, j, Pooled(handed));
      StagesHanded(s.jobs, j, Pooled(handed));
      StagesEvents(s.reg, s.jobs, j, Pooled(handed));
      StagesEvents(s.reg.(nextEvent := s.reg.nextEvent + 1), s.jobs, j, Pooled(handed));
    }
  }

  lemma FreedJobEvents(g: Registry, jobs: map<Id, Job>, j: Id, f: Facet)
    requires JobEvents(g, jobs)
    ensures JobEvents(Freed(g, j, f), jobs) && JobEvents(Freed(Signal(g, j), j, f), jobs)
  {
    assert Freed(g, j, f).slots.flags == g.slots.flags - {j};
    hide Dropped;
  }

  lemma FreedReg(cfg: Config, g: Registry, jobs: map<Id, Job>, j: Id)
    requires RegOk(cfg, g) && Owners(g.claims, jobs) && JobEvents(g, jobs)
    requires j in jobs && !jobs[j].stage.Queued?
    ensures var h := Freed(g, j, jobs[j].facet);
      RegOk(cfg, h) && Owners(h.claims, jobs) && JobEvents(h, jobs) && j !in h.claims
  {
    hide RegOk, Owners, JobEvents, Dropped;
    JobFacts(g.claims, jobs, j);
    FreedKeeps(cfg, g, j, jobs[j].facet);
    FreedOwners(g.claims, jobs, j);
    FreedJobEvents(g, jobs, j, jobs[j].facet);
  }

  lemma SignalReg(cfg: Config, g: Registry, jobs: map<Id, Job>, j: Id)
    requires RegOk(cfg, g) && Owners(g.claims, jobs) && JobEvents(g, jobs) && j in jobs
    ensures RegOk(cfg, Signal(g, j)) && Owners(Signal(g, j).claims, jobs) && JobEvents(Signal(g, j), jobs)
  {
    hide RegOk, Owners, JobEvents;
    JobFacts(g.claims, jobs, j);
    SignalKeeps(cfg, g, j);
    SameJobEvents(g, Signal(g, j), jobs);
  }

  lemma ResumeStep(cfg: Config, s: Sys, r: nat)
    requires RegOk(cfg, s.reg) && Owners(s.reg.claims, s.jobs) && JobEvents(s.reg, s.jobs)
    requires r in s.requests && s.requests[r].job in s.jobs && !s.jobs[s.requests[r].job].stage.Queued?
    ensures var t := DoResume(s, r);
      RegOk(cfg, t.reg) && Owners(t.reg.claims, t.jobs) && JobEvents(t.reg, t.jobs) && t.jobs == s.jobs
  {
    hide RegOk, Owners, JobEvents, Freed, Signal;
    var j := s.requests[r].job;
    SignalReg(cfg, s.reg, s.jobs, j);
    FreedReg(cfg, Signal(s.reg, j), s.jobs, j);
  }

  lemma StartQueue(s: Sys, j: Id)
    requires Ordered(s.jobs, s.requests, s.ready) && RequestsKnow(s.jobs, s.requests)
    requires s.ready != [] && s.ready[0] == Start(j)
    ensures var t := DoStart(s.(ready := s.ready[1..]), j);
      && Ordered(t.jobs, t.requests, t.ready) && RequestsKnow(t.jobs, t.requests)
      && Threads(t.jobs) == Threads(s.jobs) && t.requests == s.requests && t.live == s.live
  {
    var t := DoStart(s.(ready := s.ready[1..]), j);
    if j in s.jobs && s.jobs[j].stage.Queued? {
      var stage := t.jobs[j].stage;
      assert t.jobs == Stages(s.jobs, j, stage);
      StagesOrder(s.jobs, s.requests, s.ready, j, stage);
      StagesThreads(s.jobs, j, stage);
      assert RequestsKnow(t.jobs, s.requests);
    }
    hide Ordered, RequestsKnow, Threads;
    PopOrder(t.jobs, s.requests, s.ready);
  }

  lemma ResumeQueue(s: Sys, r: nat)
    requires Ordered(s.jobs, s.requests, s.ready) && RequestsKnow(s.jobs, s.requests)
    requires s.ready != [] && s.ready[0] == Resume(r)
    ensures var t := DoResume(s.(ready := s.ready[1..]), r);
      && Ordered(t.jobs, t.requests, t.ready) && RequestsKnow(t.jobs, t.requests)
      && t.jobs == s.jobs && Checks(t.requests) == Checks(s.requests) && t.live == s.live
      && t.ready == s.ready[1..]
  {
    PopOrder(s.jobs, s.requests, s.ready);
    if r in s.requests {
      var after := Phases(s.requests, r, Over);
      PhasesChecks(s.requests, r, Over);
      assert s.requests[r].phase.Due? ==> r !in Checks(s.requests);
      assert RequestsKnow(s.jobs, after);
      hide Ordered, RequestsKnow, Checks, Freed, Signal;
      RequestOrder(s.jobs, s.requests, after, s.ready[1..]);
    }
  }

  lemma TurnStep(cfg: Config, s: Sys)
    requires Inv(cfg, s)
    ensures Inv(cfg, DoTurn(s))
  {
    hide RegOk, Owners, JobEvents, Handed, RequestsKnow, Ordered, Threads, Checks, DoStart, DoResume;
    if s.ready != [] {
      var rest := s.(ready := s.ready[1..]);
      match s.ready[0]
      case Start(j) =>
        StartStep(cfg, rest, j);
        StartQueue(s, j);
      case Resume(r) =>
        HeadHasBegun(s.jobs, s.requests, s.ready);
        ResumeStep(cfg, rest, r);
        ResumeQueue(s, r);
    }
  }

  lemma StageStep(cfg: Config, s: Sys, j: Id, stage: Stage, live: nat)
    requires Inv(cfg, s) && j in s.jobs && (stage.Working? || stage.Returned?)
    requires !s.jobs[j].stage.Queued? && stage.handed == s.jobs[j].stage.handed
    requires live == |Threads(Stages(s.jobs, j, stage))| + |Checks(s.requests)| && live <= cfg.threads
    ensures Inv(cfg, s.(jobs := Stages(s.jobs, j, stage), live := live))
  {
    StartOwners(s.reg.claims, s.jobs, j, stage);
    StagesEvents(s.reg, s.jobs, j, stage);
    StagesHanded(s.jobs, j, stage);
    StagesOrder(s.jobs, s.requests, s.ready, j, stage);
    assert RequestsKnow(Stages(s.jobs, j, stage), s.requests);
    hide RegOk, Owners, JobEvents, Handed, RequestsKnow, Ordered, Threads, Checks, Stages;
  }

  lemma FinishStep(cfg: Config, s: Sys, j: Id)
    requires Inv(cfg, s) && j in s.jobs && s.jobs[j].stage.Returned?
    ensures Inv(cfg, s.(reg := Freed(s.reg, j, s.jobs[j].facet),
                        jobs := Stages(s.jobs, j, Ended(s.jobs[j].stage.handed))))
  {
    var f, stage := s.jobs[j].facet, Ended(s.jobs[j].stage.handed);
    assert s.jobs[j].stage.handed == if s.jobs[j].kind.Crawl? then Some(s.jobs[j].event) else None;
    assert RequestsKnow(Stages(s.jobs, j, stage), s.requests);
    hide RegOk, Owners, JobEvents, Handed, RequestsKnow, Ordered, Checks, Stages, Freed;
    FreedReg(cfg, s.reg, s.jobs, j);
    StartOwners(Freed(s.reg, j, f).claims, s.jobs, j, stage);
    StagesEvents(Freed(s.reg, j, f), s.jobs, j, stage);
    StagesHanded(s.jobs, j, stage);
    StagesOrder(s.jobs, s.requests, s.ready, j, stage);
    StagesThreads(s.jobs, j, stage);
    assert j !in Threads(s.jobs);
    hide Threads;
    assert Threads(s.jobs) - {j} == Threads(s.jobs);
  }

  lemma AskStep(cfg: Config, s: Sys, r: nat, j: Id, verb: Verb)
    requires Inv(cfg, s) && MayAsk(s, r, j, verb)
    ensures Inv(cfg, s.(requests := s.requests[r := Request(j, verb, Asked)]))
  {
    var more := s.requests[r := Request(j, verb, Asked)];
    RequestOrder(s.jobs, s.requests, more, s.ready);
    assert Checks(more) == Checks(s.requests);
    assert RequestsKnow(s.jobs, more);
    hide RegOk, Owners, JobEvents, Handed, Ordered, Threads, Checks, RequestsKnow;
  }

  lemma TakeCheckStep(cfg: Config, s: Sys, r: nat)
    requires Inv(cfg, s) && r in s.requests && s.requests[r].phase.Asked? && s.live < cfg.threads
    ensures Inv(cfg, s.(requests := Phases(s.requests, r, Checking), live := s.live + 1))
  {
    var more := Phases(s.requests, r, Checking);
    RequestOrder(s.jobs, s.requests, more, s.ready);
    PhasesChecks(s.requests, r, Checking);
    assert r !in Checks(s.requests);
    assert RequestsKnow(s.jobs, more);
    hide RegOk, Owners, JobEvents, Handed, Ordered, Threads, Checks, RequestsKnow, Phases;
  }

  lemma CheckEndsStep(cfg: Config, s: Sys, r: nat, passed: bool)
    requires Inv(cfg, s) && r in s.requests && s.requests[r].phase.Checking?
    ensures Inv(cfg, s.(requests := Phases(s.requests, r, if passed then Due else Over), live := OneLess(s.live),
                        ready := if passed then s.ready + [Resume(r)] else s.ready))
  {
    var more := Phases(s.requests, r, if passed then Due else Over);
    PhasesChecks(s.requests, r, if passed then Due else Over);
    assert r in Checks(s.requests);
    assert RequestsKnow(s.jobs, more);
    hide RegOk, Owners, JobEvents, Handed, Ordered, Threads, Checks, RequestsKnow, Phases;
    RequestOrder(s.jobs, s.requests, more, s.ready);
    ResumeOrder(s.jobs, more, s.ready, r);
    assert |Checks(s.requests)| == |Checks(s.requests) - {r}| + 1;
  }

  lemma ThreadStep(cfg: Config, s: Sys, j: Id)
    requires Inv(cfg, s)
    ensures Inv(cfg, Apply(cfg, s, TakeThread(j))) && Inv(cfg, Apply(cfg, s, ThreadEnds(j)))
  {
    if j in s.jobs && s.jobs[j].stage.Pooled? && s.live < cfg.threads {
      var stage := Working(s.jobs[j].stage.handed);
      StagesThreads(s.jobs, j, stage);
      assert j !in Threads(s.jobs);
      StageStep(cfg, s, j, stage, s.live + 1);
    }
    if j in s.jobs && s.jobs[j].stage.Working? {
      var stage := Returned(s.jobs[j].stage.handed);
      StagesThreads(s.jobs, j, stage);
      assert j in Threads(s.jobs);
      assert |Threads(s.jobs)| == |Threads(s.jobs) - {j}| + 1;
      StageStep(cfg, s, j, stage, OneLess(s.live));
    }
    hide Inv;
  }

  lemma InvKept(cfg: Config, s: Sys, step: Step)
    requires Inv(cfg, s)
    ensures Inv(cfg, Apply(cfg, s, step))
  {
    hide Inv, DoTurn, DoCreate, Admitted, Died, Failed, Freed, Grants, Creates, Doomed;
    match step
    case Reserve(p, f, kind) => if Grants(cfg, s.reg, p, f) { ReserveStep(cfg, s, p, f, kind); }
    case Dies(p) => if p in s.reg.admissions { DiesStep(cfg, s, p); }
    case CreateFails(p) => if p in s.reg.admissions { FailsStep(cfg, s, p); }
    case CreateSucceeds(p, id) => if Creates(s, p, id) { CreateStep(cfg, s, p, id); }
    case Turn => TurnStep(cfg, s);
    case TakeThread(j) => ThreadStep(cfg, s, j);
    case ThreadEnds(j) => ThreadStep(cfg, s, j);
    case Finish(j) => if j in s.jobs && s.jobs[j].stage.Returned? { FinishStep(cfg, s, j); }
    case Ask(r, j, verb) => if MayAsk(s, r, j, verb) { AskStep(cfg, s, r, j, verb); }
    case TakeCheck(r) =>
      if r in s.requests && s.requests[r].phase.Asked? && s.live < cfg.threads { TakeCheckStep(cfg, s, r); }
    case CheckEnds(r, passed) =>
      if r in s.requests && s.requests[r].phase.Checking? { CheckEndsStep(cfg, s, r, passed); }
  }

  lemma InitInv(cfg: Config)
    ensures Inv(cfg, Init())
  {
    assert Threads(map[]) == {} && Checks(map[]) == {};
  }

  /** In every interleaving the books agree, the caps hold, the events are in order, the
      queue is in order and the pool keeps count. */
  lemma {:induction false} RunsKeepInv(cfg: Config, steps: seq<Step>)
    ensures Inv(cfg, Exec(cfg, steps))
  {
    hide Apply, Inv;
    if steps == [] {
      InitInv(cfg);
    } else {
      var n := |steps| - 1;
      RunsKeepInv(cfg, steps[..n]);
      InvKept(cfg, Exec(cfg, steps[..n]), steps[n]);
    }
  }
}
