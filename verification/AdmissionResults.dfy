/** What holds of crawl slots, cancel events and worker threads in every run of the
    protocol of `AdmissionRuns` (src/api/server.py). */
module AdmissionResults {
  import opened Common
  import opened Admission
  import opened AdmissionRuns
  import SeedUrl

  lemma OneMore(cfg: Config, steps: seq<Step>, step: Step)
    ensures Exec(cfg, steps + [step]) == Apply(cfg, Exec(cfg, steps), step)
  {
    hide Apply;
    assert (steps + [step])[..|steps|] == steps;
  }

  /** `_active` is the disjoint union of the facet sets, the cancel flags belong to
      exactly the active ids, and no cap is exceeded. */
  lemma {:induction false} SlotsAgreeInEveryRun(cfg: Config, steps: seq<Step>)
    ensures SlotsAgree(Exec(cfg, steps).reg.slots) && WithinCaps(cfg, Exec(cfg, steps).reg.slots)
  {
    RunsKeepInv(cfg, steps);
    hide Exec, Claimants, Events, Owners, JobEvents, Handed, RequestsKnow, Ordered, Pool;
    RepresentsAgrees(Exec(cfg, steps).reg.slots, Exec(cfg, steps).reg.claims);
  }

  // ------------------------------------------------------------ when a slot is given

  /** A provisional id that holds nothing, with room for it. */
  predicate MayReserve(cfg: Config, g: Registry, p: Id, f: Facet) {
    p.Pending? && p !in g.claims && HasRoom(cfg, g.slots, f)
  }

  lemma MayReserveIsGranted(cfg: Config, g: Registry, p: Id, f: Facet)
    ensures Grants(cfg, g, p, f) <==> MayReserve(cfg, g, p, f)
  {
    RoomIsGranted(cfg, g.slots, f);
    hide Verdict, HasRoom;
  }

  /** In every run a new provisional id is given a slot if and only if fewer than all are
      taken, the facet is known and fewer than its cap are taken under it. It then gets
      slot, facet slot and an event no claim ever had; refused, it leaves all as it was. */
  lemma {:induction false} ReservesExactly(cfg: Config, steps: seq<Step>, p: Id, f: Facet, kind: Kind)
    requires p.Pending? && p !in Exec(cfg, steps).reg.claims
    ensures var s, t := Exec(cfg, steps), Exec(cfg, steps + [Reserve(p, f, kind)]); var g, h := s.reg.slots, t.reg.slots;
      && (p in t.reg.claims <==>
            |g.active| < cfg.maxJobs && f in cfg.caps && |Under(g.facets, f)| < cfg.caps[f])
      && (p in t.reg.claims ==>
            && t.reg.claims == s.reg.claims[p := f] && h.active == g.active + {p}
            && (forall x :: Under(h.facets, x) == Under(g.facets, x) + if x == f then {p} else {})
            && p in h.flags && h.flags == g.flags[p := h.flags[p]] && h.flags[p] !in s.reg.bearer
            && h.flags[p] !in t.reg.signalled
            && t.reg.admissions == s.reg.admissions[p := Claimant(f, kind, h.flags[p])])
      && (p !in t.reg.claims ==> t == s)
  {
    RunsKeepInv(cfg, steps);
    OneMore(cfg, steps, Reserve(p, f, kind));
    var s := Exec(cfg, steps);
    MayReserveIsGranted(cfg, s.reg, p, f);
    hide Exec, Books, Claimants, Owners, JobEvents, Handed, RequestsKnow, Ordered, Pool, Verdict, DoTurn;
    if Grants(cfg, s.reg, p, f) {
      ReserveIs(cfg, s, p, f, kind);
      hide Apply, Grants;
      assert forall e :: e in s.reg.signalled ==> e in s.reg.bearer;
    } else {
      RefusedIs(cfg, s, p, f, kind);
      hide Apply, Grants;
    }
  }

  lemma RefusedIs(cfg: Config, s: Sys, p: Id, f: Facet, kind: Kind)
    requires !Grants(cfg, s.reg, p, f)
    ensures Apply(cfg, s, Reserve(p, f, kind)) == s
  {
    hide Grants, DoTurn;
  }

  // ------------------------------------------------------------ who holds a slot

  /** In every run: the admissions between reserve and rekey, those whose handler died
      there, the jobs that wait for their first turn, and of the others some that have
      not reached their dispatch's `finally`. */
  lemma {:induction false} HoldersInEveryRun(cfg: Config, steps: seq<Step>, id: Id)
    ensures var s := Exec(cfg, steps);
      && (id in s.reg.admissions || id in s.reg.stranded ==> id in s.reg.slots.active)
      && (id in s.jobs && s.jobs[id].stage.Queued? ==> id in s.reg.slots.active)
      && (id in s.reg.slots.active ==>
            id in s.reg.admissions || id in s.reg.stranded || (id in s.jobs && !s.jobs[id].stage.Ended?))
  {
    RunsKeepInv(cfg, steps);
    FlagsAreClaims(cfg, Exec(cfg, steps).reg);
    hide Exec, Books, Events, JobEvents, Handed, RequestsKnow, Ordered, Pool;
  }

  /** No admission and no dispatch is in flight. */
  ghost predicate Quiet(s: Sys) {
    s.reg.admissions == map[] && forall j :: j in s.jobs ==> s.jobs[j].stage.Ended?
  }

  /** Then what is held is what dead handlers left, and nothing else, whatever store
      failures, cancels and deletes the run contained. */
  lemma {:induction false} QuietHoldsStranded(cfg: Config, steps: seq<Step>)
    requires Quiet(Exec(cfg, steps))
    ensures Exec(cfg, steps).reg.slots.active == Exec(cfg, steps).reg.stranded.Keys
  {
    forall id ensures id in Exec(cfg, steps).reg.slots.active <==> id in Exec(cfg, steps).reg.stranded {
      HoldersInEveryRun(cfg, steps, id);
    }
  }

  /** Step `i` reserves a slot for a Screaming Frog job whose normalised URL is longer
      than its input model allows. */
  ghost predicate ReservesTooLong(cfg: Config, steps: seq<Step>, i: nat) {
    && i < |steps| && steps[i].Reserve?
    && steps[i].kind.Frog? && |SeedUrl.Normalized(steps[i].kind.url)| > 2048
    && MayReserve(cfg, Exec(cfg, steps[..i]).reg, steps[i].p, steps[i].f)
  }

  /** A doomed admission is here: about to die, or dead. */
  ghost predicate DoomedHere(g: Registry) {
    g.stranded.Keys != {} || exists p :: p in g.admissions && Doomed(g.admissions[p].kind)
  }

  lemma DoomReserve(cfg: Config, g: Registry, p: Id, f: Facet, kind: Kind)
    requires Claimants(g) && Grants(cfg, g, p, f)
    ensures DoomedHere(Admitted(g, p, f, kind)) <==> DoomedHere(g) || Doomed(kind)
  {
    hide Doomed, Verdict, Claimed;
    var h := Admitted(g, p, f, kind);
    assert p !in g.admissions && h.admissions[p].kind == kind;
    assert forall q :: q in g.admissions ==> h.admissions[q] == g.admissions[q];
  }

  lemma DoomLeaves(g: Registry, h: Registry, p: Id)
    requires p in g.admissions && h.admissions == g.admissions - {p}
    requires if Doomed(g.admissions[p].kind) then h.stranded.Keys == g.stranded.Keys + {p} else h.stranded == g.stranded
    ensures DoomedHere(h) <==> DoomedHere(g)
  {
    hide Doomed;
    assert forall q :: q in h.admissions ==> h.admissions[q] == g.admissions[q];
    if Doomed(g.admissions[p].kind) {
      assert p in h.stranded.Keys;
    } else if exists q :: q in g.admissions && Doomed(g.admissions[q].kind) {
      var q :| q in g.admissions && Doomed(g.admissions[q].kind);
      assert q in h.admissions;
    }
  }

  lemma TurnKeepsAdmissions(s: Sys)
    ensures DoTurn(s).reg.admissions == s.reg.admissions && DoTurn(s).reg.stranded == s.reg.stranded
  {
    hide Dropped;
  }

  /** No step but a reservation and the three exits touches admissions. */
  lemma OthersKeepAdmissions(cfg: Config, s: Sys, step: Step)
    requires !step.Reserve? && !step.Dies? && !step.CreateFails? && !step.CreateSucceeds?
    ensures var h := Apply(cfg, s, step).reg;
      h.admissions == s.reg.admissions && h.stranded == s.reg.stranded
  {
    TurnKeepsAdmissions(s);
    hide DoTurn, Dropped, MayAsk, Stages, Phases;
  }

  /** What the four steps that touch admissions do to the registry. */
  lemma AdmissionStepIs(cfg: Config, s: Sys, step: Step)
    ensures var h := Apply(cfg, s, step).reg;
      match step
      case Reserve(p, f, kind) => h == if Grants(cfg, s.reg, p, f) then Admitted(s.reg, p, f, kind) else s.reg
      case Dies(p) =>
        h == if p in s.reg.admissions && Doomed(s.reg.admissions[p].kind) then Died(s.reg, p) else s.reg
      case CreateFails(p) =>
        h == if p in s.reg.admissions && !Doomed(s.reg.admissions[p].kind) then Failed(s.reg, p) else s.reg
      case CreateSucceeds(p, id) => h == if Creates(s, p, id) then Rekeyed(s.reg, p, id) else s.reg
      case _ => true
  {
    hide Grants, Doomed, Admitted, Died, Failed, Rekeyed, Freed, DoTurn, Stages, Phases, MayAsk;
  }

  lemma HasClaimants(cfg: Config, s: Sys)
    requires Inv(cfg, s)
    ensures Claimants(s.reg)
  {
    hide Books, Events, Owners, JobEvents, Handed, RequestsKnow, Ordered, Pool, Claimants;
  }

  lemma DoomStep(cfg: Config, s: Sys, step: Step)
    requires Inv(cfg, s)
    ensures DoomedHere(Apply(cfg, s, step).reg)
      <==> DoomedHere(s.reg) || (step.Reserve? && Doomed(step.kind) && Grants(cfg, s.reg, step.p, step.f))
  {
    hide Inv, Claimants, DoomedHere, Doomed, Grants, Admitted, Apply, Moved, Dropped;
    HasClaimants(cfg, s);
    AdmissionStepIs(cfg, s, step);
    match step
    case Reserve(p, f, kind) => if Grants(cfg, s.reg, p, f) { DoomReserve(cfg, s.reg, p, f, kind); }
    case Dies(p) =>
      if p in s.reg.admissions && Doomed(s.reg.admissions[p].kind) { DoomLeaves(s.reg, Died(s.reg, p), p); }
    case CreateFails(p) =>
      if p in s.reg.admissions && !Doomed(s.reg.admissions[p].kind) { DoomLeaves(s.reg, Failed(s.reg, p), p); }
    case CreateSucceeds(p, id) => if Creates(s, p, id) { DoomLeaves(s.reg, Rekeyed(s.reg, p, id), p); }
    case _ =>
      OthersKeepAdmissions(cfg, s, step);
      SameDoom(s.reg, Apply(cfg, s, step).reg);
  }

  lemma SameDoom(g: Registry, h: Registry)
    requires h.admissions == g.admissions && h.stranded == g.stranded
    ensures DoomedHere(h) <==> DoomedHere(g)
  {
  }

  lemma {:induction false} DoomIsRemembered(cfg: Config, steps: seq<Step>)
    ensures DoomedHere(Exec(cfg, steps).reg) <==> exists i: nat :: ReservesTooLong(cfg, steps, i)
  {
    hide Apply, Inv, DoomedHere, Doomed, Grants;
    if steps == [] {
      assert !DoomedHere(EMPTY) by { NothingDoomed(); }
    } else {
      var n := |steps| - 1;
      var init := steps[..n];
      RunsKeepInv(cfg, init);
      DoomIsRemembered(cfg, init);
      DoomStep(cfg, Exec(cfg, init), steps[n]);
      assert forall i: nat :: i < n ==> init[..i] == steps[..i];
      forall i: nat | i < n ensures ReservesTooLong(cfg, init, i) <==> ReservesTooLong(cfg, steps, i) {}
      forall i: nat | i < |steps| && steps[i].Reserve?
        ensures ReservesTooLong(cfg, steps, i)
          <==> Doomed(steps[i].kind) && Grants(cfg, Exec(cfg, steps[..i]).reg, steps[i].p, steps[i].f)
      {
        TooLongIsDoomed(steps[i].kind);
        MayReserveIsGranted(cfg, Exec(cfg, steps[..i]).reg, steps[i].p, steps[i].f);
      }
      assert ReservesTooLong(cfg, steps, n) <==>
        steps[n].Reserve? && Doomed(steps[n].kind) && Grants(cfg, Exec(cfg, init).reg, steps[n].p, steps[n].f);
    }
  }

  lemma TooLongIsDoomed(kind: Kind)
    ensures Doomed(kind) <==> kind.Frog? && |SeedUrl.Normalized(kind.url)| > 2048
  {
    hide SeedUrl.Normalized;
  }

  lemma NothingDoomed()
    ensures !DoomedHere(EMPTY)
  {
  }

  ghost predicate NothingHeld(s: Slots<EventId>) {
    s.active == {} && s.flags == map[] && forall f :: f in s.facets ==> s.facets[f] == {}
  }

  /** With nothing in flight every slot set and flag map is empty if and only if no slot
      was ever reserved for a Screaming Frog job with too long a normalised URL. */
  lemma {:induction false} NoSlotLeaksExactly(cfg: Config, steps: seq<Step>)
    requires Quiet(Exec(cfg, steps))
    ensures NothingHeld(Exec(cfg, steps).reg.slots) <==> !exists i: nat :: ReservesTooLong(cfg, steps, i)
  {
    RunsKeepInv(cfg, steps);
    DoomIsRemembered(cfg, steps);
    QuietHoldsStranded(cfg, steps);
    var s := Exec(cfg, steps);
    assert DoomedHere(s.reg) <==> s.reg.stranded.Keys != {} by { hide Doomed, Inv; }
    hide Exec, ReservesTooLong, DoomedHere, Claimants, Events, Owners, JobEvents, Handed, RequestsKnow, Ordered, Pool;
    EmptyBooks(cfg, s.reg);
  }

  lemma EmptyBooks(cfg: Config, g: Registry)
    requires Books(cfg, g)
    ensures NothingHeld(g.slots) <==> g.slots.active == {}
  {
    hide WithinCaps;
    if g.slots.active == {} {
      assert g.slots.flags.Keys == {};
      assert g.slots.flags == map[];
      forall f | f in g.slots.facets ensures g.slots.facets[f] == {} {
        assert forall id :: id in g.slots.facets[f] ==> id in g.claims;
      }
    }
  }

  /** What a dead handler left stays for the life of the process. */
  lemma StrandedStaysOnce(cfg: Config, s: Sys, step: Step, p: Id)
    requires Inv(cfg, s) && p in s.reg.stranded
    ensures p in Apply(cfg, s, step).reg.stranded && Apply(cfg, s, step).reg.stranded[p] == s.reg.stranded[p]
  {
    hide Inv, Apply, Dropped, Moved, Claimed, Doomed, Grants;
    NotBoth(cfg, s, p);
    AdmissionStepIs(cfg, s, step);
    if !step.Reserve? && !step.Dies? && !step.CreateFails? && !step.CreateSucceeds? {
      OthersKeepAdmissions(cfg, s, step);
    }
  }

  lemma NotBoth(cfg: Config, s: Sys, p: Id)
    requires Inv(cfg, s) && p in s.reg.stranded
    ensures p !in s.reg.admissions
  {
    hide Books, Events, Owners, JobEvents, Handed, RequestsKnow, Ordered, Pool;
  }

  lemma {:induction false} StrandedStays(cfg: Config, steps: seq<Step>, after: seq<Step>, p: Id)
    requires p in Exec(cfg, steps).reg.stranded
    ensures var s, t := Exec(cfg, steps), Exec(cfg, steps + after);
      p in t.reg.stranded && t.reg.stranded[p] == s.reg.stranded[p]
  {
    hide Apply, Inv;
    if after == [] {
      assert steps + after == steps;
    } else {
      var n := |after| - 1;
      StrandedStays(cfg, steps, after[..n], p);
      RunsKeepInv(cfg, steps + after[..n]);
      assert steps + after == (steps + after[..n]) + [after[n]];
      OneMore(cfg, steps + after[..n], after[n]);
      StrandedStaysOnce(cfg, Exec(cfg, steps + after[..n]), after[n], p);
    }
  }

  /** On a facet that takes one job at a time, as Screaming Frog's does, one dead handler
      refuses every later reservation. */
  lemma {:induction false} StrandedBlocksFacet(cfg: Config, steps: seq<Step>, after: seq<Step>, p: Id, f: Facet)
    requires p in Exec(cfg, steps).reg.stranded && Exec(cfg, steps).reg.stranded[p] == f
    requires f in cfg.caps && cfg.caps[f] == 1
    ensures forall q: Id, kind: Kind :: q.Pending? && q !in Exec(cfg, steps + after).reg.claims ==>
      Exec(cfg, steps + after + [Reserve(q, f, kind)]) == Exec(cfg, steps + after)
  {
    StrandedFillsFacet(cfg, steps, after, p, f);
    forall q: Id, kind: Kind | q.Pending? && q !in Exec(cfg, steps + after).reg.claims
      ensures Exec(cfg, steps + after + [Reserve(q, f, kind)]) == Exec(cfg, steps + after)
    {
      ReservesExactly(cfg, steps + after, q, f, kind);
    }
  }

  lemma {:induction false} StrandedFillsFacet(cfg: Config, steps: seq<Step>, after: seq<Step>, p: Id, f: Facet)
    requires p in Exec(cfg, steps).reg.stranded && Exec(cfg, steps).reg.stranded[p] == f
    ensures Under(Exec(cfg, steps + after).reg.slots.facets, f) != {}
  {
    StrandedStays(cfg, steps, after, p);
    RunsKeepInv(cfg, steps + after);
    var g := Exec(cfg, steps + after).reg;
    hide Exec, Events, Owners, JobEvents, Handed, RequestsKnow, Ordered, Pool;
    assert g.claims[p] == f;
    hide Claimants;
    assert p in g.slots.facets[f];
  }

  /** One such run: the longest URL a request may carry, with an empty path. */
  lemma LongUrlStrands(cfg: Config, f: Facet)
    requires cfg.maxJobs >= 1 && f in cfg.caps && cfg.caps[f] >= 1
    ensures var s := Exec(cfg, [Reserve(Pending(0), f, Frog(SeedUrl.LONGEST)), Dies(Pending(0))]);
      |SeedUrl.Typed(SeedUrl.LONGEST)| == 2048 && Quiet(s) && s.reg.slots.active == {Pending(0)}
  {
    var kind := Frog(SeedUrl.LONGEST);
    SeedUrl.LongestIsTooLong();
    TooLongIsDoomed(kind);
    assert Doomed(kind);
    hide SeedUrl.Typed, SeedUrl.TooLong, Doomed;
    var reserve, dies := Reserve(Pending(0), f, kind), Dies(Pending(0));
    OneMore(cfg, [], reserve);
    OneMore(cfg, [reserve], dies);
    assert [] + [reserve] == [reserve] && [reserve] + [dies] == [reserve, dies];
    assert Exec(cfg, []) == Init();
    hide Exec, Apply;
    FreshReserve(cfg, f, kind);
    ReserveIs(cfg, Init(), Pending(0), f, kind);
    var g := Admitted(EMPTY, Pending(0), f, kind);
    DiesIs(cfg, Init().(reg := g), Pending(0));
    assert Died(g, Pending(0)).admissions == map[];
  }

  lemma FreshReserve(cfg: Config, f: Facet, kind: Kind)
    requires cfg.maxJobs >= 1 && f in cfg.caps && cfg.caps[f] >= 1
    ensures Grants(cfg, EMPTY, Pending(0), f)
    ensures var g := Admitted(EMPTY, Pending(0), f, kind);
      g.slots.active == {Pending(0)} && g.admissions == map[Pending(0) := Claimant(f, kind, 0)]
  {
    assert EMPTY.slots.At(f) == {};
  }

  lemma DiesIs(cfg: Config, s: Sys, p: Id)
    requires p in s.reg.admissions && Doomed(s.reg.admissions[p].kind)
    ensures Apply(cfg, s, Dies(p)) == s.(reg := Died(s.reg, p))
  {
    hide Doomed, Died, DoTurn;
  }

  /** Releasing a job that no longer holds a slot changes nothing at all, so it can never
      free one that another job has since taken. */
  lemma {:induction false} LateReleaseIsHarmless(cfg: Config, steps: seq<Step>, j: Id)
    requires var s := Exec(cfg, steps); j in s.jobs && j !in s.reg.slots.active
    ensures var s := Exec(cfg, steps);
      Freed(s.reg, j, s.jobs[j].facet) == s.reg && Exec(cfg, steps + [Finish(j)]).reg == s.reg
  {
    RunsKeepInv(cfg, steps);
    OneMore(cfg, steps, Finish(j));
    var s := Exec(cfg, steps);
    FlagsAreClaims(cfg, s.reg);
    JobFacts(s.reg.claims, s.jobs, j);
    FreedKeeps(cfg, s.reg, j, s.jobs[j].facet);
    hide Exec, Inv, RegOk, Freed;
  }

  // ------------------------------------------------------------ the event stays with the claim

  /** The provisional id held slot and event, the stored id was new, and the very event
      passed from one to the other while no count changed. */
  ghost predicate HandedOver(s: Sys, t: Sys, p: Id, id: Id) {
    var g, h := s.reg.slots, t.reg.slots;
    && p in g.active && p in g.flags && id !in g.active && id !in g.flags
    && h.active == g.active - {p} + {id}
    && h.flags == (g.flags - {p})[id := g.flags[p]]
    && id in t.jobs && t.jobs[id].event == g.flags[p]
    && |h.active| == |g.active| && (forall f :: |h.At(f)| == |g.At(f)|)
  }

  /** At its call site, in every run, `rekey` finds what it relies on and hands the claim
      over whole. */
  lemma {:induction false} RekeyHandsOver(cfg: Config, steps: seq<Step>, p: Id, id: Id)
    requires Creates(Exec(cfg, steps), p, id)
    ensures HandedOver(Exec(cfg, steps), Exec(cfg, steps + [CreateSucceeds(p, id)]), p, id)
  {
    RunsKeepInv(cfg, steps);
    OneMore(cfg, steps, CreateSucceeds(p, id));
    CreateIs(cfg, Exec(cfg, steps), p, id);
    hide *;
    CreateHandsOver(cfg, Exec(cfg, steps), p, id);
  }

  lemma CreateHandsOver(cfg: Config, s: Sys, p: Id, id: Id)
    requires Inv(cfg, s) && Creates(s, p, id)
    ensures HandedOver(s, DoCreate(s, p, id), p, id)
  {
    var g := s.reg;
    hide WithinCaps, Events, Owners, JobEvents, Handed, RequestsKnow, Ordered, Pool, Doomed, Represents;
    FlagsAreClaims(cfg, g);
    AdmissionFacts(cfg, g, p);
    NewJobFacts(g.claims, s.jobs, id);
    RekeyedKeeps(cfg, g, p, id);
    AdmissionClaims(g, p);
    hide Claimants;
    MoveKeepsCounts(g.slots, g.claims, p, id, g.admissions[p].facet, g.slots.flags[p]);
    assert Rekeyed(g, p, id).slots == Moved(g.slots, p, id, g.admissions[p].facet, g.slots.flags[p]);
    hide RegOk, Slots<EventId>.At;
  }

  lemma AdmissionClaims(g: Registry, p: Id)
    requires Claimants(g) && p in g.admissions
    ensures p in g.claims && g.claims[p] == g.admissions[p].facet
  {
  }

  /** Step `i` is the reservation that made event `e` for a job of this facet and kind. */
  ghost predicate MadeBy(cfg: Config, steps: seq<Step>, i: nat, f: Facet, kind: Kind, e: EventId) {
    && i < |steps| && steps[i].Reserve? && steps[i].f == f && steps[i].kind == kind
    && MayReserve(cfg, Exec(cfg, steps[..i]).reg, steps[i].p, f) && Exec(cfg, steps[..i]).reg.nextEvent == e
  }

  ghost predicate WasMade(cfg: Config, steps: seq<Step>, f: Facet, kind: Kind, e: EventId) {
    exists i: nat :: MadeBy(cfg, steps, i, f, kind, e)
  }

  lemma MadeEarlier(cfg: Config, steps: seq<Step>, f: Facet, kind: Kind, e: EventId)
    requires steps != [] && WasMade(cfg, steps[..|steps| - 1], f, kind, e)
    ensures WasMade(cfg, steps, f, kind, e)
  {
    var init := steps[..|steps| - 1];
    var i: nat :| MadeBy(cfg, init, i, f, kind, e);
    assert init[..i] == steps[..i];
    assert MadeBy(cfg, steps, i, f, kind, e);
  }

  /** Where admissions come from. */
  lemma AdmissionOrigin(cfg: Config, s: Sys, step: Step, p: Id)
    requires p in Apply(cfg, s, step).reg.admissions
    ensures var c := Apply(cfg, s, step).reg.admissions[p];
      || (p in s.reg.admissions && c == s.reg.admissions[p])
      || (step.Reserve? && step.p == p && Grants(cfg, s.reg, p, step.f)
          && c == Claimant(step.f, step.kind, s.reg.nextEvent))
  {
    if !step.Reserve? && !step.Dies? && !step.CreateFails? && !step.CreateSucceeds? {
      OthersKeepAdmissions(cfg, s, step);
      hide Apply;
    }
    hide DoTurn, Dropped, Moved, Claimed, Doomed, Verdict, MayAsk, Freed, Phases, Stages;
  }

  /** Where jobs come from. */
  lemma JobOrigin(cfg: Config, s: Sys, step: Step, j: Id)
    requires j in Apply(cfg, s, step).jobs
    ensures var o := Apply(cfg, s, step).jobs[j];
      || (j in s.jobs && SameJob(s.jobs[j], o))
      || (step.CreateSucceeds? && step.p in s.reg.admissions && SameClaim(s.reg.admissions[step.p], o))
  {
    TurnKeepsJobs(s);
    hide DoTurn, Dropped, Moved, Claimed, Doomed, Grants, MayAsk, Freed, Phases, Rekeyed, Failed, Died, Admitted;
  }

  predicate SameJob(a: Job, b: Job) {
    a.facet == b.facet && a.kind == b.kind && a.event == b.event
  }

  predicate SameClaim(a: Claimant, b: Job) {
    a.facet == b.facet && a.kind == b.kind && a.event == b.event
  }

  lemma TurnKeepsJobs(s: Sys)
    ensures forall j :: j in DoTurn(s).jobs ==> j in s.jobs && SameJob(s.jobs[j], DoTurn(s).jobs[j])
    ensures forall j :: j in s.jobs ==> j in DoTurn(s).jobs
  {
    hide Freed, Signal;
  }

  ghost predicate ClaimMade(cfg: Config, steps: seq<Step>, c: Claimant) {
    WasMade(cfg, steps, c.facet, c.kind, c.event)
  }

  ghost predicate JobMade(cfg: Config, steps: seq<Step>, job: Job) {
    WasMade(cfg, steps, job.facet, job.kind, job.event)
  }

  /** In every run the event of an admission, and of a job, is the one its own
      reservation made. */
  lemma {:induction false} EventsAreReserved(cfg: Config, steps: seq<Step>)
    ensures forall p :: p in Exec(cfg, steps).reg.admissions ==> ClaimMade(cfg, steps, Exec(cfg, steps).reg.admissions[p])
    ensures forall j :: j in Exec(cfg, steps).jobs ==> JobMade(cfg, steps, Exec(cfg, steps).jobs[j])
  {
    hide Apply, Grants;
    if steps != [] {
      var n := |steps| - 1;
      var init := steps[..n];
      EventsAreReserved(cfg, init);
      var s, t := Exec(cfg, init), Exec(cfg, steps);
      assert t == Apply(cfg, s, steps[n]);
      hide Exec;
      forall p | p in t.reg.admissions ensures ClaimMade(cfg, steps, t.reg.admissions[p]) {
        var c := t.reg.admissions[p];
        AdmissionOrigin(cfg, s, steps[n], p);
        if p in s.reg.admissions && c == s.reg.admissions[p] {
          assert ClaimMade(cfg, init, c);
          MadeEarlier(cfg, steps, c.facet, c.kind, c.event);
        } else {
          MayReserveIsGranted(cfg, s.reg, steps[n].p, c.facet);
          assert MadeBy(cfg, steps, n, c.facet, c.kind, c.event);
        }
      }
      forall j | j in t.jobs ensures JobMade(cfg, steps, t.jobs[j]) {
        var o := t.jobs[j];
        JobOrigin(cfg, s, steps[n], j);
        if j in s.jobs && SameJob(s.jobs[j], o) {
          assert JobMade(cfg, init, s.jobs[j]);
        } else {
          assert ClaimMade(cfg, init, s.reg.admissions[steps[n].p]);
        }
        MadeEarlier(cfg, steps, o.facet, o.kind, o.event);
      }
    }
  }

  // ------------------------------------------------------------ nothing gets stuck

  /** A dispatch whose turn has come goes on: first turn, thread while one is free, the
      thread's end, and the `finally`, which always gives the slot back. */
  lemma JobAdvances(cfg: Config, s: Sys, j: Id)
    requires j in s.jobs
    ensures s.ready != [] && s.ready[0] == Start(j) && s.jobs[j].stage.Queued? ==>
      Apply(cfg, s, Turn).jobs[j].stage.Pooled? && Apply(cfg, s, Turn).ready == s.ready[1..]
    ensures s.jobs[j].stage.Pooled? && s.live < cfg.threads ==> Apply(cfg, s, TakeThread(j)).jobs[j].stage.Working?
    ensures s.jobs[j].stage.Working? ==>
      && Apply(cfg, s, ThreadEnds(j)).jobs[j].stage.Returned?
      && Apply(cfg, s, ThreadEnds(j)).live == s.live - if s.live == 0 then 0 else 1
    ensures s.jobs[j].stage.Returned? ==>
      var t := Apply(cfg, s, Finish(j)); t.jobs[j].stage.Ended? && j !in t.reg.slots.active && j !in t.reg.slots.flags
  {
    hide Grants, Doomed, Creates, DoCreate, MayAsk, DoResume, Admitted, Died, Failed;
  }

  /** A cancel or delete may ask about any record that was not deleted, and goes on when
      its turn has come: a check that fails ends it, one that passes queues it, and its
      last turn frees the slot if it acts, and deletes the record if it is a delete. */
  lemma RequestAdvances(cfg: Config, s: Sys, r: nat)
    requires r in s.requests && s.requests[r].job in s.jobs
    ensures s.requests[r].phase.Asked? && s.live < cfg.threads ==> Apply(cfg, s, TakeCheck(r)).requests[r].phase.Checking?
    ensures s.requests[r].phase.Checking? ==>
      && Apply(cfg, s, CheckEnds(r, true)).requests[r].phase.Due?
      && Apply(cfg, s, CheckEnds(r, true)).ready == s.ready + [Resume(r)]
      && Apply(cfg, s, CheckEnds(r, false)).requests[r].phase.Over?
      && Apply(cfg, s, CheckEnds(r, false)).ready == s.ready
    ensures s.requests[r].phase.Due? && s.ready != [] && s.ready[0] == Resume(r) ==>
      var t, j, verb := Apply(cfg, s, Turn), s.requests[r].job, s.requests[r].verb;
      && t.requests[r].phase.Over? && t.ready == s.ready[1..]
      && t.deleted == (if verb.Delete? then s.deleted + {j} else s.deleted)
      && (if verb == Delete(false) then t.reg == s.reg else j !in t.reg.slots.active)
  {
    hide Grants, Doomed, Creates, DoCreate, MayAsk, DoStart, Admitted, Died, Failed;
  }

  lemma AskExactly(cfg: Config, s: Sys, r: nat, j: Id, running: bool)
    requires r !in s.requests
    ensures r in Apply(cfg, s, Ask(r, j, Cancel)).requests <==> j in s.jobs && j !in s.deleted
    ensures r in Apply(cfg, s, Ask(r, j, Delete(running))).requests <==>
      j in s.jobs && j !in s.deleted && (running ==> !s.jobs[j].stage.Queued? && !s.jobs[j].stage.Pooled?)
  {
    hide Grants, Doomed, Creates, DoCreate, DoTurn;
  }

  function Unfinished(jobs: map<Id, Job>): set<Id> {
    set j | j in jobs && !jobs[j].stage.Ended?
  }

  function Waiting(jobs: map<Id, Job>): set<Id> {
    set j | j in jobs && jobs[j].stage.Pooled?
  }

  /** Nothing is queued, no admission is under way and every dispatch has finished. */
  ghost predicate AtRest(s: Sys) {
    s.ready == [] && Quiet(s)
  }

  lemma StagesCount(jobs: map<Id, Job>, j: Id, stage: Stage)
    requires j in jobs && !jobs[j].stage.Ended? && !stage.Queued?
    ensures Unfinished(Stages(jobs, j, stage)) == if stage.Ended? then Unfinished(jobs) - {j} else Unfinished(jobs)
    ensures !jobs[j].stage.Pooled? && !stage.Pooled? ==> Waiting(Stages(jobs, j, stage)) == Waiting(jobs)
    ensures jobs[j].stage.Pooled? && !stage.Pooled? ==> Waiting(Stages(jobs, j, stage)) == Waiting(jobs) - {j}
  {
  }

  /** An admission can always leave: its handler dies or its store call fails. */
  lemma AdmissionLeaves(cfg: Config, s: Sys) returns (step: Step)
    requires s.reg.admissions != map[]
    ensures var t := Apply(cfg, s, step); |t.reg.admissions| < |s.reg.admissions|
  {
    var p :| p in s.reg.admissions;
    step := if Doomed(s.reg.admissions[p].kind) then Dies(p) else CreateFails(p);
    hide Doomed, Dropped;
    assert (s.reg.admissions - {p}).Keys == s.reg.admissions.Keys - {p};
    assert |s.reg.admissions| == |s.reg.admissions.Keys| && |s.reg.admissions - {p}| == |(s.reg.admissions - {p}).Keys|;
  }

  lemma TurnShortens(cfg: Config, s: Sys)
    requires s.ready != []
    ensures Apply(cfg, s, Turn).reg.admissions == s.reg.admissions && |Apply(cfg, s, Turn).ready| < |s.ready|
  {
    TurnKeepsAdmissions(s);
    hide Freed, Signal, Stages, Phases;
  }

  /** While a thread is busy, one can end. */
  lemma ThreadFrees(cfg: Config, s: Sys) returns (step: Step)
    requires Pool(cfg, s) && s.live > 0
    ensures var t := Apply(cfg, s, step);
      && t.reg == s.reg && t.ready == s.ready && t.live < s.live
      && Unfinished(t.jobs) == Unfinished(s.jobs) && Waiting(t.jobs) == Waiting(s.jobs)
  {
    if Threads(s.jobs) != {} {
      var j :| j in Threads(s.jobs);
      step := ThreadEnds(j);
      StagesCount(s.jobs, j, Returned(s.jobs[j].stage.handed));
    } else {
      assert Checks(s.requests) != {};
      var r :| r in Checks(s.requests);
      step := CheckEnds(r, false);
    }
    hide DoTurn, Grants, Doomed, Creates, DoCreate, Unfinished, Waiting, MayAsk;
  }

  /** With nothing queued, a dispatch that has not finished has a thread or waits for one,
      or its `finally` is due; and some step takes one of them on. */
  lemma JobGoesOn(cfg: Config, s: Sys) returns (step: Step)
    requires Inv(cfg, s) && cfg.threads >= 1 && s.ready == [] && Unfinished(s.jobs) != {}
    ensures var t := Apply(cfg, s, step);
      && t.reg.admissions == s.reg.admissions && t.ready == []
      && (|Unfinished(t.jobs)| < |Unfinished(s.jobs)|
          || (Unfinished(t.jobs) == Unfinished(s.jobs)
              && (|Waiting(t.jobs)| < |Waiting(s.jobs)| || (Waiting(t.jobs) == Waiting(s.jobs) && t.live < s.live))))
  {
    hide RegOk, Owners, JobEvents, Handed, RequestsKnow;
    var j :| j in Unfinished(s.jobs);
    assert !s.jobs[j].stage.Queued? by { assert !StartsBefore(s.ready, j, |s.ready|); }
    hide Ordered;
    if s.jobs[j].stage.Returned? {
      step := Finish(j);
      FinishEndsIt(cfg, s, j);
    } else if s.jobs[j].stage.Pooled? && s.live == 0 {
      step := TakeThread(j);
      TakeThreadIs(cfg, s, j);
      StagesCount(s.jobs, j, Working(s.jobs[j].stage.handed));
      assert j in Waiting(s.jobs);
      hide Apply, Unfinished, Waiting, Stages;
    } else {
      assert s.jobs[j].stage.Working? ==> j in Threads(s.jobs);
      step := ThreadFrees(cfg, s);
    }
  }

  lemma FinishEndsIt(cfg: Config, s: Sys, j: Id)
    requires j in s.jobs && s.jobs[j].stage.Returned?
    ensures var t := Apply(cfg, s, Finish(j));
      && t.reg.admissions == s.reg.admissions && t.ready == s.ready
      && |Unfinished(t.jobs)| < |Unfinished(s.jobs)|
  {
    StagesCount(s.jobs, j, Ended(s.jobs[j].stage.handed));
    assert j in Unfinished(s.jobs);
    hide DoTurn, Grants, Doomed, Creates, DoCreate, Unfinished, Waiting, MayAsk, Dropped;
  }

  /** No run can be wedged: with at least one thread, whatever happened so far, some
      continuation brings every admission and every dispatch to its end; and then the slots
      held are those that dead handlers left. */
  lemma {:induction false} EveryRunCanRest(cfg: Config, steps: seq<Step>) returns (after: seq<Step>)
    requires cfg.threads >= 1
    ensures AtRest(Exec(cfg, steps + after))
    ensures Exec(cfg, steps + after).reg.slots.active == Exec(cfg, steps + after).reg.stranded.Keys
    decreases |Exec(cfg, steps).reg.admissions|, |Exec(cfg, steps).ready|, |Unfinished(Exec(cfg, steps).jobs)|,
      |Waiting(Exec(cfg, steps).jobs)|, Exec(cfg, steps).live
  {
    var s := Exec(cfg, steps);
    RunsKeepInv(cfg, steps);
    var step;
    hide Exec, Apply;
    if s.reg.admissions != map[] {
      step := AdmissionLeaves(cfg, s);
    } else if s.ready != [] {
      TurnShortens(cfg, s);
      step := Turn;
    } else if Unfinished(s.jobs) != {} {
      step := JobGoesOn(cfg, s);
    } else {
      assert forall j :: j in s.jobs && !s.jobs[j].stage.Ended? ==> j in Unfinished(s.jobs);
      after := [];
      assert steps + after == steps;
      QuietHoldsStranded(cfg, steps);
      return;
    }
    OneMore(cfg, steps, step);
    hide Inv, Unfinished, Waiting, AtRest;
    var rest := EveryRunCanRest(cfg, steps + [step]);
    after := [step] + rest;
    assert steps + [step] + rest == steps + after;
  }

  lemma DeletedKept(cfg: Config, s: Sys, step: Step)
    ensures s.deleted <= Apply(cfg, s, step).deleted
  {
    hide Grants, Doomed, Admitted, Died, Failed, Rekeyed, Freed, Stages, Phases, MayAsk, Signal;
  }

  /** A deleted record stays deleted in every continuation, so nobody can ask about it. */
  lemma {:induction false} DeletedStays(cfg: Config, steps: seq<Step>, after: seq<Step>)
    ensures Exec(cfg, steps).deleted <= Exec(cfg, steps + after).deleted
  {
    hide Apply;
    if after == [] {
      assert steps + after == steps;
    } else {
      var n := |after| - 1;
      DeletedStays(cfg, steps, after[..n]);
      assert steps + after == (steps + after[..n]) + [after[n]];
      OneMore(cfg, steps + after[..n], after[n]);
      DeletedKept(cfg, Exec(cfg, steps + after[..n]), after[n]);
    }
  }

  // ------------------------------------------------------------ cancel reaches the crawl

  /** No handler of a cancel or delete goes on about a job whose dispatch has not begun:
      the job's first turn was in the queue before the record could be read. */
  lemma {:induction false} BeginPrecedesCancel(cfg: Config, steps: seq<Step>, r: nat)
    requires var s := Exec(cfg, steps); s.ready != [] && s.ready[0] == Resume(r)
    ensures var s := Exec(cfg, steps);
      r in s.requests && s.requests[r].job in s.jobs && !s.jobs[s.requests[r].job].stage.Queued?
  {
    RunsKeepInv(cfg, steps);
    hide Exec, RegOk, Owners, JobEvents, Handed, RequestsKnow, Ordered, Pool;
    var s := Exec(cfg, steps);
    HeadHasBegun(s.jobs, s.requests, s.ready);
  }

  /** Every crawl whose dispatch began was handed its own event, the one under its id as
      long as it holds its slot: the fallback to a fresh event is never taken. */
  lemma {:induction false} DispatchIsHandedItsEvent(cfg: Config, steps: seq<Step>, j: Id)
    requires var s := Exec(cfg, steps); j in s.jobs && s.jobs[j].kind.Crawl? && !s.jobs[j].stage.Queued?
    ensures var s := Exec(cfg, steps);
      && HandedTo(s.jobs, j) == Some(s.jobs[j].event)
      && (j in s.reg.slots.active ==> j in s.reg.slots.flags && s.reg.slots.flags[j] == s.jobs[j].event)
  {
    RunsKeepInv(cfg, steps);
    var s := Exec(cfg, steps);
    FlagsAreClaims(cfg, s.reg);
    hide Exec, RegOk, Owners, RequestsKnow, Ordered, Pool;
  }

  /** The event loop goes on with a cancel, or a delete that read "running", that finds
      the job's slot still held. */
  ghost predicate Finds(s: Sys, step: Step, j: Id) {
    && step.Turn? && s.ready != [] && s.ready[0].Resume? && s.ready[0].request in s.requests
    && var r := s.requests[s.ready[0].request];
       r.phase.Due? && r.job == j && (r.verb == Cancel || r.verb == Delete(true)) && j in s.jobs && j in s.reg.slots.active
  }

  ghost predicate FoundAt(cfg: Config, steps: seq<Step>, j: Id, i: nat) {
    i < |steps| && Finds(Exec(cfg, steps[..i]), steps[i], j)
  }

  ghost predicate WasFound(cfg: Config, steps: seq<Step>, j: Id) {
    exists i: nat :: FoundAt(cfg, steps, j, i)
  }

  lemma FoundGrows(cfg: Config, steps: seq<Step>, j: Id)
    requires steps != []
    ensures var n := |steps| - 1;
      WasFound(cfg, steps, j) <==> WasFound(cfg, steps[..n], j) || Finds(Exec(cfg, steps[..n]), steps[n], j)
  {
    hide Finds, Apply;
    var n := |steps| - 1;
    var init := steps[..n];
    assert forall i: nat :: i < n ==> init[..i] == steps[..i];
    forall i: nat | i < n ensures FoundAt(cfg, init, j, i) <==> FoundAt(cfg, steps, j, i) {}
    assert FoundAt(cfg, steps, j, n) <==> Finds(Exec(cfg, init), steps[n], j);
    if WasFound(cfg, steps, j) && !FoundAt(cfg, steps, j, n) {
      var i: nat :| FoundAt(cfg, steps, j, i);
      assert FoundAt(cfg, init, j, i);
    }
    if WasFound(cfg, init, j) {
      var i: nat :| FoundAt(cfg, init, j, i);
      assert FoundAt(cfg, steps, j, i);
    }
    hide Exec;
  }

  /** Jobs are never forgotten and keep facet, kind and event. */
  lemma JobsKept(cfg: Config, s: Sys, step: Step, j: Id)
    requires j in s.jobs
    ensures j in Apply(cfg, s, step).jobs && SameJob(s.jobs[j], Apply(cfg, s, step).jobs[j])
  {
    TurnKeepsJobs(s);
    hide DoTurn, Dropped, Moved, Claimed, Doomed, Verdict, MayAsk, Freed, Phases, Admitted, Rekeyed, Failed, Died;
  }

  /** A turn sets an event only by going on with a request that finds the slot held. */
  lemma TurnSignals(cfg: Config, s: Sys, j: Id)
    requires Books(cfg, s.reg) && Events(s.reg) && JobEvents(s.reg, s.jobs) && j in s.jobs
    ensures s.jobs[j].event in DoTurn(s).reg.signalled
      <==> s.jobs[j].event in s.reg.signalled || Finds(s, Turn, j)
  {
    FlagsAreClaims(cfg, s.reg);
    hide Books, Dropped;
  }

  lemma SignalStep(cfg: Config, s: Sys, step: Step, j: Id)
    requires Inv(cfg, s) && j in s.jobs
    ensures s.jobs[j].event in Apply(cfg, s, step).reg.signalled
      <==> s.jobs[j].event in s.reg.signalled || Finds(s, step, j)
  {
    if step.Turn? {
      hide Books, DoTurn, Finds, Claimants, Owners, Handed, RequestsKnow, Ordered, Pool;
      TurnSignals(cfg, s, j);
    } else {
      hide Inv, DoTurn, Dropped, Moved, Claimed, Doomed, Grants, MayAsk, Phases, Stages;
    }
  }

  lemma OnlyCreateMakes(cfg: Config, s: Sys, step: Step, j: Id)
    requires j !in s.jobs && j in Apply(cfg, s, step).jobs
    ensures step.CreateSucceeds? && step.id == j && Creates(s, step.p, j)
  {
    TurnKeepsJobs(s);
    hide DoTurn, Dropped, Moved, Claimed, Doomed, Grants, MayAsk, Phases, Freed, Rekeyed, Failed, Died, Admitted;
  }

  /** A job starts out with an event nobody has set, waiting for its first turn. */
  lemma NewJobUnsignalled(cfg: Config, s: Sys, step: Step, j: Id)
    requires Inv(cfg, s) && j !in s.jobs && j in Apply(cfg, s, step).jobs
    ensures var t := Apply(cfg, s, step); t.jobs[j].event !in t.reg.signalled && t.jobs[j].stage.Queued?
  {
    OnlyCreateMakes(cfg, s, step, j);
    CreateIs(cfg, s, step.p, j);
    hide Apply, RegOk, Owners, JobEvents, Handed, RequestsKnow, Ordered, Pool, Moved, Doomed;
    AdmissionUnsignalled(cfg, s.reg, step.p);
  }

  lemma CreateIs(cfg: Config, s: Sys, p: Id, id: Id)
    requires Creates(s, p, id)
    ensures Apply(cfg, s, CreateSucceeds(p, id)) == DoCreate(s, p, id)
  {
    hide Creates, DoCreate;
  }

  lemma AdmissionUnsignalled(cfg: Config, g: Registry, p: Id)
    requires RegOk(cfg, g) && p in g.admissions
    ensures g.admissions[p].event !in g.signalled
  {
    AdmissionFacts(cfg, g, p);
    hide Books, Claimants;
  }

  lemma FindsKnown(s: Sys, step: Step, j: Id)
    requires j !in s.jobs
    ensures !Finds(s, step, j)
  {
  }

  lemma {:induction false} UnknownIsUnfound(cfg: Config, steps: seq<Step>, j: Id)
    requires j !in Exec(cfg, steps).jobs
    ensures !WasFound(cfg, steps, j)
  {
    hide Apply, Finds;
    if steps != [] {
      var n := |steps| - 1;
      var s := Exec(cfg, steps[..n]);
      if j in s.jobs {
        JobsKept(cfg, s, steps[n], j);
      }
      UnknownIsUnfound(cfg, steps[..n], j);
      FindsKnown(s, steps[n], j);
      FoundGrows(cfg, steps, j);
    }
  }

  /** A job's own event is set exactly when some cancel, or delete of a running job,
      found its slot held. */
  lemma {:induction false} SignalledExactly(cfg: Config, steps: seq<Step>, j: Id)
    requires j in Exec(cfg, steps).jobs
    ensures Exec(cfg, steps).jobs[j].event in Exec(cfg, steps).reg.signalled <==> WasFound(cfg, steps, j)
  {
    hide Apply, Inv, Finds, WasFound;
    if steps != [] {
      var n := |steps| - 1;
      var s := Exec(cfg, steps[..n]);
      RunsKeepInv(cfg, steps[..n]);
      FoundGrows(cfg, steps, j);
      if j in s.jobs {
        SignalledExactly(cfg, steps[..n], j);
        SignalStep(cfg, s, steps[n], j);
        JobsKept(cfg, s, steps[n], j);
      } else {
        NewJobUnsignalled(cfg, s, steps[n], j);
        UnknownIsUnfound(cfg, steps[..n], j);
        FindsKnown(s, steps[n], j);
      }
    }
  }

  /** A cancel reaches the crawl: the event a crawl's thread watches, from its dispatch's
      first turn on, is set exactly when some cancel or delete found the slot held. */
  lemma {:induction false} CancelReachesCrawlExactly(cfg: Config, steps: seq<Step>, j: Id)
    requires var s := Exec(cfg, steps); j in s.jobs && s.jobs[j].kind.Crawl? && !s.jobs[j].stage.Queued?
    ensures var s := Exec(cfg, steps);
      HandedTo(s.jobs, j).Some?
      && (HandedTo(s.jobs, j).value in s.reg.signalled <==> WasFound(cfg, steps, j))
  {
    DispatchIsHandedItsEvent(cfg, steps, j);
    SignalledExactly(cfg, steps, j);
    hide Exec, WasFound;
  }

  // ------------------------------------------------------------ slots and threads

  /** A first turn takes no claim and ends no job. */
  lemma StartFrees(s: Sys, i: Id, j: Id)
    requires j in s.jobs
    ensures DoStart(s, i).reg.claims == s.reg.claims
    ensures j in DoStart(s, i).jobs && (DoStart(s, i).jobs[j].stage.Ended? <==> s.jobs[j].stage.Ended?)
  {
  }

  lemma ResumeFrees(s: Sys, r: nat, j: Id)
    requires j in s.jobs
    ensures DoResume(s, r).jobs == s.jobs
    ensures j !in s.reg.claims ==> j !in DoResume(s, r).reg.claims
    ensures j in s.reg.claims && j !in DoResume(s, r).reg.claims ==>
      && r in s.requests && s.requests[r].phase.Due? && s.requests[r].job == j
      && (s.requests[r].verb == Cancel || s.requests[r].verb == Delete(true))
  {
    hide Dropped;
  }

  /** Only the `finally` and a request that finds the slot take a job's slot. */
  lemma TurnFrees(cfg: Config, s: Sys, j: Id)
    requires Books(cfg, s.reg) && j in s.jobs
    ensures j in s.reg.claims && !Finds(s, Turn, j) ==> j in DoTurn(s).reg.claims
    ensures j !in s.reg.claims ==> j !in DoTurn(s).reg.claims
    ensures j in DoTurn(s).jobs && (DoTurn(s).jobs[j].stage.Ended? <==> s.jobs[j].stage.Ended?)
  {
    FlagsAreClaims(cfg, s.reg);
    hide Books, DoStart, DoResume;
    if s.ready != [] {
      var rest := s.(ready := s.ready[1..]);
      match s.ready[0]
      case Start(i) => StartFrees(rest, i, j);
      case Resume(r) => ResumeFrees(rest, r, j);
    }
  }

  /** Threads that still hold a slot are within the cap, all of them within the executor's
      size, and one that holds none had its slot taken by a cancel or delete. */
  lemma {:induction false} ThreadsHoldOrDrain(cfg: Config, steps: seq<Step>)
    ensures var s := Exec(cfg, steps);
      && |Threads(s.jobs)| <= cfg.threads
      && |Threads(s.jobs) * s.reg.slots.active| <= cfg.maxJobs
      && forall j :: j in Threads(s.jobs) && j !in s.reg.slots.active ==> WasFound(cfg, steps, j)
  {
    RunsKeepInv(cfg, steps);
    var s := Exec(cfg, steps);
    FlagsAreClaims(cfg, s.reg);
    hide Exec, Owners, JobEvents, Handed, RequestsKnow, Ordered, Claimants, Events, Represents, WasFound;
    SubsetFits(Threads(s.jobs) * s.reg.slots.active, s.reg.slots.active);
    forall j | j in Threads(s.jobs) && j !in s.reg.slots.active ensures WasFound(cfg, steps, j) {
      SlotlessWasFound(cfg, steps, j);
    }
  }

  /** No other step takes a job's claim, and a new job has one. */
  lemma OthersKeepClaims(cfg: Config, s: Sys, step: Step, j: Id)
    requires j.Stored? && !step.Turn? && step != Finish(j) && forall p :: p in s.reg.admissions ==> p.Pending?
    ensures j in s.reg.claims ==> j in Apply(cfg, s, step).reg.claims
    ensures j !in s.jobs && j in Apply(cfg, s, step).jobs ==> j in Apply(cfg, s, step).reg.claims
  {
    hide DoTurn, Dropped, Moved, Claimed, Doomed, Grants, MayAsk, Phases;
  }

  lemma FinishEnds(cfg: Config, s: Sys, j: Id)
    requires Apply(cfg, s, Finish(j)) != s
    ensures var t := Apply(cfg, s, Finish(j)); j in t.jobs && t.jobs[j].stage.Ended?
  {
    hide DoTurn, Dropped;
  }

  lemma JobEnds(cfg: Config, s: Sys, step: Step, j: Id)
    requires j in s.jobs && s.jobs[j].stage.Ended?
    ensures j in Apply(cfg, s, step).jobs && Apply(cfg, s, step).jobs[j].stage.Ended?
  {
    TurnKeepsEnded(s, j);
    hide DoTurn, Dropped, Moved, Claimed, Doomed, Grants, MayAsk, Phases, Freed, Rekeyed, Failed, Died, Admitted;
  }

  lemma TurnKeepsEnded(s: Sys, j: Id)
    requires j in s.jobs && s.jobs[j].stage.Ended?
    ensures j in DoTurn(s).jobs && DoTurn(s).jobs[j].stage.Ended?
  {
    hide Freed, Signal;
  }

  lemma StoredFacts(cfg: Config, s: Sys, step: Step, j: Id)
    requires Inv(cfg, s) && j in Apply(cfg, s, step).jobs
    ensures j.Stored? && forall p :: p in s.reg.admissions ==> p.Pending?
  {
    if j !in s.jobs {
      OnlyCreateAdds(cfg, s, step, j);
    }
    hide Apply, Books, Events, JobEvents, Handed, RequestsKnow, Ordered, Pool;
  }

  lemma OnlyCreateAdds(cfg: Config, s: Sys, step: Step, j: Id)
    requires j !in s.jobs && j in Apply(cfg, s, step).jobs
    ensures j.Stored?
  {
    TurnKeepsJobs(s);
    hide DoTurn, Dropped, Moved, Claimed, Doomed, Grants, MayAsk, Phases, Freed, Rekeyed, Failed, Died, Admitted;
  }

  lemma SlotlessStep(cfg: Config, s: Sys, step: Step, j: Id)
    requires Inv(cfg, s)
    requires var t := Apply(cfg, s, step); j in t.jobs && !t.jobs[j].stage.Ended? && j !in t.reg.claims
    ensures j in s.jobs && !s.jobs[j].stage.Ended?
    ensures j !in s.reg.claims || Finds(s, step, j)
  {
    StoredFacts(cfg, s, step, j);
    if j in s.jobs && s.jobs[j].stage.Ended? {
      JobEnds(cfg, s, step, j);
    }
    if step.Turn? {
      TurnKeepsJobs(s);
      assert Books(cfg, s.reg);
      hide Inv, DoTurn, Finds, Books;
      TurnFrees(cfg, s, j);
    } else if step == Finish(j) {
      hide Inv, Finds;
      if Apply(cfg, s, step) != s {
        FinishEnds(cfg, s, j);
      }
      hide Apply;
    } else {
      hide Inv, Finds;
      OthersKeepClaims(cfg, s, step, j);
      hide Apply;
    }
  }

  lemma {:induction false} SlotlessWasFound(cfg: Config, steps: seq<Step>, j: Id)
    requires var s := Exec(cfg, steps); j in s.jobs && !s.jobs[j].stage.Ended? && j !in s.reg.claims
    ensures WasFound(cfg, steps, j)
  {
    hide Apply, Inv, Finds, WasFound;
    if steps != [] {
      var n := |steps| - 1;
      RunsKeepInv(cfg, steps[..n]);
      SlotlessStep(cfg, Exec(cfg, steps[..n]), steps[n], j);
      FoundGrows(cfg, steps, j);
      if j !in Exec(cfg, steps[..n]).reg.claims {
        SlotlessWasFound(cfg, steps[..n], j);
      }
    }
  }

  // ------------------------------------------------------------ more threads than slots

  function Run(cfg: Config, s: Sys, steps: seq<Step>): Sys
    decreases |steps|
  {
    if steps == [] then s else Run(cfg, Apply(cfg, s, steps[0]), steps[1..])
  }

  lemma {:induction false} ExecThenRun(cfg: Config, a: seq<Step>, b: seq<Step>)
    ensures Exec(cfg, a + b) == Run(cfg, Exec(cfg, a), b)
    decreases |b|
  {
    hide Apply;
    if b == [] {
      assert a + b == a;
    } else {
      assert a + b == (a + [b[0]]) + b[1..];
      OneMore(cfg, a, b[0]);
      ExecThenRun(cfg, a + [b[0]], b[1..]);
    }
  }

  lemma FourSteps(cfg: Config, s: Sys, a: Step, b: Step, c: Step, d: Step)
    ensures Run(cfg, s, [a, b, c, d]) == Apply(cfg, Apply(cfg, Apply(cfg, Apply(cfg, s, a), b), c), d)
  {
    hide Apply;
    assert [a, b, c, d][1..] == [b, c, d] && [b, c, d][1..] == [c, d] && [c, d][1..] == [d] && [d][1..] == [];
    var s1 := Apply(cfg, s, a);
    var s2 := Apply(cfg, s1, b);
    assert Run(cfg, s2, [c, d]) == Run(cfg, Apply(cfg, s2, c), [d]);
    assert Run(cfg, s1, [b, c, d]) == Run(cfg, s2, [c, d]);
  }

  /** Crawl `n` is admitted and gets a thread. */
  function Launch(n: nat, f: Facet): seq<Step> {
    [Reserve(Pending(n), f, Crawl), CreateSucceeds(Pending(n), Stored(n)), Turn, TakeThread(Stored(n))]
  }

  /** Crawl `n` is cancelled. */
  function CancelIt(n: nat): seq<Step> {
    [Ask(n, Stored(n), Cancel), TakeCheck(n), CheckEnds(n, true), Turn]
  }

  function ManyCancelled(n: nat, f: Facet): seq<Step> {
    if n == 0 then [] else ManyCancelled(n - 1, f) + Launch(n - 1, f) + CancelIt(n - 1)
  }

  /** The first `n` crawls have a live thread each; `held` are those that hold a slot. */
  ghost predicate Piled(s: Sys, n: nat, asked: nat, held: set<Id>) {
    && s.reg.claims.Keys == held && s.reg.admissions == map[] && s.deleted == {} && s.ready == [] && s.live == n
    && (forall k: nat :: Stored(k) in s.jobs <==> k < n)
    && (forall k: nat :: k < n ==> s.jobs[Stored(k)].stage.Working?)
    && (forall r: nat :: r in s.requests <==> r < asked)
  }

  /** Between launches: as `Piled`, with crawl `n` on its way. */
  ghost predicate Launching(s: Sys, n: nat, f: Facet, stage: Stage) {
    && s.reg.claims.Keys == {Stored(n)} && s.reg.admissions == map[] && s.deleted == {} && s.live == n
    && (forall k: nat :: Stored(k) in s.jobs <==> k <= n)
    && (forall k: nat :: k < n ==> s.jobs[Stored(k)].stage.Working?)
    && (forall r: nat :: r in s.requests <==> r < n)
    && s.jobs[Stored(n)].kind.Crawl?
    && (if stage.Queued? then s.jobs[Stored(n)].stage.Queued? && s.ready == [Start(Stored(n))]
        else s.jobs[Stored(n)].stage.Pooled? && s.ready == [])
  }

  lemma EmptyGrants(cfg: Config, g: Registry, p: Id, f: Facet)
    requires Books(cfg, g) && g.claims.Keys == {} && p.Pending?
    requires cfg.maxJobs >= 1 && f in cfg.caps && cfg.caps[f] >= 1
    ensures Grants(cfg, g, p, f)
  {
    NoClaimNoSlot(g.slots, g.claims, f);
    hide Represents, WithinCaps;
  }

  lemma ReserveIs(cfg: Config, s: Sys, p: Id, f: Facet, kind: Kind)
    requires Grants(cfg, s.reg, p, f)
    ensures Apply(cfg, s, Reserve(p, f, kind)) == s.(reg := Admitted(s.reg, p, f, kind))
  {
    hide Grants, Admitted, DoTurn;
  }

  lemma LaunchAdmits(cfg: Config, s: Sys, n: nat, f: Facet)
    requires Books(cfg, s.reg) && Piled(s, n, n, {})
    requires cfg.maxJobs >= 1 && f in cfg.caps && cfg.caps[f] >= 1
    ensures var t := Apply(cfg, Apply(cfg, s, Reserve(Pending(n), f, Crawl)), CreateSucceeds(Pending(n), Stored(n)));
      Launching(t, n, f, Queued)
  {
    hide Books, Grants, Claimed, Moved, Apply;
    EmptyGrants(cfg, s.reg, Pending(n), f);
    ReserveIs(cfg, s, Pending(n), f, Crawl);
    var g := Admitted(s.reg, Pending(n), f, Crawl);
    var s1 := s.(reg := g);
    assert g.admissions == map[Pending(n) := Claimant(f, Crawl, s.reg.nextEvent)];
    assert g.claims.Keys == {Pending(n)};
    assert Stored(n) !in s.jobs;
    CreateIs(cfg, s1, Pending(n), Stored(n));
    CreateLaunches(s, s1, n, f);
  }

  lemma CreateLaunches(s: Sys, s1: Sys, n: nat, f: Facet)
    requires Piled(s, n, n, {}) && s1 == s.(reg := s1.reg) && s1.reg.claims.Keys == {Pending(n)}
    requires s1.reg.admissions == map[Pending(n) := Claimant(f, Crawl, s.reg.nextEvent)]
    ensures Launching(DoCreate(s1, Pending(n), Stored(n)), n, f, Queued)
  {
    hide Moved;
    var t := DoCreate(s1, Pending(n), Stored(n));
    assert t.reg.claims.Keys == {Stored(n)} && t.reg.admissions == map[];
    assert t.jobs == s.jobs[Stored(n) := Job(f, Crawl, s.reg.nextEvent, Queued)];
    assert t.ready == [Start(Stored(n))];
    hide DoCreate;
  }

  lemma LaunchStarts(cfg: Config, s: Sys, n: nat, f: Facet)
    requires Launching(s, n, f, Queued) && n < cfg.threads
    ensures Piled(Apply(cfg, Apply(cfg, s, Turn), TakeThread(Stored(n))), n + 1, n, {Stored(n)})
  {
    var rest := s.(ready := s.ready[1..]);
    assert rest.ready == [];
    var t := DoStart(rest, Stored(n));
    assert Apply(cfg, s, Turn) == t by { TurnIs(cfg, s); }
    assert t.jobs[Stored(n)].stage.Pooled? && t.live == n;
    TakeThreadIs(cfg, t, Stored(n));
    hide Apply;
  }

  lemma TurnIs(cfg: Config, s: Sys)
    ensures Apply(cfg, s, Turn) == DoTurn(s)
  {
    hide DoTurn;
  }

  lemma TakeThreadIs(cfg: Config, s: Sys, j: Id)
    requires j in s.jobs && s.jobs[j].stage.Pooled? && s.live < cfg.threads
    ensures Apply(cfg, s, TakeThread(j))
         == s.(jobs := Stages(s.jobs, j, Working(s.jobs[j].stage.handed)), live := s.live + 1)
  {
    hide DoTurn, Stages;
  }

  lemma CancelDrains(cfg: Config, s: Sys, n: nat)
    requires Piled(s, n + 1, n, {Stored(n)}) && n + 2 <= cfg.threads
    ensures var t := Apply(cfg, Apply(cfg, Apply(cfg, s, Ask(n, Stored(n), Cancel)), TakeCheck(n)), CheckEnds(n, true));
      Piled(Apply(cfg, t, Turn), n + 1, n + 1, {})
  {
    var j := Stored(n);
    var s1 := s.(requests := s.requests[n := Request(j, Cancel, Asked)]);
    var s2 := s1.(requests := s.requests[n := Request(j, Cancel, Checking)], live := n + 2);
    var s3 := s2.(requests := s.requests[n := Request(j, Cancel, Due)], live := n + 1, ready := [Resume(n)]);
    CheckStepsAre(cfg, s, n, j);
    TurnIs(cfg, s3);
    hide Apply;
    assert s3.ready[1..] == [];
    var t := DoResume(s3.(ready := []), n);
    assert DoTurn(s3) == t;
    hide DoTurn, Dropped;
    assert t.reg.claims == s.reg.claims - {j};
    assert t.reg.claims.Keys == {};
    assert t.requests == s.requests[n := Request(j, Cancel, Over)];
  }

  lemma CheckStepsAre(cfg: Config, s: Sys, n: nat, j: Id)
    requires MayAsk(s, n, j, Cancel) && s.live + 1 <= cfg.threads
    ensures var t := Apply(cfg, Apply(cfg, Apply(cfg, s, Ask(n, j, Cancel)), TakeCheck(n)), CheckEnds(n, true));
      t == s.(requests := s.requests[n := Request(j, Cancel, Due)], ready := s.ready + [Resume(n)])
  {
    hide DoTurn, MayAsk;
    var s1 := Apply(cfg, s, Ask(n, j, Cancel));
    assert s1 == s.(requests := s.requests[n := Request(j, Cancel, Asked)]);
    var s2 := Apply(cfg, s1, TakeCheck(n));
    assert s1.requests[n := Request(j, Cancel, Checking)] == s.requests[n := Request(j, Cancel, Checking)];
    assert s2 == s.(requests := s.requests[n := Request(j, Cancel, Checking)], live := s.live + 1);
    assert s2.requests[n := Request(j, Cancel, Due)] == s.requests[n := Request(j, Cancel, Due)];
  }

  lemma {:induction false} PileUp(cfg: Config, n: nat, f: Facet)
    requires n < cfg.threads && cfg.maxJobs >= 1 && f in cfg.caps && cfg.caps[f] >= 1
    ensures Piled(Exec(cfg, ManyCancelled(n, f)), n, n, {})
  {
    hide Apply, Piled, Exec, Launch, CancelIt;
    if n == 0 {
      NothingPiled(cfg);
    } else {
      var before := ManyCancelled(n - 1, f);
      PileUp(cfg, n - 1, f);
      LaunchOne(cfg, before, n - 1, f);
      CancelOne(cfg, before + Launch(n - 1, f), n - 1);
    }
  }

  lemma NothingPiled(cfg: Config)
    ensures Piled(Exec(cfg, []), 0, 0, {})
  {
  }

  lemma LaunchOne(cfg: Config, before: seq<Step>, n: nat, f: Facet)
    requires Piled(Exec(cfg, before), n, n, {}) && n < cfg.threads
    requires cfg.maxJobs >= 1 && f in cfg.caps && cfg.caps[f] >= 1
    ensures Piled(Exec(cfg, before + Launch(n, f)), n + 1, n, {Stored(n)})
  {
    RunsKeepInv(cfg, before);
    assert Books(cfg, Exec(cfg, before).reg);
    hide Apply, Piled, Launching, Inv, Books;
    ExecThenRun(cfg, before, Launch(n, f));
    var s := Exec(cfg, before);
    FourSteps(cfg, s, Reserve(Pending(n), f, Crawl), CreateSucceeds(Pending(n), Stored(n)), Turn, TakeThread(Stored(n)));
    LaunchAdmits(cfg, s, n, f);
    LaunchStarts(cfg, Apply(cfg, Apply(cfg, s, Reserve(Pending(n), f, Crawl)), CreateSucceeds(Pending(n), Stored(n))), n, f);
    hide Exec, Run;
  }

  lemma CancelOne(cfg: Config, before: seq<Step>, n: nat)
    requires Piled(Exec(cfg, before), n + 1, n, {Stored(n)}) && n + 2 <= cfg.threads
    ensures Piled(Exec(cfg, before + CancelIt(n)), n + 1, n + 1, {})
  {
    hide Apply, Piled;
    ExecThenRun(cfg, before, CancelIt(n));
    FourSteps(cfg, Exec(cfg, before), Ask(n, Stored(n), Cancel), TakeCheck(n), CheckEnds(n, true), Turn);
    CancelDrains(cfg, Exec(cfg, before), n);
    hide Exec, Run;
  }

  /** Slots bound holders, not threads: even with one slot there are runs in which any
      number of crawl threads up to the executor's size is alive, and only one of them
      holds a slot. `ThreadsHoldOrDrain` says that there are never more. */
  lemma {:induction false} ThreadsCanFillTheExecutor(cfg: Config, n: nat, f: Facet)
    requires 1 <= n <= cfg.threads && cfg.maxJobs >= 1 && f in cfg.caps && cfg.caps[f] >= 1
    ensures var s := Exec(cfg, ManyCancelled(n - 1, f) + Launch(n - 1, f));
      && s.reg.slots.active == {Stored(n - 1)}
      && forall k: nat :: Stored(k) in Threads(s.jobs) <==> k < n
  {
    PileUp(cfg, n - 1, f);
    LaunchOne(cfg, ManyCancelled(n - 1, f), n - 1, f);
    var run := ManyCancelled(n - 1, f) + Launch(n - 1, f);
    RunsKeepInv(cfg, run);
    FlagsAreClaims(cfg, Exec(cfg, run).reg);
    hide Exec, Inv, Launch, ManyCancelled;
  }
}
