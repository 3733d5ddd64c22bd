/** Workbook builds of src/api/deliverables_routes.py: a slot claimed before the job
    exists, and an uploaded bundle that must live exactly as long as its build.

    The classes carry the effects of one request in the order the handlers sequence
    them, exceptions included. The steps below let requests interleave.
 */
module Deliverables {
  import opened Common
  import opened Admission

  type Path = nat

  /** What the store answers: the id it minted, or `None` for an exception. */
  type Created = Option<Id>

  datatype Answer = Accepted(id: Id) | Saturated | StoreFailed | WriteFailed

  datatype Server = Server(active: set<Id>, files: set<Path>)

  function Of<T(==)>(x: Option<T>): set<T> {
    if x.Some? then {x.value} else {}
  }

  /** What one whole `_start_build` does to the slots and the bundles. */
  function Started(max: nat, v: Server, pending: Id, created: Created, bundle: Option<Path>): (Server, Answer) {
    if |v.active| >= max then (Server(v.active, v.files - Of(bundle)), Saturated)
    else if created.None? then (Server(v.active - {pending}, v.files - Of(bundle)), StoreFailed)
    else (Server(v.active - {pending} + {created.value}, v.files), Accepted(created.value))
  }

  /** The deliverable half of `ApiState`. */
  class BuildSlots {
    const max: nat
    var active: set<Id>

    constructor (max: nat)
      ensures this.max == max && active == {}
    {
      this.max := max;
      active := {};
    }

    method TryReserve(id: Id) returns (ok: bool)
      modifies this
      ensures ok <==> |old(active)| < max
      ensures active == if ok then old(active) + {id} else old(active)
    {
      if |active| >= max {
        return false;
      }
      active := active + {id};
      return true;
    }

    method Release(id: Id)
      modifies this
      ensures active == old(active) - {id}
    {
      active := active - {id};
    }

    method Rekey(provisional: Id, id: Id)
      modifies this
      ensures active == old(active) - {provisional} + {id}
    {
      active := active - {provisional};
      active := active + {id};
    }
  }

  /** The temporary bundles under the deliverable store's root. */
  class StoreRoot {
    var files: set<Path>

    /** `mkstemp` draws a name that is not there. */
    method MakeTemp(path: Path)
      requires path !in files
      modifies this
      ensures files == old(files) + {path}
    {
      files := files + {path};
    }

    /** `unlink(missing_ok=True)`. */
    method Unlink(path: Path)
      modifies this
      ensures files == old(files) - {path}
    {
      files := files - {path};
    }
  }

  /** The `cleanup` callback, when there is one. */
  method CleanUp(root: StoreRoot, bundle: Option<Path>)
    modifies root
    ensures root.files == old(root.files) - Of(bundle)
  {
    if bundle.Some? {
      root.Unlink(bundle.value);
    }
  }

  method StartBuild(slots: BuildSlots, root: StoreRoot, pending: Id, created: Created, bundle: Option<Path>)
    returns (answer: Answer)
    modifies slots, root
    ensures answer.Saturated? <==> |old(slots.active)| >= slots.max
    ensures answer.StoreFailed? <==> |old(slots.active)| < slots.max && created.None?
    ensures answer.Accepted? <==> |old(slots.active)| < slots.max && created.Some?
    ensures answer.Accepted? ==>
      && created == Some(answer.id) && root.files == old(root.files)
      && slots.active == old(slots.active) - {pending} + {answer.id}
    ensures !answer.Accepted? ==> root.files == old(root.files) - Of(bundle)
    ensures answer.Saturated? ==> slots.active == old(slots.active)
    ensures answer.StoreFailed? ==> slots.active == old(slots.active) - {pending}
    ensures (Server(slots.active, root.files), answer)
         == Started(slots.max, old(Server(slots.active, root.files)), pending, created, bundle)
  {
    var reserved := slots.TryReserve(pending);
    if !reserved {
      CleanUp(root, bundle);
      return Saturated;
    }
    if created.None? {
      slots.Release(pending);
      CleanUp(root, bundle);
      assert old(slots.active) + {pending} - {pending} == old(slots.active) - {pending};
      return StoreFailed;
    }
    slots.Rekey(pending, created.value);
    assert old(slots.active) + {pending} - {pending} == old(slots.active) - {pending};
    return Accepted(created.value);
  }

  /** `build_from_screaming_frog` from the temporary file on. Unless the build is
      accepted, the request leaves neither a slot nor a file. */
  method BuildFromScreamingFrog(slots: BuildSlots, root: StoreRoot, path: Path, written: bool,
                                pending: Id, created: Created)
    returns (answer: Answer)
    requires path !in root.files && pending !in slots.active
    modifies slots, root
    ensures answer.Accepted? ==>
      && written && created == Some(answer.id) && |old(slots.active)| < slots.max
      && slots.active == old(slots.active) + {answer.id}
      && root.files == old(root.files) + {path}
    ensures !answer.Accepted? ==>
      slots.active == old(slots.active) && root.files == old(root.files)
    ensures answer.Accepted? <==> written && |old(slots.active)| < slots.max && created.Some?
    ensures answer.WriteFailed? <==> !written
    ensures answer.Saturated? <==> written && |old(slots.active)| >= slots.max
  {
    root.MakeTemp(path);
    if !written {
      root.Unlink(path);
      return WriteFailed;
    }
    answer := StartBuild(slots, root, pending, created, Some(path));
    if answer.Saturated? {
      root.Unlink(path);
    }
  }

  /** `_dispatch_build`: the `finally` runs whether or not the build raised. */
  method DispatchBuild(slots: BuildSlots, root: StoreRoot, id: Id, bundle: Option<Path>)
    modifies slots, root
    ensures slots.active == old(slots.active) - {id}
    ensures root.files == old(root.files) - Of(bundle)
  {
    slots.Release(id);
    CleanUp(root, bundle);
  }

  // ------------------------------------------------------------ interleavings

  /** Where one request stands. `Refused` may still run its route's second unlink. */
  datatype Phase =
    | Saved(bundle: Option<Path>)
    | Reserving(bundle: Option<Path>)
    | Building(id: Id, bundle: Option<Path>)
    | Released(bundle: Option<Path>)
    | Refused(bundle: Option<Path>)
    | Over

  /** A request is named by the uuid of its provisional id. `drawn` are the temporary
      names ever used and `minted` the ids: neither is used twice. */
  datatype Sys = Sys(v: Server, requests: map<nat, Phase>, drawn: set<Path>, minted: set<Id>)

  datatype Step =
    | Save(r: nat, bundle: Option<Path>, written: bool)
    | Admit(r: nat)
    | CreateFails(r: nat)
    | CreateSucceeds(r: nat, id: Id)
    | Release(r: nat)
    | RunCleanup(r: nat)
    | UnlinkAgain(r: nat)

  function Init(): Sys {
    Sys(Server({}, {}), map[], {}, {})
  }

  function Apply(max: nat, s: Sys, step: Step): Sys {
    match step
    case Save(r, bundle, written) =>
      if r in s.requests || (bundle.Some? && bundle.value in s.drawn) then s
      else s.(v := if written then Server(s.v.active, s.v.files + Of(bundle)) else s.v,
              requests := s.requests[r := if written then Saved(bundle) else Over],
              drawn := s.drawn + Of(bundle))
    case Admit(r) =>
      if r !in s.requests || !s.requests[r].Saved? then s
      else
        var b := s.requests[r].bundle;
        if |s.v.active| >= max then
          s.(v := Server(s.v.active, s.v.files - Of(b)), requests := s.requests[r := Refused(b)])
        else s.(v := Server(s.v.active + {Pending(r)}, s.v.files), requests := s.requests[r := Reserving(b)])
    case CreateFails(r) =>
      if r !in s.requests || !s.requests[r].Reserving? then s
      else
        var b := s.requests[r].bundle;
        s.(v := Server(s.v.active - {Pending(r)}, s.v.files - Of(b)), requests := s.requests[r := Refused(b)])
    case CreateSucceeds(r, id) =>
      if r !in s.requests || !s.requests[r].Reserving? || !id.Stored? || id in s.minted then s
      else s.(v := Server(s.v.active - {Pending(r)} + {id}, s.v.files),
              requests := s.requests[r := Building(id, s.requests[r].bundle)],
              minted := s.minted + {id})
    case Release(r) =>
      if r !in s.requests || !s.requests[r].Building? then s
      else s.(v := Server(s.v.active - {s.requests[r].id}, s.v.files),
              requests := s.requests[r := Released(s.requests[r].bundle)])
    case RunCleanup(r) =>
      if r !in s.requests || !s.requests[r].Released? then s
      else s.(v := Server(s.v.active, s.v.files - Of(s.requests[r].bundle)), requests := s.requests[r := Over])
    case UnlinkAgain(r) =>
      if r !in s.requests || !s.requests[r].Refused? then s
      else s.(v := Server(s.v.active, s.v.files - Of(s.requests[r].bundle)), requests := s.requests[r := Over])
  }

  function Exec(max: nat, steps: seq<Step>): Sys {
    if steps == [] then Init()
    else Apply(max, Exec(max, steps[..|steps| - 1]), steps[|steps| - 1])
  }

  // ------------------------------------------------------------ who owns what

  /** `held` is exactly what the owners own, and no two own the same. */
  ghost predicate Owns<T>(own: map<nat, T>, held: set<T>) {
    && (forall r :: r in own ==> own[r] in held)
    && (forall x :: x in held ==> exists r :: r in own && own[r] == x)
    && (forall r, q :: r in own && q in own && own[r] == own[q] ==> r == q)
  }

  function At<T>(own: map<nat, T>, r: nat): Option<T> {
    if r in own then Some(own[r]) else None
  }

  function Put<T>(own: map<nat, T>, r: nat, x: Option<T>): map<nat, T> {
    if x.Some? then own[r := x.value] else own - {r}
  }

  /** An owner keeps what it has, gives it up, or gets something nobody holds. */
  predicate Exchange<T(==)>(held: set<T>, held': set<T>, before: Option<T>, after: Option<T>) {
    || (held' == held && after == before)
    || (held' == held - Of(before) && after.None?)
    || (held' == held + Of(after) && before.None? && Of(after) !! held)
    || (held' == held - Of(before) + Of(after) && Of(after) !! held)
  }

  lemma ExchangeCases<T(!new)>(held: set<T>)
    ensures forall x: Option<T> :: Exchange(held, held, x, x)
    ensures forall x: T :: Exchange(held, held - {x}, Some(x), None)
    ensures forall x: T {:trigger held + {x}} :: x !in held ==> Exchange(held, held + {x}, None, Some(x))
    ensures forall x: T, y: T {:trigger held - {x} + {y}} ::
      y !in held ==> Exchange(held, held - {x} + {y}, Some(x), Some(y))
  {
  }

  lemma Reassign<T>(own: map<nat, T>, held: set<T>, held': set<T>, r: nat, after: Option<T>)
    requires Owns(own, held) && Exchange(held, held', At(own, r), after)
    ensures Owns(Put(own, r, after), held')
  {
    var own' := Put(own, r, after);
    assert r in own ==> own[r] in held;
    forall y | y in held' ensures exists q :: q in own' && own'[q] == y {
      if after == Some(y) {
        assert own'[r] == y;
      } else {
        var q :| q in own && own[q] == y;
        assert q != r && own'[q] == y;
      }
    }
  }

  /** As many owners as things owned. */
  lemma {:induction false} OwnsCount<T>(own: map<nat, T>, held: set<T>)
    requires Owns(own, held)
    ensures |own.Keys| == |held|
  {
    if own.Keys == {} {
      assert own == map[];
      assert held == {};
    } else {
      var r :| r in own;
      Reassign(own, held, held - {own[r]}, r, None);
      OwnsCount(own - {r}, held - {own[r]});
      assert (own - {r}).Keys == own.Keys - {r};
    }
  }

  /** The slot a request holds, if its phase holds one. */
  function Slot(r: nat, p: Phase): Option<Id> {
    match p
    case Reserving(_) => Some(Pending(r))
    case Building(id, _) => Some(id)
    case _ => None
  }

  /** The bundle a request still needs. */
  function Needs(p: Phase): Option<Path> {
    if p.Saved? || p.Reserving? || p.Building? || p.Released? then p.bundle else None
  }

  /** The bundle a request may still unlink. */
  function Touches(p: Phase): Option<Path> {
    if p.Over? then None else p.bundle
  }

  function Slots(requests: map<nat, Phase>): map<nat, Id> {
    map r | r in requests && Slot(r, requests[r]).Some? :: Slot(r, requests[r]).value
  }

  function Bundles(requests: map<nat, Phase>): map<nat, Path> {
    map r | r in requests && Needs(requests[r]).Some? :: Needs(requests[r]).value
  }

  lemma ViewsPut(requests: map<nat, Phase>, r: nat, p: Phase)
    ensures Slots(requests[r := p]) == Put(Slots(requests), r, Slot(r, p))
    ensures Bundles(requests[r := p]) == Put(Bundles(requests), r, Needs(p))
  {
  }

  /** The slots are exactly those of the requests that hold one, one each. */
  ghost predicate SlotsMatch(max: nat, s: Sys) {
    Owns(Slots(s.requests), s.v.active) && |s.v.active| <= max && IdsMinted(s)
  }

  ghost predicate IdsMinted(s: Sys) {
    && (forall id :: id in s.v.active && id.Stored? ==> id in s.minted)
    && (forall r :: r in s.requests && s.requests[r].Building? ==> s.requests[r].id.Stored?)
  }

  /** The files are exactly the bundles still needed, and no request can unlink
      another's. */
  ghost predicate FilesMatch(s: Sys) {
    Owns(Bundles(s.requests), s.v.files) && Apart(s)
  }

  ghost predicate Apart(s: Sys) {
    && (forall r, q :: r in s.requests && q in s.requests && r != q && Touches(s.requests[r]).Some? ==>
          Touches(s.requests[r]) != Touches(s.requests[q]))
    && (forall r :: r in s.requests && Touches(s.requests[r]).Some? ==> Touches(s.requests[r]).value in s.drawn)
  }

  /** A provisional id in use is the one of the request it is named after. */
  lemma PendingIsOwn(max: nat, s: Sys, r: nat)
    requires SlotsMatch(max, s) && Pending(r) in s.v.active
    ensures r in s.requests && s.requests[r].Reserving?
  {
    var q :| q in Slots(s.requests) && Slots(s.requests)[q] == Pending(r);
    assert Slot(q, s.requests[q]) == Some(Pending(r));
  }

  /** The request a step moves is the only one it changes. */
  lemma OneMoves(max: nat, s: Sys, step: Step)
    requires Apply(max, s, step) != s
    ensures var t := Apply(max, s, step);
      step.r in t.requests && t.requests == s.requests[step.r := t.requests[step.r]]
  {
  }

  /** What a step does to the slots is what it does to the one request it moves. */
  lemma SlotEffect(max: nat, s: Sys, step: Step)
    requires Apply(max, s, step) != s
    requires Pending(step.r) in s.v.active ==> step.r in s.requests && s.requests[step.r].Reserving?
    requires step.CreateSucceeds? && step.id.Stored? && step.id in s.v.active ==> step.id in s.minted
    ensures var t := Apply(max, s, step);
      var before := if step.r in s.requests then Slot(step.r, s.requests[step.r]) else None;
      step.r in t.requests && Exchange(s.v.active, t.v.active, before, Slot(step.r, t.requests[step.r]))
  {
    ExchangeCases(s.v.active);
    hide Exchange;
    match step
    case CreateSucceeds(r, id) => assert id !in s.v.active;
    case Admit(r) => assert Pending(r) !in s.v.active;
    case _ =>
  }

  /** A slot is only taken while there is room. */
  lemma SlotFits(max: nat, s: Sys, step: Step)
    requires Apply(max, s, step) != s && |s.v.active| <= max
    requires forall r :: r in s.requests && Slot(r, s.requests[r]).Some? ==>
      Slot(r, s.requests[r]).value in s.v.active
    ensures |Apply(max, s, step).v.active| <= max
  {
    match step
    case CreateSucceeds(r, id) => assert Pending(r) in s.v.active;
    case _ =>
  }

  lemma IdsKept(max: nat, s: Sys, step: Step)
    requires IdsMinted(s) && Apply(max, s, step) != s
    ensures IdsMinted(Apply(max, s, step))
  {
    var t := Apply(max, s, step);
    OneMoves(max, s, step);
    assert t.requests[step.r].Building? ==> t.requests[step.r].id.Stored?;
    assert s.minted <= t.minted;
    assert forall id :: id in t.v.active ==> id in s.v.active || id.Pending? || id in t.minted;
    hide Apply;
  }

  lemma SlotsKept(max: nat, s: Sys, step: Step)
    requires SlotsMatch(max, s)
    ensures SlotsMatch(max, Apply(max, s, step))
  {
    var t := Apply(max, s, step);
    if t != s {
      var r := step.r;
      if Pending(r) in s.v.active {
        PendingIsOwn(max, s, r);
      }
      forall q | q in s.requests && Slot(q, s.requests[q]).Some?
        ensures Slot(q, s.requests[q]).value in s.v.active
      {
        assert Slots(s.requests)[q] in s.v.active;
      }
      assert At(Slots(s.requests), r) == if r in s.requests then Slot(r, s.requests[r]) else None;
      SlotFits(max, s, step);
      hide Owns, Put, Slots, Apply, At, Slot, Exchange;
      SlotEffect(max, s, step);
      OneMoves(max, s, step);
      IdsKept(max, s, step);
      ViewsPut(s.requests, r, t.requests[r]);
      Reassign(Slots(s.requests), s.v.active, t.v.active, r, Slot(r, t.requests[r]));
    }
  }

  lemma ApartKept(max: nat, s: Sys, step: Step)
    requires Apart(s)
    ensures Apart(Apply(max, s, step))
  {
    var t := Apply(max, s, step);
    if t != s {
      var r := step.r;
      var p := t.requests[r];
      assert t.requests == s.requests[r := p] && s.drawn <= t.drawn;
      assert Touches(p).Some? ==> Touches(p).value in t.drawn;
      assert Touches(p).Some? && Touches(p).value in s.drawn ==> r in s.requests && Touches(s.requests[r]) == Touches(p);
      hide Apply, Touches;
    }
  }

  /** Every file was drawn, and one its request no longer needs is nobody's. */
  lemma FilesAreNeeded(s: Sys, r: nat)
    requires FilesMatch(s)
    ensures s.v.files <= s.drawn
    ensures r in s.requests && s.requests[r].Refused? ==> Of(s.requests[r].bundle) !! s.v.files
  {
    forall p | p in s.v.files
      ensures p in s.drawn && !(r in s.requests && s.requests[r].Refused? && s.requests[r].bundle == Some(p))
    {
      var q :| q in Bundles(s.requests) && Bundles(s.requests)[q] == p;
      assert Needs(s.requests[q]) == Touches(s.requests[q]) == Some(p);
    }
  }

  lemma FileEffect(max: nat, s: Sys, step: Step)
    requires Apply(max, s, step) != s
    requires s.v.files <= s.drawn
    requires step.r in s.requests && s.requests[step.r].Refused? ==> Of(s.requests[step.r].bundle) !! s.v.files
    ensures var t := Apply(max, s, step);
      var before := if step.r in s.requests then Needs(s.requests[step.r]) else None;
      step.r in t.requests && Exchange(s.v.files, t.v.files, before, Needs(t.requests[step.r]))
  {
    match step
    case Save(_, bundle, _) => assert bundle.Some? ==> bundle.value !in s.v.files;
    case UnlinkAgain(r) => assert s.v.files - Of(s.requests[r].bundle) == s.v.files;
    case _ =>
  }

  lemma FilesKept(max: nat, s: Sys, step: Step)
    requires FilesMatch(s)
    ensures FilesMatch(Apply(max, s, step))
  {
    var t := Apply(max, s, step);
    if t != s {
      var r := step.r;
      FilesAreNeeded(s, r);
      assert At(Bundles(s.requests), r) == if r in s.requests then Needs(s.requests[r]) else None;
      ApartKept(max, s, step);
      hide Owns, Put, Bundles, Apart, Apply, At, Needs, Exchange;
      FileEffect(max, s, step);
      OneMoves(max, s, step);
      ViewsPut(s.requests, r, t.requests[r]);
      Reassign(Bundles(s.requests), s.v.files, t.v.files, r, Needs(t.requests[r]));
    }
  }

  lemma {:induction false} RunsKeepInv(max: nat, steps: seq<Step>)
    ensures SlotsMatch(max, Exec(max, steps)) && FilesMatch(Exec(max, steps))
  {
    if steps != [] {
      var before := steps[..|steps| - 1];
      RunsKeepInv(max, before);
      hide SlotsMatch, FilesMatch, Apply;
      SlotsKept(max, Exec(max, before), steps[|steps| - 1]);
      FilesKept(max, Exec(max, before), steps[|steps| - 1]);
    }
  }

  // ------------------------------------------------------------ what follows

  /** At any moment of any run at most `max` requests hold a slot, and an admission is
      refused exactly when that many do. */
  lemma RefusedExactlyWhenFull(max: nat, steps: seq<Step>, r: nat)
    requires var s := Exec(max, steps); r in s.requests && s.requests[r].Saved?
    ensures |Slots(Exec(max, steps).requests).Keys| <= max
    ensures var t := Exec(max, steps + [Admit(r)]);
      r in t.requests && (t.requests[r].Refused? <==> |Slots(Exec(max, steps).requests).Keys| == max)
  {
    RunsKeepInv(max, steps);
    var s := Exec(max, steps);
    OwnsCount(Slots(s.requests), s.v.active);
    assert (steps + [Admit(r)])[..|steps|] == steps;
    assert Exec(max, steps + [Admit(r)]) == Apply(max, s, Admit(r));
    hide Exec, Owns, Slots;
  }

  /** A bundle exists from its upload until its build's cleanup, whatever the other
      requests do: the worker thread always finds it, and its slot is held. */
  lemma BundleOutlivesBuild(max: nat, steps: seq<Step>, r: nat, id: Id, p: Path)
    requires var s := Exec(max, steps); r in s.requests && s.requests[r] == Building(id, Some(p))
    ensures p in Exec(max, steps).v.files && id in Exec(max, steps).v.active
  {
    RunsKeepInv(max, steps);
    var s := Exec(max, steps);
    hide Exec;
    assert r in Slots(s.requests) && Slots(s.requests)[r] == id;
    assert r in Bundles(s.requests) && Bundles(s.requests)[r] == p;
  }

  /** Nothing leaks: once every request has been refused or has cleaned up, no slot is
      taken and no bundle is left, whatever failed on the way. */
  lemma NothingLeaks(max: nat, steps: seq<Step>)
    requires forall r :: r in Exec(max, steps).requests ==>
      Exec(max, steps).requests[r].Refused? || Exec(max, steps).requests[r].Over?
    ensures Exec(max, steps).v == Server({}, {})
  {
    RunsKeepInv(max, steps);
    var s := Exec(max, steps);
    assert forall id :: id !in s.v.active;
    assert forall p :: p !in s.v.files;
  }

  /** The second unlink of a refused request removes nothing, even when other requests
      have drawn new bundles since. */
  lemma SecondUnlinkIsHarmless(max: nat, steps: seq<Step>, r: nat)
    ensures Exec(max, steps + [UnlinkAgain(r)]).v == Exec(max, steps).v
  {
    RunsKeepInv(max, steps);
    assert (steps + [UnlinkAgain(r)])[..|steps|] == steps;
    var s := Exec(max, steps);
    if r in s.requests && s.requests[r].Refused? && s.requests[r].bundle.Some? {
      var p := s.requests[r].bundle.value;
      assert p !in s.v.files;
      assert s.v.files - {p} == s.v.files;
    }
  }

  /** The steps are the handler cut up: admission and store answer in a row do what
      `StartBuild` does. */
  lemma StepsAreStartBuild(max: nat, s: Sys, r: nat, created: Created)
    requires r in s.requests && s.requests[r].Saved?
    requires created.Some? ==> created.value.Stored? && created.value !in s.minted
    ensures var t := Apply(max, s, Admit(r));
      var u := Apply(max, t, if created.Some? then CreateSucceeds(r, created.value) else CreateFails(r));
      && u.v == Started(max, s.v, Pending(r), created, s.requests[r].bundle).0
      && var answer := Started(max, s.v, Pending(r), created, s.requests[r].bundle).1;
      && (answer.Accepted? <==> u.requests[r].Building?)
      && (answer.Accepted? ==> created == Some(answer.id) && u.requests[r].id == answer.id)
      && (answer.Saturated? <==> t.requests[r].Refused?)
      && (answer.StoreFailed? <==> t.requests[r].Reserving? && u.requests[r].Refused?)
  {
    assert s.v.active + {Pending(r)} - {Pending(r)} == s.v.active - {Pending(r)};
  }

  /** An upload that is written leaves its bundle and a request waiting; one that is not
      leaves neither. */
  lemma SaveIsExactly(max: nat, s: Sys, r: nat, bundle: Option<Path>, written: bool)
    requires r !in s.requests && (bundle.Some? ==> bundle.value !in s.drawn)
    ensures var t := Apply(max, s, Save(r, bundle, written));
      && t.requests == s.requests[r := if written then Saved(bundle) else Over]
      && t.v == Server(s.v.active, if written then s.v.files + Of(bundle) else s.v.files)
      && t.drawn == s.drawn + Of(bundle)
  {
  }

  /** The `finally` and its cleanup in a row do what `DispatchBuild` does. */
  lemma StepsAreDispatchBuild(max: nat, s: Sys, r: nat)
    requires r in s.requests && s.requests[r].Building?
    ensures var t := Apply(max, Apply(max, s, Release(r)), RunCleanup(r));
      && t.requests == s.requests[r := Over]
      && t.v == Server(s.v.active - {s.requests[r].id}, s.v.files - Of(s.requests[r].bundle))
  {
    var t := Apply(max, s, Release(r));
    assert t.requests[r] == Released(s.requests[r].bundle);
    assert t.requests[r := Over] == s.requests[r := Over];
  }

  predicate IsSettled(p: Phase) {
    p.Refused? || p.Over?
  }

  function Open(requests: map<nat, Phase>): set<nat> {
    set r | r in requests && !IsSettled(requests[r])
  }

  /** What is left of one request, in at most two steps. */
  function Closing(r: nat, p: Phase): seq<Step> {
    match p
    case Saved(_) => [Admit(r), CreateFails(r)]
    case Reserving(_) => [CreateFails(r)]
    case Building(_, _) => [Release(r), RunCleanup(r)]
    case Released(_) => [RunCleanup(r)]
    case _ => []
  }

  function Run(max: nat, s: Sys, steps: seq<Step>): Sys
    decreases |steps|
  {
    if steps == [] then s else Run(max, Apply(max, s, steps[0]), steps[1..])
  }

  lemma {:induction false} ExecThenRun(max: nat, a: seq<Step>, b: seq<Step>)
    ensures Exec(max, a + b) == Run(max, Exec(max, a), b)
    decreases |b|
  {
    hide Apply;
    if b == [] {
      assert a + b == a;
    } else {
      assert a + b == (a + [b[0]]) + b[1..];
      assert (a + [b[0]])[..|a|] == a;
      ExecThenRun(max, a + [b[0]], b[1..]);
    }
  }

  lemma ClosingSettles(max: nat, s: Sys, r: nat)
    requires r in s.requests && !IsSettled(s.requests[r])
    ensures var t := Run(max, s, Closing(r, s.requests[r]));
      r in t.requests && IsSettled(t.requests[r]) && t.requests == s.requests[r := t.requests[r]]
  {
    var p := s.requests[r];
    var steps := Closing(r, p);
    var t := Apply(max, s, steps[0]);
    assert Run(max, s, steps) == Run(max, t, steps[1..]);
    if |steps| == 2 {
      assert steps[1..][0] == steps[1] && steps[1..][1..] == [];
      assert Run(max, t, steps[1..]) == Apply(max, t, steps[1]);
    } else {
      assert steps[1..] == [];
    }
  }

  /** No run can be wedged: some continuation settles every request, and then no slot is
      taken and no bundle is left. */
  lemma {:induction false} EveryRunCanSettle(max: nat, steps: seq<Step>) returns (after: seq<Step>)
    ensures forall r :: r in Exec(max, steps + after).requests ==> IsSettled(Exec(max, steps + after).requests[r])
    ensures Exec(max, steps + after).v == Server({}, {})
    decreases |Open(Exec(max, steps).requests)|
  {
    hide Exec, Apply, Run, Closing;
    var s := Exec(max, steps);
    if Open(s.requests) == {} {
      after := [];
      assert steps + after == steps;
      assert forall r :: r in s.requests && !IsSettled(s.requests[r]) ==> r in Open(s.requests);
      NothingLeaks(max, steps);
    } else {
      var r :| r in Open(s.requests);
      var more := Closing(r, s.requests[r]);
      ClosingSettles(max, s, r);
      ExecThenRun(max, steps, more);
      assert Open(Exec(max, steps + more).requests) == Open(s.requests) - {r};
      var rest := EveryRunCanSettle(max, steps + more);
      after := more + rest;
      assert steps + more + rest == steps + after;
    }
  }
}
