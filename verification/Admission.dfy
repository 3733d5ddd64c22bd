/** Crawl slots of src/api/server.py: the bookkeeping `ApiState` keeps under one lock.

    `Slots` is the value of that bookkeeping and the functions over it say what one
    locked operation does; `ApiState` is the class whose methods do it in place.
    How threads interleave the operations is in `AdmissionRuns`.
 */
module Admission {
  import opened Common

  /** Provisional ids carry a prefix that no stored id has; both come from uuid4. */
  datatype Id = Pending(uuid: nat) | Stored(uuid: nat)

  type Facet = string

  /** `threads` is the size of the default executor that `asyncio.to_thread` runs on. */
  datatype Config = Config(maxJobs: nat, caps: map<Facet, nat>, threads: nat)

  /** The ids in one facet's set, if it has one. */
  function Under(facets: map<Facet, set<Id>>, f: Facet): set<Id> {
    if f in facets then facets[f] else {}
  }

  /** `E` identifies a cancellation event. */
  datatype Slots<E> = Slots(active: set<Id>, facets: map<Facet, set<Id>>, flags: map<Id, E>) {
    /** The ids claimed under one facet. */
    function At(f: Facet): set<Id> {
      Under(facets, f)
    }
  }

  datatype Reserve = Reserved | Full | UnknownFacet

  /** How `try_reserve` answers: the global cap is checked before the facet's. */
  function Verdict<E>(cfg: Config, s: Slots<E>, f: Facet): Reserve {
    if |s.active| >= cfg.maxJobs then Full
    else if f !in cfg.caps then UnknownFacet
    else if |s.At(f)| >= cfg.caps[f] then Full
    else Reserved
  }

  /** A slot is free in all and under the facet. */
  predicate HasRoom<E>(cfg: Config, s: Slots<E>, f: Facet) {
    |s.active| < cfg.maxJobs && f in cfg.caps && |Under(s.facets, f)| < cfg.caps[f]
  }

  lemma RoomIsGranted<E>(cfg: Config, s: Slots<E>, f: Facet)
    ensures Verdict(cfg, s, f).Reserved? <==> HasRoom(cfg, s, f)
    ensures Verdict(cfg, s, f).UnknownFacet? <==> |s.active| < cfg.maxJobs && f !in cfg.caps
  {
  }

  function Claimed<E>(s: Slots<E>, id: Id, f: Facet, e: E): Slots<E> {
    Slots(s.active + {id}, s.facets[f := s.At(f) + {id}], s.flags[id := e])
  }

  function Dropped<E>(s: Slots<E>, id: Id, f: Facet): Slots<E> {
    Slots(s.active - {id},
          if f in s.facets then s.facets[f := s.facets[f] - {id}] else s.facets,
          s.flags - {id})
  }

  /** Moves a claim; `e` is what the new id's event becomes. */
  function Moved<E>(s: Slots<E>, provisional: Id, id: Id, f: Facet, e: E): Slots<E> {
    Slots(s.active - {provisional} + {id},
          s.facets[f := s.At(f) - {provisional} + {id}],
          (s.flags - {provisional})[id := e])
  }

  // ------------------------------------------------------------ what the slots mean

  /** The three collections together say one thing: which id holds a slot under
      which facet. */
  ghost predicate Represents<E>(s: Slots<E>, claims: map<Id, Facet>) {
    && s.active == claims.Keys
    && s.flags.Keys == claims.Keys
    && (forall id :: id in claims ==> claims[id] in s.facets && id in s.facets[claims[id]])
    && (forall f, id :: f in s.facets && id in s.facets[f] ==> id in claims && claims[id] == f)
  }

  lemma ClaimRepresents<E>(s: Slots<E>, claims: map<Id, Facet>, id: Id, f: Facet, e: E)
    requires Represents(s, claims) && id !in claims
    ensures Represents(Claimed(s, id, f, e), claims[id := f])
  {
  }

  /** A release must name the facet of the claim; naming it, it drops exactly the claim. */
  lemma DropRepresents<E>(s: Slots<E>, claims: map<Id, Facet>, id: Id, f: Facet)
    requires Represents(s, claims) && (id in claims ==> claims[id] == f)
    ensures Represents(Dropped(s, id, f), claims - {id})
    ensures id !in claims ==> Dropped(s, id, f) == s
  {
    if id !in claims {
      assert s.flags - {id} == s.flags;
      if f in s.facets {
        assert s.facets[f] - {id} == s.facets[f];
      }
    }
  }

  /** A rekey needs the provisional id to hold the claim under the same facet and the
      real id to be new. */
  lemma MoveRepresents<E>(s: Slots<E>, claims: map<Id, Facet>, p: Id, id: Id, f: Facet, e: E)
    requires Represents(s, claims) && p in claims && claims[p] == f && id !in claims
    ensures Represents(Moved(s, p, id, f, e), (claims - {p})[id := f])
  {
  }

  /** Moving a claim neither frees a slot nor takes one. */
  lemma MoveKeepsCounts<E>(s: Slots<E>, claims: map<Id, Facet>, p: Id, id: Id, f: Facet, e: E)
    requires Represents(s, claims) && p in claims && claims[p] == f && id !in claims
    ensures |Moved(s, p, id, f, e).active| == |s.active|
    ensures forall g :: |Moved(s, p, id, f, e).At(g)| == |s.At(g)|
  {
    var t := Moved(s, p, id, f, e);
    assert |s.active - {p} + {id}| == |s.active|;
    assert |s.facets[f] - {p} + {id}| == |s.facets[f]|;
    hide Represents;
    assert forall g :: g != f ==> t.At(g) == s.At(g);
  }

  /** What `ApiState` promises of its collections, once they represent one map. */
  ghost predicate SlotsAgree<E>(s: Slots<E>) {
    && (forall id :: id in s.active <==> exists f :: f in s.facets && id in s.facets[f])
    && (forall f, g :: f in s.facets && g in s.facets && f != g ==> s.facets[f] !! s.facets[g])
    && s.flags.Keys == s.active
  }

  lemma RepresentsAgrees<E>(s: Slots<E>, claims: map<Id, Facet>)
    requires Represents(s, claims)
    ensures SlotsAgree(s)
  {
    forall f, g | f in s.facets && g in s.facets && f != g ensures s.facets[f] !! s.facets[g] {
      forall id | id in s.facets[f] ensures id !in s.facets[g] {
        assert claims[id] == f;
      }
    }
  }

  lemma NoClaimNoSlot<E>(s: Slots<E>, claims: map<Id, Facet>, f: Facet)
    requires Represents(s, claims) && claims.Keys == {}
    ensures s.active == {} && s.At(f) == {}
  {
  }

  ghost predicate WithinCaps<E>(cfg: Config, s: Slots<E>) {
    && |s.active| <= cfg.maxJobs
    && forall f :: s.At(f) != {} ==> f in cfg.caps && |s.At(f)| <= cfg.caps[f]
  }

  lemma ClaimWithinCaps<E>(cfg: Config, s: Slots<E>, id: Id, f: Facet, e: E)
    requires WithinCaps(cfg, s) && Verdict(cfg, s, f).Reserved?
    ensures WithinCaps(cfg, Claimed(s, id, f, e))
  {
    assert forall g :: Claimed(s, id, f, e).At(g) == if g == f then s.At(f) + {id} else s.At(g);
  }

  lemma DropWithinCaps<E>(cfg: Config, s: Slots<E>, id: Id, f: Facet)
    requires WithinCaps(cfg, s)
    ensures WithinCaps(cfg, Dropped(s, id, f))
  {
    var t := Dropped(s, id, f);
    SubsetFits(t.active, s.active);
    forall g | t.At(g) != {} ensures g in cfg.caps && |t.At(g)| <= cfg.caps[g] {
      SubsetFits(t.At(g), s.At(g));
    }
  }

  /** `rekey` checks no capacity; it needs none, since the claim it moves is held. */
  lemma MoveWithinCaps<E>(cfg: Config, s: Slots<E>, claims: map<Id, Facet>, p: Id, id: Id, f: Facet, e: E)
    requires Represents(s, claims) && p in claims && claims[p] == f && id !in claims
    requires WithinCaps(cfg, s)
    ensures WithinCaps(cfg, Moved(s, p, id, f, e))
  {
    MoveKeepsCounts(s, claims, p, id, f, e);
    var t := Moved(s, p, id, f, e);
    assert p in s.At(f);
    forall g | t.At(g) != {} ensures g in cfg.caps && |t.At(g)| <= cfg.caps[g] {
      assert g != f ==> t.At(g) == s.At(g);
    }
  }

  /** A `threading.Event`: its identity matters, not only whether it is set. */
  class Event {
    var isSet: bool

    constructor ()
      ensures !isSet
    {
      isSet := false;
    }
  }

  class ApiState {
    const cfg: Config
    var active: set<Id>
    var facetActive: map<Facet, set<Id>>
    var cancelFlags: map<Id, Event>

    constructor (cfg: Config)
      ensures this.cfg == cfg
      ensures View() == Slots({}, map[], map[])
    {
      this.cfg := cfg;
      active, facetActive, cancelFlags := {}, map[], map[];
    }

    function View(): Slots<Event> reads this {
      Slots(active, facetActive, cancelFlags)
    }

    /** `try_reserve`. A facet that was never seen gets an empty set even when the
        claim is then refused. */
    method TryReserve(id: Id, facet: Facet) returns (r: Reserve)
      modifies this
      ensures r.Reserved? <==>
        |old(active)| < cfg.maxJobs && facet in cfg.caps && |Under(old(facetActive), facet)| < cfg.caps[facet]
      ensures r.UnknownFacet? <==> |old(active)| < cfg.maxJobs && facet !in cfg.caps
      ensures r == Verdict(cfg, old(View()), facet)
      ensures r.Reserved? ==> active == old(active) + {id}
      ensures r.Reserved? ==> facet in facetActive && facetActive[facet] == Under(old(facetActive), facet) + {id}
      ensures r.Reserved? ==>
        && id in cancelFlags && fresh(cancelFlags[id]) && !cancelFlags[id].isSet
        && cancelFlags == old(cancelFlags)[id := cancelFlags[id]]
        && View() == Claimed(old(View()), id, facet, cancelFlags[id])
      ensures !r.Reserved? ==>
        && active == old(active) && cancelFlags == old(cancelFlags)
        && forall f :: Under(facetActive, f) == Under(old(facetActive), f)
    {
      RoomIsGranted(cfg, View(), facet);
      hide Verdict;
      if |active| >= cfg.maxJobs {
        return Full;
      }
      ghost var held := Under(facetActive, facet);
      if facet !in facetActive {
        facetActive := facetActive[facet := {}];
      }
      assert facetActive[facet] == held;
      assert forall f :: Under(facetActive, f) == Under(old(facetActive), f);
      if facet !in cfg.caps {
        return UnknownFacet;
      }
      if |facetActive[facet]| >= cfg.caps[facet] {
        return Full;
      }
      facetActive := facetActive[facet := facetActive[facet] + {id}];
      assert facetActive == old(facetActive)[facet := held + {id}];
      active := active + {id};
      var event := new Event();
      cancelFlags := cancelFlags[id := event];
      return Reserved;
    }

    method Release(id: Id, facet: Facet)
      modifies this
      ensures View() == Dropped(old(View()), id, facet)
    {
      active := active - {id};
      if facet in facetActive {
        facetActive := facetActive[facet := facetActive[facet] - {id}];
      }
      cancelFlags := cancelFlags - {id};
    }

    /** `rekey`: the event object itself moves; one is made only if none was there. */
    method Rekey(provisional: Id, id: Id, facet: Facet)
      modifies this
      ensures id in cancelFlags
      ensures View() == Moved(old(View()), provisional, id, facet, cancelFlags[id])
      ensures provisional in old(cancelFlags) ==> cancelFlags[id] == old(cancelFlags)[provisional]
      ensures provisional !in old(cancelFlags) ==> fresh(cancelFlags[id]) && !cancelFlags[id].isSet
    {
      active := active - {provisional};
      active := active + {id};
      var claimed := if facet in facetActive then facetActive[facet] else {};
      facetActive := facetActive[facet := claimed - {provisional} + {id}];
      if provisional in cancelFlags {
        var event := cancelFlags[provisional];
        cancelFlags := cancelFlags - {provisional};
        cancelFlags := cancelFlags[id := event];
      } else {
        var event := new Event();
        cancelFlags := cancelFlags - {provisional};
        cancelFlags := cancelFlags[id := event];
      }
    }

    method CancelEvent(id: Id) returns (event: Option<Event>)
      ensures event == if id in cancelFlags then Some(cancelFlags[id]) else None
    {
      event := if id in cancelFlags then Some(cancelFlags[id]) else None;
    }

    /** The two steps of `cancel_job` that touch the slots, in their order: the
        event must be looked up and set before `release` drops it. */
    method Cancel(id: Id, facet: Facet)
      modifies this, cancelFlags.Values
      ensures View() == Dropped(old(View()), id, facet)
      ensures id in old(cancelFlags) ==> old(cancelFlags)[id].isSet
      ensures id in old(cancelFlags) ==> forall e: Event ::
        e in old(cancelFlags).Values && e != old(cancelFlags)[id] ==> e.isSet == old(e.isSet)
      ensures id !in old(cancelFlags) ==> forall e: Event ::
        e in old(cancelFlags).Values ==> e.isSet == old(e.isSet)
    {
      var event := CancelEvent(id);
      if event.Some? {
        event.value.isSet := true;
      }
      Release(id, facet);
    }
  }
}
