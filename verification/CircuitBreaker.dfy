/** src/core/circuit_breaker.py: the breaker, and its state as a function of history. */
module CircuitBreaker {
  import opened Common

  datatype State = Closed | Open | HalfOpen

  datatype Config = Config(failureThreshold: int, recoveryTimeoutS: real)

  /** What callers do to a breaker, with the wall-clock time they do it at. `Query` is
      `is_open`, which can change the state; nothing is assumed about the clock. */
  datatype Event = Failure(at: real) | Success | Query(at: real)

  datatype Breaker = Breaker(state: State, failureCount: int, lastFailure: Option<real>)

  const FRESH := Breaker(Closed, 0, None)

  function AfterFailure(cfg: Config, b: Breaker, now: real): Breaker {
    var counted := b.(failureCount := b.failureCount + 1, lastFailure := Some(now));
    match b.state
    case Closed => if counted.failureCount >= cfg.failureThreshold then counted.(state := Open) else counted
    case HalfOpen => counted.(state := Open, failureCount := 1)
    case Open => counted
  }

  function AfterSuccess(b: Breaker): Breaker {
    if b.state.HalfOpen? then FRESH else b
  }

  predicate TimedOut(cfg: Config, b: Breaker, now: real) {
    b.lastFailure.Some? && now - b.lastFailure.value >= cfg.recoveryTimeoutS
  }

  function AfterQuery(cfg: Config, b: Breaker, now: real): Breaker {
    if b.state.Open? && TimedOut(cfg, b, now) then b.(state := HalfOpen) else b
  }

  function Apply(cfg: Config, b: Breaker, e: Event): Breaker {
    match e
    case Failure(at) => AfterFailure(cfg, b, at)
    case Success => AfterSuccess(b)
    case Query(at) => AfterQuery(cfg, b, at)
  }

  /** The breaker after a history. */
  function After(cfg: Config, h: seq<Event>): Breaker {
    if h == [] then FRESH
    else Apply(cfg, After(cfg, h[..|h| - 1]), h[|h| - 1])
  }

  class CircuitBreaker {
    const cfg: Config
    var state: State
    var failureCount: int
    var lastFailureTime: Option<real>

    function View(): Breaker reads this {
      Breaker(state, failureCount, lastFailureTime)
    }

    constructor (cfg: Config)
      ensures this.cfg == cfg && View() == FRESH
    {
      this.cfg := cfg;
      state, failureCount, lastFailureTime := Closed, 0, None;
    }

    method RecordFailure(now: real)
      modifies this
      ensures View() == AfterFailure(cfg, old(View()), now)
    {
      failureCount := failureCount + 1;
      lastFailureTime := Some(now);
      if state == Closed {
        if failureCount >= cfg.failureThreshold {
          state := Open;
        }
      } else if state == HalfOpen {
        state := Open;
        failureCount := 1;
      }
    }

    method RecordSuccess()
      modifies this
      ensures View() == AfterSuccess(old(View()))
    {
      if state == HalfOpen {
        state, failureCount, lastFailureTime := Closed, 0, None;
      }
    }

    /** `is_open`: whether the caller is refused. */
    method IsOpen(now: real) returns (refused: bool)
      modifies this
      ensures View() == AfterQuery(cfg, old(View()), now)
      ensures refused <==> old(state) == Open && !TimedOut(cfg, old(View()), now)
    {
      if state == Open {
        if lastFailureTime.Some? {
          var elapsed := now - lastFailureTime.value;
          if elapsed >= cfg.recoveryTimeoutS {
            state := HalfOpen;
            return false;
          }
        }
        return true;
      }
      return false;
    }

    /** `state()`, which runs the same transition check first. */
    method CurrentState(now: real) returns (s: State)
      modifies this
      ensures View() == AfterQuery(cfg, old(View()), now) && s == View().state
    {
      var _ := IsOpen(now);
      return state;
    }
  }

  // ------------------------------------------------------------ history, independently

  function Failures(h: seq<Event>): nat {
    if h == [] then 0
    else Failures(h[..|h| - 1]) + if h[|h| - 1].Failure? then 1 else 0
  }

  function LatestFailure(h: seq<Event>): Option<real> {
    if h == [] then None
    else match h[|h| - 1]
      case Failure(at) => Some(at)
      case _ => LatestFailure(h[..|h| - 1])
  }

  /** Enough failures, whatever successes came in between. */
  predicate Tripped(cfg: Config, h: seq<Event>) {
    Failures(h) >= 1 && Failures(h) >= cfg.failureThreshold
  }

  /** Query `i` came at least the recovery timeout after the latest failure before it,
      and no failure was recorded since. */
  ghost predicate ProbedAt(cfg: Config, h: seq<Event>, i: nat) {
    && i < |h| && h[i].Query? && Tripped(cfg, h[..i])
    && LatestFailure(h[..i]).Some?
    && h[i].at - LatestFailure(h[..i]).value >= cfg.recoveryTimeoutS
    && forall k :: i < k < |h| ==> !h[k].Failure?
  }

  /** The state a breaker that never closed again is in after `h`. */
  ghost function StateOf(cfg: Config, h: seq<Event>): State {
    if !Tripped(cfg, h) then Closed
    else if exists i: nat :: ProbedAt(cfg, h, i) then HalfOpen
    else Open
  }

  /** The events since the start or the last close: the success that meets a half-open
      breaker closes it, and nothing before it matters any more. */
  ghost function SinceClose(cfg: Config, h: seq<Event>): seq<Event> {
    if h == [] then []
    else
      var before := SinceClose(cfg, h[..|h| - 1]);
      var e := h[|h| - 1];
      if e.Success? && StateOf(cfg, before).HalfOpen? then [] else before + [e]
  }

  /** The failures since the last close, counted anew from each that met a half-open
      breaker. */
  ghost function Counted(cfg: Config, h: seq<Event>): nat {
    if h == [] then 0
    else
      var before, e := h[..|h| - 1], h[|h| - 1];
      if !e.Failure? then Counted(cfg, before)
      else if StateOf(cfg, before).HalfOpen? then 1
      else Counted(cfg, before) + 1
  }

  lemma {:induction false} UntrippedCount(cfg: Config, h: seq<Event>)
    requires !Tripped(cfg, h)
    ensures Counted(cfg, h) == Failures(h)
  {
    if h != [] {
      UntrippedCount(cfg, h[..|h| - 1]);
    }
  }

  /** The breaker reads exactly this off its history: its state, its count, which while
      closed is the number of failures since the last close, and the time of the latest
      failure. */
  ghost predicate Reads(cfg: Config, b: Breaker, since: seq<Event>) {
    && b.state == StateOf(cfg, since)
    && b.lastFailure == LatestFailure(since)
    && b.failureCount == Counted(cfg, since)
    && (b.state.Closed? ==> b.failureCount == Failures(since))
  }

  lemma ProbeCarries(cfg: Config, h: seq<Event>, e: Event)
    requires !e.Failure?
    ensures (exists i: nat :: ProbedAt(cfg, h, i)) ==> exists i: nat :: ProbedAt(cfg, h + [e], i)
    ensures (exists i: nat :: ProbedAt(cfg, h + [e], i)) ==>
      (exists i: nat :: ProbedAt(cfg, h, i)) || ProbedAt(cfg, h + [e], |h|)
  {
    var next := h + [e];
    assert forall k :: 0 <= k < |h| ==> next[k] == h[k];
    forall i: nat | i < |h| ensures ProbedAt(cfg, h, i) <==> ProbedAt(cfg, next, i) {
      assert next[..i] == h[..i];
      if ProbedAt(cfg, next, i) {
        assert forall k :: i < k < |h| ==> !next[k].Failure?;
      }
    }
  }

  lemma StepReads(cfg: Config, b: Breaker, since: seq<Event>, e: Event)
    requires Reads(cfg, b, since)
    ensures var closes := e.Success? && b.state.HalfOpen?;
      Reads(cfg, Apply(cfg, b, e), if closes then [] else since + [e])
  {
    var next := since + [e];
    assert next[..|since|] == since && next[|since|] == e;
    LatestOfFailures(since);
    if !Tripped(cfg, next) {
      UntrippedCount(cfg, next);
    }
    match e
    case Failure(at) =>
      assert forall i: nat :: !ProbedAt(cfg, next, i);
    case Success =>
      ProbeCarries(cfg, since, e);
    case Query(at) =>
      ProbeCarries(cfg, since, e);
      assert ProbedAt(cfg, next, |since|) <==> Tripped(cfg, since) && TimedOut(cfg, b, at);
  }

  lemma {:induction false} LatestOfFailures(h: seq<Event>)
    ensures LatestFailure(h).Some? <==> Failures(h) >= 1
  {
    if h != [] {
      LatestOfFailures(h[..|h| - 1]);
    }
  }

  /** The breaker's state is a function of its event history. */
  lemma {:induction false} StateIsHistory(cfg: Config, h: seq<Event>)
    ensures Reads(cfg, After(cfg, h), SinceClose(cfg, h))
  {
    if h != [] {
      var n := |h| - 1;
      StateIsHistory(cfg, h[..n]);
      StepReads(cfg, After(cfg, h[..n]), SinceClose(cfg, h[..n]), h[n]);
    }
  }

  // ------------------------------------------------------------ what follows

  /** Closed always means fewer failures than the threshold since the last close. */
  lemma ClosedIsBelowThreshold(cfg: Config, h: seq<Event>)
    ensures After(cfg, h).state.Closed? ==>
      After(cfg, h).failureCount == 0 || After(cfg, h).failureCount < cfg.failureThreshold
    ensures After(cfg, h).state.Closed? <==> !Tripped(cfg, SinceClose(cfg, h))
  {
    StateIsHistory(cfg, h);
  }

  /** While not closed, a call is refused exactly when no probe was let through since
      the latest failure and that failure is less than the timeout ago; so a failure
      recorded while open puts the next probe off. */
  lemma RefusesExactly(cfg: Config, h: seq<Event>, now: real)
    ensures var since := SinceClose(cfg, h); var b := After(cfg, h);
      (b.state.Open? && !TimedOut(cfg, b, now)) <==>
        Tripped(cfg, since) && (forall i: nat :: !ProbedAt(cfg, since, i))
        && LatestFailure(since).Some? && now - LatestFailure(since).value < cfg.recoveryTimeoutS
  {
    StateIsHistory(cfg, h);
    LatestOfFailures(SinceClose(cfg, h));
  }

  /** From any tripped history, one query after the timeout and one success close the
      breaker with a zero count. */
  lemma RecoversInTwo(cfg: Config, h: seq<Event>, now: real)
    requires !After(cfg, h).state.Closed?
    requires LatestFailure(SinceClose(cfg, h)).Some? ==>
      now - LatestFailure(SinceClose(cfg, h)).value >= cfg.recoveryTimeoutS
    ensures After(cfg, h + [Query(now), Success]) == FRESH
  {
    StateIsHistory(cfg, h);
    LatestOfFailures(SinceClose(cfg, h));
    var steps := h + [Query(now), Success];
    assert steps[..|h| + 1] == h + [Query(now)] && (h + [Query(now)])[..|h|] == h;
    assert After(cfg, h + [Query(now)]).state.HalfOpen?;
  }

  /** Half-open lets every caller through, not one: any number of queries is answered
      yes until an outcome is recorded. */
  lemma {:induction false} HalfOpenAdmitsAll(cfg: Config, h: seq<Event>, queries: seq<Event>)
    requires After(cfg, h).state.HalfOpen? && forall k :: 0 <= k < |queries| ==> queries[k].Query?
    ensures After(cfg, h + queries) == After(cfg, h)
  {
    if queries == [] {
      assert h + queries == h;
    } else {
      var n := |queries| - 1;
      assert (h + queries)[..|h| + n] == h + queries[..n];
      HalfOpenAdmitsAll(cfg, h, queries[..n]);
    }
  }

  /** Successes while closed do not reset the count: five failures open the default
      breaker even with a success between every two of them. */
  lemma {:induction false} SuccessesDoNotReset(cfg: Config, h: seq<Event>)
    requires Failures(h) < cfg.failureThreshold
    ensures After(cfg, h).state.Closed? && After(cfg, h).failureCount == Failures(h)
    ensures forall at :: Failures(h) + 1 == cfg.failureThreshold ==>
      After(cfg, h + [Failure(at)]).state.Open?
  {
    NothingToClose(cfg, h);
    StateIsHistory(cfg, h);
    forall at | Failures(h) + 1 == cfg.failureThreshold
      ensures After(cfg, h + [Failure(at)]).state.Open?
    {
      assert (h + [Failure(at)])[..|h|] == h;
    }
  }

  lemma {:induction false} NothingToClose(cfg: Config, h: seq<Event>)
    requires Failures(h) < cfg.failureThreshold
    ensures SinceClose(cfg, h) == h
  {
    if h != [] {
      NothingToClose(cfg, h[..|h| - 1]);
      assert h == h[..|h| - 1] + [h[|h| - 1]];
    }
  }
}
