/** `TelemetryRecorder` of src/api/server.py: progress callbacks turned into a smoothed
    rate and throttled writes. Clock readings are inputs, and the rounding of the
    written figures is left to the writer. */
module Telemetry {
  import opened Common

  const FLUSH_SECONDS := 0.5
  const WARMUP_SECONDS := 3.0
  const SMOOTHING := 0.3
  const SAMPLE_GATE := 0.05

  /** One callback: the monotonic clock, pages completed and URLs discovered. */
  datatype Call = Call(now: real, completed: nat, discovered: nat)

  datatype Recorder = Recorder(rate: real, lastCompleted: nat, lastSample: real, lastFlush: real)

  datatype Snapshot = Snapshot(completed: nat, total: nat, rate: real, eta: Option<real>)

  function Init(started: real): Recorder {
    Recorder(0.0, 0, started, 0.0)
  }

  function Gain(before: nat, after: nat): nat {
    if after > before then after - before else 0
  }

  /** `_update_rate`: the first sample seeds the rate, and so does one after a zero. */
  function Sampled(r: Recorder, c: Call): Recorder {
    var elapsed := c.now - r.lastSample;
    if elapsed < SAMPLE_GATE then r
    else
      var sample := Gain(r.lastCompleted, c.completed) as real / elapsed;
      var rate := if r.rate == 0.0 then sample else SMOOTHING * sample + (1.0 - SMOOTHING) * r.rate;
      r.(rate := rate, lastCompleted := c.completed, lastSample := c.now)
  }

  predicate Flushes(r: Recorder, c: Call) {
    !(c.now - r.lastFlush < FLUSH_SECONDS && c.completed > 0)
  }

  function Recorded(r: Recorder, c: Call): Recorder {
    var s := Sampled(r, c);
    if Flushes(s, c) then s.(lastFlush := c.now) else s
  }

  function Taken(r: Recorder, c: Call, started: real, ceiling: nat): Snapshot {
    var total := if c.discovered < ceiling then c.discovered else ceiling;
    var remaining := Gain(c.completed, total);
    var eta := if c.now - started >= WARMUP_SECONDS && r.rate > 0.0 && total > 0
               then Some(remaining as real / r.rate) else None;
    Snapshot(c.completed, total, r.rate, eta)
  }

  class TelemetryRecorder {
    const ceiling: nat
    const started: real
    var rate: real
    var lastCompleted: nat
    var lastSample: real
    var lastFlush: real

    constructor (ceiling: nat, now: real)
      ensures this.ceiling == ceiling && started == now && View() == Init(now)
    {
      this.ceiling, started := ceiling, now;
      rate, lastCompleted, lastSample, lastFlush := 0.0, 0, now, 0.0;
    }

    function View(): Recorder reads this {
      Recorder(rate, lastCompleted, lastSample, lastFlush)
    }

    method UpdateRate(c: Call)
      modifies this
      ensures View() == Sampled(old(View()), c)
    {
      var elapsed := c.now - lastSample;
      if elapsed < SAMPLE_GATE {
        return;
      }
      var gained := if c.completed > lastCompleted then c.completed - lastCompleted else 0;
      var sample := gained as real / elapsed;
      if rate == 0.0 {
        rate := sample;
      } else {
        rate := SMOOTHING * sample + (1.0 - SMOOTHING) * rate;
      }
      lastCompleted := c.completed;
      lastSample := c.now;
    }

    method TakeSnapshot(c: Call) returns (s: Snapshot)
      ensures s == Taken(View(), c, started, ceiling)
    {
      var total := 0;
      if c.discovered != 0 {
        total := if c.discovered < ceiling then c.discovered else ceiling;
      }
      var remaining := if total > c.completed then total - c.completed else 0;
      var eta := None;
      if c.now - started >= WARMUP_SECONDS && rate > 0.0 && total > 0 {
        eta := Some(remaining as real / rate);
      }
      return Snapshot(c.completed, total, rate, eta);
    }

    /** One callback; what it returns is what it writes to the store. */
    method Record(c: Call) returns (written: Option<Snapshot>)
      modifies this
      ensures View() == Recorded(old(View()), c)
      ensures written.Some? <==> c.completed == 0 || c.now - old(lastFlush) >= 0.5
      ensures lastFlush == if written.Some? then c.now else old(lastFlush)
      ensures written.Some? ==> written.value.completed == c.completed && written.value.rate == rate
      ensures written ==
        if Flushes(old(View()), c) then Some(Taken(View(), c, started, ceiling)) else None
    {
      UpdateRate(c);
      if c.now - lastFlush < FLUSH_SECONDS && c.completed > 0 {
        return None;
      }
      lastFlush := c.now;
      var s := TakeSnapshot(c);
      return Some(s);
    }
  }

  // ------------------------------------------------------------ runs

  function RunFrom(r: Recorder, calls: seq<Call>): Recorder {
    if calls == [] then r
    else Recorded(RunFrom(r, calls[..|calls| - 1]), calls[|calls| - 1])
  }

  function Last(calls: seq<Call>): Call
    requires calls != []
  {
    calls[|calls| - 1]
  }

  /** The calls whose count became a rate sample: those at least the gate after the one
      accepted before. No recorder is involved. */
  function Accepted(started: real, calls: seq<Call>): seq<Call> {
    if calls == [] then []
    else
      var before := Accepted(started, calls[..|calls| - 1]);
      if Last(calls).now - TimeOf(started, before, |before|) < 0.05 then before
      else before + [Last(calls)]
  }

  /** When interval `i` of the accepted calls began; the first began with the job. */
  function TimeOf(started: real, marks: seq<Call>, i: nat): real
    requires i <= |marks|
  {
    if i == 0 then started else marks[i - 1].now
  }

  function CountOf(marks: seq<Call>, i: nat): nat
    requires i <= |marks|
  {
    if i == 0 then 0 else marks[i - 1].completed
  }

  function Interval(started: real, marks: seq<Call>, i: nat): real
    requires i < |marks|
  {
    marks[i].now - TimeOf(started, marks, i)
  }

  /** Pages per second over interval `i`. */
  function Rate(started: real, marks: seq<Call>, i: nat): real
    requires i < |marks| && Interval(started, marks, i) > 0.0
  {
    Gain(CountOf(marks, i), marks[i].completed) as real / Interval(started, marks, i)
  }

  ghost predicate Spread(started: real, marks: seq<Call>) {
    forall i :: 0 <= i < |marks| ==> Interval(started, marks, i) >= 0.05
  }

  lemma {:induction false} AcceptedAreSpread(started: real, calls: seq<Call>)
    ensures Spread(started, Accepted(started, calls))
  {
    if calls != [] {
      AcceptedAreSpread(started, calls[..|calls| - 1]);
      var before, marks := Accepted(started, calls[..|calls| - 1]), Accepted(started, calls);
      forall i | 0 <= i < |marks| ensures Interval(started, marks, i) >= 0.05 {
        if i < |before| {
          assert Interval(started, marks, i) == Interval(started, before, i);
        }
      }
    }
  }

  /** What the recorder remembers of the rate's history is its last accepted call. */
  lemma {:induction false} RemembersLastAccepted(started: real, calls: seq<Call>)
    ensures var r := RunFrom(Init(started), calls);
      var marks := Accepted(started, calls);
      r.lastSample == TimeOf(started, marks, |marks|) && r.lastCompleted == CountOf(marks, |marks|)
  {
    if calls != [] {
      RemembersLastAccepted(started, calls[..|calls| - 1]);
    }
  }

  ghost predicate AllBetween(started: real, marks: seq<Call>, lo: real, hi: real) {
    Spread(started, marks) && forall i :: 0 <= i < |marks| ==> lo <= Rate(started, marks, i) <= hi
  }

  /** The rate is never outside the samples it was made from, over every sequence of
      callbacks; before the first sample it is zero. */
  lemma {:induction false} RateIsBetween(started: real, calls: seq<Call>, lo: real, hi: real)
    requires AllBetween(started, Accepted(started, calls), lo, hi)
    ensures var rate := RunFrom(Init(started), calls).rate;
      if Accepted(started, calls) == [] then rate == 0.0 else lo <= rate <= hi
  {
    if calls != [] {
      var front := calls[..|calls| - 1];
      var before, marks := Accepted(started, front), Accepted(started, calls);
      AcceptedAreSpread(started, front);
      forall i | 0 <= i < |before| ensures lo <= Rate(started, before, i) <= hi {
        assert Interval(started, marks, i) == Interval(started, before, i);
        assert Rate(started, marks, i) == Rate(started, before, i);
      }
      RateIsBetween(started, front, lo, hi);
      RemembersLastAccepted(started, front);
      var r := RunFrom(Init(started), front);
      if marks != before {
        var n := |before|;
        assert lo <= Rate(started, marks, n) <= hi;
        assert Interval(started, marks, n) == Last(calls).now - r.lastSample;
        assert Gain(CountOf(marks, n), marks[n].completed) == Gain(r.lastCompleted, Last(calls).completed);
        if r.rate != 0.0 {
          Blend(Rate(started, marks, n), r.rate, lo, hi);
        }
      }
    }
  }

  lemma Blend(sample: real, rate: real, lo: real, hi: real)
    requires lo <= sample <= hi && lo <= rate <= hi
    ensures lo <= SMOOTHING * sample + (1.0 - SMOOTHING) * rate <= hi
  {
  }

  function Share(started: real, marks: seq<Call>, i: nat): real
    requires i < |marks| && Interval(started, marks, i) > 0.0
  {
    Rate(started, marks, i) * Interval(started, marks, i)
  }

  lemma ShareIsGain(started: real, marks: seq<Call>, i: nat)
    requires i < |marks| && Interval(started, marks, i) > 0.0
    ensures Share(started, marks, i) == Gain(CountOf(marks, i), marks[i].completed) as real
  {
    var gain, dt := Gain(CountOf(marks, i), marks[i].completed) as real, Interval(started, marks, i);
    hide Interval, Gain, CountOf;
    var rate := gain / dt;
    assert rate * dt == gain;
  }

  /** `d` times 0.7 to the power `n`. */
  function Faded(d: real, n: nat): real {
    if n == 0 then d else 0.7 * Faded(d, n - 1)
  }

  /** Every call is accepted and its sample is exactly `x` pages per second. */
  predicate Steady(r: Recorder, calls: seq<Call>, x: real) {
    calls == [] ||
    (Steady(r, calls[..|calls| - 1], x) && Sample(RunFrom(r, calls[..|calls| - 1]), Last(calls), x))
  }

  predicate Sample(s: Recorder, c: Call, x: real) {
    && c.now - s.lastSample >= 0.05
    && Gain(s.lastCompleted, c.completed) as real == x * (c.now - s.lastSample)
  }

  /** How fast the rate follows: each steady sample closes 30 % of the distance to it, so
      after `n` of them 0.7 to the `n` is left. A stall (`x` zero) fades the rate that
      way without ever reaching zero. */
  lemma {:induction false} StepResponse(r: Recorder, calls: seq<Call>, x: real)
    requires r.rate > 0.0 && x >= 0.0 && Steady(r, calls, x)
    ensures RunFrom(r, calls).rate - x == Faded(r.rate - x, |calls|)
    ensures RunFrom(r, calls).rate > 0.0
  {
    if calls != [] {
      var front := calls[..|calls| - 1];
      StepResponse(r, front, x);
      SampleIs(RunFrom(r, front), Last(calls), x);
    }
  }

  lemma SampleIs(s: Recorder, c: Call, x: real)
    requires s.rate > 0.0 && Sample(s, c, x)
    ensures Recorded(s, c).rate == 0.3 * x + 0.7 * s.rate
  {
    var dt := c.now - s.lastSample;
    assert x * dt / dt == x;
  }

  /** From a rate of zero the first sample is taken whole, not blended. */
  lemma SeedsFromZero(s: Recorder, c: Call, x: real)
    requires s.rate == 0.0 && Sample(s, c, x)
    ensures Recorded(s, c).rate == x
  {
    var dt := c.now - s.lastSample;
    assert x * dt / dt == x;
  }

  /** Pages the samples account for: each rate over its interval. */
  function Accounted(started: real, marks: seq<Call>): real
    requires Spread(started, marks)
    decreases |marks|
  {
    if marks == [] then 0.0
    else
      var n := |marks| - 1;
      assert forall i :: 0 <= i < n ==> Interval(started, marks[..n], i) == Interval(started, marks, i);
      Accounted(started, marks[..n]) + Share(started, marks, n)
  }

  ghost predicate Growing(marks: seq<Call>) {
    forall i, k :: 0 <= i < k < |marks| ==> marks[i].completed <= marks[k].completed
  }

  /** No page is lost or counted twice: while the count does not fall, the samples times
      their intervals add up to the last count accounted for. */
  lemma {:induction false} SamplesAddUp(started: real, marks: seq<Call>)
    requires Spread(started, marks) && Growing(marks)
    ensures Accounted(started, marks) == CountOf(marks, |marks|) as real
    decreases |marks|
  {
    if marks != [] {
      var n := |marks| - 1;
      assert forall i :: 0 <= i < n ==> Interval(started, marks[..n], i) == Interval(started, marks, i);
      SamplesAddUp(started, marks[..n]);
      assert CountOf(marks[..n], n) == CountOf(marks, n);
      assert CountOf(marks, n) <= marks[n].completed;
      ShareIsGain(started, marks, n);
      hide Share, Rate, Interval;
    }
  }

  /** So does the recorder's own account, whatever callbacks came in between. */
  lemma RecorderAddsUp(started: real, calls: seq<Call>)
    requires Growing(Accepted(started, calls))
    ensures Spread(started, Accepted(started, calls))
    ensures Accounted(started, Accepted(started, calls))
         == RunFrom(Init(started), calls).lastCompleted as real
  {
    AcceptedAreSpread(started, calls);
    SamplesAddUp(started, Accepted(started, calls));
    RemembersLastAccepted(started, calls);
  }

  // ------------------------------------------------------------ what is written

  /** Every snapshot of every run: the count is the callback's and the rate the smoothed
      one; the total is what was discovered, up to the ceiling;
      the rate is not negative; an ETA is offered exactly when warm, moving and
      non-empty, is never negative, is zero exactly when nothing remains, and is the
      time the remaining pages take at the rate shown. */
  lemma {:induction false} SnapshotsAreSane(started: real, calls: seq<Call>, c: Call, ceiling: nat)
    ensures var s := Taken(RunFrom(Init(started), calls), c, started, ceiling);
      && s.completed == c.completed && s.rate == RunFrom(Init(started), calls).rate
      && s.total <= c.discovered && s.total <= ceiling && (s.total == c.discovered || s.total == ceiling)
      && s.rate >= 0.0
      && (s.eta.Some? <==> c.now - started >= 3.0 && s.rate > 0.0 && s.total > 0)
      && (s.eta.Some? ==>
            && s.eta.value >= 0.0 && (s.eta.value == 0.0 <==> c.completed >= s.total)
            && s.eta.value * s.rate == Gain(c.completed, s.total) as real)
  {
    RateIsNotNegative(started, calls);
    var r := RunFrom(Init(started), calls);
    var s := Taken(r, c, started, ceiling);
    if s.eta.Some? {
      Quotient(Gain(c.completed, s.total) as real, r.rate);
    }
  }

  lemma Quotient(a: real, b: real)
    requires a >= 0.0 && b > 0.0
    ensures a / b >= 0.0 && (a / b == 0.0 <==> a == 0.0) && a / b * b == a
  {
    var q := a / b;
    assert q * b == a;
  }

  lemma {:induction false} RateIsNotNegative(started: real, calls: seq<Call>)
    ensures RunFrom(Init(started), calls).rate >= 0.0
  {
    if calls != [] {
      var front := calls[..|calls| - 1];
      RateIsNotNegative(started, front);
      var r, c := RunFrom(Init(started), front), Last(calls);
      if c.now - r.lastSample >= SAMPLE_GATE {
        Quotient(Gain(r.lastCompleted, c.completed) as real, c.now - r.lastSample);
      }
    }
  }

  /** When the latest write of a history was; no recorder is involved. */
  function LastWriteAt(calls: seq<Call>): real {
    if calls == [] then 0.0
    else
      var before, c := LastWriteAt(calls[..|calls| - 1]), Last(calls);
      if c.completed == 0 || c.now - before >= 0.5 then c.now else before
  }

  lemma {:induction false} RemembersLastWrite(started: real, calls: seq<Call>)
    ensures RunFrom(Init(started), calls).lastFlush == LastWriteAt(calls)
  {
    if calls != [] {
      RemembersLastWrite(started, calls[..|calls| - 1]);
    }
  }

  /** In every run a callback is written if and only if it reports no page or comes half a
      second or more after the latest write. */
  lemma {:induction false} WritesExactly(started: real, calls: seq<Call>, c: Call)
    ensures Flushes(RunFrom(Init(started), calls), c) <==> c.completed == 0 || c.now - LastWriteAt(calls) >= 0.5
  {
    RemembersLastWrite(started, calls);
  }

  predicate Monotone(calls: seq<Call>) {
    forall i, k :: 0 <= i < k < |calls| ==> calls[i].now <= calls[k].now
  }

  /** Writes that report progress, from any point of a run. */
  function ProgressWrites(r: Recorder, calls: seq<Call>): nat {
    if calls == [] then 0
    else
      var front := calls[..|calls| - 1];
      ProgressWrites(r, front)
      + if Flushes(RunFrom(r, front), Last(calls)) && Last(calls).completed > 0 then 1 else 0
  }

  lemma {:induction false} WritesAreSpaced(r: Recorder, calls: seq<Call>)
    requires calls != [] && Monotone(calls)
    ensures ProgressWrites(r, calls) > 0 ==>
      && (ProgressWrites(r, calls) - 1) as real * FLUSH_SECONDS
         <= RunFrom(r, calls).lastFlush - calls[0].now
      && RunFrom(r, calls).lastFlush <= Last(calls).now
  {
    var front := calls[..|calls| - 1];
    if front == [] {
      assert ProgressWrites(r, front) == 0;
    } else {
      WritesAreSpaced(r, front);
      assert front[0] == calls[0] && Last(front).now <= Last(calls).now;
    }
  }

  /** Over any stretch of `T` seconds of any run, at most `1 + T / 0.5` writes report
      progress. */
  lemma ProgressWritesAreBounded(r: Recorder, calls: seq<Call>)
    requires calls != [] && Monotone(calls)
    ensures ProgressWrites(r, calls) as real <= 1.0 + (Last(calls).now - calls[0].now) / 0.5
  {
    WritesAreSpaced(r, calls);
    assert Last(calls).now >= calls[0].now;
  }

  /** The bound is about progress only: before the first page every callback writes,
      however fast they come. */
  lemma {:induction false} ZeroProgressIsNotThrottled(r: Recorder, calls: seq<Call>, c: Call)
    ensures c.completed == 0 ==> Flushes(RunFrom(r, calls), c)
    ensures Flushes(RunFrom(r, calls + [c]), c) <==> c.completed == 0
  {
    assert (calls + [c])[..|calls|] == calls;
    var s := RunFrom(r, calls);
    assert RunFrom(r, calls + [c]) == Recorded(s, c);
    if Flushes(Sampled(s, c), c) {
      assert RunFrom(r, calls + [c]).lastFlush == c.now;
    }
  }
}
