/**
 * The C entry points of perfevent.cpp (`perfmon_prepare`, `perfmon_begin`, `perfmon_end`) and
 * the process-wide state they share: the counter set, the `initial` and `final` reading buffers
 * (overwritten by each call) and the `results` buffer (only ever appended to).
 */
module Session {
  import opened Wrappers
  import opened Buffers
  import opened Diagnostics
  import opened EventList
  import opened CounterData
  import opened CounterSet

  const Int32Max: int := 0x7FFF_FFFF
  const Word32: int := 0x1_0000_0000

  /**
   * One reported delta: the event name and the delta, `None` for the not-a-number sentinel.
   * The conversion of the delta to `uint64_t` through a `double` is not modelled.
   */
  datatype EventResult = EventResult(name: string, value: Option<int>)

  /** The static variables of perfevent.cpp; `perfEvents` is the `unique_ptr`, `None` while null. */
  datatype Globals = Globals(
    perfEvents: Option<CounterSet>,
    initial: seq<Snapshot>,
    final: seq<Snapshot>,
    results: seq<EventResult>)

  /** The state before any entry point has run. */
  const Startup: Globals := Globals(None, [], [], [])

  /** After `perfmon_prepare`: a ready counter set and both buffers with one slot per event. */
  predicate Prepared(g: Globals) {
    && g.perfEvents.Some?
    && Ready(g.perfEvents.value)
    && |g.initial| == |g.perfEvents.value.events|
    && |g.final| == |g.perfEvents.value.events|
  }

  /** The event list of a prepared state. */
  function Events(g: Globals): seq<string>
    requires g.perfEvents.Some?
  {
    g.perfEvents.value.events
  }

  /** `*size = results.size()`: a `size_t` stored into an `int`, which keeps the low 32 bits. */
  function Int32Of(n: nat): (x: int)
    ensures -Int32Max - 1 <= x <= Int32Max
    ensures (x - n) % Word32 == 0
    ensures n <= Int32Max ==> x == n
    ensures x >= 0 ==> x <= n
  {
    var low := n % Word32;
    if low <= Int32Max then low else low - Word32
  }

  /**
   * `perfmon_prepare`: `PERF_EVENTS` must be set (an empty value is accepted and gives no
   * events); the value is split into event names, both reading buffers are resized to the
   * event count, and the counter set is prepared and enabled. The results buffer is untouched.
   */
  function PerfmonPrepare(g: Globals, env: Option<string>, k: Kernel): (r: Result<Globals, Error>)
    ensures r == Failure(EnvNotSet) <==> env.None?
    ensures env.Some? ==>
      (r.Success? <==> Prepare(EventNames(env.value), k).Success? && k.prctl(PrTaskPerfEventsEnable) == 0)
    ensures r.Success? ==> Prepared(r.value) && Events(r.value) == EventNames(env.value)
    ensures r.Success? ==> r.value.perfEvents == Some(Prepare(EventNames(env.value), k).value)
    ensures r.Success? ==> r.value.results == g.results
    ensures r.Success? ==> forall i :: 0 <= i < |r.value.initial| && i < |g.initial| ==> r.value.initial[i] == g.initial[i]
    ensures r.Success? ==> forall i :: |g.initial| <= i < |r.value.initial| ==> r.value.initial[i] == ZeroSnapshot
    ensures r.Success? ==> forall i :: 0 <= i < |r.value.final| && i < |g.final| ==> r.value.final[i] == g.final[i]
    ensures r.Success? ==> forall i :: |g.final| <= i < |r.value.final| ==> r.value.final[i] == ZeroSnapshot
    ensures env.Some? && r.Failure? && Prepare(EventNames(env.value), k).Failure? ==>
      r.error == Prepare(EventNames(env.value), k).error
    ensures env.Some? && r.Failure? && Prepare(EventNames(env.value), k).Success? ==>
      r.error == PrctlEnableFailed(k.prctl(PrTaskPerfEventsEnable))
  {
    if env.None? then
      Failure(EnvNotSet)
    else
      var events := EventNames(env.value);
      var initial := Resize(g.initial, |events|, ZeroSnapshot);
      var final := Resize(g.final, |events|, ZeroSnapshot);
      var cs :- Prepare(events, k);
      var enabled :- Enable(cs, k);
      Success(Globals(Some(enabled), initial, final, g.results))
  }

  /** An empty `PERF_EVENTS` is not an error: it prepares a session with no events at all. */
  lemma EmptyEnvPreparesNoEvents(g: Globals, k: Kernel)
    requires k.pfmInitialize == PfmSuccess && k.prctl(PrTaskPerfEventsEnable) == 0
    ensures PerfmonPrepare(g, Some([]), k).Success?
    ensures Events(PerfmonPrepare(g, Some([]), k).value) == []
  {
    assert Fields([]) == [[]];
  }

  /** `perfmon_begin`: read every counter into `initial`; nothing else changes. */
  function PerfmonBegin(g: Globals, read: ReadCall -> ReadReply): (r: Result<Globals, Error>)
    requires Prepared(g)
    ensures r.Success? <==> AllReadsFrom(g.perfEvents.value, read, 0)
    ensures r.Success? ==> Prepared(r.value) && r.value == g.(initial := r.value.initial)
    ensures r.Success? ==> forall i :: 0 <= i < |Events(g)| ==>
      r.value.initial[i] == read(ReadCallFor(g.perfEvents.value, i)).data()
  {
    var snaps :- ReadAll(g.perfEvents.value, read);
    Success(g.(initial := snaps))
  }

  /**
   * The loop of `perfmon_end` from index `i` on: one `{events[j], final[j] - initial[j]}` pushed
   * per index, in ascending order.
   */
  function AppendDeltas(results: seq<EventResult>, events: seq<string>, final: seq<Snapshot>,
                        initial: seq<Snapshot>, i: nat): (r: seq<EventResult>)
    requires |final| == |events| && |initial| == |events| && i <= |events|
    ensures |r| == |results| + |events| - i
    ensures r[..|results|] == results
    ensures forall j :: i <= j < |events| ==>
      r[|results| + j - i] == EventResult(events[j], Delta(final[j], initial[j]))
    decreases |events| - i
  {
    if i == |events| then results
    else AppendDeltas(results + [EventResult(events[i], Delta(final[i], initial[i]))], events, final, initial, i + 1)
  }

  /**
   * `perfmon_end`: read every counter into `final`, append one result per event in index
   * order after everything already in `results`, and report the cumulative result count.
   */
  function PerfmonEnd(g: Globals, read: ReadCall -> ReadReply): (r: Result<(Globals, int), Error>)
    requires Prepared(g)
    ensures r.Success? <==> AllReadsFrom(g.perfEvents.value, read, 0)
    ensures r.Success? ==> Prepared(r.value.0)
    ensures r.Success? ==> r.value.0 == g.(final := r.value.0.final, results := r.value.0.results)
    ensures r.Success? ==> forall i :: 0 <= i < |Events(g)| ==>
      r.value.0.final[i] == read(ReadCallFor(g.perfEvents.value, i)).data()
    ensures r.Success? ==> |r.value.0.results| == |g.results| + |Events(g)|
    ensures r.Success? ==> r.value.0.results[..|g.results|] == g.results
    ensures r.Success? ==> forall i :: 0 <= i < |Events(g)| ==>
      r.value.0.results[|g.results| + i] == EventResult(Events(g)[i], Delta(r.value.0.final[i], g.initial[i]))
    ensures r.Success? ==> r.value.1 == Int32Of(|r.value.0.results|)
  {
    var cs := g.perfEvents.value;
    var snaps :- ReadAll(cs, read);
    var results := AppendDeltas(g.results, cs.events, snaps, g.initial, 0);
    Success((g.(final := snaps, results := results), Int32Of(|results|)))
  }

  /**
   * Ending right after `perfmon_prepare`, with no `perfmon_begin`, compares against the
   * zero-filled `initial` buffer: every event reports the sentinel.
   */
  lemma EndWithoutBeginGivesSentinels(env: string, k: Kernel, read: ReadCall -> ReadReply)
    requires PerfmonPrepare(Startup, Some(env), k).Success?
    requires PerfmonEnd(PerfmonPrepare(Startup, Some(env), k).value, read).Success?
    ensures var results := PerfmonEnd(PerfmonPrepare(Startup, Some(env), k).value, read).value.0.results;
      forall i :: 0 <= i < |results| ==> results[i].value == None
  {
    var g := PerfmonPrepare(Startup, Some(env), k).value;
    var results := PerfmonEnd(g, read).value.0.results;
    forall i | 0 <= i < |results|
      ensures results[i].value == None
    {
      DeltaFromZeroIsSentinel(PerfmonEnd(g, read).value.0.final[i]);
    }
  }

  /** One call of a C entry point after `perfmon_prepare`, with what `read` answers during it. */
  datatype Call = BeginCall(answers: ReadCall -> ReadReply) | EndCall(answers: ReadCall -> ReadReply)

  /** How many of `calls` are `perfmon_end`. */
  function EndCalls(calls: seq<Call>): nat
    decreases |calls|
  {
    if calls == [] then 0 else (if calls[0].EndCall? then 1 else 0) + EndCalls(calls[1..])
  }

  /**
   * Any sequence of `perfmon_begin` and `perfmon_end` calls, in any order (an `end` with no
   * `begin` before it, or two in a row, included); the final state and the count each `end`
   * reported, or the first fatal error.
   */
  function Run(g: Globals, calls: seq<Call>): (r: Result<(Globals, seq<int>), Error>)
    requires Prepared(g)
    ensures r.Success? ==> Prepared(r.value.0) && |r.value.1| == EndCalls(calls)
    decreases |calls|
  {
    if calls == [] then
      Success((g, []))
    else if calls[0].BeginCall? then
      var started :- PerfmonBegin(g, calls[0].answers);
      Run(started, calls[1..])
    else
      var ended :- PerfmonEnd(g, calls[0].answers);
      var rest :- Run(ended.0, calls[1..]);
      Success((rest.0, [ended.1] + rest.1))
  }

  /**
   * How a successful run of one or more calls starts: the state after its first call, from which
   * the rest of the run continues. A `begin` leaves the results alone; an `end` appends one
   * result per event and reports the new size.
   */
  lemma RunFirst(g: Globals, calls: seq<Call>) returns (next: Globals)
    requires Prepared(g) && calls != []
    requires Run(g, calls).Success?
    ensures Prepared(next) && Run(next, calls[1..]).Success?
    ensures next.perfEvents == g.perfEvents
    ensures Run(g, calls).value.0 == Run(next, calls[1..]).value.0
    ensures calls[0].BeginCall? ==> next.results == g.results
    ensures calls[0].BeginCall? ==> Run(g, calls).value.1 == Run(next, calls[1..]).value.1
    ensures calls[0].EndCall? ==> |next.results| == |g.results| + |Events(g)|
    ensures calls[0].EndCall? ==> IsPrefix(g.results, next.results)
    ensures calls[0].EndCall? ==>
      Run(g, calls).value.1 == [Int32Of(|g.results| + |Events(g)|)] + Run(next, calls[1..]).value.1
  {
    if calls[0].BeginCall? {
      next := PerfmonBegin(g, calls[0].answers).value;
    } else {
      next := PerfmonEnd(g, calls[0].answers).value.0;
    }
  }

  /**
   * The results buffer is never cleared: after a run it has grown by exactly the number of
   * `end` calls times the event count, its old contents are intact, and the counter set is
   * unchanged.
   */
  lemma {:induction false} RunAccumulates(g: Globals, calls: seq<Call>)
    requires Prepared(g)
    requires Run(g, calls).Success?
    ensures var (g', counts) := Run(g, calls).value;
      && g'.perfEvents == g.perfEvents
      && |g'.results| == |g.results| + EndCalls(calls) * |Events(g)|
      && IsPrefix(g.results, g'.results)
    decreases |calls|
  {
    if calls != [] {
      var next := RunFirst(g, calls);
      RunAccumulates(next, calls[1..]);
      var rest := Run(next, calls[1..]).value;
      if calls[0].EndCall? {
        MulSucc(EndCalls(calls[1..]), |Events(g)|);
        PrefixTransitive(g.results, next.results, rest.0.results);
      }
    }
  }

  /** The result count after `c + 1` rounds of `n` events on top of `m` earlier results. */
  function Cumulative(m: nat, c: nat, n: nat): nat {
    m + (c + 1) * n
  }

  lemma CumulativeStep(m: nat, c: nat, n: nat)
    requires c > 0
    ensures Cumulative(m + n, c - 1, n) == Cumulative(m, c, n)
  {
    MulSucc(c - 1, n);
  }

  /**
   * The `c`-th `end` of a run reports the cumulative size: everything before plus `c + 1` rounds
   * of events, however the `begin` calls are placed.
   */
  lemma {:induction false} RunReportsCumulativeCounts(g: Globals, calls: seq<Call>)
    requires Prepared(g)
    requires Run(g, calls).Success?
    ensures var counts := Run(g, calls).value.1;
      forall c :: 0 <= c < |counts| ==> counts[c] == Int32Of(Cumulative(|g.results|, c, |Events(g)|))
    decreases |calls|
  {
    if calls != [] {
      var n := |Events(g)|;
      var m := |g.results|;
      var next := RunFirst(g, calls);
      RunReportsCumulativeCounts(next, calls[1..]);
      var rest := Run(next, calls[1..]).value.1;
      var counts := Run(g, calls).value.1;
      if calls[0].EndCall? {
        assert counts == [Int32Of(m + n)] + rest;
        forall c | 0 <= c < |counts|
          ensures counts[c] == Int32Of(Cumulative(m, c, n))
        {
          if c == 0 {
            assert counts[0] == Int32Of(m + n);
          } else {
            assert counts[c] == rest[c - 1];
            CumulativeStep(m, c, n);
          }
        }
      }
    }
  }

  /** `a` is an initial segment of `b`. */
  ghost predicate IsPrefix<T>(a: seq<T>, b: seq<T>) {
    |a| <= |b| && b[..|a|] == a
  }

  lemma PrefixTransitive<T>(a: seq<T>, b: seq<T>, c: seq<T>)
    requires IsPrefix(a, b) && IsPrefix(b, c)
    ensures IsPrefix(a, c)
  {
    assert c[..|a|] == c[..|b|][..|a|];
  }

  lemma MulSucc(c: nat, n: nat)
    ensures (c + 1) * n == c * n + n
  {
  }

  /**
   * Starting from an empty results buffer, the `N`-th `end` of any run reports `N` times the
   * event count.
   */
  lemma NthEndReportsNTimesEvents(g: Globals, calls: seq<Call>, c: nat)
    requires Prepared(g) && g.results == []
    requires Run(g, calls).Success?
    requires c < EndCalls(calls) && (c + 1) * |Events(g)| <= Int32Max
    ensures Run(g, calls).value.1[c] == (c + 1) * |Events(g)|
  {
    RunReportsCumulativeCounts(g, calls);
    var counts := Run(g, calls).value.1;
    assert counts[c] == Int32Of(Cumulative(0, c, |Events(g)|));
  }
}
