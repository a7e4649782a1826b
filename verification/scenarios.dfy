/**
 * Concrete runs of the probe: two events measured over one interval, the same interval with a
 * contended counter, and a missing `PERF_EVENTS`.
 */
module Scenarios {
  import opened Wrappers
  import opened Diagnostics
  import opened EventList
  import opened CounterData
  import opened CounterSet
  import opened Session

  /** A libpfm and kernel that accept every event; handles are numbered from 3. */
  const Accepting: Kernel := Kernel(
    PfmSuccess,
    (c: EncodeCall) => EncodeReply(PfmSuccess, Encoding(0, c.index)),
    (c: OpenCall) => 3 + c.index,
    (c: IoctlCall) => 0,
    (option: int) => 0)

  /** A `read` that returns a whole reading: `first` for slot 0 and `second` for every other slot. */
  function Reads(first: Snapshot, second: Snapshot): ReadCall -> ReadReply {
    (c: ReadCall) => ReplyOf(ReadBytes, if c.index == 0 then first else second)
  }

  /** What `Reads` answers for slots 0 and 1 of a counter set. */
  lemma ReadsAnswer(first: Snapshot, second: Snapshot, cs: CounterSet)
    requires Aligned(cs) && |cs.events| == 2
    ensures ReadValid(Reads(first, second)(ReadCallFor(cs, 0))) <==> first.timeEnabled == first.timeRunning
    ensures ReadValid(Reads(first, second)(ReadCallFor(cs, 1))) <==> second.timeEnabled == second.timeRunning
    ensures Reads(first, second)(ReadCallFor(cs, 0)).data() == first
    ensures Reads(first, second)(ReadCallFor(cs, 1)).data() == second
  {
    assert Reads(first, second)(ReadCallFor(cs, 0)) == ReplyOf(ReadBytes, first);
    assert Reads(first, second)(ReadCallFor(cs, 1)) == ReplyOf(ReadBytes, second);
  }

  /** `PERF_EVENTS=cycles,instructions` names two events, in that order. */
  lemma TwoEventNames()
    ensures EventNames("cycles,instructions") == ["cycles", "instructions"]
  {
    assert Join(["cycles", "instructions"]) == "cycles,instructions";
    EventNamesOfJoin(["cycles", "instructions"]);
  }

  /** Preparing with two events against an accepting kernel succeeds. */
  lemma PrepareTwoEvents() returns (g: Globals)
    ensures PerfmonPrepare(Startup, Some("cycles,instructions"), Accepting) == Success(g)
    ensures Prepared(g) && Events(g) == ["cycles", "instructions"] && g.results == []
  {
    TwoEventNames();
    g := PerfmonPrepare(Startup, Some("cycles,instructions"), Accepting).value;
  }

  /**
   * One interval over two prepared events with no earlier results: begin reads `b0` and `b1`,
   * end reads `e0` and `e1`, and the results are the two deltas in slot order.
   */
  lemma TwoSlotInterval(g: Globals, b0: Snapshot, b1: Snapshot, e0: Snapshot, e1: Snapshot)
    requires Prepared(g) && |Events(g)| == 2 && g.results == []
    requires b0.timeEnabled == b0.timeRunning && b1.timeEnabled == b1.timeRunning
    requires e0.timeEnabled == e0.timeRunning && e1.timeEnabled == e1.timeRunning
    ensures var started := PerfmonBegin(g, Reads(b0, b1));
      && started.Success?
      && var ended := PerfmonEnd(started.value, Reads(e0, e1));
      && ended.Success?
      && ended.value.0.results == [EventResult(Events(g)[0], Delta(e0, b0)), EventResult(Events(g)[1], Delta(e1, b1))]
      && ended.value.1 == 2
  {
    var cs := g.perfEvents.value;
    ReadsAnswer(b0, b1, cs);
    var started := PerfmonBegin(g, Reads(b0, b1));
    assert started.Success?;
    ReadsAnswer(e0, e1, cs);
    var ended := PerfmonEnd(started.value, Reads(e0, e1));
    assert ended.Success?;
    var results := ended.value.0.results;
    assert |results| == 2;
    assert results[0] == EventResult(Events(g)[0], Delta(e0, b0));
    assert results[1] == EventResult(Events(g)[1], Delta(e1, b1));
  }

  /**
   * After preparing `cycles,instructions` (as `PrepareTwoEvents` does), begin reads
   * {1000, 500, 500} and {2000, 500, 500}, end reads {1500, 700, 700} and {3200, 700, 700}:
   * the results are cycles = 500 and instructions = 1200, and the size is 2.
   */
  lemma TwoEventInterval(g: Globals)
    requires Prepared(g) && Events(g) == ["cycles", "instructions"] && g.results == []
    ensures var started := PerfmonBegin(g, Reads(Snapshot(1000, 500, 500), Snapshot(2000, 500, 500)));
      && started.Success?
      && var ended := PerfmonEnd(started.value, Reads(Snapshot(1500, 700, 700), Snapshot(3200, 700, 700)));
      && ended.Success?
      && ended.value.0.results == [EventResult("cycles", Some(500)), EventResult("instructions", Some(1200))]
      && ended.value.1 == 2
  {
    TwoSlotInterval(g, Snapshot(1000, 500, 500), Snapshot(2000, 500, 500), Snapshot(1500, 700, 700), Snapshot(3200, 700, 700));
    assert Delta(Snapshot(1500, 700, 700), Snapshot(1000, 500, 500)) == Some(500);
    assert Delta(Snapshot(3200, 700, 700), Snapshot(2000, 500, 500)) == Some(1200);
  }

  /**
   * The same interval, but the second counter never ran at the end ({3200, 0, 0} passes the
   * enabled-equals-running check): its delta is the sentinel, the first is still 500.
   */
  lemma ContendedCounterGivesSentinel(g: Globals)
    requires Prepared(g) && Events(g) == ["cycles", "instructions"] && g.results == []
    ensures var started := PerfmonBegin(g, Reads(Snapshot(1000, 500, 500), Snapshot(2000, 500, 500)));
      && started.Success?
      && var ended := PerfmonEnd(started.value, Reads(Snapshot(1500, 700, 700), Snapshot(3200, 0, 0)));
      && ended.Success?
      && ended.value.0.results == [EventResult("cycles", Some(500)), EventResult("instructions", None)]
  {
    TwoSlotInterval(g, Snapshot(1000, 500, 500), Snapshot(2000, 500, 500), Snapshot(1500, 700, 700), Snapshot(3200, 0, 0));
    assert Delta(Snapshot(1500, 700, 700), Snapshot(1000, 500, 500)) == Some(500);
    assert Delta(Snapshot(3200, 0, 0), Snapshot(2000, 500, 500)) == None;
  }

  /** A multiplexed counter (enabled 700, running 600) stops the whole `end`. */
  lemma ScaledCounterIsFatal()
    ensures var g := PerfmonPrepare(Startup, Some("cycles,instructions"), Accepting).value;
      PerfmonEnd(g, Reads(Snapshot(1500, 700, 700), Snapshot(3200, 700, 600))) == Failure(CounterScaled)
  {
    var g := PrepareTwoEvents();
    var read := Reads(Snapshot(1500, 700, 700), Snapshot(3200, 700, 600));
    ReadsAnswer(Snapshot(1500, 700, 700), Snapshot(3200, 700, 600), g.perfEvents.value);
    assert !ReadValid(read(ReadCallFor(g.perfEvents.value, 1)));
    assert FirstFailingRead(g.perfEvents.value, read, 0) == 1;
  }

  /** Without `PERF_EVENTS` nothing is touched: the only outcome is the configuration error. */
  lemma UnsetEnvIsFatal(g: Globals, k: Kernel)
    ensures PerfmonPrepare(g, None, k) == Failure(EnvNotSet)
  {
  }
}
