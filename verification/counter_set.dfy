/**
 * The counter set (`PerfEvents` in perfevent.cpp): one perf event attribute block and one
 * handle per requested event, index-aligned with the event list, set up by `Prepare`, started
 * by `Enable`, and read slot by slot by `ReadAll`.
 *
 * libpfm and the kernel are not modelled; what they answer is data. A `Kernel` value gives the
 * status, handle or result each call of the set-up phase returns, keyed by the call and its
 * arguments, and each `ReadAll` receives the answers of its own `read` calls.
 */
module CounterSet {
  import opened Wrappers
  import opened Buffers
  import opened Diagnostics
  import opened CounterData

  /** `PFM_SUCCESS`. */
  const PfmSuccess: int := 0
  /** `PFM_PLM3`: count at user privilege level only. */
  const PfmPlm3: int := 0x08
  /** `PERF_FORMAT_TOTAL_TIME_ENABLED | PERF_FORMAT_TOTAL_TIME_RUNNING`. */
  const ReadFormatTimes: int := 0x1 + 0x2
  /** `perf_event_open` arguments: this process, any CPU, no group leader, no flags. */
  const SelfPid: int := 0
  const AnyCpu: int := -1
  const NoGroup: int := -1
  const NoFlags: int := 0
  /** `PERF_EVENT_IOC_ENABLE`, `_IO('$', 0)`. */
  const PerfEventIocEnable: int := 0x2400
  /** `PR_TASK_PERF_EVENTS_ENABLE`. */
  const PrTaskPerfEventsEnable: int := 32
  /** `3 * sizeof(long long)`: the bytes of one reading. */
  const ReadBytes: int := 3 * 8

  /** The hardware configuration the encoder writes into an attribute block. */
  datatype Encoding = Encoding(eventType: nat, config: nat)

  /** The fields of `struct perf_event_attr` the probe sets; `None` encoding is the zeroed block. */
  datatype Attr = Attr(sizeSet: bool, encoding: Option<Encoding>, readFormat: int, disabled: bool, inherit: bool)

  /** A value-initialised `perf_event_attr`, as `resize` appends it. */
  const ZeroAttr: Attr := Attr(false, None, 0, false, false)

  datatype EncodeCall = EncodeCall(index: nat, name: string, plm: int)
  datatype EncodeReply = EncodeReply(status: int, encoding: Encoding)
  datatype OpenCall = OpenCall(index: nat, attr: Attr, pid: int, cpu: int, groupFd: int, flags: int)
  datatype IoctlCall = IoctlCall(index: nat, fd: int, request: int)
  datatype ReadCall = ReadCall(index: nat, fd: int, bytes: int)
  /** What `read` returned and the three unsigned words it wrote into the slot. */
  datatype ReadReply = ReadReply(ret: int, raw: Word, enabled: Word, running: Word) {
    /** The `PerfEventData` the three words fill: each one read back as a `long long`. */
    function data(): Snapshot {
      FromWords(raw, enabled, running)
    }
  }

  /** The reply whose return value is `ret` and whose words read back as `s`. */
  function ReplyOf(ret: int, s: Snapshot): (r: ReadReply)
    ensures r.ret == ret && r.data() == s
  {
    ReadReply(ret, WordOf(s.rawCount), WordOf(s.timeEnabled), WordOf(s.timeRunning))
  }

  /** The answers of libpfm and of the kernel during set-up. */
  datatype Kernel = Kernel(
    pfmInitialize: int,
    encode: EncodeCall -> EncodeReply,
    open: OpenCall -> int,
    ioctl: IoctlCall -> int,
    prctl: int -> int)

  /** A `PerfEvents` object: the event list, the handle and attribute arrays, the initialised flag. */
  datatype CounterSet = CounterSet(events: seq<string>, fds: seq<int>, attrs: seq<Attr>, initialized: bool)

  /** Arrays aligned with the event list. */
  predicate Aligned(cs: CounterSet) {
    |cs.fds| == |cs.events| && |cs.attrs| == |cs.events|
  }

  /** What a successful `Prepare` leaves behind. */
  predicate Ready(cs: CounterSet) {
    Aligned(cs) && cs.initialized
  }

  /** The constructor `PerfEvents(events)`: empty arrays, not initialised. */
  function NewCounterSet(events: seq<string>): (cs: CounterSet)
    ensures cs.events == events && !cs.initialized
    ensures Aligned(cs) <==> events == []
  {
    CounterSet(events, [], [], false)
  }

  // ---- set-up of one event, as a reference the loop is compared with ----

  function EncodeCallFor(name: string, i: nat): EncodeCall {
    EncodeCall(i, name, PfmPlm3)
  }

  /** The attribute block of event `i` once the encoder has filled it and the probe has set its flags. */
  function ConfiguredAttr(k: Kernel, name: string, i: nat): Attr {
    Attr(true, Some(k.encode(EncodeCallFor(name, i)).encoding), ReadFormatTimes, true, true)
  }

  function OpenCallFor(k: Kernel, name: string, i: nat): OpenCall {
    OpenCall(i, ConfiguredAttr(k, name, i), SelfPid, AnyCpu, NoGroup, NoFlags)
  }

  /** The handle the kernel hands out for event `i`. */
  function OpenedFd(k: Kernel, name: string, i: nat): int {
    k.open(OpenCallFor(k, name, i))
  }

  /** Encoding, opening and enabling event `i` all succeed. */
  predicate CreateSucceeds(k: Kernel, name: string, i: nat) {
    && k.encode(EncodeCallFor(name, i)).status == PfmSuccess
    && OpenedFd(k, name, i) != -1
    && k.ioctl(IoctlCall(i, OpenedFd(k, name, i), PerfEventIocEnable)) != -1
  }

  /** The diagnostic for event `i`: the first of its three checks that fails. */
  function CreateError(k: Kernel, name: string, i: nat): Error {
    var status := k.encode(EncodeCallFor(name, i)).status;
    if status != PfmSuccess then EncodeFailed(i, name, status)
    else if OpenedFd(k, name, i) == -1 then OpenFailed(i, name)
    else IoctlEnableFailed(i, name)
  }

  /** Every event from `from` on can be created. */
  predicate AllCreateFrom(k: Kernel, events: seq<string>, from: nat) {
    forall j :: from <= j < |events| ==> CreateSucceeds(k, events[j], j)
  }

  /** The first event from `from` on whose creation fails, or `|events|` when none does. */
  function FirstFailingCreate(k: Kernel, events: seq<string>, from: nat): (j: nat)
    requires from <= |events|
    ensures from <= j <= |events|
    ensures forall l :: from <= l < j ==> CreateSucceeds(k, events[l], l)
    ensures j < |events| ==> !CreateSucceeds(k, events[j], j)
    decreases |events| - from
  {
    if from == |events| || !CreateSucceeds(k, events[from], from) then from
    else FirstFailingCreate(k, events, from + 1)
  }

  // ---- the private operations ----

  /**
   * `PerfPrepare`: initialise libpfm, stamp every attribute block with its size, set the
   * initialised flag.
   */
  function PerfPrepare(cs: CounterSet, pfmStatus: int): (r: Result<CounterSet, Error>)
    ensures r.Failure? <==> pfmStatus != PfmSuccess
    ensures r.Failure? ==> r.error == PfmInitFailed(pfmStatus)
    ensures r.Success? ==> r.value.initialized && r.value.events == cs.events && r.value.fds == cs.fds
    ensures r.Success? ==> |r.value.attrs| == |cs.attrs|
    ensures r.Success? ==> forall i :: 0 <= i < |cs.attrs| ==> r.value.attrs[i] == cs.attrs[i].(sizeSet := true)
  {
    if pfmStatus != PfmSuccess then
      Failure(PfmInitFailed(pfmStatus))
    else
      Success(cs.(attrs := seq(|cs.attrs|, i requires 0 <= i < |cs.attrs| => cs.attrs[i].(sizeSet := true)),
                  initialized := true))
  }

  /**
   * `PerfCreate(i, events[i])`: encode at user level, set the read format, disabled and inherit
   * flags, open the handle for this process on any CPU, enable it; each step is fatal on failure.
   */
  function PerfCreate(cs: CounterSet, k: Kernel, i: nat): (r: Result<CounterSet, Error>)
    requires Aligned(cs) && i < |cs.events|
    requires cs.attrs[i] == ZeroAttr.(sizeSet := true)
    ensures r.Success? <==> CreateSucceeds(k, cs.events[i], i)
    ensures r.Failure? ==> r.error == CreateError(k, cs.events[i], i)
    ensures r.Success? ==> r.value == cs.(attrs := cs.attrs[i := ConfiguredAttr(k, cs.events[i], i)],
                                         fds := cs.fds[i := OpenedFd(k, cs.events[i], i)])
  {
    var name := cs.events[i];
    var reply := k.encode(EncodeCall(i, name, PfmPlm3));
    if reply.status != PfmSuccess then
      Failure(EncodeFailed(i, name, reply.status))
    else
      var attr := cs.attrs[i].(encoding := Some(reply.encoding), readFormat := ReadFormatTimes,
                               disabled := true, inherit := true);
      var fd := k.open(OpenCall(i, attr, SelfPid, AnyCpu, NoGroup, NoFlags));
      if fd == -1 then
        Failure(OpenFailed(i, name))
      else if k.ioctl(IoctlCall(i, fd, PerfEventIocEnable)) == -1 then
        Failure(IoctlEnableFailed(i, name))
      else
        Success(cs.(attrs := cs.attrs[i := attr], fds := cs.fds[i := fd]))
  }

  /** The loop of `Prepare` from index `i` on, in ascending order, stopping at the first failure. */
  function CreateFrom(cs: CounterSet, k: Kernel, i: nat): (r: Result<CounterSet, Error>)
    requires Aligned(cs) && i <= |cs.events|
    requires forall j :: i <= j < |cs.attrs| ==> cs.attrs[j] == ZeroAttr.(sizeSet := true)
    ensures r.Success? <==> AllCreateFrom(k, cs.events, i)
    ensures r.Failure? ==> var j := FirstFailingCreate(k, cs.events, i);
      j < |cs.events| && r.error == CreateError(k, cs.events[j], j)
    ensures r.Success? ==> Aligned(r.value) && r.value.events == cs.events && r.value.initialized == cs.initialized
    ensures r.Success? ==> forall j :: 0 <= j < i ==> r.value.fds[j] == cs.fds[j] && r.value.attrs[j] == cs.attrs[j]
    ensures r.Success? ==> forall j :: i <= j < |cs.events| ==>
      r.value.attrs[j] == ConfiguredAttr(k, cs.events[j], j) && r.value.fds[j] == OpenedFd(k, cs.events[j], j)
    decreases |cs.events| - i
  {
    if i == |cs.events| then
      Success(cs)
    else
      var next :- PerfCreate(cs, k, i);
      CreateFrom(next, k, i + 1)
  }

  // ---- the public operations ----

  /**
   * `PerfEvents(events)` followed by `Prepare()`: size the arrays, `PerfPrepare`, then
   * `PerfCreate` for every index in ascending order.
   */
  function Prepare(events: seq<string>, k: Kernel): (r: Result<CounterSet, Error>)
    ensures r.Success? <==> k.pfmInitialize == PfmSuccess && AllCreateFrom(k, events, 0)
    ensures k.pfmInitialize != PfmSuccess ==> r == Failure(PfmInitFailed(k.pfmInitialize))
    ensures r.Failure? && k.pfmInitialize == PfmSuccess ==> var j := FirstFailingCreate(k, events, 0);
      j < |events| && r.error == CreateError(k, events[j], j)
    ensures r.Success? ==> Ready(r.value) && r.value.events == events
    ensures r.Success? ==> forall i :: 0 <= i < |events| ==>
      r.value.attrs[i] == ConfiguredAttr(k, events[i], i) && r.value.fds[i] == OpenedFd(k, events[i], i)
  {
    var cs := NewCounterSet(events);
    var sized := cs.(fds := Resize(cs.fds, |events|, 0), attrs := Resize(cs.attrs, |events|, ZeroAttr));
    var ready :- PerfPrepare(sized, k.pfmInitialize);
    CreateFrom(ready, k, 0)
  }

  /** `Enable()`, that is `PerfEnable()`: fatal before initialisation, then `prctl` must return 0. */
  function Enable(cs: CounterSet, k: Kernel): (r: Result<CounterSet, Error>)
    ensures r.Success? <==> cs.initialized && k.prctl(PrTaskPerfEventsEnable) == 0
    ensures !cs.initialized ==> r == Failure(NotInitialized)
    ensures cs.initialized && r.Failure? ==> r.error == PrctlEnableFailed(k.prctl(PrTaskPerfEventsEnable))
    ensures r.Success? ==> r.value == cs
  {
    if !cs.initialized then
      Failure(NotInitialized)
    else
      var status := k.prctl(PrTaskPerfEventsEnable);
      if status != 0 then Failure(PrctlEnableFailed(status)) else Success(cs)
  }

  /** A freshly constructed counter set cannot be enabled, whatever the kernel would answer. */
  lemma EnableBeforePrepareFails(events: seq<string>, k: Kernel)
    ensures Enable(NewCounterSet(events), k) == Failure(NotInitialized)
  {
  }

  /** After a successful `Prepare`, `Enable` fails only when `prctl` does. */
  lemma EnableAfterPrepare(events: seq<string>, k: Kernel)
    requires Prepare(events, k).Success?
    ensures Enable(Prepare(events, k).value, k).Success? <==> k.prctl(PrTaskPerfEventsEnable) == 0
  {
  }

  // ---- reading ----

  function ReadCallFor(cs: CounterSet, i: nat): ReadCall
    requires i < |cs.fds|
  {
    ReadCall(i, cs.fds[i], ReadBytes)
  }

  /** A reply `PerfRead` accepts: three whole words, enabled time equal to running time. */
  predicate ReadValid(reply: ReadReply) {
    reply.ret == ReadBytes && reply.data().timeEnabled == reply.data().timeRunning
  }

  /**
   * `PerfRead`: a negative result, a byte count other than three words, or a reading whose
   * enabled and running times differ (a multiplexed counter) is fatal, checked in that order.
   */
  function PerfRead(reply: ReadReply): (r: Result<Snapshot, Error>)
    ensures r.Success? <==> ReadValid(reply)
    ensures reply.ret < 0 ==> r == Failure(ReadFailed(reply.ret))
    ensures 0 <= reply.ret != ReadBytes ==> r == Failure(ShortRead(reply.ret))
    ensures reply.ret == ReadBytes && !ReadValid(reply) ==> r == Failure(CounterScaled)
    ensures r.Success? ==> r.value == reply.data() && r.value.timeEnabled == r.value.timeRunning
  {
    if reply.ret < 0 then Failure(ReadFailed(reply.ret))
    else if reply.ret != ReadBytes then Failure(ShortRead(reply.ret))
    else if reply.data().timeEnabled != reply.data().timeRunning then Failure(CounterScaled)
    else Success(reply.data())
  }

  /** Every slot from `from` on reads validly. */
  predicate AllReadsFrom(cs: CounterSet, read: ReadCall -> ReadReply, from: nat)
    requires Aligned(cs)
  {
    forall j :: from <= j < |cs.events| ==> ReadValid(read(ReadCallFor(cs, j)))
  }

  /** The first slot from `from` on whose reading `PerfRead` rejects, or `|events|` when none. */
  function FirstFailingRead(cs: CounterSet, read: ReadCall -> ReadReply, from: nat): (j: nat)
    requires Aligned(cs) && from <= |cs.events|
    ensures from <= j <= |cs.events|
    ensures forall l :: from <= l < j ==> ReadValid(read(ReadCallFor(cs, l)))
    ensures j < |cs.events| ==> !ReadValid(read(ReadCallFor(cs, j)))
    decreases |cs.events| - from
  {
    if from == |cs.events| || !ReadValid(read(ReadCallFor(cs, from))) then from
    else FirstFailingRead(cs, read, from + 1)
  }

  /** The loop of `ReadAll` from slot `i` on: the readings of slots `i..`, or the first failure. */
  function ReadFrom(cs: CounterSet, read: ReadCall -> ReadReply, i: nat): (r: Result<seq<Snapshot>, Error>)
    requires Aligned(cs) && i <= |cs.events|
    ensures r.Success? <==> AllReadsFrom(cs, read, i)
    ensures r.Failure? ==> var j := FirstFailingRead(cs, read, i);
      j < |cs.events| && PerfRead(read(ReadCallFor(cs, j))) == Failure(r.error)
    ensures r.Success? ==> |r.value| == |cs.events| - i
    ensures r.Success? ==> forall j :: i <= j < |cs.events| ==> r.value[j - i] == read(ReadCallFor(cs, j)).data()
    decreases |cs.events| - i
  {
    if i == |cs.events| then
      Success([])
    else
      var s :- PerfRead(read(ReadCallFor(cs, i)));
      var rest :- ReadFrom(cs, read, i + 1);
      Success([s] + rest)
  }

  /**
   * `ReadAll`: slot `i` receives the reading of handle `fds[i]`, in ascending order; every slot of a
   * successful read holds a reading with equal enabled and running times.
   */
  function ReadAll(cs: CounterSet, read: ReadCall -> ReadReply): (r: Result<seq<Snapshot>, Error>)
    requires Aligned(cs)
    ensures r.Success? <==> AllReadsFrom(cs, read, 0)
    ensures r.Failure? ==> var j := FirstFailingRead(cs, read, 0);
      j < |cs.events| && PerfRead(read(ReadCallFor(cs, j))) == Failure(r.error)
    ensures r.Success? ==> |r.value| == |cs.events|
    ensures r.Success? ==> forall i :: 0 <= i < |cs.events| ==>
      r.value[i] == read(ReadCallFor(cs, i)).data() && r.value[i].timeEnabled == r.value[i].timeRunning
  {
    ReadFrom(cs, read, 0)
  }
}
