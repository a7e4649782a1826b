/**
 * The Rust wrapper (src/lib.rs): `initialize` guards `perfmon_prepare` with a once-only flag and
 * gives `PERF_EVENTS` an empty default, `begin` forwards to `perfmon_begin`, and `end` folds the
 * cumulative result array of `perfmon_end` into a map from event name to value, later entries
 * overwriting earlier ones.
 */
module Binding {
  import opened Wrappers
  import opened Diagnostics
  import opened CounterData
  import opened EventList
  import opened CounterSet
  import opened Session

  /**
   * The `PERF_EVENTS` variable: unset, or set to some bytes that Rust's `env::var` may or may
   * not accept as Unicode.
   */
  datatype EnvVar = Unset | Set(raw: string, unicode: bool)

  /** The process as the wrapper sees it: the `PERFMON_PREPARED` flag, the variable, the C state. */
  datatype Process = Process(prepared: bool, perfEventsVar: EnvVar, c: Globals)

  /** A process before `initialize`. */
  function NewProcess(env: EnvVar): Process {
    Process(false, env, Startup)
  }

  /** What C's `getenv` returns for the variable. */
  function GetEnv(v: EnvVar): Option<string> {
    if v.Unset? then None else Some(v.raw)
  }

  /**
   * `env::var` fails for an unset and for a non-Unicode variable; in both cases the wrapper sets
   * it to the empty string, otherwise it leaves it alone.
   */
  function DefaultedEnv(v: EnvVar): (w: EnvVar)
    ensures GetEnv(w).Some?
    ensures v.Set? && v.unicode ==> w == v
    ensures !(v.Set? && v.unicode) ==> w == Set([], true)
  {
    if v.Set? && v.unicode then v else Set([], true)
  }

  /**
   * `initialize`: the first call flips the flag and prepares the probe with `PERF_EVENTS`
   * defaulted to the empty string, so the C side never sees it unset; any later call panics
   * before preparing anything.
   */
  function Initialize(p: Process, k: Kernel): (r: Result<Process, Error>)
    ensures p.prepared ==> r == Failure(AlreadyInitialized)
    ensures !p.prepared ==> r != Failure(AlreadyInitialized) && r != Failure(EnvNotSet)
    ensures !p.prepared ==>
      (r.Success? <==> PerfmonPrepare(p.c, GetEnv(DefaultedEnv(p.perfEventsVar)), k).Success?)
    ensures r.Success? ==> r.value.prepared && Prepared(r.value.c) && r.value.c.results == p.c.results
    ensures r.Success? ==> r.value.perfEventsVar == DefaultedEnv(p.perfEventsVar)
    ensures r.Success? ==> Events(r.value.c) == EventNames(DefaultedEnv(p.perfEventsVar).raw)
    ensures r.Success? && !(p.perfEventsVar.Set? && p.perfEventsVar.unicode) ==> Events(r.value.c) == []
    ensures r.Success? ==> r.value.c == PerfmonPrepare(p.c, GetEnv(DefaultedEnv(p.perfEventsVar)), k).value
    ensures !p.prepared && r.Failure? ==>
      r.error == PerfmonPrepare(p.c, GetEnv(DefaultedEnv(p.perfEventsVar)), k).error
  {
    if p.prepared then
      Failure(AlreadyInitialized)
    else
      var env := DefaultedEnv(p.perfEventsVar);
      EventNamesOfJoin([]);
      var c :- PerfmonPrepare(p.c, GetEnv(env), k);
      Success(Process(true, env, c))
  }

  /** Once `initialize` has succeeded, every further call fails whatever the kernel would answer. */
  lemma InitializeOnlyOnce(p: Process, k: Kernel, k': Kernel)
    requires Initialize(p, k).Success?
    ensures Initialize(Initialize(p, k).value, k') == Failure(AlreadyInitialized)
  {
  }

  /** `begin`: `perfmon_begin` on the C state. */
  function Begin(p: Process, read: ReadCall -> ReadReply): (r: Result<Process, Error>)
    requires Prepared(p.c)
    ensures r.Success? <==> AllReadsFrom(p.c.perfEvents.value, read, 0)
    ensures r.Success? ==> Prepared(r.value.c) && r.value == p.(c := r.value.c)
    ensures r.Success? ==> r.value.c == p.c.(initial := r.value.c.initial)
    ensures r.Success? ==> r.value.c == PerfmonBegin(p.c, read).value
    ensures r.Success? ==> forall i :: 0 <= i < |Events(p.c)| ==>
      r.value.c.initial[i] == read(ReadCallFor(p.c.perfEvents.value, i)).data()
    ensures r.Failure? ==> r.error == PerfmonBegin(p.c, read).error
  {
    var c :- PerfmonBegin(p.c, read);
    Success(p.(c := c))
  }

  /** The set of names among `entries`. */
  ghost function NamesOf(entries: seq<EventResult>): set<string> {
    set i | 0 <= i < |entries| :: entries[i].name
  }

  /**
   * The loop of `end`: every entry, first to last, inserted into a `HashMap`, so a later entry
   * replaces the value of an earlier one with the same name.
   */
  function Collect(entries: seq<EventResult>): (m: map<string, Option<int>>)
    ensures m.Keys == NamesOf(entries)
    decreases |entries|
  {
    if entries == [] then
      map[]
    else
      var front := entries[..|entries| - 1];
      var last := entries[|entries| - 1];
      assert NamesOf(entries) == NamesOf(front) + {last.name} by {
        assert forall i :: 0 <= i < |front| ==> front[i] == entries[i];
      }
      Collect(front)[last.name := last.value]
  }

  /** Entry `i` is the last one carrying its name. */
  predicate IsLastOfName(entries: seq<EventResult>, i: nat)
    requires i < |entries|
  {
    forall j :: i < j < |entries| ==> entries[j].name != entries[i].name
  }

  /** Duplicate names collapse: the map has at most one key per entry. */
  lemma {:induction false} CollectSize(entries: seq<EventResult>)
    ensures |Collect(entries)| <= |entries|
    decreases |entries|
  {
    if entries != [] {
      var front := entries[..|entries| - 1];
      var last := entries[|entries| - 1];
      CollectSize(front);
      var m := Collect(front);
      assert Collect(entries).Keys == m.Keys + {last.name};
      assert |m.Keys + {last.name}| <= |m.Keys| + 1;
    }
  }

  /** The value kept for a name is the value of the last entry with that name. */
  lemma {:induction false} CollectLastWins(entries: seq<EventResult>, i: nat)
    requires i < |entries| && IsLastOfName(entries, i)
    ensures entries[i].name in Collect(entries)
    ensures Collect(entries)[entries[i].name] == entries[i].value
    decreases |entries|
  {
    var front := entries[..|entries| - 1];
    if i < |entries| - 1 {
      assert front[i] == entries[i];
      assert IsLastOfName(front, i) by {
        forall j | i < j < |front| ensures front[j].name != front[i].name {
          assert front[j] == entries[j];
        }
      }
      CollectLastWins(front, i);
    }
  }

  /** Entries appended later decide the value of every name they carry. */
  lemma {:induction false} CollectLaterWins(earlier: seq<EventResult>, later: seq<EventResult>, name: string)
    requires name in NamesOf(later)
    ensures name in Collect(earlier + later) && name in Collect(later)
    ensures Collect(earlier + later)[name] == Collect(later)[name]
    decreases |later|
  {
    var all := earlier + later;
    var last := later[|later| - 1];
    assert all[|all| - 1] == last;
    if last.name != name {
      var front := later[..|later| - 1];
      assert all[..|all| - 1] == earlier + front;
      var i :| 0 <= i < |later| && later[i].name == name;
      assert front[i] == later[i];
      CollectLaterWins(earlier, front, name);
    }
  }

  /**
   * `end`: `perfmon_end`, then exactly the `count` entries it reports folded into a map. The
   * count is the cumulative size wrapped to an `i32`: while that size is at most 2^31 - 1 it is
   * the whole buffer, past that only a prefix, and a negative count is fatal.
   */
  function End(p: Process, read: ReadCall -> ReadReply): (r: Result<(Process, map<string, Option<int>>), Error>)
    requires Prepared(p.c)
    ensures r.Success? <==>
      AllReadsFrom(p.c.perfEvents.value, read, 0) && Int32Of(|p.c.results| + |Events(p.c)|) >= 0
    ensures AllReadsFrom(p.c.perfEvents.value, read, 0) && Int32Of(|p.c.results| + |Events(p.c)|) < 0 ==>
      r == Failure(NegativeCount(Int32Of(|p.c.results| + |Events(p.c)|)))
    ensures !AllReadsFrom(p.c.perfEvents.value, read, 0) ==> r == Failure(PerfmonEnd(p.c, read).error)
    ensures r.Success? ==> r.value.0 == p.(c := PerfmonEnd(p.c, read).value.0)
    ensures r.Success? ==> |r.value.0.c.results| == |p.c.results| + |Events(p.c)|
    ensures r.Success? ==> var count := Int32Of(|r.value.0.c.results|);
      0 <= count <= |r.value.0.c.results| && r.value.1 == Collect(r.value.0.c.results[..count])
    ensures r.Success? && |p.c.results| + |Events(p.c)| <= Int32Max ==>
      r.value.1 == Collect(r.value.0.c.results) && r.value.1.Keys == NamesOf(r.value.0.c.results)
  {
    var ended := PerfmonEnd(p.c, read);
    if ended.Failure? then
      Failure(ended.error)
    else
      var (c, count) := ended.value;
      assert |c.results| == |p.c.results| + |Events(p.c)| && count == Int32Of(|c.results|);
      if count < 0 then
        Failure(NegativeCount(count))
      else
        assert |c.results| <= Int32Max ==> c.results[..count] == c.results;
        Success((p.(c := c), Collect(c.results[..count])))
  }

  /**
   * The map `end` returns has at most one key per cumulative entry, and for every event of the
   * cycle just ended it holds that cycle's delta, taken from the event's last position when the
   * name is listed more than once.
   */
  lemma EndLatestCycleWins(p: Process, read: ReadCall -> ReadReply, i: nat)
    requires Prepared(p.c)
    requires |p.c.results| + |Events(p.c)| <= Int32Max
    requires End(p, read).Success?
    requires i < |Events(p.c)| && forall j :: i < j < |Events(p.c)| ==> Events(p.c)[j] != Events(p.c)[i]
    ensures var r := End(p, read).value;
      && |r.1| <= |r.0.c.results|
      && Events(p.c)[i] in r.1
      && r.1[Events(p.c)[i]] == Delta(r.0.c.final[i], p.c.initial[i])
  {
    var r := End(p, read).value;
    var events := Events(p.c);
    var cycle := EndAppendsCycle(p.c, read);
    assert r.0.c.results == p.c.results + cycle;
    assert IsLastOfName(cycle, i) by {
      forall j | i < j < |cycle| ensures cycle[j].name != cycle[i].name {
        assert cycle[j].name == events[j];
      }
    }
    CollectLastWins(cycle, i);
    CollectLaterWins(p.c.results, cycle, events[i]);
    CollectSize(r.0.c.results);
  }

  /** What one successful `perfmon_end` appends: one result per event, in index order. */
  lemma EndAppendsCycle(g: Globals, read: ReadCall -> ReadReply) returns (cycle: seq<EventResult>)
    requires Prepared(g)
    requires PerfmonEnd(g, read).Success?
    ensures PerfmonEnd(g, read).value.0.results == g.results + cycle
    ensures |cycle| == |Events(g)|
    ensures forall j :: 0 <= j < |cycle| ==>
      cycle[j] == EventResult(Events(g)[j], Delta(PerfmonEnd(g, read).value.0.final[j], g.initial[j]))
  {
    var all := PerfmonEnd(g, read).value.0.results;
    cycle := all[|g.results|..];
    assert all == all[..|g.results|] + cycle;
    forall j | 0 <= j < |cycle|
      ensures cycle[j] == all[|g.results| + j]
    {
    }
  }

  /**
   * While every stored result names one of the configured events (as it does for a process
   * that only ever ran `initialize` once), the map's keys after `end` are exactly the event names.
   */
  lemma EndKeysAreEventNames(p: Process, read: ReadCall -> ReadReply)
    requires Prepared(p.c)
    requires |p.c.results| + |Events(p.c)| <= Int32Max
    requires forall i :: 0 <= i < |p.c.results| ==> p.c.results[i].name in Events(p.c)
    requires End(p, read).Success?
    ensures End(p, read).value.1.Keys == set e | e in Events(p.c)
  {
    var cycle := EndAppendsCycle(p.c, read);
    NamesAfterCycle(p.c.results, cycle, Events(p.c));
  }

  /** Names of earlier entries drawn from `events`, followed by one entry per event: the names are the events. */
  lemma NamesAfterCycle(before: seq<EventResult>, cycle: seq<EventResult>, events: seq<string>)
    requires forall i :: 0 <= i < |before| ==> before[i].name in events
    requires |cycle| == |events| && forall j :: 0 <= j < |cycle| ==> cycle[j].name == events[j]
    ensures NamesOf(before + cycle) == set e | e in events
  {
    var all := before + cycle;
    forall name | name in NamesOf(all)
      ensures name in events
    {
      var j :| 0 <= j < |all| && all[j].name == name;
      if j < |before| {
        assert all[j] == before[j];
      } else {
        assert all[j] == cycle[j - |before|];
      }
    }
    forall name | name in events
      ensures name in NamesOf(all)
    {
      var i :| 0 <= i < |events| && events[i] == name;
      assert all[|before| + i] == cycle[i];
    }
  }
}
