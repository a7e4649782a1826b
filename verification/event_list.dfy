/**
 * Parsing of the `PERF_EVENTS` value (perfevent.cpp, `perfmon_prepare`): the string is read
 * through a `std::stringstream` with `std::getline(ss, event, ',')` while the stream is good,
 * and every non-empty token becomes one event, in input order, duplicates kept.
 *
 * `Fields` is the reference splitting (every comma-separated field, empty ones included) and
 * `Join` its inverse; `EventNames` keeps the non-empty fields; `SplitEventList` is the getline
 * loop itself, proved to compute `EventNames`.
 */
module EventList {

  const Delimiter: char := ','

  /** Comma-free, which every field and every event name is. */
  predicate NoDelimiter(t: string) {
    Delimiter !in t
  }

  /** The index of the first delimiter of `s` at or after `from`, or `|s|` when there is none. */
  function FindDelimiter(s: string, from: nat): (j: nat)
    requires from <= |s|
    ensures from <= j <= |s|
    ensures forall k :: from <= k < j ==> s[k] != Delimiter
    ensures j < |s| ==> s[j] == Delimiter
    decreases |s| - from
  {
    if from == |s| || s[from] == Delimiter then from else FindDelimiter(s, from + 1)
  }

  /** The two properties in `FindDelimiter`'s contract pin its result down. */
  lemma FindDelimiterIsFirst(s: string, from: nat, j: nat)
    requires from <= j <= |s|
    requires forall k :: from <= k < j ==> s[k] != Delimiter
    requires j < |s| ==> s[j] == Delimiter
    ensures FindDelimiter(s, from) == j
  {
  }

  /** All comma-separated fields of `s`, empty ones included; there is always at least one. */
  function Fields(s: string): (fs: seq<string>)
    ensures |fs| >= 1
    ensures forall i :: 0 <= i < |fs| ==> NoDelimiter(fs[i])
    decreases |s|
  {
    var j := FindDelimiter(s, 0);
    if j == |s| then
      [s]
    else
      assert NoDelimiter(s[..j]) by {
        forall k | 0 <= k < j ensures s[..j][k] != Delimiter { }
      }
      [s[..j]] + Fields(s[j + 1..])
  }

  /** The fields separated by single commas. */
  function Join(fs: seq<string>): string
  {
    if |fs| == 0 then []
    else if |fs| == 1 then fs[0]
    else fs[0] + [Delimiter] + Join(fs[1..])
  }

  /** Joining the fields of a string gives the string back. */
  lemma {:induction false} JoinFields(s: string)
    ensures Join(Fields(s)) == s
    decreases |s|
  {
    var j := FindDelimiter(s, 0);
    if j < |s| {
      var rest := s[j + 1..];
      JoinFields(rest);
      var fs := Fields(s);
      assert fs == [s[..j]] + Fields(rest);
      assert fs[1..] == Fields(rest);
      assert s == s[..j] + [Delimiter] + rest;
    }
  }

  /** Splitting a join of comma-free fields gives the fields back. */
  lemma {:induction false} FieldsOfJoin(fs: seq<string>)
    requires |fs| >= 1
    requires forall i :: 0 <= i < |fs| ==> NoDelimiter(fs[i])
    ensures Fields(Join(fs)) == fs
    decreases |fs|
  {
    var s := Join(fs);
    if |fs| == 1 {
      FindDelimiterIsFirst(s, 0, |s|);
    } else {
      var head := fs[0];
      var tail := Join(fs[1..]);
      assert s == head + [Delimiter] + tail;
      assert NoDelimiter(head);
      FindDelimiterIsFirst(s, 0, |head|);
      assert s[..|head|] == head;
      assert s[|head| + 1..] == tail;
      FieldsOfJoin(fs[1..]);
    }
  }

  /** The non-empty elements of `fs`, in order. */
  function NonEmptyOnly(fs: seq<string>): (ts: seq<string>)
    ensures |ts| <= |fs|
    ensures forall i :: 0 <= i < |ts| ==> ts[i] != [] && ts[i] in fs
  {
    if fs == [] then []
    else (if fs[0] == [] then [] else [fs[0]]) + NonEmptyOnly(fs[1..])
  }

  /** Filtering a list that holds no empty string changes nothing. */
  lemma {:induction false} NonEmptyOnlyKeeps(fs: seq<string>)
    requires forall i :: 0 <= i < |fs| ==> fs[i] != []
    ensures NonEmptyOnly(fs) == fs
  {
    if fs != [] {
      NonEmptyOnlyKeeps(fs[1..]);
    }
  }

  /** The events named by a `PERF_EVENTS` value: its non-empty comma-separated fields. */
  function EventNames(s: string): (ts: seq<string>)
    ensures forall i :: 0 <= i < |ts| ==> ts[i] != [] && NoDelimiter(ts[i])
  {
    NonEmptyOnly(Fields(s))
  }

  /**
   * Any list of non-empty, comma-free names written out with commas parses back to itself:
   * order and duplicates are kept, and the empty list is the empty string.
   */
  lemma EventNamesOfJoin(ts: seq<string>)
    requires forall i :: 0 <= i < |ts| ==> ts[i] != [] && NoDelimiter(ts[i])
    ensures EventNames(Join(ts)) == ts
  {
    if ts == [] {
      assert Fields([]) == [[]];
    } else {
      FieldsOfJoin(ts);
      NonEmptyOnlyKeeps(ts);
    }
  }

  /** A token as the getline loop keeps it: dropped when empty. */
  function Kept(token: string): (ts: seq<string>)
    ensures |ts| <= 1
  {
    if token == [] then [] else [token]
  }

  /** How the fields of a suffix `s[pos..]` start, given where its first delimiter is. */
  lemma FieldsStep(s: string, pos: nat, j: nat)
    requires pos <= j <= |s|
    requires forall k :: pos <= k < j ==> s[k] != Delimiter
    requires j < |s| ==> s[j] == Delimiter
    ensures j == |s| ==> Fields(s[pos..]) == [s[pos..]]
    ensures j < |s| ==> Fields(s[pos..]) == [s[pos..j]] + Fields(s[j + 1..])
  {
    var t := s[pos..];
    FindDelimiterIsFirst(t, 0, j - pos);
    if j < |s| {
      assert t[..j - pos] == s[pos..j];
      assert t[j - pos + 1..] == s[j + 1..];
    }
  }

  /** The event names of a suffix `s[pos..]`, split at its first delimiter. */
  lemma EventNamesStep(s: string, pos: nat, j: nat)
    requires pos <= j <= |s|
    requires forall k :: pos <= k < j ==> s[k] != Delimiter
    requires j < |s| ==> s[j] == Delimiter
    ensures j == |s| ==> EventNames(s[pos..]) == Kept(s[pos..])
    ensures j < |s| ==> EventNames(s[pos..]) == Kept(s[pos..j]) + EventNames(s[j + 1..])
  {
    FieldsStep(s, pos, j);
    if j < |s| {
      var rest := Fields(s[j + 1..]);
      assert ([s[pos..j]] + rest)[1..] == rest;
    } else {
      assert [s[pos..]][1..] == [];
    }
  }

  /**
   * The getline loop of `perfmon_prepare`: each round extracts characters up to the next comma
   * (consumed, stream stays good) or to the end of input (the stream reaches end-of-file and the
   * loop stops), and keeps the token when it is not empty.
   */
  method SplitEventList(s: string) returns (events: seq<string>)
    ensures events == EventNames(s)
    ensures forall i :: 0 <= i < |events| ==> events[i] != [] && NoDelimiter(events[i])
  {
    events := [];
    var pos := 0;
    var good := true;
    assert s[pos..] == s;
    while good
      invariant pos <= |s|
      invariant good ==> events + EventNames(s[pos..]) == EventNames(s)
      invariant !good ==> events == EventNames(s)
      decreases |s| - pos + (if good then 1 else 0)
    {
      var j := pos;
      while j < |s| && s[j] != Delimiter
        invariant pos <= j <= |s|
        invariant forall k :: pos <= k < j ==> s[k] != Delimiter
      {
        j := j + 1;
      }
      var token := s[pos..j];
      EventNamesStep(s, pos, j);
      if j < |s| {
        var rest := EventNames(s[j + 1..]);
        assert events + (Kept(token) + rest) == (events + Kept(token)) + rest;
        pos := j + 1;
      } else {
        assert token == s[pos..];
        good := false;
      }
      events := events + Kept(token);
    }
  }
}
