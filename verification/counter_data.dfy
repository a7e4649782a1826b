/**
 * One reading of a counter handle (`PerfEventData` in perfevent.cpp): the raw count and the
 * enabled and running times, each a signed 64-bit `long long`, and the delta between two
 * readings of the same counter.
 */
module CounterData {
  import opened Wrappers

  const Int64Min: int := -0x8000_0000_0000_0000
  const Int64Max: int := 0x7FFF_FFFF_FFFF_FFFF
  const Word64: int := 0x1_0000_0000_0000_0000

  /** A C++ `long long`. */
  type Int64 = x: int | Int64Min <= x <= Int64Max

  /** A 64-bit word as the kernel writes it, before it is read back as a `long long`. */
  type Word = x: int | 0 <= x < Word64

  datatype Snapshot = Snapshot(rawCount: Int64, timeEnabled: Int64, timeRunning: Int64) {

    /** A negative field means the 64-bit counter went past the signed range. */
    predicate IsOverflowed() {
      rawCount < 0 || timeEnabled < 0 || timeRunning < 0
    }

    /** The counter was never scheduled on hardware. */
    predicate IsContended() {
      timeEnabled == 0
    }

    /** Usable as either end of a delta. */
    predicate IsSound() {
      !IsOverflowed() && !IsContended()
    }
  }

  /** The value-initialised element `std::vector::resize` appends. */
  const ZeroSnapshot: Snapshot := Snapshot(0, 0, 0)

  /** Two's-complement reading of a kernel word as a `long long`. */
  function AsSigned(w: Word): (x: Int64)
    ensures x < 0 <==> w > Int64Max
    ensures x % Word64 == w
  {
    if w <= Int64Max then w else w - Word64
  }

  /** The kernel word whose `long long` reading is `x`. */
  function WordOf(x: Int64): (w: Word)
    ensures AsSigned(w) == x
    ensures x >= 0 ==> w == x
  {
    if x >= 0 then x else x + Word64
  }

  /**
   * The snapshot made of three kernel words, as `read` fills a `PerfEventData`; every reply of
   * `read` is turned into a reading this way.
   */
  function FromWords(raw: Word, enabled: Word, running: Word): Snapshot
  {
    Snapshot(AsSigned(raw), AsSigned(enabled), AsSigned(running))
  }

  /**
   * Overflow detection is exactly "some kernel word has its top bit set", that is, some
   * unsigned counter has gone past 2^63 - 1.
   */
  lemma OverflowedIffTopBitSet(raw: Word, enabled: Word, running: Word)
    ensures FromWords(raw, enabled, running).IsOverflowed()
        <==> raw > Int64Max || enabled > Int64Max || running > Int64Max
  {
  }

  /**
   * `operator-` of `PerfEventData`: `None` stands for the quiet-NaN sentinel, returned when
   * either reading is overflowed or contended; otherwise the exact difference of raw counts,
   * which cannot overflow a `long long` because both counts are non-negative.
   */
  function Delta(cur: Snapshot, prev: Snapshot): (d: Option<int>)
    ensures d.None? <==>
      cur.IsOverflowed() || prev.IsOverflowed() || cur.IsContended() || prev.IsContended()
    ensures d.Some? ==> prev.rawCount + d.value == cur.rawCount
    ensures d.Some? ==> -Int64Max <= d.value <= Int64Max
    ensures d.Some? ==> (d.value >= 0 <==> cur.rawCount >= prev.rawCount)
  {
    if cur.IsOverflowed() || prev.IsOverflowed() || cur.IsContended() || prev.IsContended() then
      None
    else
      Some(cur.rawCount - prev.rawCount)
  }

  /** A sound reading compared with itself has delta zero; an unsound one gives the sentinel. */
  lemma DeltaSelf(s: Snapshot)
    ensures Delta(s, s) == (if s.IsSound() then Some(0) else None)
  {
  }

  /** Swapping the two readings negates the delta and keeps the sentinel. */
  lemma DeltaAntisymmetric(a: Snapshot, b: Snapshot)
    ensures Delta(a, b).None? <==> Delta(b, a).None?
    ensures Delta(a, b).Some? ==> Delta(a, b).value == -Delta(b, a).value
  {
  }

  /**
   * Deltas over consecutive intervals add up to the delta over the whole interval, and the
   * whole interval is the sentinel exactly when one of its ends is unsound.
   */
  lemma DeltaTelescopes(a: Snapshot, b: Snapshot, c: Snapshot)
    requires b.IsSound()
    ensures Delta(c, a).None? <==> !a.IsSound() || !c.IsSound()
    ensures Delta(c, a).Some? ==> Delta(c, a).value == Delta(c, b).value + Delta(b, a).value
  {
  }

  /** The zero reading a freshly resized buffer holds is contended, so any delta against it is the sentinel. */
  lemma DeltaFromZeroIsSentinel(cur: Snapshot)
    ensures Delta(cur, ZeroSnapshot) == None
  {
  }
}
