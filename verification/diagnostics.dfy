/**
 * The fatal checks of the probe. Every `ASSERT` of the C++ file ends the process with `errx`;
 * the model returns the diagnostic instead, one constructor per check.
 */
module Diagnostics {

  datatype Error =
    /** `PERF_EVENTS` is not in the environment. */
    | EnvNotSet
    /** `pfm_initialize` returned a status other than `PFM_SUCCESS`. */
    | PfmInitFailed(status: int)
    /** The encoder refused event `index`. */
    | EncodeFailed(index: nat, name: string, status: int)
    /** `perf_event_open` returned -1 for event `index`. */
    | OpenFailed(index: nat, name: string)
    /** The per-handle enable `ioctl` returned -1 for event `index`. */
    | IoctlEnableFailed(index: nat, name: string)
    /** The process-wide enable ran before the counter set was initialised. */
    | NotInitialized
    /** `prctl(PR_TASK_PERF_EVENTS_ENABLE)` returned a non-zero status. */
    | PrctlEnableFailed(status: int)
    /** `read` on a counter handle returned a negative value. */
    | ReadFailed(ret: int)
    /** `read` returned a byte count other than three 64-bit words. */
    | ShortRead(ret: int)
    /** A counter was multiplexed: its enabled and running times differ. */
    | CounterScaled
    /** The Rust wrapper's `initialize` ran a second time (a panic). */
    | AlreadyInitialized
    /**
     * The Rust `end` received a negative count: `count as usize` is then a length far past the
     * buffer, and building the slice is undefined behaviour.
     */
    | NegativeCount(count: int)
}
