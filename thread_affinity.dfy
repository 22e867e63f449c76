/**
 * `lock_thread_to_first_processor` (ThreadAffinity.cpp): pin the calling thread to the
 * lowest-numbered processor the process may run on, isolated from the process affinity
 * mask with `mask & ~(mask - 1)`.
 */
module ThreadAffinity {
  import opened Wrappers

  /** DWORD_PTR on a 64-bit build. */
  type AffinityMask = bv64

  /** `process_mask & ~(process_mask - 1)`, in wrap-around 64-bit arithmetic. */
  function ThreadMask(processMask: AffinityMask): AffinityMask
  {
    processMask & !(processMask - 1)
  }

  /**
   * `t` is the lowest set bit of `m`: a single bit, set in `m`, with no bit of `m`
   * below it.
   */
  predicate IsLowestSetBit(t: AffinityMask, m: AffinityMask)
  {
    t != 0 && t & (t - 1) == 0 && t & m == t && m & (t - 1) == 0
  }

  /** For every nonzero mask the expression isolates its lowest set bit; for zero it is zero. */
  lemma ThreadMaskIsLowestSetBit(processMask: AffinityMask)
    ensures processMask != 0 ==> IsLowestSetBit(ThreadMask(processMask), processMask)
    ensures processMask == 0 ==> ThreadMask(processMask) == 0
  {
  }

  /** There is only one lowest set bit, so the description above pins the mask down. */
  lemma LowestSetBitIsUnique(t: AffinityMask, u: AffinityMask, m: AffinityMask)
    requires IsLowestSetBit(t, m) && IsLowestSetBit(u, m)
    ensures t == u
  {
  }

  /** Processor 0 in the mask gives processor 0; processors 2 and 5 give processor 2. */
  lemma ThreadMaskExamples()
    ensures ThreadMask(0xFF) == 1
    ensures ThreadMask(0x24) == 4
    ensures ThreadMask(0x8000_0000_0000_0000) == 0x8000_0000_0000_0000
  {
  }

  /** The operating-system calls made, in order. */
  datatype AffinityCall = GetProcessAffinityMask | SetThreadAffinityMask(threadMask: AffinityMask)

  /**
   * `lock_thread_to_first_processor`: `masks` is what GetProcessAffinityMask reports
   * (None when it fails) and `setSucceeds` whether SetThreadAffinityMask does.  A failed
   * call ends in an error; when either mask is zero the thread is left alone.
   */
  method LockThreadToFirstProcessor(masks: Option<(AffinityMask, AffinityMask)>, setSucceeds: bool)
    returns (calls: seq<AffinityCall>, failed: bool)
    ensures |calls| >= 1 && calls[0] == GetProcessAffinityMask
    ensures masks.None? ==> calls == [GetProcessAffinityMask] && failed
    ensures masks.Some? && (masks.value.0 == 0 || masks.value.1 == 0) ==> calls == [GetProcessAffinityMask] && !failed
    ensures masks.Some? && masks.value.0 != 0 && masks.value.1 != 0 ==>
      && calls == [GetProcessAffinityMask, SetThreadAffinityMask(ThreadMask(masks.value.0))]
      && IsLowestSetBit(ThreadMask(masks.value.0), masks.value.0) && failed == !setSucceeds
    ensures forall i :: 0 <= i < |calls| && calls[i].SetThreadAffinityMask? ==> i == 1 && masks.Some?
  {
    calls := [GetProcessAffinityMask];
    failed := false;
    if masks.None? {
      failed := true;
      return;
    }
    var (processMask, systemMask) := masks.value;
    if processMask != 0 && systemMask != 0 {
      var threadMask := processMask & !(processMask - 1);
      ThreadMaskIsLowestSetBit(processMask);
      calls := calls + [SetThreadAffinityMask(threadMask)];
      failed := !setSucceeds;
    }
  }
}
