/**
 * The frame fence of the DirectX 12 sample (api-directx12/Main.cpp): a
 * `UINT64` counter that starts at 1 and that each `WaitForPreviousFrame`
 * signals on the queue and then increments; the CPU waits while the GPU's
 * completed value is below the value just signalled. The GPU is a
 * parameter: the completed value it reports and the back buffer index the
 * swap chain reports.
 */
module SampleFence {
  const UINT64_LIMIT: int := 0x1_0000_0000_0000_0000

  type uint64 = x: int | 0 <= x < UINT64_LIMIT

  /** `x + 1` in `UINT64`. */
  function Inc(x: uint64): (r: uint64)
    ensures x + 1 < UINT64_LIMIT ==> r == x + 1
    ensures x + 1 == UINT64_LIMIT ==> r == 0
  {
    (x + 1) % UINT64_LIMIT
  }

  /** Signals from the counter's start: 1 first, then each one more than the last, wrapping. */
  ghost predicate Consecutive(signalled: seq<uint64>)
  {
    && (|signalled| > 0 ==> signalled[0] == 1)
    && forall i :: 0 < i < |signalled| ==> signalled[i] == Inc(signalled[i - 1])
  }

  class SampleFrame {
    /** `fenceValue`: the value the next call signals. */
    var fenceValue: uint64
    /** `frameIndex`: the back buffer rendered next. */
    var frameIndex: nat
    /** The values signalled on the queue so far, oldest first. */
    ghost var signalled: seq<uint64>

    /** The signals so far are the counter's successive values from 1, and the counter is the next one. */
    ghost predicate Valid()
      reads this
    {
      && Consecutive(signalled)
      && fenceValue == if signalled == [] then 1 else Inc(signalled[|signalled| - 1])
    }

    /** `InitD3D` sets the fence value to 1 before the first wait. */
    constructor ()
      ensures Valid() && fenceValue == 1 && signalled == []
    {
      fenceValue := 1;
      frameIndex := 0;
      signalled := [];
    }

    /**
     * `WaitForPreviousFrame`: signal the current value, increment the
     * counter by exactly 1 (wrapping like `UINT64`), wait exactly when the
     * GPU has not reached the value just signalled, and take the swap
     * chain's current back buffer.
     */
    method WaitForPreviousFrame(completedValue: uint64, backBufferIndex: nat) returns (waited: bool)
      requires Valid()
      modifies this
      ensures Valid()
      ensures signalled == old(signalled) + [old(fenceValue)]
      ensures fenceValue == Inc(old(fenceValue))
      ensures waited <==> completedValue < old(fenceValue)
      ensures frameIndex == backBufferIndex
    {
      var currentFenceValue := fenceValue;
      signalled := signalled + [currentFenceValue];
      fenceValue := Inc(fenceValue);
      waited := completedValue < currentFenceValue;
      frameIndex := backBufferIndex;
    }
  }

  /**
   * Until the counter wraps, wait number `i` (from 0) signals `i + 1`, so
   * every wait signals a nonzero value above all earlier ones and the
   * fence's completed value tells how many frames are done.
   */
  lemma {:induction false} SignalsIncrease(signalled: seq<uint64>)
    requires Consecutive(signalled) && |signalled| < UINT64_LIMIT
    ensures forall i :: 0 <= i < |signalled| ==> signalled[i] == i + 1
    ensures forall i, j :: 0 <= i < j < |signalled| ==> signalled[i] < signalled[j]
  {
    if |signalled| > 1 {
      var n := |signalled|;
      var prefix := signalled[..n - 1];
      assert forall i :: 0 <= i < |prefix| ==> prefix[i] == signalled[i];
      assert Consecutive(prefix);
      SignalsIncrease(prefix);
      assert signalled[n - 1] == Inc(signalled[n - 2]) == n;
    }
  }
}
