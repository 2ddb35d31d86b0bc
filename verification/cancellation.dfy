/**
 The host's abort flag. The processor polls `_effect.abort()` once at the start of
 every row it is about to scan; the answer the host gives for row `y` is modelled by
 an oracle `aborted(y)`.
 */
module Cancellation {

  /** The row at which a loop over rows `[y, yEnd)` that polls `aborted` stops: the first
      row for which the poll says abort, or `yEnd` when none does (and `y` itself when
      there are no rows to scan). */
  function FirstAbort(aborted: int -> bool, y: int, yEnd: int): (r: int)
    ensures y <= r
    ensures yEnd <= y ==> r == y
    ensures y <= yEnd ==> r <= yEnd
    ensures forall k :: y <= k < r ==> !aborted(k)
    ensures r < yEnd ==> aborted(r)
    decreases yEnd - y
  {
    if yEnd <= y then y
    else if aborted(y) then y
    else FirstAbort(aborted, y + 1, yEnd)
  }

  /** The stopping row is determined by the polls: any row `r` that no earlier poll
      aborts and that is either aborted or the end is the one `FirstAbort` returns. */
  lemma FirstAbortUnique(aborted: int -> bool, y: int, yEnd: int, r: int)
    requires y <= r
    requires yEnd <= y ==> r == y
    requires y <= yEnd ==> r <= yEnd
    requires forall k :: y <= k < r ==> !aborted(k)
    requires r < yEnd ==> aborted(r)
    ensures FirstAbort(aborted, y, yEnd) == r
  {
  }
}
