/**
 * The key allocator of the board-reordering server action, an independent
 * copy of `ComputeNewPosition` whose "no room" test looks at the gap between
 * the neighbours instead of at the midpoint.
 */
module BoardActions {
  import opened JsArray
  import opened Positions

  /** `mid(prev, next, gap)`: the key for a board dropped between keys `prev` and `next`. */
  function Mid(prev: Option<int>, next: Option<int>, gap: int): (r: int)
    ensures prev.None? && next.None? ==> r == gap
    ensures prev.None? && next.Some? ==> 2 * r <= next.value < 2 * r + 2
    ensures prev.Some? && next.None? ==> r == prev.value + gap
    ensures prev.Some? && next.Some? && next.value - prev.value <= 1 ==> r == prev.value + 1
    ensures prev.Some? && next.Some? && next.value - prev.value >= 2 ==>
              prev.value < r < next.value
              && 2 * (r - prev.value) <= next.value - prev.value < 2 * (r - prev.value) + 2
  {
    if prev.None? && next.None? then gap
    else if prev.None? then next.value / 2
    else if next.None? then prev.value + gap
    else if next.value - prev.value <= 1 then prev.value + 1
    else prev.value + (next.value - prev.value) / 2
  }

  /** With the default gap, `mid` and the store's allocator agree whenever the neighbours are in order. */
  lemma MidAgreesWhenOrdered(prev: Option<int>, next: Option<int>)
    requires prev.Some? && next.Some? ==> prev.value <= next.value
    ensures Mid(prev, next, GAP) == ComputeNewPosition(prev, next)
  {
    if prev.Some? && next.Some? {
      var p, n := prev.value, next.value;
      assert p + (n - p) / 2 == (p + n) / 2;
    }
  }

  /**
   * On inverted neighbours the two can disagree: `mid` always answers
   * `prev + 1`, the store's allocator keeps the midpoint unless it collides.
   * They differ exactly when `prev` exceeds `next` by two or more.
   */
  lemma MidDiffersIff(prev: int, next: int)
    ensures Mid(Some(prev), Some(next), GAP) != ComputeNewPosition(Some(prev), Some(next))
            <==> prev - next >= 2
  {
  }

  /** A concrete disagreement: neighbours (10, 0). */
  lemma MidDiffersExample()
    ensures Mid(Some(10), Some(0), GAP) == 11
    ensures ComputeNewPosition(Some(10), Some(0)) == 5
  {
  }
}
