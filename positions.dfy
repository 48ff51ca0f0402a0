/**
 * Sparse integer sort keys: the key allocator used when an item is placed
 * between two neighbours, and the renormaliser that re-spaces a whole
 * container to multiples of GAP.
 */
module Positions {
  import opened JsArray

  /** Spacing between freshly assigned keys. */
  const GAP: int := 1024

  /**
   * The key for an item whose left neighbour has key `prev` and right
   * neighbour key `next` (either may be absent). Midpoints round down; when
   * the midpoint collides with a neighbour the result is `prev + 1`, which
   * may equal `next`: no error is signalled and the caller renormalises.
   */
  function ComputeNewPosition(prev: Option<int>, next: Option<int>): (r: int)
    ensures prev.None? && next.None? ==> r == GAP
    ensures prev.Some? && next.None? ==> r == prev.value + GAP && r > prev.value
    ensures prev.None? && next.Some? ==> 2 * r <= next.value < 2 * r + 2
    ensures prev.None? && next.Some? && next.value >= 2 ==> 0 < r < next.value
    ensures prev.None? && next.Some? && next.value == 1 ==> r == 0
    ensures prev.Some? && next.Some? && next.value - prev.value >= 2 ==>
              prev.value < r < next.value && 2 * r <= prev.value + next.value < 2 * r + 2
    ensures prev.Some? && next.Some? && prev.value <= next.value <= prev.value + 1 ==>
              r == prev.value + 1
    ensures prev.Some? && next.Some? && prev.value - next.value >= 2 ==>
              next.value < r < prev.value && 2 * r <= prev.value + next.value < 2 * r + 2
    ensures prev.Some? && next.Some? && next.value == prev.value - 1 ==> r == prev.value + 1
  {
    if prev.None? && next.None? then GAP
    // Both operands of the source's `||` are the same rounded-down half.
    else if prev.None? then next.value / 2
    else if next.None? then prev.value + GAP
    else
      var mid := (prev.value + next.value) / 2;
      if mid == prev.value || mid == next.value then prev.value + 1 else mid
  }

  /** The allocated key lies strictly between ordered neighbours exactly when they leave room. */
  lemma AllocationFitsIff(prev: int, next: int)
    requires prev <= next
    ensures var r := ComputeNewPosition(Some(prev), Some(next));
            (prev < r < next) <==> next - prev >= 2
  {
  }

  /** With only a right neighbour the key is below it exactly when that neighbour is positive. */
  lemma AllocationBeforeFirstIff(next: int)
    ensures var r := ComputeNewPosition(None, Some(next));
            (r < next <==> next >= 1) && (r >= 0 <==> next >= 0)
  {
  }

  /** Worked values: an empty container, after 1024, before 1024 and 1, between 1024 and 2048, and no room. */
  lemma ComputeNewPositionExamples()
    ensures ComputeNewPosition(None, None) == 1024
    ensures ComputeNewPosition(Some(1024), None) == 2048
    ensures ComputeNewPosition(None, Some(1024)) == 512
    ensures ComputeNewPosition(None, Some(1)) == 0
    ensures ComputeNewPosition(Some(1024), Some(2048)) == 1536
    ensures ComputeNewPosition(Some(1024), Some(1025)) == 1025
  {
  }

  /**
   * Setting a key and reading it back agree, setting an item's own key
   * changes nothing, and a second setting overrides the first.
   */
  ghost predicate Lens<T(!new)>(key: T -> int, rekey: (T, int) -> T) {
    && (forall x, p :: key(rekey(x, p)) == p)
    && (forall x :: rekey(x, key(x)) == x)
    && (forall x, p, q :: rekey(rekey(x, p), q) == rekey(x, q))
  }

  /** Keys strictly increase along the whole container. */
  ghost predicate StrictlyIncreasing<T>(s: seq<T>, key: T -> int) {
    forall i, j :: 0 <= i < j < |s| ==> key(s[i]) < key(s[j])
  }

  ghost predicate NonNegative<T>(s: seq<T>, key: T -> int) {
    forall i :: 0 <= i < |s| ==> key(s[i]) >= 0
  }

  /** The container invariant every mutator re-establishes. */
  ghost predicate Ordered<T>(s: seq<T>, key: T -> int) {
    StrictlyIncreasing(s, key) && NonNegative(s, key)
  }

  /** The stores' renormalisation trigger: some adjacent pair is not increasing. */
  predicate NeedsNormalize<T>(s: seq<T>, key: T -> int): (b: bool)
    ensures b ==> |s| >= 2
  {
    exists i :: 0 < i < |s| && key(s[i]) <= key(s[i - 1])
  }

  /** The adjacent-pair check detects exactly the containers that are not strictly increasing. */
  lemma {:induction false} NeedsNormalizeIff<T>(s: seq<T>, key: T -> int)
    ensures NeedsNormalize(s, key) <==> !StrictlyIncreasing(s, key)
  {
    if !NeedsNormalize(s, key) {
      forall i, j | 0 <= i < j < |s| ensures key(s[i]) < key(s[j]) {
        AdjacentChain(s, key, i, j);
      }
    }
  }

  lemma {:induction false} AdjacentChain<T>(s: seq<T>, key: T -> int, i: int, j: int)
    requires forall k :: 0 < k < |s| ==> key(s[k - 1]) < key(s[k])
    requires 0 <= i < j < |s|
    ensures key(s[i]) < key(s[j])
    decreases j - i
  {
    if i + 1 < j {
      AdjacentChain(s, key, i, j - 1);
      assert key(s[j - 1]) < key(s[j]);
    }
  }

  /** `map((item, i) => ({ ...item, position: (i + 1) * GAP }))`. */
  function Renumber<T>(s: seq<T>, rekey: (T, int) -> T): (r: seq<T>)
    ensures |r| == |s|
  {
    seq(|s|, i requires 0 <= i < |s| => rekey(s[i], (i + 1) * GAP))
  }

  /** The i-th renumbered item is the i-th input item keyed (i + 1) * GAP. */
  lemma RenumberAt<T>(s: seq<T>, rekey: (T, int) -> T, i: nat)
    requires i < |s|
    ensures Renumber(s, rekey)[i] == rekey(s[i], (i + 1) * GAP)
  {
  }

  /** The items with their keys cleared: what a reordering must keep apart from the keys. */
  function Unpositioned<T>(s: seq<T>, rekey: (T, int) -> T): (r: seq<T>)
    ensures |r| == |s|
  {
    seq(|s|, i requires 0 <= i < |s| => rekey(s[i], 0))
  }

  lemma UnpositionedConcat<T>(a: seq<T>, b: seq<T>, rekey: (T, int) -> T)
    ensures Unpositioned(a + b, rekey) == Unpositioned(a, rekey) + Unpositioned(b, rekey)
  {
  }

  /** Taking the j-th item out of a sequence takes one copy of it out of its multiset. */
  lemma MultisetWithout<T>(b: seq<T>, j: nat)
    requires j < |b|
    ensures multiset(b[..j] + b[j + 1..]) == multiset(b) - multiset{b[j]}
  {
    assert b == b[..j] + [b[j]] + b[j + 1..];
  }

  /** An item of the multiset of a sequence sits at some index of it. */
  lemma IndexOf<T>(b: seq<T>, x: T) returns (j: nat)
    requires x in multiset(b)
    ensures j < |b| && b[j] == x
  {
    assert x in b;
    j :| 0 <= j < |b| && b[j] == x;
  }

  /** Clearing keys commutes with taking the j-th item out. */
  lemma UnpositionedWithout<T>(b: seq<T>, j: nat, rekey: (T, int) -> T)
    requires j < |b|
    ensures multiset(Unpositioned(b, rekey))
         == multiset(Unpositioned(b[..j] + b[j + 1..], rekey)) + multiset{rekey(b[j], 0)}
  {
    assert b == b[..j] + [b[j]] + b[j + 1..];
    UnpositionedConcat(b[..j] + [b[j]], b[j + 1..], rekey);
    UnpositionedConcat(b[..j], [b[j]], rekey);
    UnpositionedConcat(b[..j], b[j + 1..], rekey);
  }

  /** Equal multisets stay equal when one copy of the same item is taken out of each. */
  lemma TailPermutation<T>(a: seq<T>, b: seq<T>, j: nat)
    requires multiset(a) == multiset(b) && 0 < |a| && j < |b| && b[j] == a[0]
    ensures multiset(a[1..]) == multiset(b[..j] + b[j + 1..])
  {
    assert a == [a[0]] + a[1..];
    assert multiset(a[1..]) == multiset(a) - multiset{a[0]};
    MultisetWithout(b, j);
  }

  /** The induction step of `UnpositionedPermutation`: matching heads taken out of both sides. */
  lemma UnpositionedMatch<T>(a: seq<T>, b: seq<T>, j: nat, rekey: (T, int) -> T)
    requires 0 < |a| && j < |b| && b[j] == a[0]
    requires multiset(Unpositioned(a[1..], rekey)) == multiset(Unpositioned(b[..j] + b[j + 1..], rekey))
    ensures multiset(Unpositioned(a, rekey)) == multiset(Unpositioned(b, rekey))
  {
    assert a[..0] + a[1..] == a[1..];
    UnpositionedWithout(a, 0, rekey);
    UnpositionedWithout(b, j, rekey);
  }

  /** Clearing keys maps equal multisets to equal multisets. */
  lemma {:induction false} UnpositionedPermutation<T>(a: seq<T>, b: seq<T>, rekey: (T, int) -> T)
    requires multiset(a) == multiset(b)
    ensures multiset(Unpositioned(a, rekey)) == multiset(Unpositioned(b, rekey))
  {
    if a == [] {
      assert |multiset(b)| == 0;
    } else {
      var j := IndexOf(b, a[0]);
      TailPermutation(a, b, j);
      UnpositionedPermutation(a[1..], b[..j] + b[j + 1..], rekey);
      UnpositionedMatch(a, b, j, rekey);
    }
  }

  /**
   * `normalizeSequential`: the items stably sorted by key (on a copy; the
   * input is a value and stays as it was), the i-th carrying key (i + 1) * GAP.
   */
  function NormalizeSequential<T(!new)>(items: seq<T>, key: T -> int, rekey: (T, int) -> T): (r: seq<T>)
    ensures |r| == |items|
    ensures Lens(key, rekey) ==> forall i :: 0 <= i < |r| ==> key(r[i]) == (i + 1) * GAP
    ensures Lens(key, rekey) ==> Ordered(r, key)
  {
    Renumber(Sort(items, key), rekey)
  }

  /**
   * Renormalising only re-keys a stable sort of the input: apart from keys
   * the output is exactly `Sort(items, key)` (ascending, per-key input order,
   * see JsArray), and so a permutation of the input.
   */
  lemma NormalizeIsStableSort<T(!new)>(items: seq<T>, key: T -> int, rekey: (T, int) -> T)
    requires Lens(key, rekey)
    ensures Unpositioned(NormalizeSequential(items, key, rekey), rekey)
            == Unpositioned(Sort(items, key), rekey)
    ensures multiset(Unpositioned(NormalizeSequential(items, key, rekey), rekey))
            == multiset(Unpositioned(items, rekey))
  {
    UnpositionedPermutation(Sort(items, key), items, rekey);
  }

  /** Already-ascending input (in particular strictly increasing input) keeps its order. */
  lemma NormalizeKeepsSortedOrder<T(!new)>(items: seq<T>, key: T -> int, rekey: (T, int) -> T)
    requires Lens(key, rekey)
    requires Sorted(items, key)
    ensures NormalizeSequential(items, key, rekey) == Renumber(items, rekey)
    ensures Unpositioned(NormalizeSequential(items, key, rekey), rekey) == Unpositioned(items, rekey)
  {
    SortOfSorted(items, key);
  }

  /** Renormalising twice is renormalising once. */
  lemma NormalizeIdempotent<T(!new)>(items: seq<T>, key: T -> int, rekey: (T, int) -> T)
    requires Lens(key, rekey)
    ensures NormalizeSequential(NormalizeSequential(items, key, rekey), key, rekey)
            == NormalizeSequential(items, key, rekey)
  {
    var once := NormalizeSequential(items, key, rekey);
    StrictlyIncreasingSorted(once, key);
    SortOfSorted(once, key);
  }

  lemma StrictlyIncreasingSorted<T>(s: seq<T>, key: T -> int)
    requires StrictlyIncreasing(s, key)
    ensures Sorted(s, key)
  {
  }
}
