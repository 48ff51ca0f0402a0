/**
 * The placement steps the board store performs on one container (a
 * board's lists or a list's cards): take the moved item out, splice it in at
 * its new index, give it a key from its new neighbours, and renormalise when
 * some adjacent pair ends up out of order.
 */
module KanbanOrdering {
  import opened JsArray
  import opened Positions

  /** The key for an item spliced in at index i of `s`: its neighbours are `s[i - 1]` and `s[i]`. */
  function AllocateAt<T>(s: seq<T>, i: nat, key: T -> int): (r: int)
    requires i <= |s|
    ensures Ordered(s, key) ==>
              && r >= 0
              && (0 < i ==> key(s[i - 1]) <= r)
              && (i < |s| ==> r <= key(s[i]))
  {
    ComputeNewPosition(if 0 < i then Some(key(s[i - 1])) else None,
                       if i < |s| then Some(key(s[i])) else None)
  }

  /** Whether the allocator finds a key strictly between the neighbours of index i. */
  ghost predicate HasRoom<T>(s: seq<T>, i: nat, key: T -> int)
    requires i <= |s|
  {
    if i == 0 then s == [] || key(s[0]) >= 1
    else if i == |s| then true
    else key(s[i]) - key(s[i - 1]) >= 2
  }

  /** `splice(i, 0, x)` followed by `x.position = computeNewPosition(prev, next)`. */
  function PlaceAt<T>(s: seq<T>, i: nat, x: T, key: T -> int, rekey: (T, int) -> T): (r: seq<T>)
    requires i <= |s|
    ensures |r| == |s| + 1
  {
    InsertAt(s, i, rekey(x, AllocateAt(s, i, key)))
  }

  /** Reorder inside one container: the item at `from` is taken out and placed at index `to`. */
  function Reposition<T>(s: seq<T>, from: nat, to: nat, key: T -> int, rekey: (T, int) -> T): (r: seq<T>)
    requires from < |s| && to < |s|
    ensures |r| == |s|
  {
    PlaceAt(RemoveAt(s, from), to, s[from], key, rekey)
  }

  /** `needNormalize ? normalizeSequential(s) : s`. */
  function Settle<T(!new)>(s: seq<T>, key: T -> int, rekey: (T, int) -> T): (r: seq<T>)
    ensures |r| == |s|
  {
    if NeedsNormalize(s, key) then NormalizeSequential(s, key, rekey) else s
  }

  /** The key for an item appended at the end: the last key (or 0) plus GAP. */
  function AppendPosition<T>(s: seq<T>, key: T -> int): (r: int)
    ensures StrictlyIncreasing(s, key) ==> forall i :: 0 <= i < |s| ==> key(s[i]) < r
    ensures NonNegative(s, key) ==> r >= GAP
  {
    (match Last(s) case None => 0 case Some(x) => key(x)) + GAP
  }

  /** Appending with `AppendPosition` keeps a container ordered. */
  lemma AppendKeepsOrdered<T(!new)>(s: seq<T>, x: T, key: T -> int, rekey: (T, int) -> T)
    requires Lens(key, rekey) && Ordered(s, key)
    ensures Ordered(s + [rekey(x, AppendPosition(s, key))], key)
  {
    var r := s + [rekey(x, AppendPosition(s, key))];
    assert forall i :: 0 <= i < |s| ==> r[i] == s[i];
  }

  /** Removing one item keeps a container ordered. */
  lemma RemoveKeepsOrdered<T>(s: seq<T>, i: nat, key: T -> int)
    requires Ordered(s, key) && i < |s|
    ensures Ordered(RemoveAt(s, i), key)
  {
  }

  /**
   * Placing into an ordered container yields ascending keys (the placed item
   * may tie with its right neighbour, never overtake it), keeps keys
   * non-negative, and puts the item exactly at index i.
   */
  lemma PlaceAtSorted<T(!new)>(s: seq<T>, i: nat, x: T, key: T -> int, rekey: (T, int) -> T)
    requires Lens(key, rekey) && Ordered(s, key) && i <= |s|
    ensures Sorted(PlaceAt(s, i, x, key, rekey), key)
    ensures NonNegative(PlaceAt(s, i, x, key, rekey), key)
    ensures Unpositioned(PlaceAt(s, i, x, key, rekey), rekey) == Unpositioned(InsertAt(s, i, x), rekey)
  {
    PlaceAtAscending(s, i, x, key, rekey);
    PlaceAtUnpositioned(s, i, x, key, rekey);
  }

  lemma PlaceAtAscending<T(!new)>(s: seq<T>, i: nat, x: T, key: T -> int, rekey: (T, int) -> T)
    requires Lens(key, rekey) && Ordered(s, key) && i <= |s|
    ensures Sorted(PlaceAt(s, i, x, key, rekey), key)
    ensures NonNegative(PlaceAt(s, i, x, key, rekey), key)
  {
    var p := AllocateAt(s, i, key);
    var t := PlaceAt(s, i, x, key, rekey);
    assert key(t[i]) == p;
    forall a, b | 0 <= a < b < |t| ensures key(t[a]) <= key(t[b]) {
      if b < i {
        assert t[a] == s[a] && t[b] == s[b];
      } else if b == i {
        assert t[a] == s[a];
        assert key(s[a]) <= key(s[i - 1]);
      } else if a < i {
        assert t[a] == s[a] && t[b] == s[b - 1];
      } else if a == i {
        assert t[b] == s[b - 1];
        assert key(s[i]) <= key(s[b - 1]);
      } else {
        assert t[a] == s[a - 1] && t[b] == s[b - 1];
      }
    }
  }

  /** Apart from keys, placing an item is plain insertion at index i. */
  lemma PlaceAtUnpositioned<T(!new)>(s: seq<T>, i: nat, x: T, key: T -> int, rekey: (T, int) -> T)
    requires Lens(key, rekey) && i <= |s|
    ensures Unpositioned(PlaceAt(s, i, x, key, rekey), rekey) == Unpositioned(InsertAt(s, i, x), rekey)
  {
    var t := PlaceAt(s, i, x, key, rekey);
    var u := InsertAt(s, i, x);
    assert forall j :: 0 <= j < |t| ==> Unpositioned(t, rekey)[j] == Unpositioned(u, rekey)[j];
  }

  /**
   * In an ordered container the placed key is strictly between its
   * neighbours exactly when the allocator had room, so the store's
   * adjacent-pair check renormalises exactly when there was no room.
   */
  lemma PlaceAtStrictIff<T(!new)>(s: seq<T>, i: nat, x: T, key: T -> int, rekey: (T, int) -> T)
    requires Lens(key, rekey) && Ordered(s, key) && i <= |s|
    ensures StrictlyIncreasing(PlaceAt(s, i, x, key, rekey), key) <==> HasRoom(s, i, key)
    ensures NeedsNormalize(PlaceAt(s, i, x, key, rekey), key) <==> !HasRoom(s, i, key)
  {
    var t := PlaceAt(s, i, x, key, rekey);
    PlaceAtSorted(s, i, x, key, rekey);
    NeedsNormalizeIff(t, key);
    if HasRoom(s, i, key) {
      PlaceAtRoomStrict(s, i, x, key, rekey);
    } else {
      assert key(t[i]) == AllocateAt(s, i, key);
      assert i < |s| && t[i + 1] == s[i];
      assert key(t[i]) == key(t[i + 1]);
    }
  }

  /** With room at index i the placed key is strictly between its neighbours. */
  lemma PlaceAtRoomStrict<T(!new)>(s: seq<T>, i: nat, x: T, key: T -> int, rekey: (T, int) -> T)
    requires Lens(key, rekey) && Ordered(s, key) && i <= |s| && HasRoom(s, i, key)
    ensures StrictlyIncreasing(PlaceAt(s, i, x, key, rekey), key)
  {
    var t := PlaceAt(s, i, x, key, rekey);
    assert key(t[i]) == AllocateAt(s, i, key);
    forall a, b | 0 <= a < b < |t| ensures key(t[a]) < key(t[b]) {
      if b < i {
        assert t[a] == s[a] && t[b] == s[b];
      } else if b == i {
        assert t[a] == s[a];
      } else if a < i {
        assert t[a] == s[a] && t[b] == s[b - 1];
      } else if a == i {
        assert t[b] == s[b - 1];
      } else {
        assert t[a] == s[a - 1] && t[b] == s[b - 1];
      }
    }
  }

  /**
   * No room between keys 1024 and 1025: the placed item gets 1025, ties with
   * its right neighbour, and the container is renumbered, so the item ends
   * at 2048 between its neighbours, now at 1024 and 3072.
   */
  lemma CrowdedPlaceRenumbers<T(!new)>(a: T, b: T, x: T, key: T -> int, rekey: (T, int) -> T)
    requires Lens(key, rekey) && key(a) == 1024 && key(b) == 1025
    ensures Settle(PlaceAt([a, b], 1, x, key, rekey), key, rekey)
            == [rekey(a, 1024), rekey(x, 2048), rekey(b, 3072)]
  {
    CrowdedPlace(a, b, x, key, rekey);
    RenumberThree(a, rekey(x, 1025), b, key, rekey);
    assert rekey(rekey(x, 1025), 2048) == rekey(x, 2048);
  }

  lemma CrowdedPlace<T(!new)>(a: T, b: T, x: T, key: T -> int, rekey: (T, int) -> T)
    requires Lens(key, rekey) && key(a) == 1024 && key(b) == 1025
    ensures PlaceAt([a, b], 1, x, key, rekey) == [a, rekey(x, 1025), b]
    ensures NeedsNormalize([a, rekey(x, 1025), b], key)
  {
    assert AllocateAt([a, b], 1, key) == 1025;
    var placed := [a, rekey(x, 1025), b];
    assert key(placed[2]) <= key(placed[1]);
  }

  /** Renormalising three ascending items keys them 1024, 2048, 3072 in the same order. */
  lemma RenumberThree<T(!new)>(p: T, q: T, r: T, key: T -> int, rekey: (T, int) -> T)
    requires key(p) <= key(q) <= key(r)
    ensures NormalizeSequential([p, q, r], key, rekey) == [rekey(p, 1024), rekey(q, 2048), rekey(r, 3072)]
  {
    SortThree(p, q, r, key);
    RenumberOfThree(p, q, r, rekey);
  }

  lemma SortThree<T>(p: T, q: T, r: T, key: T -> int)
    requires key(p) <= key(q) <= key(r)
    ensures Sort([p, q, r], key) == [p, q, r]
  {
    assert Sorted([p, q, r], key);
    SortOfSorted([p, q, r], key);
  }

  lemma RenumberOfThree<T>(p: T, q: T, r: T, rekey: (T, int) -> T)
    ensures Renumber([p, q, r], rekey) == [rekey(p, 1024), rekey(q, 2048), rekey(r, 3072)]
  {
    var t := Renumber([p, q, r], rekey);
    assert t[0] == rekey(p, 1024);
    assert t[1] == rekey(q, 2048);
    assert t[2] == rekey(r, 3072);
  }

  /**
   * Dragging the third of three items keyed 1024, 2048, 3072 onto the
   * second: it lands between the first two, keyed 1536, and nothing is
   * renormalised.
   */
  lemma DragBetweenExample<T(!new)>(a: T, b: T, c: T, key: T -> int, rekey: (T, int) -> T)
    requires Lens(key, rekey) && key(a) == 1024 && key(b) == 2048 && key(c) == 3072
    ensures Settle(Reposition([a, b, c], 2, 1, key, rekey), key, rekey) == [a, rekey(c, 1536), b]
  {
    var moved := rekey(c, 1536);
    assert key(moved) == 1536;
    assert RemoveAt([a, b, c], 2) == [a, b];
    assert AllocateAt([a, b], 1, key) == 1536;
    var placed := [a, moved, b];
    assert InsertAt([a, b], 1, moved) == placed;
    forall i | 0 < i < |placed| ensures key(placed[i - 1]) < key(placed[i]) {
      assert i == 1 || i == 2;
    }
    assert Reposition([a, b, c], 2, 1, key, rekey) == placed;
    assert !NeedsNormalize(placed, key);
  }

  /**
   * Moving the first of two items keyed 1024, 2048 in front of a lone item
   * keyed 1024 in another container: the source keeps the second item as it
   * was, the moved item is keyed 512 ahead of the other, and neither side
   * is renormalised.
   */
  lemma MoveAcrossExample<T(!new)>(a: T, b: T, c: T, x: T, key: T -> int, rekey: (T, int) -> T)
    requires Lens(key, rekey) && key(a) == 1024 && key(b) == 2048 && key(c) == 1024
    ensures Settle(RemoveAt([a, b], 0), key, rekey) == [b]
    ensures Settle(PlaceAt([c], 0, x, key, rekey), key, rekey) == [rekey(x, 512), c]
  {
    assert RemoveAt([a, b], 0) == [b];
    assert !NeedsNormalize([b], key);
    assert AllocateAt([c], 0, key) == 512;
    var placed := [rekey(x, 512), c];
    assert PlaceAt([c], 0, x, key, rekey) == placed;
    assert StrictlyIncreasing(placed, key);
    NeedsNormalizeIff(placed, key);
  }

  /**
   * What the renormalisation pass guarantees on any input: strictly
   * increasing keys, the same items apart from keys, non-negative keys kept
   * non-negative, and for ascending input the same order; a container that is
   * already strictly increasing is returned as it is.
   */
  lemma SettleSpec<T(!new)>(s: seq<T>, key: T -> int, rekey: (T, int) -> T)
    requires Lens(key, rekey)
    ensures StrictlyIncreasing(Settle(s, key, rekey), key)
    ensures multiset(Unpositioned(Settle(s, key, rekey), rekey)) == multiset(Unpositioned(s, rekey))
    ensures NonNegative(s, key) ==> NonNegative(Settle(s, key, rekey), key)
    ensures Sorted(s, key) ==> Unpositioned(Settle(s, key, rekey), rekey) == Unpositioned(s, rekey)
    ensures StrictlyIncreasing(s, key) ==> Settle(s, key, rekey) == s
  {
    NeedsNormalizeIff(s, key);
    NormalizeIsStableSort(s, key, rekey);
    if Sorted(s, key) {
      NormalizeKeepsSortedOrder(s, key, rekey);
    }
  }

  /**
   * Reordering an ordered container and settling it: ordered again, and
   * apart from keys the items are in remove-and-reinsert order.
   */
  lemma RepositionSettled<T(!new)>(s: seq<T>, from: nat, to: nat, key: T -> int, rekey: (T, int) -> T)
    requires Lens(key, rekey) && Ordered(s, key) && from < |s| && to < |s|
    ensures Ordered(Settle(Reposition(s, from, to, key, rekey), key, rekey), key)
    ensures Unpositioned(Settle(Reposition(s, from, to, key, rekey), key, rekey), rekey)
            == Unpositioned(MoveItem(s, from, to), rekey)
  {
    RemoveKeepsOrdered(s, from, key);
    PlaceAtSorted(RemoveAt(s, from), to, s[from], key, rekey);
    SettleSpec(Reposition(s, from, to, key, rekey), key, rekey);
  }

  /**
   * Reordering an ordered container and always renormalising it: keys
   * GAP, 2 * GAP, ... and apart from keys remove-and-reinsert order.
   */
  lemma RepositionNormalized<T(!new)>(s: seq<T>, from: nat, to: nat, key: T -> int, rekey: (T, int) -> T)
    requires Lens(key, rekey) && Ordered(s, key) && from < |s| && to < |s|
    ensures var r := NormalizeSequential(Reposition(s, from, to, key, rekey), key, rekey);
            && (forall i :: 0 <= i < |r| ==> key(r[i]) == (i + 1) * GAP)
            && Unpositioned(r, rekey) == Unpositioned(MoveItem(s, from, to), rekey)
  {
    RemoveKeepsOrdered(s, from, key);
    PlaceAtSorted(RemoveAt(s, from), to, s[from], key, rekey);
    NormalizeKeepsSortedOrder(Reposition(s, from, to, key, rekey), key, rekey);
  }

  /**
   * Placing into an ordered container and settling it: ordered again, and
   * apart from keys the item sits exactly at index i.
   */
  lemma PlaceSettled<T(!new)>(s: seq<T>, i: nat, x: T, key: T -> int, rekey: (T, int) -> T)
    requires Lens(key, rekey) && Ordered(s, key) && i <= |s|
    ensures Ordered(Settle(PlaceAt(s, i, x, key, rekey), key, rekey), key)
    ensures Unpositioned(Settle(PlaceAt(s, i, x, key, rekey), key, rekey), rekey)
            == Unpositioned(InsertAt(s, i, x), rekey)
  {
    PlaceAtSorted(s, i, x, key, rekey);
    SettleSpec(PlaceAt(s, i, x, key, rekey), key, rekey);
  }

  /**
   * Moving an item between containers: the source, without it, and the
   * target, with it placed at index i, both end strictly increasing; the
   * source keeps its keys when they were strictly increasing; apart from
   * keys the target holds exactly its items and the moved one, in
   * insertion order when it was ordered; ordered containers stay ordered.
   */
  lemma MoveAcross<T(!new)>(from: seq<T>, idx: nat, to: seq<T>, i: nat, x: T, key: T -> int, rekey: (T, int) -> T)
    requires Lens(key, rekey) && idx < |from| && i <= |to|
    ensures var source := Settle(RemoveAt(from, idx), key, rekey);
            && |source| == |from| - 1
            && StrictlyIncreasing(source, key)
            && (StrictlyIncreasing(from, key) ==> source == RemoveAt(from, idx))
            && (Ordered(from, key) ==> Ordered(source, key))
    ensures var target := Settle(PlaceAt(to, i, x, key, rekey), key, rekey);
            && |target| == |to| + 1
            && StrictlyIncreasing(target, key)
            && multiset(Unpositioned(target, rekey)) == multiset(Unpositioned(InsertAt(to, i, x), rekey))
            && (Ordered(to, key) ==>
                  && Ordered(target, key)
                  && Unpositioned(target, rekey) == Unpositioned(InsertAt(to, i, x), rekey))
  {
    assert StrictlyIncreasing(Settle(RemoveAt(from, idx), key, rekey), key) by {
      SettleSpec(RemoveAt(from, idx), key, rekey);
    }
    if StrictlyIncreasing(from, key) {
      RemoveSettled(from, idx, key, rekey);
    }
    if Ordered(from, key) {
      RemoveKeepsOrdered(from, idx, key);
      SettleSpec(RemoveAt(from, idx), key, rekey);
    }
    assert StrictlyIncreasing(Settle(PlaceAt(to, i, x, key, rekey), key, rekey), key)
           && multiset(Unpositioned(Settle(PlaceAt(to, i, x, key, rekey), key, rekey), rekey))
              == multiset(Unpositioned(InsertAt(to, i, x), rekey)) by {
      SettleSpec(PlaceAt(to, i, x, key, rekey), key, rekey);
      PlaceAtUnpositioned(to, i, x, key, rekey);
    }
    if Ordered(to, key) {
      PlaceSettled(to, i, x, key, rekey);
    }
  }

  /** Moving an item between ordered containers leaves both ordered. */
  lemma MoveKeepsOrdered<T(!new)>(from: seq<T>, idx: nat, to: seq<T>, i: nat, x: T, key: T -> int, rekey: (T, int) -> T)
    requires Lens(key, rekey) && Ordered(from, key) && Ordered(to, key) && idx < |from| && i <= |to|
    ensures Ordered(Settle(RemoveAt(from, idx), key, rekey), key)
    ensures Ordered(Settle(PlaceAt(to, i, x, key, rekey), key, rekey), key)
  {
    RemoveKeepsOrdered(from, idx, key);
    SettleSpec(RemoveAt(from, idx), key, rekey);
    PlaceSettled(to, i, x, key, rekey);
  }

  /** Taking one item out of a strictly increasing container leaves nothing to renormalise. */
  lemma RemoveSettled<T(!new)>(s: seq<T>, i: nat, key: T -> int, rekey: (T, int) -> T)
    requires Lens(key, rekey) && StrictlyIncreasing(s, key) && i < |s|
    ensures Settle(RemoveAt(s, i), key, rekey) == RemoveAt(s, i)
  {
    var t := RemoveAt(s, i);
    forall a, b | 0 <= a < b < |t| ensures key(t[a]) < key(t[b]) {
      assert t[a] == if a < i then s[a] else s[a + 1];
      assert t[b] == if b < i then s[b] else s[b + 1];
    }
    SettleSpec(t, key, rekey);
  }

  /** Renormalising re-keys items of the input and changes nothing else about them. */
  lemma NormalizeElements<T(!new)>(s: seq<T>, key: T -> int, rekey: (T, int) -> T, i: nat)
    requires i < |s|
    ensures Sort(s, key)[i] in s
    ensures NormalizeSequential(s, key, rekey)[i] == rekey(Sort(s, key)[i], (i + 1) * GAP)
  {
    var t := Sort(s, key);
    assert t[i] in multiset(t);
    RenumberAt(t, rekey, i);
  }

  /**
   * Filtering out every item whose `field` is v and renormalising: keys
   * GAP, 2 * GAP, ..., no item with that field left, the survivors apart
   * from keys, and for an ascending container in their original order.
   */
  lemma RemoveAllNormalized<T(!new), V>(s: seq<T>, field: T -> V, v: V, key: T -> int, rekey: (T, int) -> T)
    requires Lens(key, rekey)
    requires forall x, p :: field(rekey(x, p)) == field(x)
    ensures var kept := WhereNot(s, field, v);
            var r := NormalizeSequential(kept, key, rekey);
            && |r| == |kept|
            && (forall i :: 0 <= i < |r| ==> key(r[i]) == (i + 1) * GAP && field(r[i]) != v)
            && multiset(Unpositioned(r, rekey)) == multiset(Unpositioned(kept, rekey))
            && (Sorted(s, key) ==> Unpositioned(r, rekey) == Unpositioned(kept, rekey))
  {
    var kept := WhereNot(s, field, v);
    var r := NormalizeSequential(kept, key, rekey);
    WhereNotMembers(s, field, v);
    forall i | 0 <= i < |r| ensures field(r[i]) != v {
      NormalizeElements(kept, key, rekey, i);
    }
    NormalizeIsStableSort(kept, key, rekey);
    if Sorted(s, key) {
      WhereNotSorted(s, key, field, v);
      NormalizeKeepsSortedOrder(kept, key, rekey);
    }
  }

  /**
   * The splice the store runs for a reorder inside one container: take the
   * item at `fromIdx` out, put it back at `toIdx`, and key it from the
   * neighbours it then has.
   */
  method SpliceMove<T>(s: seq<T>, fromIdx: nat, toIdx: nat, key: T -> int, rekey: (T, int) -> T)
    returns (cur: seq<T>)
    requires fromIdx < |s| && toIdx < |s|
    ensures cur == Reposition(s, fromIdx, toIdx, key, rekey)
  {
    var moved := s[fromIdx];
    cur := RemoveAt(s, fromIdx);
    ghost var rest := cur;
    cur := InsertAt(cur, toIdx, moved);
    var prev := if toIdx > 0 then Some(key(cur[toIdx - 1])) else None;
    var next := if toIdx + 1 < |cur| then Some(key(cur[toIdx + 1])) else None;
    var newPos := ComputeNewPosition(prev, next);
    cur := cur[toIdx := rekey(moved, newPos)];
    assert newPos == AllocateAt(rest, toIdx, key);
    InsertAtUpdate(rest, toIdx, moved, rekey(moved, newPos));
  }

  /**
   * The splice the store runs for a move into a container: put `x` in at
   * index i and key it from the neighbours it then has.
   */
  method SpliceInsert<T>(s: seq<T>, i: nat, x: T, key: T -> int, rekey: (T, int) -> T)
    returns (cur: seq<T>)
    requires i <= |s|
    ensures cur == PlaceAt(s, i, x, key, rekey)
  {
    cur := InsertAt(s, i, x);
    var prev := if i > 0 then Some(key(cur[i - 1])) else None;
    var next := if i + 1 < |cur| then Some(key(cur[i + 1])) else None;
    var newPos := ComputeNewPosition(prev, next);
    cur := cur[i := rekey(x, newPos)];
    assert newPos == AllocateAt(s, i, key);
    InsertAtUpdate(s, i, x, rekey(x, newPos));
  }

  /** Apart from keys, inserting x adds exactly one copy of it. */
  lemma InsertAtUnpositioned<T>(s: seq<T>, i: nat, x: T, rekey: (T, int) -> T)
    requires i <= |s|
    ensures multiset(Unpositioned(InsertAt(s, i, x), rekey)) == multiset(Unpositioned(s, rekey)) + multiset{rekey(x, 0)}
  {
    assert InsertAt(s, i, x) == s[..i] + ([x] + s[i..]);
    UnpositionedConcat(s[..i], [x] + s[i..], rekey);
    UnpositionedConcat([x], s[i..], rekey);
    UnpositionedConcat(s[..i], s[i..], rekey);
    assert s == s[..i] + s[i..];
  }
}
