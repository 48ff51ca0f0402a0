/**
 * The JavaScript array builtins the ordering code relies on (`findIndex`,
 * `splice`, `filter`, `at(-1)`, and the stable `sort` of ES2019), stated over
 * Dafny sequences. Arrays in the source are copied before they are changed,
 * so value sequences model them.
 */
module JsArray {

  /** A value that may be `undefined` (or `null`). */
  datatype Option<T> = None | Some(value: T)

  /** `findIndex(x => field(x) === v)`: the first index whose element carries `v`, or -1. */
  function FindIndex<T, V(==)>(s: seq<T>, field: T -> V, v: V): (r: int)
    ensures -1 <= r < |s|
    ensures r >= 0 ==> field(s[r]) == v && forall j :: 0 <= j < r ==> field(s[j]) != v
    ensures r < 0 <==> forall j :: 0 <= j < |s| ==> field(s[j]) != v
  {
    if s == [] then -1
    else if field(s[0]) == v then 0
    else
      var k := FindIndex(s[1..], field, v);
      if k < 0 then -1 else k + 1
  }

  /** `splice(i, 1)`: the sequence without its i-th element. */
  function RemoveAt<T>(s: seq<T>, i: nat): (r: seq<T>)
    requires i < |s|
    ensures |r| == |s| - 1
    ensures forall j :: 0 <= j < i ==> r[j] == s[j]
    ensures forall j :: i <= j < |r| ==> r[j] == s[j + 1]
    ensures multiset(r) + multiset{s[i]} == multiset(s)
  {
    assert s == s[..i] + [s[i]] + s[i + 1..];
    s[..i] + s[i + 1..]
  }

  /** `splice(i, 0, x)`: `x` inserted so that it lands at index i. */
  function InsertAt<T>(s: seq<T>, i: nat, x: T): (r: seq<T>)
    requires i <= |s|
    ensures |r| == |s| + 1 && r[i] == x
    ensures forall j :: 0 <= j < i ==> r[j] == s[j]
    ensures forall j :: i < j < |r| ==> r[j] == s[j - 1]
    ensures multiset(r) == multiset(s) + multiset{x}
  {
    assert s == s[..i] + s[i..];
    s[..i] + [x] + s[i..]
  }

  /** Overwriting the inserted element is inserting the new one. */
  lemma InsertAtUpdate<T>(s: seq<T>, i: nat, x: T, y: T)
    requires i <= |s|
    ensures InsertAt(s, i, x)[i := y] == InsertAt(s, i, y)
  {
  }

  /**
   * Remove-and-reinsert: the element at `from` is taken out and put back at
   * index `to` of what remains, the order every drag-and-drop reorder promises.
   */
  function MoveItem<T>(s: seq<T>, from: nat, to: nat): (r: seq<T>)
    requires from < |s| && to < |s|
    ensures |r| == |s| && r[to] == s[from]
    ensures multiset(r) == multiset(s)
  {
    InsertAt(RemoveAt(s, from), to, s[from])
  }

  /** Moving an item back to where it came from restores the sequence. */
  lemma {:induction false} MoveItemUndo<T>(s: seq<T>, from: nat, to: nat)
    requires from < |s| && to < |s|
    ensures MoveItem(MoveItem(s, from, to), to, from) == s
  {
    var m := MoveItem(s, from, to);
    MoveItemKeepsOthers(s, from, to);
    InsertAtRemoveAt(s, from);
    assert MoveItem(m, to, from) == InsertAt(RemoveAt(m, to), from, m[to]);
  }

  /** Putting a removed element back at its index restores the sequence. */
  lemma InsertAtRemoveAt<T>(s: seq<T>, i: nat)
    requires i < |s|
    ensures InsertAt(RemoveAt(s, i), i, s[i]) == s
  {
    var t := RemoveAt(s, i);
    assert t[..i] == s[..i] && t[i..] == s[i + 1..];
    assert s == s[..i] + [s[i]] + s[i + 1..];
  }

  /** Moving an item to another index preserves the order of all the others. */
  lemma {:induction false} MoveItemKeepsOthers<T>(s: seq<T>, from: nat, to: nat)
    requires from < |s| && to < |s|
    ensures RemoveAt(MoveItem(s, from, to), to) == RemoveAt(s, from)
  {
  }

  /** `at(-1)`: the last element, if any. */
  function Last<T>(s: seq<T>): (r: Option<T>)
    ensures r.None? <==> s == []
    ensures r.Some? ==> r.value == s[|s| - 1] && r.value in s
  {
    if s == [] then None else Some(s[|s| - 1])
  }

  /** `filter(x => field(x) === v)`. */
  function Where<T, V(==)>(s: seq<T>, field: T -> V, v: V): (r: seq<T>)
    ensures |r| <= |s|
  {
    if s == [] then []
    else (if field(s[0]) == v then [s[0]] else []) + Where(s[1..], field, v)
  }

  /** The filter keeps every element carrying `v`, as often as it occurs, and nothing else. */
  lemma {:induction false} WhereMembers<T, V>(s: seq<T>, field: T -> V, v: V)
    ensures forall x | x in Where(s, field, v) :: x in s && field(x) == v
    ensures forall x | x in s && field(x) == v :: multiset(Where(s, field, v))[x] == multiset(s)[x]
  {
    if s != [] {
      WhereMembers(s[1..], field, v);
      assert s == [s[0]] + s[1..];
    }
  }

  /** `filter(x => field(x) !== v)`. */
  function WhereNot<T, V(==)>(s: seq<T>, field: T -> V, v: V): (r: seq<T>)
    ensures |r| <= |s|
  {
    if s == [] then []
    else (if field(s[0]) == v then [] else [s[0]]) + WhereNot(s[1..], field, v)
  }

  /** The filter drops every element carrying `v` and keeps all others, as often as they occur. */
  lemma {:induction false} WhereNotMembers<T, V>(s: seq<T>, field: T -> V, v: V)
    ensures forall x | x in WhereNot(s, field, v) :: x in s && field(x) != v
    ensures forall x | x in s && field(x) != v :: multiset(WhereNot(s, field, v))[x] == multiset(s)[x]
  {
    if s != [] {
      WhereNotMembers(s[1..], field, v);
      assert s == [s[0]] + s[1..];
    }
  }

  /** Ascending by `key`, the order `sort((a, b) => key(a) - key(b))` asks for. */
  ghost predicate Sorted<T>(s: seq<T>, key: T -> int) {
    forall i, j :: 0 <= i < j < |s| ==> key(s[i]) <= key(s[j])
  }

  /** Filtering keeps the survivors in their order, so a sorted sequence stays sorted. */
  lemma {:induction false} WhereNotSorted<T, V>(s: seq<T>, key: T -> int, field: T -> V, v: V)
    requires Sorted(s, key)
    ensures Sorted(WhereNot(s, field, v), key)
  {
    if s != [] {
      WhereNotSorted(s[1..], key, field, v);
      WhereNotMembers(s[1..], field, v);
      var rest := WhereNot(s[1..], field, v);
      forall x | x in rest ensures key(s[0]) <= key(x) {
        assert x in multiset(rest);
      }
    }
  }

  /** A stable insertion step: `x` goes before the first element whose key is not smaller. */
  function InsertSorted<T>(x: T, s: seq<T>, key: T -> int): (r: seq<T>)
    ensures |r| == |s| + 1
    ensures multiset(r) == multiset(s) + multiset{x}
    ensures Sorted(s, key) ==> Sorted(r, key)
  {
    if s == [] then [x]
    else if key(x) <= key(s[0]) then
      assert Sorted(s, key) ==> Sorted([x] + s, key) by {
        if Sorted(s, key) { ConsSorted(x, s, key); }
      }
      [x] + s
    else
      var t := InsertSorted(x, s[1..], key);
      assert s == [s[0]] + s[1..];
      assert Sorted(s, key) ==> Sorted([s[0]] + t, key) by {
        if Sorted(s, key) {
          SortedTail(s, key);
          InsertStepSorted(x, s, t, key);
        }
      }
      [s[0]] + t
  }

  /** The tail of an ascending sequence is ascending. */
  lemma SortedTail<T>(s: seq<T>, key: T -> int)
    requires s != [] && Sorted(s, key)
    ensures Sorted(s[1..], key)
  {
    var t := s[1..];
    forall i, j | 0 <= i < j < |t| ensures key(t[i]) <= key(t[j]) {
      assert t[i] == s[i + 1] && t[j] == s[j + 1];
    }
  }

  /** The recursive step of `InsertSorted`: the head stays in front of `x` and the rest. */
  lemma InsertStepSorted<T>(x: T, s: seq<T>, t: seq<T>, key: T -> int)
    requires s != [] && Sorted(s, key) && key(s[0]) < key(x)
    requires multiset(t) == multiset(s[1..]) + multiset{x} && Sorted(t, key)
    ensures Sorted([s[0]] + t, key)
  {
    assert s == [s[0]] + s[1..];
    forall y | y in t ensures key(s[0]) <= key(y) {
      assert y in multiset(s[1..]) + multiset{x};
    }
    ConsSorted(s[0], t, key);
  }

  /** An element no larger than everything after it extends an ascending sequence. */
  lemma ConsSorted<T>(x: T, s: seq<T>, key: T -> int)
    requires Sorted(s, key)
    requires forall y | y in s :: key(x) <= key(y)
    ensures Sorted([x] + s, key)
  {
    var r := [x] + s;
    forall i, j | 0 <= i < j < |r| ensures key(r[i]) <= key(r[j]) {
      if i == 0 { assert r[j] == s[j - 1]; } else { assert r[i] == s[i - 1] && r[j] == s[j - 1]; }
    }
  }

  /** `Where` of a sequence with a given first element. */
  lemma WhereCons<T, V>(x: T, s: seq<T>, field: T -> V, v: V)
    ensures Where([x] + s, field, v) == (if field(x) == v then [x] else []) + Where(s, field, v)
  {
    assert ([x] + s)[0] == x && ([x] + s)[1..] == s;
  }

  /** The insertion step puts `x` first among the elements with its key. */
  lemma {:induction false} WhereInsertSorted<T>(x: T, s: seq<T>, key: T -> int, v: int)
    ensures Where(InsertSorted(x, s, key), key, v)
            == if key(x) == v then [x] + Where(s, key, v) else Where(s, key, v)
  {
    if s == [] {
      assert InsertSorted(x, s, key) == [x] + s;
      WhereCons(x, s, key, v);
    } else if key(x) <= key(s[0]) {
      assert InsertSorted(x, s, key) == [x] + s;
      WhereCons(x, s, key, v);
    } else {
      var t := InsertSorted(x, s[1..], key);
      assert InsertSorted(x, s, key) == [s[0]] + t;
      WhereInsertSorted(x, s[1..], key, v);
      WhereCons(s[0], t, key, v);
      WhereCons(s[0], s[1..], key, v);
      assert s == [s[0]] + s[1..];
    }
  }

  /**
   * `Array.prototype.sort` with the comparator `(a, b) => key(a) - key(b)`:
   * a permutation of the input, in ascending order.
   */
  function Sort<T>(s: seq<T>, key: T -> int): (r: seq<T>)
    ensures |r| == |s|
    ensures multiset(r) == multiset(s)
    ensures Sorted(r, key)
  {
    if s == [] then []
    else
      assert s == [s[0]] + s[1..];
      InsertSorted(s[0], Sort(s[1..], key), key)
  }

  /** The sort is stable: the elements with any one key keep their input order. */
  lemma {:induction false} SortStable<T>(s: seq<T>, key: T -> int, v: int)
    ensures Where(Sort(s, key), key, v) == Where(s, key, v)
  {
    if s != [] {
      SortStable(s[1..], key, v);
      WhereInsertSorted(s[0], Sort(s[1..], key), key, v);
    }
  }

  /** A sequence that is already ascending is left as it is. */
  lemma {:induction false} SortOfSorted<T>(s: seq<T>, key: T -> int)
    requires Sorted(s, key)
    ensures Sort(s, key) == s
  {
    if s != [] {
      var t := s[1..];
      SortedTail(s, key);
      SortOfSorted(t, key);
      assert s == [s[0]] + t;
      assert Sort(s, key) == InsertSorted(s[0], t, key);
      if t != [] {
        assert key(s[0]) <= key(t[0]);
      }
    }
  }

  /**
   * A stable sort has exactly one possible result: any ascending sequence
   * that keeps each key's elements in input order equals `Sort(s, key)`.
   * So the insertion sort here yields what every stable `sort` yields.
   */
  lemma SortIsTheStableSort<T>(s: seq<T>, r: seq<T>, key: T -> int)
    requires Sorted(r, key)
    requires forall v :: Where(r, key, v) == Where(s, key, v)
    ensures r == Sort(s, key)
  {
    forall v ensures Where(r, key, v) == Where(Sort(s, key), key, v) {
      SortStable(s, key, v);
    }
    StableSortedUnique(r, Sort(s, key), key);
  }

  lemma {:induction false} StableSortedUnique<T>(r: seq<T>, t: seq<T>, key: T -> int)
    requires Sorted(r, key) && Sorted(t, key)
    requires forall v :: Where(r, key, v) == Where(t, key, v)
    ensures r == t
  {
    if r == [] || t == [] {
      EmptyPerKey(r, t, key);
    } else {
      HeadsAgree(r, t, key);
      TailsAgree(r, t, key);
      SortedTail(r, key);
      SortedTail(t, key);
      StableSortedUnique(r[1..], t[1..], key);
      assert r == [r[0]] + r[1..];
      assert t == [t[0]] + t[1..];
    }
  }

  /** Sequences that agree per key are both empty or both non-empty. */
  lemma EmptyPerKey<T>(r: seq<T>, t: seq<T>, key: T -> int)
    requires forall v :: Where(r, key, v) == Where(t, key, v)
    ensures r == [] <==> t == []
  {
    if r != [] {
      WhereHead(r, key);
      assert Where(t, key, key(r[0])) != [];
    }
    if t != [] {
      WhereHead(t, key);
      assert Where(r, key, key(t[0])) != [];
    }
  }

  /** Ascending sequences that agree per key start with the same element. */
  lemma HeadsAgree<T>(r: seq<T>, t: seq<T>, key: T -> int)
    requires r != [] && t != []
    requires Sorted(r, key) && Sorted(t, key)
    requires forall v :: Where(r, key, v) == Where(t, key, v)
    ensures r[0] == t[0]
  {
    WhereHead(r, key);
    WhereHead(t, key);
    HeadKeysAgree(r, t, key);
    var k := key(r[0]);
    assert Where(r, key, k) == Where(t, key, k);
    assert Where(r, key, k)[0] == r[0];
  }

  /** Dropping a common first element keeps the per-key agreement. */
  lemma TailsAgree<T>(r: seq<T>, t: seq<T>, key: T -> int)
    requires r != [] && t != [] && r[0] == t[0]
    requires forall v :: Where(r, key, v) == Where(t, key, v)
    ensures forall v :: Where(r[1..], key, v) == Where(t[1..], key, v)
  {
    var a := r[0];
    forall v ensures Where(r[1..], key, v) == Where(t[1..], key, v) {
      assert r == [a] + r[1..] && t == [a] + t[1..];
      WhereCons(a, r[1..], key, v);
      WhereCons(a, t[1..], key, v);
      var head := if key(a) == v then [a] else [];
      assert head + Where(r[1..], key, v) == head + Where(t[1..], key, v);
      assert Where(r[1..], key, v) == (head + Where(r[1..], key, v))[|head|..];
      assert Where(t[1..], key, v) == (head + Where(t[1..], key, v))[|head|..];
    }
  }

  /** The first element is the first one `Where` keeps for its own key. */
  lemma WhereHead<T>(s: seq<T>, key: T -> int)
    requires s != []
    ensures Where(s, key, key(s[0])) == [s[0]] + Where(s[1..], key, key(s[0]))
  {
  }

  /** Two ascending sequences that agree per key start with the same key. */
  lemma HeadKeysAgree<T>(r: seq<T>, t: seq<T>, key: T -> int)
    requires r != [] && t != []
    requires Sorted(r, key) && Sorted(t, key)
    requires Where(r, key, key(r[0])) == Where(t, key, key(r[0]))
    requires Where(r, key, key(t[0])) == Where(t, key, key(t[0]))
    ensures key(r[0]) == key(t[0])
  {
    var a, b := r[0], t[0];
    WhereHead(r, key);
    WhereHead(t, key);
    WhereMembers(t, key, key(a));
    WhereMembers(r, key, key(b));
    assert a in Where(t, key, key(a));
    var j :| 0 <= j < |t| && t[j] == a;
    assert key(b) <= key(t[j]);
    assert b in Where(r, key, key(b));
    var k :| 0 <= k < |r| && r[k] == b;
    assert key(a) <= key(r[k]);
  }
}
