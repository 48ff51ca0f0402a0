/**
 * The in-memory repository behind the board pages: three tables of boards,
 * lists and cards, each a JS `Map` from id to record. A `Map` iterates in
 * insertion order, and that order decides ties in the position sort, so a
 * table is modelled as the sequence of its values in insertion order, keyed
 * by each record's own id.
 */
module Repo {
  import opened JsArray
  import opened Domain
  import opened Positions

  /** No two entries of a table share a key, as in a `Map`. */
  ghost predicate UniqueKeys<T>(t: seq<T>, id: T -> ID) {
    forall i, j :: 0 <= i < j < |t| ==> id(t[i]) != id(t[j])
  }

  /** `map.get(k)`: the entry stored under k, if any. */
  function MapGet<T>(t: seq<T>, id: T -> ID, k: ID): (r: Option<T>)
    ensures r.Some? ==> r.value in t && id(r.value) == k
    ensures r.None? <==> forall i :: 0 <= i < |t| ==> id(t[i]) != k
  {
    var i := FindIndex(t, id, k);
    if i < 0 then None else Some(t[i])
  }

  /** `map.set(id(x), x)`: an existing key keeps its place and takes the new value; a new key goes last. */
  function MapSet<T>(t: seq<T>, id: T -> ID, x: T): (r: seq<T>)
    ensures UniqueKeys(t, id) ==> UniqueKeys(r, id)
    ensures |t| <= |r| <= |t| + 1 && x in r
  {
    var i := FindIndex(t, id, id(x));
    if i < 0 then t + [x] else var r := t[i := x]; assert r[i] == x; r
  }

  /** The `Map` laws: after a set, the key reads back the value and every other key reads as before. */
  lemma MapSetGet<T>(t: seq<T>, id: T -> ID, x: T, k: ID)
    requires UniqueKeys(t, id)
    ensures MapGet(MapSet(t, id, x), id, k) == if k == id(x) then Some(x) else MapGet(t, id, k)
  {
    var i := FindIndex(t, id, id(x));
    var r := MapSet(t, id, x);
    var j := FindIndex(t, id, k);
    if i < 0 {
      assert r == t + [x];
      if k != id(x) && j >= 0 {
        assert FindIndex(r, id, k) == j by {
          FindIndexPrefix(t, [x], id, k);
        }
      } else if k != id(x) {
        assert forall a :: 0 <= a < |r| ==> id(r[a]) != k;
      } else {
        assert FindIndex(r, id, k) == |t| by {
          FindIndexPrefix(t, [x], id, k);
        }
      }
    } else {
      assert r == t[i := x];
      if k == id(x) {
        assert FindIndex(r, id, k) == i;
      } else {
        assert forall a :: 0 <= a < |r| ==> (id(r[a]) == k <==> id(t[a]) == k);
        if j >= 0 {
          assert FindIndex(r, id, k) == j;
        }
      }
    }
  }

  /** Looking past a prefix that does not hold the key. */
  lemma {:induction false} FindIndexPrefix<T>(s: seq<T>, u: seq<T>, id: T -> ID, k: ID)
    ensures var f := FindIndex(s, id, k);
            FindIndex(s + u, id, k) == if f >= 0 then f
                                       else var g := FindIndex(u, id, k); if g < 0 then -1 else |s| + g
  {
    if s != [] {
      FindIndexPrefix(s[1..], u, id, k);
      assert (s + u)[1..] == s[1..] + u;
    } else {
      assert s + u == u;
    }
  }

  /** The seeded demo board: one board, three lists and three cards. */
  function DemoLists(b: ID, l1: ID, l2: ID, l3: ID, now: string): (r: seq<List>)
    ensures |r| == 3
    ensures forall i :: 0 <= i < |r| ==> r[i].boardId == b && r[i].position == (i + 1) * 1024
  {
    [List(l1, b, "Todo", 1024, now, now),
     List(l2, b, "Doing", 2048, now, now),
     List(l3, b, "Done", 3072, now, now)]
  }

  function DemoCards(b: ID, l1: ID, l2: ID, c1: ID, c2: ID, c3: ID, now: string): (r: seq<Card>)
    ensures |r| == 3 && r[0].listId == l1 && r[1].listId == l1 && r[2].listId == l2
    ensures r[0].position == 1024 && r[1].position == 2048 && r[2].position == 1024
    ensures forall i :: 0 <= i < |r| ==> r[i].boardId == b && r[i].description.None?
  {
    [Card(c1, b, l1, "仕様確認", None, 1024, now, now),
     Card(c2, b, l1, "UIスケルトン", None, 2048, now, now),
     Card(c3, b, l2, "ドラフト実装", None, 1024, now, now)]
  }

  /** The repository's tables. */
  class Db {
    var boards: seq<Board>
    var lists: seq<List>
    var cards: seq<Card>

    constructor ()
      ensures boards == [] && lists == [] && cards == []
      ensures Valid()
    {
      boards := [];
      lists := [];
      cards := [];
    }

    /** Every table is a proper map. */
    ghost predicate Valid()
      reads this
    {
      UniqueKeys(boards, BoardId) && UniqueKeys(lists, ListId) && UniqueKeys(cards, CardId)
    }

    /**
     * `seedOnce`: when no board exists, stores the demo board, its lists
     * Todo, Doing and Done at 1024, 2048 and 3072, two cards in Todo at 1024
     * and 2048 and one in Doing at 1024; otherwise does nothing. Afterwards
     * some board exists, so a second call does nothing.
     */
    method SeedOnce(b: ID, l1: ID, l2: ID, l3: ID, c1: ID, c2: ID, c3: ID, now: string)
      modifies this
      ensures |old(boards)| > 0 ==> boards == old(boards) && lists == old(lists) && cards == old(cards)
      ensures |old(boards)| == 0 ==>
                && boards == MapSet(old(boards), BoardId, Board(b, "Demo Board", now, now))
                && lists == SetAll(old(lists), ListId, DemoLists(b, l1, l2, l3, now))
                && cards == SetAll(old(cards), CardId, DemoCards(b, l1, l2, c1, c2, c3, now))
      ensures |boards| > 0
      ensures old(Valid()) ==> Valid()
    {
      if |boards| > 0 {
        return;
      }
      boards := MapSet(boards, BoardId, Board(b, "Demo Board", now, now));
      lists := SetEach(lists, ListId, DemoLists(b, l1, l2, l3, now));
      cards := SetEach(cards, CardId, DemoCards(b, l1, l2, c1, c2, c3, now));
    }

    /** `boardRepo.getBoard`: the stored board with that id, or none. */
    function GetBoard(id: ID): (r: Option<Board>)
      reads this
      ensures r.Some? ==> r.value in boards && r.value.id == id
      ensures r.None? <==> forall i :: 0 <= i < |boards| ==> boards[i].id != id
      ensures Valid() && r.Some? ==> forall i :: 0 <= i < |boards| && boards[i].id == id ==> boards[i] == r.value
    {
      MapGet(boards, BoardId, id)
    }

    /** `listRepo.listByBoard`: the board's lists, ascending by position, ties in table order. */
    function ListByBoard(boardId: ID): (r: seq<List>)
      reads this
      ensures Sorted(r, ListPosition)
      ensures multiset(r) == multiset(Where(lists, ListBoardId, boardId))
    {
      Sort(Where(lists, ListBoardId, boardId), ListPosition)
    }

    /** `cardRepo.listByList`: the list's cards, ascending by position, ties in table order. */
    function ListByList(listId: ID): (r: seq<Card>)
      reads this
      ensures Sorted(r, CardPosition)
      ensures multiset(r) == multiset(Where(cards, CardListId, listId))
    {
      Sort(Where(cards, CardListId, listId), CardPosition)
    }
  }

  /** `xs.forEach(x => map.set(id(x), x))`. */
  function SetAll<T>(t: seq<T>, id: T -> ID, xs: seq<T>): (r: seq<T>)
    ensures UniqueKeys(t, id) ==> UniqueKeys(r, id)
    decreases |xs|
  {
    if xs == [] then t else SetAll(MapSet(t, id, xs[0]), id, xs[1..])
  }

  /** The `forEach` loop of `map.set` calls. */
  method SetEach<T>(t: seq<T>, id: T -> ID, xs: seq<T>) returns (r: seq<T>)
    ensures r == SetAll(t, id, xs)
  {
    r := t;
    var i := 0;
    while i < |xs|
      invariant 0 <= i <= |xs|
      invariant SetAll(r, id, xs[i..]) == SetAll(t, id, xs)
    {
      assert xs[i..][1..] == xs[i + 1..];
      r := MapSet(r, id, xs[i]);
      i := i + 1;
    }
  }

  /** Setting keys not yet stored appends the records in order. */
  lemma {:induction false} SetAllFresh<T>(t: seq<T>, id: T -> ID, xs: seq<T>)
    requires UniqueKeys(t + xs, id)
    ensures SetAll(t, id, xs) == t + xs
    decreases |xs|
  {
    if xs != [] {
      assert (t + xs)[|t|] == xs[0];
      assert forall j :: 0 <= j < |t| ==> (t + xs)[j] == t[j];
      assert FindIndex(t, id, id(xs[0])) < 0;
      assert t + [xs[0]] + xs[1..] == t + xs;
      SetAllFresh(t + [xs[0]], id, xs[1..]);
    }
  }

  /**
   * The repository queries return exactly the stored records of the owner:
   * none missing, none extra, each as often as stored; and records of equal
   * position keep their table order.
   */
  lemma ListByBoardExact(db: Db, boardId: ID, l: List)
    ensures l in db.ListByBoard(boardId) <==> l in db.lists && l.boardId == boardId
    ensures forall p :: Where(db.ListByBoard(boardId), ListPosition, p)
                        == Where(Where(db.lists, ListBoardId, boardId), ListPosition, p)
  {
    var w := Where(db.lists, ListBoardId, boardId);
    WhereMembers(db.lists, ListBoardId, boardId);
    assert l in db.ListByBoard(boardId) <==> l in multiset(w);
    if l in db.lists && l.boardId == boardId {
      assert multiset(w)[l] == multiset(db.lists)[l];
    }
    forall p ensures Where(Sort(w, ListPosition), ListPosition, p) == Where(w, ListPosition, p) {
      SortStable(w, ListPosition, p);
    }
  }

  lemma ListByListExact(db: Db, listId: ID, c: Card)
    ensures c in db.ListByList(listId) <==> c in db.cards && c.listId == listId
    ensures forall p :: Where(db.ListByList(listId), CardPosition, p)
                        == Where(Where(db.cards, CardListId, listId), CardPosition, p)
  {
    var w := Where(db.cards, CardListId, listId);
    WhereMembers(db.cards, CardListId, listId);
    assert c in db.ListByList(listId) <==> c in multiset(w);
    if c in db.cards && c.listId == listId {
      assert multiset(w)[c] == multiset(db.cards)[c];
    }
    forall p ensures Where(Sort(w, CardPosition), CardPosition, p) == Where(w, CardPosition, p) {
      SortStable(w, CardPosition, p);
    }
  }

  /** A filter every element passes keeps the whole sequence. */
  lemma {:induction false} WhereAll<T, V>(s: seq<T>, field: T -> V, v: V)
    requires forall i :: 0 <= i < |s| ==> field(s[i]) == v
    ensures Where(s, field, v) == s
  {
    if s != [] {
      WhereAll(s[1..], field, v);
    }
  }

  lemma UniqueKeysOfThree<T>(x: T, y: T, z: T, id: T -> ID)
    requires id(x) != id(y) && id(x) != id(z) && id(y) != id(z)
    ensures UniqueKeys([x, y, z], id)
  {
  }

  /** Seeding an empty repository with fresh, distinct ids stores the demo lists in order. */
  lemma SeedListsStored(b: ID, l1: ID, l2: ID, l3: ID, now: string)
    requires l1 != l2 && l1 != l3 && l2 != l3
    ensures SetAll([], ListId, DemoLists(b, l1, l2, l3, now)) == DemoLists(b, l1, l2, l3, now)
  {
    var ls := DemoLists(b, l1, l2, l3, now);
    assert [] + ls == ls;
    UniqueKeysOfThree(ls[0], ls[1], ls[2], ListId);
    SetAllFresh([], ListId, ls);
  }

  /** Seeding an empty repository with fresh, distinct ids stores the demo cards in order. */
  lemma SeedCardsStored(b: ID, l1: ID, l2: ID, c1: ID, c2: ID, c3: ID, now: string)
    requires c1 != c2 && c1 != c3 && c2 != c3
    ensures SetAll([], CardId, DemoCards(b, l1, l2, c1, c2, c3, now)) == DemoCards(b, l1, l2, c1, c2, c3, now)
  {
    var cs := DemoCards(b, l1, l2, c1, c2, c3, now);
    assert [] + cs == cs;
    UniqueKeysOfThree(cs[0], cs[1], cs[2], CardId);
    SetAllFresh([], CardId, cs);
  }

  /** The seeded lists are keyed 1024, 2048, 3072: strictly increasing and non-negative. */
  lemma SeedListsOrdered(b: ID, l1: ID, l2: ID, l3: ID, now: string)
    ensures Ordered(DemoLists(b, l1, l2, l3, now), ListPosition)
  {
  }

  /** The seeded board's lists come back from the query as Todo, Doing, Done. */
  lemma SeedListsQuery(b: ID, l1: ID, l2: ID, l3: ID, now: string)
    ensures Sort(Where(DemoLists(b, l1, l2, l3, now), ListBoardId, b), ListPosition) == DemoLists(b, l1, l2, l3, now)
  {
    var ls := DemoLists(b, l1, l2, l3, now);
    WhereAll(ls, ListBoardId, b);
    SeedListsOrdered(b, l1, l2, l3, now);
    SortOfSorted(ls, ListPosition);
  }

  /** Todo holds the first two seeded cards, keyed 1024 and 2048; Doing holds the third, keyed 1024. */
  lemma SeedCardsOrdered(b: ID, l1: ID, l2: ID, c1: ID, c2: ID, c3: ID, now: string)
    requires l1 != l2
    ensures var cs := DemoCards(b, l1, l2, c1, c2, c3, now);
            && Sort(Where(cs, CardListId, l1), CardPosition) == cs[..2]
            && Sort(Where(cs, CardListId, l2), CardPosition) == cs[2..]
            && Ordered(cs[..2], CardPosition) && Ordered(cs[2..], CardPosition)
  {
    var cs := DemoCards(b, l1, l2, c1, c2, c3, now);
    assert cs[1..][1..][1..] == [];
    assert Where(cs[2..], CardListId, l1) == [];
    assert Where(cs[1..], CardListId, l1) == [cs[1]];
    assert Where(cs, CardListId, l1) == cs[..2];
    assert Where(cs[2..], CardListId, l2) == cs[2..];
    assert Where(cs[1..], CardListId, l2) == cs[2..];
    assert Where(cs, CardListId, l2) == cs[2..];
    SortOfSorted(cs[..2], CardPosition);
    SortOfSorted(cs[2..], CardPosition);
  }
}
