/**
 * The client-side board store: all boards, each board's lists and each
 * list's cards, held in memory and rewritten by the drag-and-drop and
 * editing operations. Every write replaces a whole field, as the store's
 * `set` does; the state is the three fields below.
 */
module Kanban {
  import opened JsArray
  import opened Domain
  import opened Positions
  import opened KanbanOrdering

  /** `m[k] ?? []`. */
  function Lookup<V>(m: map<ID, seq<V>>, k: ID): (r: seq<V>)
    ensures k in m ==> r == m[k]
    ensures k !in m ==> r == []
  {
    if k in m then m[k] else []
  }

  lemma CardLens()
    ensures Lens(CardPosition, CardWithPosition)
  {
  }

  lemma ListLens()
    ensures Lens(ListPosition, ListWithPosition)
  {
  }

  /**
   * Where a card moved into list `to` lands: before the card `overCardId`
   * when that id is given, non-empty and found there, otherwise at the end.
   */
  function InsertIndex(to: seq<Card>, overCardId: Option<ID>): (r: nat)
    ensures r <= |to|
    ensures r < |to| <==> overCardId.Some? && overCardId.value != ""
                          && exists j :: 0 <= j < |to| && to[j].id == overCardId.value
    ensures r < |to| ==> to[r].id == overCardId.value
                         && forall j :: 0 <= j < r ==> to[j].id != overCardId.value
  {
    if overCardId.Some? && overCardId.value != "" then
      var o := FindIndex(to, CardId, overCardId.value);
      if o >= 0 then o else |to|
    else |to|
  }

  /** `lists.map(l => l.id === listId ? { ...l, title } : l)`. */
  function RetitleLists(lists: seq<List>, listId: ID, title: string): (r: seq<List>)
    ensures |r| == |lists|
    ensures forall i :: 0 <= i < |r| ==>
              && r[i].(title := lists[i].title) == lists[i]
              && r[i].title == if lists[i].id == listId then title else lists[i].title
  {
    seq(|lists|, i requires 0 <= i < |lists| =>
      if lists[i].id == listId then lists[i].(title := title) else lists[i])
  }

  /** `cards.map(c => c.id === cardId ? { ...c, title } : c)`. */
  function RetitleCards(cards: seq<Card>, cardId: ID, title: string): (r: seq<Card>)
    ensures |r| == |cards|
    ensures forall i :: 0 <= i < |r| ==>
              && r[i].(title := cards[i].title) == cards[i]
              && r[i].title == if cards[i].id == cardId then title else cards[i].title
  {
    seq(|cards|, i requires 0 <= i < |cards| =>
      if cards[i].id == cardId then cards[i].(title := title) else cards[i])
  }

  /** Renaming changes no key and no order, so an ordered container stays ordered. */
  lemma RetitleKeepsKeys(lists: seq<List>, listId: ID, cards: seq<Card>, cardId: ID, title: string)
    ensures var r := RetitleLists(lists, listId, title);
            (forall i :: 0 <= i < |r| ==> r[i].id == lists[i].id && r[i].position == lists[i].position)
            && (Ordered(lists, ListPosition) ==> Ordered(r, ListPosition))
    ensures var r := RetitleCards(cards, cardId, title);
            (forall i :: 0 <= i < |r| ==> r[i].id == cards[i].id && r[i].position == cards[i].position)
            && (Ordered(cards, CardPosition) ==> Ordered(r, CardPosition))
  {
    var rl := RetitleLists(lists, listId, title);
    assert forall i :: 0 <= i < |rl| ==> rl[i].position == lists[i].position;
    var rc := RetitleCards(cards, cardId, title);
    assert forall i :: 0 <= i < |rc| ==> rc[i].position == cards[i].position;
  }

  /** Every board's lists are ordered. */
  ghost predicate ListsOrdered(m: map<ID, seq<List>>) {
    forall b | b in m :: Ordered(m[b], ListPosition)
  }

  /** Every list's cards are ordered. */
  ghost predicate CardsOrdered(m: map<ID, seq<Card>>) {
    forall l | l in m :: Ordered(m[l], CardPosition)
  }

  lemma CardsOrderedUpdate(m: map<ID, seq<Card>>, k: ID, v: seq<Card>)
    requires CardsOrdered(m) && Ordered(v, CardPosition)
    ensures CardsOrdered(m[k := v])
  {
  }

  lemma ListsOrderedUpdate(m: map<ID, seq<List>>, k: ID, v: seq<List>)
    requires ListsOrdered(m) && Ordered(v, ListPosition)
    ensures ListsOrdered(m[k := v])
  {
  }

  // ---------------------------------------------------------------------
  // reorderCardInList

  /**
   * The state update of `reorderCardInList`. Nothing changes when the list
   * is unknown, either card is missing or both are at the same index;
   * otherwise only `listId` is rewritten: the active card is spliced out and
   * back in at the over card's index, keyed from its new neighbours, and the
   * list is renormalised if any adjacent pair is then out of order. No list
   * is left unordered.
   */
  ghost predicate CardReordered(m: map<ID, seq<Card>>, r: map<ID, seq<Card>>, listId: ID,
                                activeCardId: ID, overCardId: ID): (b: bool)
    ensures b ==> r.Keys == m.Keys && forall k | k in m && k != listId :: r[k] == m[k]
  {
    var cards := Lookup(m, listId);
    var from := FindIndex(cards, CardId, activeCardId);
    var to := FindIndex(cards, CardId, overCardId);
    && (listId !in m || from < 0 || to < 0 || from == to ==> r == m)
    && (listId in m && 0 <= from && 0 <= to && from != to ==>
          r == m[listId := Settle(Reposition(cards, from, to, CardPosition, CardWithPosition),
                                  CardPosition, CardWithPosition)])
  }

  method ReorderCardInMap(m: map<ID, seq<Card>>, listId: ID, activeCardId: ID, overCardId: ID)
    returns (r: map<ID, seq<Card>>)
    ensures CardReordered(m, r, listId, activeCardId, overCardId)
    ensures CardsOrdered(m) ==> CardsOrdered(r)
  {
    if listId !in m {
      return m;
    }
    var cur := m[listId];
    ghost var cards := cur;
    var fromIdx := FindIndex(cur, CardId, activeCardId);
    var toIdx := FindIndex(cur, CardId, overCardId);
    if fromIdx < 0 || toIdx < 0 || fromIdx == toIdx {
      return m;
    }
    cur := SpliceMove(cur, fromIdx, toIdx, CardPosition, CardWithPosition);
    var final := Settle(cur, CardPosition, CardWithPosition);
    if CardsOrdered(m) {
      CardLens();
      RepositionSettled(cards, fromIdx, toIdx, CardPosition, CardWithPosition);
      CardsOrderedUpdate(m, listId, final);
    }
    r := m[listId := final];
  }

  /** `m[k := v]` has the keys of m and k, and agrees with m away from k. */
  lemma UpdateFrame<V>(m: map<ID, V>, k: ID, v: V)
    ensures m[k := v].Keys == m.Keys + {k}
    ensures forall j | j in m && j != k :: m[k := v][j] == m[j]
  {
  }

  /** A reordered and settled ordered list: the per-list half of `ReorderCardInListEffect`. */
  lemma CardsRepositioned(cards: seq<Card>, from: nat, to: nat, final: seq<Card>)
    requires Ordered(cards, CardPosition) && from < |cards| && to < |cards|
    requires final == Settle(Reposition(cards, from, to, CardPosition, CardWithPosition),
                             CardPosition, CardWithPosition)
    ensures |final| == |cards| && Ordered(final, CardPosition) && final[to].id == cards[from].id
    ensures Unpositioned(final, CardWithPosition) == Unpositioned(MoveItem(cards, from, to), CardWithPosition)
  {
    CardLens();
    RepositionSettled(cards, from, to, CardPosition, CardWithPosition);
    assert Unpositioned(final, CardWithPosition)[to]
           == Unpositioned(MoveItem(cards, from, to), CardWithPosition)[to];
  }

  /** A reordered and renormalised board: the per-board half of `ReorderListsEffect`. */
  lemma ListsRepositioned(lists: seq<List>, from: nat, to: nat, final: seq<List>)
    requires Ordered(lists, ListPosition) && from < |lists| && to < |lists|
    requires final == NormalizeSequential(Reposition(lists, from, to, ListPosition, ListWithPosition),
                                          ListPosition, ListWithPosition)
    ensures |final| == |lists| && final[to].id == lists[from].id
    ensures forall i :: 0 <= i < |final| ==> final[i].position == (i + 1) * GAP
    ensures Unpositioned(final, ListWithPosition) == Unpositioned(MoveItem(lists, from, to), ListWithPosition)
  {
    ListLens();
    RepositionNormalized(lists, from, to, ListPosition, ListWithPosition);
    assert Unpositioned(final, ListWithPosition)[to]
           == Unpositioned(MoveItem(lists, from, to), ListWithPosition)[to];
  }

  /**
   * What `reorderCardInList` does to an ordered list: when both cards are
   * found at different indices the list keeps its length, is ordered again,
   * the active card sits at the over card's old index, and apart from keys
   * the cards are in remove-and-reinsert order; no other list is touched.
   * Otherwise nothing changes.
   */
  lemma ReorderCardInListEffect(m: map<ID, seq<Card>>, r: map<ID, seq<Card>>, listId: ID,
                                activeCardId: ID, overCardId: ID)
    requires CardReordered(m, r, listId, activeCardId, overCardId)
    requires Ordered(Lookup(m, listId), CardPosition)
    ensures var cards := Lookup(m, listId);
            var from := FindIndex(cards, CardId, activeCardId);
            var to := FindIndex(cards, CardId, overCardId);
            if listId in m && 0 <= from && 0 <= to && from != to then
              && r.Keys == m.Keys
              && (forall k | k in m && k != listId :: r[k] == m[k])
              && |r[listId]| == |cards|
              && Ordered(r[listId], CardPosition)
              && r[listId][to].id == activeCardId
              && Unpositioned(r[listId], CardWithPosition) == Unpositioned(MoveItem(cards, from, to), CardWithPosition)
            else r == m
  {
    var cards := Lookup(m, listId);
    var from := FindIndex(cards, CardId, activeCardId);
    var to := FindIndex(cards, CardId, overCardId);
    if listId in m && 0 <= from && 0 <= to && from != to {
      var final := Settle(Reposition(cards, from, to, CardPosition, CardWithPosition), CardPosition, CardWithPosition);
      assert r == m[listId := final];
      UpdateFrame(m, listId, final);
      CardsRepositioned(cards, from, to, final);
    }
  }

  // ---------------------------------------------------------------------
  // moveCardToAnotherList

  /**
   * The state update of `moveCardToAnotherList`. Nothing changes when the
   * card is not in the source list; otherwise the card is spliced out of
   * the source, re-homed, spliced into the target before the over card (or
   * at the end), keyed from its neighbours, and each list is renormalised
   * if it has an adjacent pair out of order; the target is written last.
   * No list is left unordered.
   */
  ghost predicate CardMoved(m: map<ID, seq<Card>>, r: map<ID, seq<Card>>, fromListId: ID, toListId: ID,
                            cardId: ID, overCardId: Option<ID>): (b: bool)
    ensures b ==> m.Keys <= r.Keys <= m.Keys + {fromListId, toListId}
    ensures b ==> forall k | k in m && k != fromListId && k != toListId :: r[k] == m[k]
  {
    var from := Lookup(m, fromListId);
    var to := Lookup(m, toListId);
    var idx := FindIndex(from, CardId, cardId);
    && (idx < 0 ==> r == m)
    && (idx >= 0 ==>
          r == m[fromListId := Settle(RemoveAt(from, idx), CardPosition, CardWithPosition)]
                [toListId := Settle(PlaceAt(to, InsertIndex(to, overCardId), from[idx].(listId := toListId),
                                            CardPosition, CardWithPosition),
                                    CardPosition, CardWithPosition)])
  }

  method MoveCardInMap(m: map<ID, seq<Card>>, fromListId: ID, toListId: ID, cardId: ID,
                       overCardId: Option<ID>) returns (r: map<ID, seq<Card>>)
    ensures CardMoved(m, r, fromListId, toListId, cardId, overCardId)
    ensures CardsOrdered(m) ==> CardsOrdered(r)
  {
    var from := Lookup(m, fromListId);
    var to := Lookup(m, toListId);
    ghost var source, target := from, to;
    var idx := FindIndex(from, CardId, cardId);
    if idx < 0 {
      return m;
    }
    var moved := from[idx];
    from := RemoveAt(from, idx);
    moved := moved.(listId := toListId);
    var insertIdx := |to|;
    if overCardId.Some? && overCardId.value != "" {
      var overIdx := FindIndex(to, CardId, overCardId.value);
      if overIdx >= 0 {
        insertIdx := overIdx;
      }
    }
    assert insertIdx == InsertIndex(target, overCardId);
    to := SpliceInsert(to, insertIdx, moved, CardPosition, CardWithPosition);
    var finalTo := Settle(to, CardPosition, CardWithPosition);
    var finalFrom := Settle(from, CardPosition, CardWithPosition);
    if CardsOrdered(m) {
      CardLens();
      assert Ordered(source, CardPosition) && Ordered(target, CardPosition);
      MoveKeepsOrdered(source, idx, target, insertIdx, moved, CardPosition, CardWithPosition);
      CardsOrderedUpdate(m, fromListId, finalFrom);
      CardsOrderedUpdate(m[fromListId := finalFrom], toListId, finalTo);
    }
    r := m[fromListId := finalFrom][toListId := finalTo];
  }

  /** The two lists of a move between different lists: the per-list half of `MoveCardToAnotherListEffect`. */
  lemma CardsMovedAcross(from: seq<Card>, idx: nat, to: seq<Card>, i: nat, moved: Card,
                         finalFrom: seq<Card>, finalTo: seq<Card>)
    requires Ordered(from, CardPosition) && Ordered(to, CardPosition) && idx < |from| && i <= |to|
    requires finalFrom == Settle(RemoveAt(from, idx), CardPosition, CardWithPosition)
    requires finalTo == Settle(PlaceAt(to, i, moved, CardPosition, CardWithPosition), CardPosition, CardWithPosition)
    ensures finalFrom == RemoveAt(from, idx) && Ordered(finalFrom, CardPosition)
    ensures |finalTo| == |to| + 1 && Ordered(finalTo, CardPosition)
    ensures finalTo[i].id == moved.id && finalTo[i].listId == moved.listId
    ensures Unpositioned(finalTo, CardWithPosition) == Unpositioned(InsertAt(to, i, moved), CardWithPosition)
  {
    CardLens();
    RemoveSettled(from, idx, CardPosition, CardWithPosition);
    RemoveKeepsOrdered(from, idx, CardPosition);
    PlaceSettled(to, i, moved, CardPosition, CardWithPosition);
    assert Unpositioned(finalTo, CardWithPosition)[i] == Unpositioned(InsertAt(to, i, moved), CardWithPosition)[i];
  }

  /**
   * What `moveCardToAnotherList` does to two different ordered lists when
   * the card is in the source: the source loses exactly that card and keeps
   * every other card and key; the target gains the card, re-homed to it,
   * at the insertion index, and apart from keys is the target with the card
   * spliced in; both are ordered; no third list is touched.
   */
  lemma MoveCardToAnotherListEffect(m: map<ID, seq<Card>>, r: map<ID, seq<Card>>, fromListId: ID,
                                    toListId: ID, cardId: ID, overCardId: Option<ID>)
    requires CardMoved(m, r, fromListId, toListId, cardId, overCardId)
    requires fromListId != toListId
    requires Ordered(Lookup(m, fromListId), CardPosition) && Ordered(Lookup(m, toListId), CardPosition)
    requires FindIndex(Lookup(m, fromListId), CardId, cardId) >= 0
    ensures var from := Lookup(m, fromListId);
            var to := Lookup(m, toListId);
            var idx := FindIndex(from, CardId, cardId);
            var i := InsertIndex(to, overCardId);
            && r.Keys == m.Keys + {fromListId, toListId}
            && (forall k | k in m && k != fromListId && k != toListId :: r[k] == m[k])
            && r[fromListId] == RemoveAt(from, idx)
            && |r[toListId]| == |to| + 1
            && Ordered(r[fromListId], CardPosition) && Ordered(r[toListId], CardPosition)
            && r[toListId][i].id == cardId && r[toListId][i].listId == toListId
            && Unpositioned(r[toListId], CardWithPosition)
               == Unpositioned(InsertAt(to, i, from[idx].(listId := toListId)), CardWithPosition)
  {
    var from := Lookup(m, fromListId);
    var to := Lookup(m, toListId);
    var idx := FindIndex(from, CardId, cardId);
    var i := InsertIndex(to, overCardId);
    var moved := from[idx].(listId := toListId);
    var finalFrom := Settle(RemoveAt(from, idx), CardPosition, CardWithPosition);
    var finalTo := Settle(PlaceAt(to, i, moved, CardPosition, CardWithPosition), CardPosition, CardWithPosition);
    assert r == m[fromListId := finalFrom][toListId := finalTo];
    UpdateFrame(m, fromListId, finalFrom);
    UpdateFrame(m[fromListId := finalFrom], toListId, finalTo);
    CardsMovedAcross(from, idx, to, i, moved, finalFrom, finalTo);
  }

  /**
   * Moving a card "to another list" that is its own list does not reorder
   * it: the target is written last, so the list grows by one and holds the
   * card one more time than before.
   */
  lemma MoveCardWithinListDuplicates(m: map<ID, seq<Card>>, listId: ID, cardId: ID, overCardId: Option<ID>)
    requires FindIndex(Lookup(m, listId), CardId, cardId) >= 0
    ensures var cards := Lookup(m, listId);
            var idx := FindIndex(cards, CardId, cardId);
            var moved := cards[idx].(listId := listId);
            var r := m[listId := Settle(RemoveAt(cards, idx), CardPosition, CardWithPosition)]
                      [listId := Settle(PlaceAt(cards, InsertIndex(cards, overCardId), moved,
                                                CardPosition, CardWithPosition),
                                        CardPosition, CardWithPosition)];
            && |r[listId]| == |cards| + 1
            && multiset(Unpositioned(r[listId], CardWithPosition))
               == multiset(Unpositioned(cards, CardWithPosition)) + multiset{CardWithPosition(moved, 0)}
  {
    var cards := Lookup(m, listId);
    var idx := FindIndex(cards, CardId, cardId);
    var moved := cards[idx].(listId := listId);
    var i := InsertIndex(cards, overCardId);
    CardLens();
    MoveAcross(cards, idx, cards, i, moved, CardPosition, CardWithPosition);
    InsertAtUnpositioned(cards, i, moved, CardWithPosition);
  }

  // ---------------------------------------------------------------------
  // reorderLists

  /**
   * The state update of `reorderLists`. Nothing changes when either list
   * is missing from the board or both are at the same index; otherwise only
   * `boardId` is rewritten: the active list is spliced out and in at the
   * over list's index, keyed from its neighbours, and the board's lists are
   * always renormalised. No board is left unordered.
   */
  ghost predicate ListReordered(m: map<ID, seq<List>>, r: map<ID, seq<List>>, boardId: ID,
                                activeListId: ID, overListId: ID): (b: bool)
    ensures b ==> r.Keys == m.Keys && forall k | k in m && k != boardId :: r[k] == m[k]
  {
    var lists := Lookup(m, boardId);
    var from := FindIndex(lists, ListId, activeListId);
    var to := FindIndex(lists, ListId, overListId);
    && (from < 0 || to < 0 || from == to ==> r == m)
    && (0 <= from && 0 <= to && from != to ==>
          r == m[boardId := NormalizeSequential(Reposition(lists, from, to, ListPosition, ListWithPosition),
                                                ListPosition, ListWithPosition)])
  }

  method ReorderListsInMap(m: map<ID, seq<List>>, boardId: ID, activeListId: ID, overListId: ID)
    returns (r: map<ID, seq<List>>)
    ensures ListReordered(m, r, boardId, activeListId, overListId)
    ensures ListsOrdered(m) ==> ListsOrdered(r)
  {
    var lists := Lookup(m, boardId);
    var fromIdx := FindIndex(lists, ListId, activeListId);
    var toIdx := FindIndex(lists, ListId, overListId);
    if fromIdx < 0 || toIdx < 0 || fromIdx == toIdx {
      return m;
    }
    lists := SpliceMove(lists, fromIdx, toIdx, ListPosition, ListWithPosition);
    ListLens();
    var final := NormalizeSequential(lists, ListPosition, ListWithPosition);
    if ListsOrdered(m) {
      ListsOrderedUpdate(m, boardId, final);
    }
    r := m[boardId := final];
  }

  /**
   * What `reorderLists` does to an ordered board: when both lists are
   * found at different indices the board's lists are keyed GAP, 2 * GAP,
   * ... and apart from keys are in remove-and-reinsert order, with the
   * active list at the over list's old index; no other board is touched.
   * Otherwise nothing changes.
   */
  lemma ReorderListsEffect(m: map<ID, seq<List>>, r: map<ID, seq<List>>, boardId: ID,
                           activeListId: ID, overListId: ID)
    requires ListReordered(m, r, boardId, activeListId, overListId)
    requires Ordered(Lookup(m, boardId), ListPosition)
    ensures var lists := Lookup(m, boardId);
            var from := FindIndex(lists, ListId, activeListId);
            var to := FindIndex(lists, ListId, overListId);
            if 0 <= from && 0 <= to && from != to then
              && r.Keys == m.Keys
              && (forall k | k in m && k != boardId :: r[k] == m[k])
              && |r[boardId]| == |lists|
              && (forall i :: 0 <= i < |r[boardId]| ==> r[boardId][i].position == (i + 1) * GAP)
              && r[boardId][to].id == activeListId
              && Unpositioned(r[boardId], ListWithPosition) == Unpositioned(MoveItem(lists, from, to), ListWithPosition)
            else r == m
  {
    var lists := Lookup(m, boardId);
    var from := FindIndex(lists, ListId, activeListId);
    var to := FindIndex(lists, ListId, overListId);
    if 0 <= from && 0 <= to && from != to {
      var final := NormalizeSequential(Reposition(lists, from, to, ListPosition, ListWithPosition),
                                       ListPosition, ListWithPosition);
      assert r == m[boardId := final];
      assert boardId in m;
      UpdateFrame(m, boardId, final);
      ListsRepositioned(lists, from, to, final);
    }
  }

  // ---------------------------------------------------------------------
  // addList / addCard

  /** `addList` appends after the last key: above every key, and an ordered board stays ordered. */
  lemma AppendListEffect(lists: seq<List>, l: List)
    requires Ordered(lists, ListPosition)
    ensures forall i :: 0 <= i < |lists| ==> lists[i].position < AppendPosition(lists, ListPosition)
    ensures AppendPosition(lists, ListPosition) >= GAP
    ensures Ordered(lists + [l.(position := AppendPosition(lists, ListPosition))], ListPosition)
  {
    ListLens();
    AppendKeepsOrdered(lists, l, ListPosition, ListWithPosition);
    assert ListWithPosition(l, AppendPosition(lists, ListPosition))
           == l.(position := AppendPosition(lists, ListPosition));
  }

  /** `addCard` appends after the last key: above every key, and an ordered list stays ordered. */
  lemma AppendCardEffect(cards: seq<Card>, c: Card)
    requires Ordered(cards, CardPosition)
    ensures forall i :: 0 <= i < |cards| ==> cards[i].position < AppendPosition(cards, CardPosition)
    ensures AppendPosition(cards, CardPosition) >= GAP
    ensures Ordered(cards + [c.(position := AppendPosition(cards, CardPosition))], CardPosition)
  {
    CardLens();
    AppendKeepsOrdered(cards, c, CardPosition, CardWithPosition);
    assert CardWithPosition(c, AppendPosition(cards, CardPosition))
           == c.(position := AppendPosition(cards, CardPosition));
  }

  // ---------------------------------------------------------------------
  // removeList / removeCard

  /** A board's lists after `removeList`: the others, renumbered. */
  function ListsWithout(lists: seq<List>, listId: ID): (r: seq<List>)
    ensures |r| == |WhereNot(lists, ListId, listId)| <= |lists|
    ensures forall i :: 0 <= i < |r| ==> r[i].position == (i + 1) * GAP
    ensures Ordered(r, ListPosition)
  {
    ListLens();
    NormalizeSequential(WhereNot(lists, ListId, listId), ListPosition, ListWithPosition)
  }

  /** A list's cards after `removeCard`: the others, renumbered. */
  function CardsWithout(cards: seq<Card>, cardId: ID): (r: seq<Card>)
    ensures |r| == |WhereNot(cards, CardId, cardId)| <= |cards|
    ensures forall i :: 0 <= i < |r| ==> r[i].position == (i + 1) * GAP
    ensures Ordered(r, CardPosition)
  {
    CardLens();
    NormalizeSequential(WhereNot(cards, CardId, cardId), CardPosition, CardWithPosition)
  }

  /**
   * Removal takes out every item with the id and nothing else: the rest,
   * apart from keys, are the survivors of the filter, in their original
   * order when the container was ascending.
   */
  lemma RemoveEffect(lists: seq<List>, listId: ID, cards: seq<Card>, cardId: ID)
    ensures var r := ListsWithout(lists, listId);
            var kept := WhereNot(lists, ListId, listId);
            && (forall i :: 0 <= i < |r| ==> r[i].id != listId)
            && multiset(Unpositioned(r, ListWithPosition)) == multiset(Unpositioned(kept, ListWithPosition))
            && (Sorted(lists, ListPosition) ==>
                  Unpositioned(r, ListWithPosition) == Unpositioned(kept, ListWithPosition))
    ensures var r := CardsWithout(cards, cardId);
            var kept := WhereNot(cards, CardId, cardId);
            && (forall i :: 0 <= i < |r| ==> r[i].id != cardId)
            && multiset(Unpositioned(r, CardWithPosition)) == multiset(Unpositioned(kept, CardWithPosition))
            && (Sorted(cards, CardPosition) ==>
                  Unpositioned(r, CardWithPosition) == Unpositioned(kept, CardWithPosition))
  {
    ListLens();
    RemoveAllNormalized(lists, ListId, listId, ListPosition, ListWithPosition);
    CardLens();
    RemoveAllNormalized(cards, CardId, cardId, CardPosition, CardWithPosition);
  }

  // ---------------------------------------------------------------------
  // updateList / updateCard

  lemma RetitleListsOrdered(m: map<ID, seq<List>>, listId: ID, title: string)
    requires ListsOrdered(m)
    ensures ListsOrdered(map b | b in m :: RetitleLists(m[b], listId, title))
  {
    forall b | b in m ensures Ordered(RetitleLists(m[b], listId, title), ListPosition) {
      RetitleKeepsKeys(m[b], listId, [], "", title);
    }
  }

  lemma RetitleCardsOrdered(m: map<ID, seq<Card>>, cardId: ID, title: string)
    requires CardsOrdered(m)
    ensures CardsOrdered(map l | l in m :: RetitleCards(m[l], cardId, title))
  {
    forall l | l in m ensures Ordered(RetitleCards(m[l], cardId, title), CardPosition) {
      RetitleKeepsKeys([], "", m[l], cardId, title);
    }
  }

  // ---------------------------------------------------------------------
  // The store

  /**
   * The client store's state. Every operation writes whole fields, as the
   * store's `set` does; `Settled()` is the ordering invariant every
   * operation preserves.
   */
  class Store {
    var boards: seq<Board>
    var listsByBoard: map<ID, seq<List>>
    var cardsByList: map<ID, seq<Card>>

    constructor ()
      ensures boards == [] && listsByBoard == map[] && cardsByList == map[]
      ensures Settled()
    {
      boards := [];
      listsByBoard := map[];
      cardsByList := map[];
    }

    /** Every container has strictly increasing, non-negative keys. */
    ghost predicate Settled()
      reads this
    {
      ListsOrdered(listsByBoard) && CardsOrdered(cardsByList)
    }

    /** `selectListsByBoard`: a board's lists, none for a board never loaded. */
    function SelectListsByBoard(boardId: ID): (r: seq<List>)
      reads this
      ensures boardId in listsByBoard ==> r == listsByBoard[boardId]
      ensures boardId !in listsByBoard ==> r == []
      ensures Settled() ==> Ordered(r, ListPosition)
    {
      Lookup(listsByBoard, boardId)
    }

    /** Installs a loaded board: its lists replace the board's entry, payload cards override per list. */
    method InitBoardData(boardId: ID, payloadBoards: Option<seq<Board>>, lists: seq<List>,
                         payloadCards: map<ID, seq<Card>>)
      modifies this
      ensures boards == if payloadBoards.Some? then payloadBoards.value else old(boards)
      ensures listsByBoard == old(listsByBoard)[boardId := lists]
      ensures cardsByList == old(cardsByList) + payloadCards
      ensures old(Settled()) && Ordered(lists, ListPosition) && CardsOrdered(payloadCards) ==> Settled()
    {
      boards := if payloadBoards.Some? then payloadBoards.value else boards;
      listsByBoard := listsByBoard[boardId := lists];
      cardsByList := cardsByList + payloadCards;
    }

    /** `reorderCardInList`: see `ReorderCardInMap`. */
    method ReorderCardInList(listId: ID, activeCardId: ID, overCardId: ID)
      modifies this`cardsByList
      ensures CardReordered(old(cardsByList), cardsByList, listId, activeCardId, overCardId)
      ensures old(Settled()) ==> Settled()
    {
      ghost var before := Settled();
      var r := ReorderCardInMap(cardsByList, listId, activeCardId, overCardId);
      cardsByList := r;
      assert before ==> CardsOrdered(cardsByList) && ListsOrdered(listsByBoard);
    }

    /** `moveCardToAnotherList`: see `MoveCardInMap`. */
    method MoveCardToAnotherList(fromListId: ID, toListId: ID, cardId: ID, overCardId: Option<ID>)
      modifies this`cardsByList
      ensures CardMoved(old(cardsByList), cardsByList, fromListId, toListId, cardId, overCardId)
      ensures old(Settled()) ==> Settled()
    {
      ghost var before := Settled();
      var r := MoveCardInMap(cardsByList, fromListId, toListId, cardId, overCardId);
      cardsByList := r;
      assert before ==> CardsOrdered(cardsByList) && ListsOrdered(listsByBoard);
    }

    /** `reorderLists`: see `ReorderListsInMap`. */
    method ReorderLists(boardId: ID, activeListId: ID, overListId: ID)
      modifies this`listsByBoard
      ensures ListReordered(old(listsByBoard), listsByBoard, boardId, activeListId, overListId)
      ensures old(Settled()) ==> Settled()
    {
      ghost var before := Settled();
      var r := ReorderListsInMap(listsByBoard, boardId, activeListId, overListId);
      listsByBoard := r;
      assert before ==> CardsOrdered(cardsByList) && ListsOrdered(listsByBoard);
    }

    /** `addBoard`, with the new id and the creation time supplied by the caller. */
    method AddBoard(title: string, id: ID, now: string) returns (r: ID)
      modifies this`boards
      ensures r == id
      ensures boards == old(boards) + [Board(id, title, now, now)]
      ensures old(Settled()) ==> Settled()
    {
      boards := boards + [Board(id, title, now, now)];
      r := id;
    }

    /** `addList`: appended after the board's last list, with an empty card list registered under its id. */
    method AddList(boardId: ID, title: string, id: ID, now: string) returns (r: ID)
      modifies this`listsByBoard, this`cardsByList
      ensures r == id
      ensures var lists := Lookup(old(listsByBoard), boardId);
              listsByBoard == old(listsByBoard)[boardId :=
                lists + [List(id, boardId, title, AppendPosition(lists, ListPosition), now, now)]]
      ensures cardsByList == old(cardsByList)[id := []]
      ensures old(Settled()) ==> Settled()
    {
      var lists := Lookup(listsByBoard, boardId);
      var pos := (match Last(lists) case None => 0 case Some(l) => l.position) + GAP;
      var newList := List(id, boardId, title, pos, now, now);
      if Settled() {
        AppendListEffect(lists, newList);
        assert Ordered([], CardPosition);
      }
      listsByBoard := listsByBoard[boardId := lists + [newList]];
      cardsByList := cardsByList[id := []];
      r := id;
    }

    /** `addCard`: appended after the list's last card, with no description. */
    method AddCard(boardId: ID, listId: ID, title: string, id: ID, now: string) returns (r: ID)
      modifies this`cardsByList
      ensures r == id
      ensures var cards := Lookup(old(cardsByList), listId);
              cardsByList == old(cardsByList)[listId :=
                cards + [Card(id, boardId, listId, title, None, AppendPosition(cards, CardPosition), now, now)]]
      ensures old(Settled()) ==> Settled()
    {
      var cards := Lookup(cardsByList, listId);
      var pos := (match Last(cards) case None => 0 case Some(c) => c.position) + GAP;
      var newCard := Card(id, boardId, listId, title, None, pos, now, now);
      if Settled() {
        AppendCardEffect(cards, newCard);
      }
      cardsByList := cardsByList[listId := cards + [newCard]];
      r := id;
    }

    /** `updateList`: renames every list with the id, on every board. */
    method UpdateList(listId: ID, title: string)
      modifies this`listsByBoard
      ensures listsByBoard == map b | b in old(listsByBoard) :: RetitleLists(old(listsByBoard)[b], listId, title)
      ensures old(Settled()) ==> Settled()
    {
      if Settled() {
        RetitleListsOrdered(listsByBoard, listId, title);
      }
      listsByBoard := map b | b in listsByBoard :: RetitleLists(listsByBoard[b], listId, title);
    }

    /** `updateCard`: renames every card with the id, in every list. */
    method UpdateCard(cardId: ID, title: string)
      modifies this`cardsByList
      ensures cardsByList == map l | l in old(cardsByList) :: RetitleCards(old(cardsByList)[l], cardId, title)
      ensures old(Settled()) ==> Settled()
    {
      if Settled() {
        RetitleCardsOrdered(cardsByList, cardId, title);
      }
      cardsByList := map l | l in cardsByList :: RetitleCards(cardsByList[l], cardId, title);
    }

    /** `removeList`: the board's other lists renumbered, and the list's card entry dropped. */
    method RemoveList(boardId: ID, listId: ID)
      modifies this`listsByBoard, this`cardsByList
      ensures listsByBoard == old(listsByBoard)[boardId := ListsWithout(Lookup(old(listsByBoard), boardId), listId)]
      ensures cardsByList == old(cardsByList) - {listId}
      ensures old(Settled()) ==> Settled()
    {
      var lists := WhereNot(Lookup(listsByBoard, boardId), ListId, listId);
      ListLens();
      var final := NormalizeSequential(lists, ListPosition, ListWithPosition);
      if Settled() {
        ListsOrderedUpdate(listsByBoard, boardId, final);
      }
      listsByBoard := listsByBoard[boardId := final];
      cardsByList := cardsByList - {listId};
    }

    /** `removeCard`: the list's other cards renumbered. */
    method RemoveCard(listId: ID, cardId: ID)
      modifies this`cardsByList
      ensures cardsByList == old(cardsByList)[listId := CardsWithout(Lookup(old(cardsByList), listId), cardId)]
      ensures old(Settled()) ==> Settled()
    {
      var cards := WhereNot(Lookup(cardsByList, listId), CardId, cardId);
      CardLens();
      var final := NormalizeSequential(cards, CardPosition, CardWithPosition);
      if Settled() {
        CardsOrderedUpdate(cardsByList, listId, final);
      }
      cardsByList := cardsByList[listId := final];
    }
  }
}
