# Kanban ordering model

A Dafny model of the ordering core of a Kanban board application: boards
hold ordered lists, lists hold ordered cards, and the order inside each
container is carried by sparse integer sort keys ("positions"). The model
covers

- the key allocator `computeNewPosition` and the renormaliser
  `normalizeSequential` (`Positions`), with JavaScript's stable
  `Array.prototype.sort`, `findIndex`, `splice`, `filter` and `at(-1)` stated
  over sequences (`JsArray`);
- the client store (`Kanban.Store`): its three fields `boards`,
  `listsByBoard` and `cardsByList`, and every mutator the drag-and-drop and
  editing UI calls. The splice-and-allocate steps the mutators share are
  generic over the item type (`KanbanOrdering`), and each drag operation
  is proved through a heap-free "state update" method on the map it
  rewrites;
- the server action's independent allocator `mid` (`BoardActions`);
- the in-memory repository (`Repo.Db`): its three `Map` tables, the
  owner-filtered, position-sorted queries, `getBoard` and `seedOnce`.

The ordering invariant is `Ordered`: keys strictly increasing along a
container and non-negative. Every store mutator but `InitBoardData` keeps
`Store.Settled()` (every container ordered); `InitBoardData` keeps it when
its payload is ordered. The repository's queries sort ascending with ties
allowed, so a loaded container with equal keys leaves the store unsettled,
in the code as in the model. The items of a container "apart from keys" are
compared through `Unpositioned`, which clears every key, so a statement
such as `Unpositioned(r) == Unpositioned(MoveItem(s, from, to))` says that
`r` holds exactly the items of `s` in remove-and-reinsert order, every
field other than the key unchanged.

Three behaviours of the code are worth stating outright:

- The allocator signals no error when no integer lies between the
  neighbours. It returns `prev + 1`, which may equal `next`. The store's
  adjacent-pair scan then renormalises the container (`PlaceAtStrictIff`,
  `CrowdedPlaceRenumbers`).
- Inserting between keys 1024 and 1025 gives the new item key 1025 first and
  then renumbers all three items, so the new item ends at 2048
  (`CrowdedPlaceRenumbers`).
- `moveCardToAnotherList` with equal source and target ids does not
  reorder. It writes the target last, so the list keeps a copy of the card
  at its old index and gains a second one at the insertion index
  (`MoveCardWithinListDuplicates`). In the code both slots hold the same
  object, so both copies carry the new key; the model keys only the inserted
  copy (see "Left out"). Neither caller passes equal ids
  (src/components/board/BoardView.tsx:103;
  src/app/boards/[id]/_components/BoardView.tsx:617-624), so the store
  lemmas about moves assume different lists.

## Model

| member | source | states |
|---|---|---|
| `Positions.ComputeNewPosition` | src/lib/positions.ts:5-12 | no neighbours gives GAP (1024); only a left neighbour gives `prev + 1024`, above `prev`; only a right neighbour gives `floor(next/2)`, strictly between 0 and `next` for `next >= 2` and 0 for `next = 1`; two neighbours at least 2 apart give their rounded-down midpoint, strictly between them; neighbours 0 or 1 apart give `prev + 1`; inverted neighbours at least 2 apart also give their rounded-down midpoint, between them, and inverted neighbours 1 apart give `prev + 1` |
| `Positions.AllocationFitsIff` | src/lib/positions.ts:9-11 | for ordered neighbours the key lies strictly between them exactly when they are at least 2 apart |
| `Positions.AllocationBeforeFirstIff` | src/lib/positions.ts:7 | with only a right neighbour, the key is below it exactly when the neighbour is positive, and non-negative exactly when the neighbour is |
| `Positions.ComputeNewPositionExamples` | src/lib/positions.ts:3-11 | worked values: (none, none) 1024, (1024, none) 2048, (none, 1024) 512, (none, 1) 0, (1024, 2048) 1536, (1024, 1025) 1025, the last a duplicate of `next` |
| `Positions.NeedsNormalizeIff` | src/stores/kanban.ts:101-103 | the store's "some adjacent pair is not increasing" scan fires exactly when the keys are not strictly increasing |
| `Positions.NeedsNormalize` | src/stores/kanban.ts:101-103 | the adjacent-pair scan can fire only on a container of at least two items |
| `Positions.Renumber` | src/lib/positions.ts:20 | the re-keying `map` keeps the length (each item keyed by its index is stated by `Positions.NormalizeSequential`) |
| `Positions.NormalizeSequential` | src/lib/positions.ts:14-21 | same length; the i-th item gets key `(i+1)*1024`, so the keys are strictly increasing and positive |
| `Positions.NormalizeIsStableSort` | src/lib/positions.ts:17-20 | apart from keys the output is the stable sort of the input by key, and so a permutation of the input items with every other field unchanged |
| `Positions.NormalizeKeepsSortedOrder` | src/lib/positions.ts:17-20 | an input already in ascending key order keeps its item order and is only re-keyed |
| `Positions.NormalizeIdempotent` | src/lib/positions.ts:17-20 | normalising twice equals normalising once |
| `JsArray.FindIndex` | src/stores/kanban.ts:88-89 | `findIndex`: the first index whose id matches, or -1 exactly when no element matches |
| `JsArray.RemoveAt` | src/stores/kanban.ts:92 | `splice(i, 1)`: one shorter, the elements before i kept, those after shifted down, one copy of the i-th element removed from the multiset |
| `JsArray.InsertAt` | src/stores/kanban.ts:93 | `splice(i, 0, x)`: one longer, `x` at i, the elements before i kept, those after shifted up, one copy of `x` added |
| `JsArray.MoveItem` | src/stores/kanban.ts:92-93 | remove-and-reinsert keeps the length and the multiset of items and puts the moved item at the target index |
| `JsArray.MoveItemUndo` | src/stores/kanban.ts:92-93 | remove-and-reinsert is undone by moving the item back to its old index |
| `JsArray.MoveItemKeepsOthers` | src/stores/kanban.ts:92-93 | a remove-and-reinsert keeps the relative order of all the other items |
| `JsArray.Last` | src/stores/kanban.ts:181 | `at(-1)`: absent exactly for an empty array, otherwise the last element |
| `JsArray.Where` | src/lib/repo.ts:82 | the filter is never longer than its input |
| `JsArray.WhereMembers` | src/lib/repo.ts:82 | `filter` by a field keeps every matching element as often as it occurs, and nothing else |
| `JsArray.WhereNot` | src/stores/kanban.ts:240-242 | the filter is never longer than its input |
| `JsArray.WhereNotMembers` | src/stores/kanban.ts:240-242 | `filter` by `!==` drops every matching element and keeps all the others as often as they occur |
| `JsArray.Sort` | src/lib/positions.ts:19 | the comparator sort: a permutation of its input, ascending by key |
| `JsArray.SortStable` | src/lib/positions.ts:19 | the sort is stable: the elements with any one key keep their input order |
| `JsArray.SortOfSorted` | src/lib/positions.ts:19 | an ascending input is returned unchanged |
| `JsArray.SortIsTheStableSort` | src/lib/positions.ts:19 | any ascending arrangement that keeps each key's elements in input order equals this sort, so the model does not depend on the engine's sorting algorithm |
| `BoardActions.Mid` | src/app/actions/boards.ts:53-61 | (none, none) gives `gap`; (none, next) `floor(next/2)`; (prev, none) `prev + gap`; `next - prev <= 1`, inverted neighbours included, gives `prev + 1`; otherwise `prev + floor((next-prev)/2)`, strictly between the neighbours |
| `BoardActions.MidAgreesWhenOrdered` | src/app/actions/boards.ts:57-60 | with the default gap and `prev <= next` (or a neighbour missing), `mid` equals the store's `computeNewPosition` |
| `BoardActions.MidDiffersIff` | src/app/actions/boards.ts:59 | for two neighbours, `mid` and `computeNewPosition` differ exactly when `prev` exceeds `next` by 2 or more |
| `BoardActions.MidDiffersExample` | src/app/actions/boards.ts:57-60 | neighbours (10, 0): `mid` gives 11, `computeNewPosition` gives 5 |
| `KanbanOrdering.AllocateAt` | src/stores/kanban.ts:96-98 | the key for an item spliced in at index i, taken from its neighbours `i-1` and `i+1`; in an ordered container it is non-negative and between the neighbours' keys |
| `KanbanOrdering.PlaceAt` | src/stores/kanban.ts:126-130 | splicing in and keying an item adds exactly one item |
| `KanbanOrdering.Reposition` | src/stores/kanban.ts:92-99 | an in-container reorder keeps the length |
| `KanbanOrdering.Settle` | src/stores/kanban.ts:101-104 | renormalise-if-needed keeps the length |
| `KanbanOrdering.AppendPosition` | src/stores/kanban.ts:181 | the last key (or 0) plus 1024: above every key of a strictly increasing container, at least 1024 for non-negative keys |
| `KanbanOrdering.AppendKeepsOrdered` | src/stores/kanban.ts:180-190 | appending an item with that key keeps a container ordered |
| `KanbanOrdering.PlaceAtSorted` | src/stores/kanban.ts:126-130 | splicing an item into an ordered container and keying it gives ascending, non-negative keys, and apart from keys is plain insertion at i |
| `KanbanOrdering.PlaceAtStrictIff` | src/stores/kanban.ts:126-134 | after the splice the keys are strictly increasing exactly when the allocator had room; the store's scan renormalises exactly when it had none |
| `KanbanOrdering.CrowdedPlaceRenumbers` | src/stores/kanban.ts:126-138 | inserting between keys 1024 and 1025 yields keys 1024, 2048, 3072 with the new item in the middle |
| `KanbanOrdering.DragBetweenExample` | src/stores/kanban.ts:92-104 | dragging the third of items keyed 1024, 2048, 3072 onto the second keys it 1536, between the first two, with no renormalisation |
| `KanbanOrdering.MoveAcrossExample` | src/stores/kanban.ts:115-139 | moving the first of two items (1024, 2048) before a lone item (1024) of another container: the source keeps the second item unchanged and the moved item gets key 512 ahead of the target's item |
| `KanbanOrdering.SettleSpec` | src/stores/kanban.ts:101-104 | the renormalise-if-needed pass yields strictly increasing keys and the same items apart from keys; it keeps keys non-negative and an ascending order, and returns a strictly increasing container as it is |
| `KanbanOrdering.RepositionSettled` | src/stores/kanban.ts:92-104 | reordering an ordered container and settling it: ordered again, and apart from keys in remove-and-reinsert order |
| `KanbanOrdering.RepositionNormalized` | src/stores/kanban.ts:156-163 | reordering and always renormalising: keys `(i+1)*1024`, and apart from keys remove-and-reinsert order |
| `KanbanOrdering.PlaceSettled` | src/stores/kanban.ts:126-138 | placing into an ordered container and settling it: ordered again, the item at exactly index i apart from keys |
| `KanbanOrdering.MoveAcross` | src/stores/kanban.ts:115-139 | for any source and target: the source loses one item and ends strictly increasing, unchanged when it was strictly increasing; the target gains one, ends strictly increasing, and holds its items plus the moved one; ordered inputs stay ordered and keep insertion order |
| `KanbanOrdering.RemoveSettled` | src/stores/kanban.ts:135-139 | removing one item from a strictly increasing container leaves nothing to renormalise |
| `KanbanOrdering.RemoveAllNormalized` | src/stores/kanban.ts:254-261 | filtering out an id and renormalising: keys `(i+1)*1024`, no item with that id, the survivors apart from keys, in their order when the container was ascending |
| `KanbanOrdering.SpliceMove` | src/stores/kanban.ts:87-99 | the in-list splice (remove at `fromIdx`, insert at `toIdx`, key from the new neighbours) yields the remove-and-reinsert placement |
| `KanbanOrdering.SpliceInsert` | src/stores/kanban.ts:126-130 | the cross-list splice (insert at i, key from the new neighbours) yields the placement at i |
| `Kanban.InsertIndex` | src/stores/kanban.ts:121-125 | a moved card lands before the over card when that id is given, non-empty and found in the target (its first occurrence), and at the end otherwise |
| `Kanban.RetitleLists` | src/stores/kanban.ts:217-226 | same length; each list keeps every field except the title, which becomes the new title exactly for the matching id |
| `Kanban.RetitleCards` | src/stores/kanban.ts:228-237 | same length; each card keeps every field except the title, which becomes the new title exactly for the matching id |
| `Kanban.RetitleKeepsKeys` | src/stores/kanban.ts:217-237 | renaming keeps every id and key in place, so an ordered container stays ordered |
| `Kanban.ReorderCardInMap` | src/stores/kanban.ts:83-109 | no change when the list is unknown, either card is missing or both are at one index; otherwise only that list is rewritten, with the settled remove-and-reinsert placement; ordered lists stay ordered |
| `Kanban.ReorderCardInListEffect` | src/stores/kanban.ts:83-109 | on an ordered list a performed reorder keeps the map's keys and every other list, keeps the list's length, orders it again, puts the active card at the over card's old index and leaves the cards in remove-and-reinsert order; a guarded call changes nothing |
| `Kanban.CardReordered` | src/stores/kanban.ts:83-109 | the state after a card reorder keeps the map's keys and every other list |
| `Kanban.MoveCardInMap` | src/stores/kanban.ts:111-148 | no change when the card is not in the source; otherwise the source without the card and the target with the re-homed card placed and keyed, each renormalised when needed, the target written last; ordered lists stay ordered |
| `Kanban.CardMoved` | src/stores/kanban.ts:111-148 | the state after a cross-list move keeps every existing key, adds at most the source and target ids, and keeps every other list |
| `Kanban.MoveCardToAnotherListEffect` | src/stores/kanban.ts:111-148 | between two different ordered lists: only those two map keys change; the source is exactly the old source without the card, keys kept; the target grows by one, is ordered, holds the card at the insertion index with its `listId` set to the target, and apart from keys is the target with the card spliced in |
| `Kanban.MoveCardWithinListDuplicates` | src/stores/kanban.ts:141-147 | with equal source and target the list grows by one and holds the card once more than before |
| `Kanban.ListReordered` | src/stores/kanban.ts:150-167 | the state after a list reorder keeps the map's keys and every other board |
| `Kanban.ReorderListsInMap` | src/stores/kanban.ts:150-167 | no change when either list is missing or both are at one index; otherwise only the board's entry is rewritten, spliced, keyed and always renormalised; ordered boards stay ordered |
| `Kanban.ReorderListsEffect` | src/stores/kanban.ts:150-167 | on an ordered board a performed reorder keeps every other board, keys the lists `(i+1)*1024`, puts the active list at the over list's old index and leaves the lists in remove-and-reinsert order; a guarded call changes nothing |
| `Kanban.AppendListEffect` | src/stores/kanban.ts:180-190 | the appended list's key is above every key of the board and at least 1024, and the board stays ordered |
| `Kanban.AppendCardEffect` | src/stores/kanban.ts:201-212 | the appended card's key is above every key of the list and at least 1024, and the list stays ordered |
| `Kanban.ListsWithout` | src/stores/kanban.ts:240-248 | the board's lists minus the removed id, keyed `(i+1)*1024` and so ordered |
| `Kanban.CardsWithout` | src/stores/kanban.ts:255-261 | the list's cards minus the removed id, keyed `(i+1)*1024` and so ordered |
| `Kanban.RemoveEffect` | src/stores/kanban.ts:239-264 | removal leaves no item with the id, exactly the survivors apart from keys, in their original order when the container was ascending |
| `Kanban.RetitleListsOrdered` | src/stores/kanban.ts:217-226 | renaming a list keeps every board ordered |
| `Kanban.RetitleCardsOrdered` | src/stores/kanban.ts:228-237 | renaming a card keeps every list ordered |
| `Kanban.Store.constructor` | src/stores/kanban.ts:46-50 | the store starts with no boards, lists or cards, and settled |
| `Kanban.Store.SelectListsByBoard` | src/stores/kanban.ts:267-270 | the board's lists, or none for an unknown board; ordered in a settled store |
| `Kanban.Store.InitBoardData` | src/stores/kanban.ts:52-59 | boards replaced only when given; the board's lists replaced; payload card lists override existing entries; settled when the store and the payload were |
| `Kanban.Store.ReorderCardInList` | src/stores/kanban.ts:83-109 | rewrites only `cardsByList`, as `ReorderCardInMap` states, and keeps the store settled |
| `Kanban.Store.MoveCardToAnotherList` | src/stores/kanban.ts:111-148 | rewrites only `cardsByList`, as `MoveCardInMap` states, and keeps the store settled |
| `Kanban.Store.ReorderLists` | src/stores/kanban.ts:150-167 | rewrites only `listsByBoard`, as `ReorderListsInMap` states, and keeps the store settled |
| `Kanban.Store.AddBoard` | src/stores/kanban.ts:169-175 | appends one board with the given id and time, returns the id, changes nothing else |
| `Kanban.Store.AddList` | src/stores/kanban.ts:177-196 | appends one list keyed after the board's last list, registers an empty card list under its id, returns the id, keeps the store settled |
| `Kanban.Store.AddCard` | src/stores/kanban.ts:198-215 | appends one card, without description, keyed after the list's last card, returns the id, keeps the store settled |
| `Kanban.Store.UpdateList` | src/stores/kanban.ts:217-226 | every board's lists retitled for the id, nothing else changed, settled kept |
| `Kanban.Store.UpdateCard` | src/stores/kanban.ts:228-237 | every list's cards retitled for the id, nothing else changed, settled kept |
| `Kanban.Store.RemoveList` | src/stores/kanban.ts:239-252 | the board's other lists renumbered, the list's card entry deleted, settled kept |
| `Kanban.Store.RemoveCard` | src/stores/kanban.ts:254-264 | the list's other cards renumbered, settled kept |
| `Repo.MapGet` | src/lib/repo.ts:75 | `Map.get`: the stored record with that key, absent exactly when no record has it |
| `Repo.MapSet` | src/lib/repo.ts:23 | `Map.set`: keeps keys unique and stores the record |
| `Repo.MapSetGet` | src/lib/repo.ts:7-13 | after a set, its key reads back the new record and every other key reads as before |
| `Repo.SetAll` | src/lib/repo.ts:49 | a series of `Map.set` calls keeps keys unique |
| `Repo.SetEach` | src/lib/repo.ts:49 | the `forEach` of `Map.set` calls stores the records one after the other |
| `Repo.SetAllFresh` | src/lib/repo.ts:49 | setting keys not yet stored appends the records in order |
| `Repo.Db.constructor` | src/lib/repo.ts:13 | the tables start empty |
| `Repo.Db.SeedOnce` | src/lib/repo.ts:15-65 | nothing changes when a board exists; otherwise the demo board, its three lists and three cards are stored; afterwards a board exists, so a second call changes nothing; keys stay unique |
| `Repo.Db.GetBoard` | src/lib/repo.ts:74-76 | the stored board with the id, or none exactly when no board has it; with unique keys (`Db.Valid`, kept by every `Db` method) it is the one board stored under that id |
| `Repo.Db.ListByBoard` | src/lib/repo.ts:80-84 | ascending by position, and a permutation of the board's stored lists |
| `Repo.Db.ListByList` | src/lib/repo.ts:88-92 | ascending by position, and a permutation of the list's stored cards |
| `Repo.ListByBoardExact` | src/lib/repo.ts:80-84 | a list is in the result exactly when it is stored with that board id; lists of equal position keep their table order |
| `Repo.ListByListExact` | src/lib/repo.ts:88-92 | a card is in the result exactly when it is stored with that list id; cards of equal position keep their table order |
| `Repo.DemoLists` | src/lib/repo.ts:25-48 | three lists on the demo board keyed 1024, 2048, 3072 |
| `Repo.DemoCards` | src/lib/repo.ts:51-64 | three cards on the demo board without description: two in Todo keyed 1024 and 2048, one in Doing keyed 1024 |
| `Repo.SeedListsStored` | src/lib/repo.ts:25-49 | seeding an empty table with distinct ids stores the three demo lists in order |
| `Repo.SeedCardsStored` | src/lib/repo.ts:51-64 | seeding an empty table with distinct ids stores the three demo cards in order |
| `Repo.SeedListsOrdered` | src/lib/repo.ts:25-48 | the seeded lists are keyed 1024, 2048, 3072, strictly increasing |
| `Repo.SeedListsQuery` | src/lib/repo.ts:80-84 | querying the seeded board returns Todo, Doing, Done in that order |
| `Repo.SeedCardsOrdered` | src/lib/repo.ts:60-64 | Todo's cards come back keyed 1024 and 2048, Doing's card keyed 1024, each list ordered |

## Left out

- `loadBoard` and `refreshBoard` (src/stores/kanban.ts:61-81) are asynchronous loaders over the repository; their state write is the same merge as `Store.InitBoardData`.
- The store's `loading` flag and the subscription machinery around `set`/`get` are not modelled; each `set` is one assignment of whole fields.
- `boardRepo.listBoards` sorts with the locale-dependent `localeCompare` and is not part of this model.
- The Prisma server actions (`createBoard`, `getBoards`, `getBoard`, the database loop of `reorderBoard`) call a database; only their pure allocator `mid` is modelled.
- The UI components, the validation stubs and the action bridge are outside the ordering core.
- Ids from `crypto.randomUUID` and times from `Date` are parameters. `seedOnce` reads the clock once per field; the model uses one time for the whole seed.
- Positions are unbounded integers; JavaScript's floating-point numbers (precision loss above 2^53, fractional keys) are not modelled.
- Object aliasing: the source assigns `moved.position` and `moved.listId` on an object it shares with the previous state. Records here are values, so the old state is never changed through such an alias.
- `Kanban.MoveCardInMap`, `Kanban.MoveCardWithinListDuplicates`: with equal source and target ids the source's list holds the re-keyed `moved` object at both its old and its new index, so both copies carry the new key and a renormalisation may order them differently; the model re-keys only the inserted copy. For example, moving A out of [A 1024, B 2048] with no over card gives [B 1024, A 2048, A 3072] in the code and [A 1024, B 2048, A 3072] here. The code also sets `listId` on the old copy; for a card whose `listId` is already its list, as loaded data always is, that changes nothing, and the length and the apart-from-keys multiset stated by `MoveCardWithinListDuplicates` hold for the code as well. Neither caller passes equal ids (src/components/board/BoardView.tsx:103; src/app/boards/[id]/_components/BoardView.tsx:617-624).
- The key order of the store's `Record` objects is not modelled; they are maps.
- `Kanban.MoveCardToAnotherListEffect`: "the card leaves the source" is stated for its first occurrence; `findIndex` removes only that one, so with duplicate ids other copies remain.
