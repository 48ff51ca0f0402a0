/**
 * The records of the board: boards, their lists and the lists' cards. Sort
 * keys ("positions") are unbounded integers; ids and ISO timestamps are
 * strings.
 */
module Domain {
  import opened JsArray

  type ID = string

  datatype Board = Board(id: ID, title: string, createdAt: string, updatedAt: string)

  datatype List = List(id: ID, boardId: ID, title: string, position: int,
                       createdAt: string, updatedAt: string)

  datatype Card = Card(id: ID, boardId: ID, listId: ID, title: string,
                       description: Option<string>, position: int,
                       createdAt: string, updatedAt: string)

  // Field accessors, passed to the generic sequence operations.

  function BoardId(b: Board): ID { b.id }

  function ListId(l: List): ID { l.id }
  function ListBoardId(l: List): ID { l.boardId }
  function ListPosition(l: List): int { l.position }
  function ListWithPosition(l: List, p: int): List { l.(position := p) }

  function CardId(c: Card): ID { c.id }
  function CardListId(c: Card): ID { c.listId }
  function CardPosition(c: Card): int { c.position }
  function CardWithPosition(c: Card, p: int): Card { c.(position := p) }
}
