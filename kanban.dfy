/**
 * The kanban boards store: boards hold columns, columns hold cards. Cards
 * are added to the end of a column, moved from one column to the end of
 * another, and deleted; each operation rebuilds the boards with nested
 * maps and filters and leaves every board and column in place.
 */
module Kanban {
  import opened Common

  datatype Card = Card(id: string, title: string, description: string)
  datatype Column = Column(id: string, title: string, cards: seq<Card>)
  datatype Board = Board(id: string, title: string, columns: seq<Column>)

  /** The ids of the boards with the ids of their columns: what no operation changes. */
  function Shape(boards: seq<Board>): seq<(string, seq<string>)> {
    seq(|boards|, i requires 0 <= i < |boards| =>
      (boards[i].id, seq(|boards[i].columns|, j requires 0 <= j < |boards[i].columns| => boards[i].columns[j].id)))
  }

  /** `board.id === boardId ? {...board, columns: board.columns.map(update)} : board`, over all boards. */
  function MapColumns(boards: seq<Board>, boardId: string, update: Column -> Column): (r: seq<Board>)
    ensures |r| == |boards|
    ensures forall i | 0 <= i < |boards| :: r[i].id == boards[i].id && r[i].title == boards[i].title
  {
    seq(|boards|, i requires 0 <= i < |boards| =>
      if boards[i].id == boardId
      then boards[i].(columns := seq(|boards[i].columns|, j requires 0 <= j < |boards[i].columns| => update(boards[i].columns[j])))
      else boards[i])
  }

  /** An update that keeps each column's id keeps the shape of the boards. */
  lemma MapColumnsKeepsShape(boards: seq<Board>, boardId: string, update: Column -> Column)
    requires forall c: Column :: update(c).id == c.id
    ensures Shape(MapColumns(boards, boardId, update)) == Shape(boards)
  {
    var r := MapColumns(boards, boardId, update);
    forall i | 0 <= i < |boards| ensures Shape(r)[i] == Shape(boards)[i] {
      assert |r[i].columns| == |boards[i].columns|;
      assert forall j | 0 <= j < |boards[i].columns| :: r[i].columns[j].id == boards[i].columns[j].id;
      assert Shape(r)[i].1 == Shape(boards)[i].1;
    }
  }

  predicate HasId(c: Card, id: string) {
    c.id == id
  }

  /**
   * `addCard` with the fresh id `cardId`: the card goes to the end of each
   * matching column. No board or column moves or changes id.
   */
  function AddCard(boards: seq<Board>, boardId: string, columnId: string, card: Card, cardId: string): (r: seq<Board>)
    ensures Shape(r) == Shape(boards)
  {
    var update := (col: Column) => if col.id == columnId then col.(cards := col.cards + [card.(id := cardId)]) else col;
    MapColumnsKeepsShape(boards, boardId, update);
    MapColumns(boards, boardId, update)
  }

  /**
   * `deleteCard`: every card with the id leaves each matching column. No
   * board or column moves or changes id.
   */
  function DeleteCard(boards: seq<Board>, boardId: string, columnId: string, cardId: string): (r: seq<Board>)
    ensures Shape(r) == Shape(boards)
  {
    var update := (col: Column) => if col.id == columnId then col.(cards := Filter(col.cards, (c: Card) => !HasId(c, cardId))) else col;
    MapColumnsKeepsShape(boards, boardId, update);
    MapColumns(boards, boardId, update)
  }

  /**
   * The column update of `moveCard`. The source test comes first, so a
   * same-column move only removes: a source column keeps no card with the
   * moved card's id, a target column that is not the source gains the card
   * at its end, and any other column is left alone.
   */
  function MoveStep(col: Column, fromColumnId: string, toColumnId: string, card: Card): (r: Column)
    ensures r.id == col.id && r.title == col.title
    ensures col.id == fromColumnId ==> forall c | c in r.cards :: c.id != card.id
    ensures col.id != fromColumnId && col.id == toColumnId ==>
      |r.cards| == |col.cards| + 1 && r.cards[..|col.cards|] == col.cards && r.cards[|col.cards|] == card
    ensures col.id != fromColumnId && col.id != toColumnId ==> r == col
  {
    if col.id == fromColumnId then col.(cards := Filter(col.cards, (c: Card) => !HasId(c, card.id)))
    else if col.id == toColumnId then col.(cards := col.cards + [card])
    else col
  }

  /**
   * `moveCard`: find the board, both columns and the card in the source
   * column; when any is missing the boards are returned as they are. No
   * board or column moves or changes id.
   */
  function MoveCard(boards: seq<Board>, boardId: string, fromColumnId: string, toColumnId: string, cardId: string): (r: seq<Board>)
    ensures Shape(r) == Shape(boards)
  {
    match Find(boards, (b: Board) => b.id == boardId)
    case None => boards
    case Some(board) =>
      var from := Find(board.columns, (c: Column) => c.id == fromColumnId);
      var to := Find(board.columns, (c: Column) => c.id == toColumnId);
      var card := if from.Some? then Find(from.value.cards, (c: Card) => HasId(c, cardId)) else None;
      if card.None? || from.None? || to.None? then boards
      else
        var step := (col: Column) => MoveStep(col, fromColumnId, toColumnId, card.value);
        MapColumnsKeepsShape(boards, boardId, step);
        MapColumns(boards, boardId, step)
  }

  // ---------------------------------------------------------------------
  // Properties.

  /**
   * `addCard` appends the card, under its fresh id, to the end of every
   * matching column of every matching board, and changes nothing else.
   */
  lemma AddCardAppends(boards: seq<Board>, boardId: string, columnId: string, card: Card, cardId: string)
    ensures var r := AddCard(boards, boardId, columnId, card, cardId);
      && |r| == |boards|
      && forall i | 0 <= i < |boards| ::
           && (boards[i].id != boardId ==> r[i] == boards[i])
           && (boards[i].id == boardId ==>
                 && |r[i].columns| == |boards[i].columns|
                 && forall j | 0 <= j < |boards[i].columns| ::
                      var c := boards[i].columns[j];
                      r[i].columns[j] == if c.id == columnId then c.(cards := c.cards + [card.(id := cardId)]) else c)
  {
  }

  /** With an unknown board or column id, `addCard` changes nothing. */
  lemma AddCardUnknown(boards: seq<Board>, boardId: string, columnId: string, card: Card, cardId: string)
    requires forall i | 0 <= i < |boards| :: boards[i].id != boardId
               || forall j | 0 <= j < |boards[i].columns| :: boards[i].columns[j].id != columnId
    ensures AddCard(boards, boardId, columnId, card, cardId) == boards
  {
    var r := AddCard(boards, boardId, columnId, card, cardId);
    forall i | 0 <= i < |boards| ensures r[i] == boards[i] {
      if boards[i].id == boardId {
        assert r[i].columns == boards[i].columns;
      }
    }
  }

  /**
   * `deleteCard` removes the card from the matching columns only, keeping
   * the remaining cards in order.
   */
  lemma DeleteCardRemoves(boards: seq<Board>, boardId: string, columnId: string, cardId: string)
    ensures var r := DeleteCard(boards, boardId, columnId, cardId);
      forall i | 0 <= i < |boards| ::
        if boards[i].id != boardId then r[i] == boards[i]
        else forall j | 0 <= j < |boards[i].columns| ::
               var c := boards[i].columns[j];
               && r[i].columns[j].id == c.id
               && (c.id == columnId ==> r[i].columns[j].cards == Filter(c.cards, (x: Card) => !HasId(x, cardId))
                                        && forall x | x in r[i].columns[j].cards :: x.id != cardId)
               && (c.id != columnId ==> r[i].columns[j] == c)
  {
  }

  /** `moveCard` returns the boards unchanged when the board, a column or the card is missing. */
  lemma MoveCardMissing(boards: seq<Board>, boardId: string, fromId: string, toId: string, cardId: string)
    requires || (forall i | 0 <= i < |boards| :: boards[i].id != boardId)
             || (forall i | 0 <= i < |boards| && boards[i].id == boardId ::
                   forall j | 0 <= j < |boards[i].columns| :: boards[i].columns[j].id != toId)
             || (forall i | 0 <= i < |boards| && boards[i].id == boardId ::
                   forall j | 0 <= j < |boards[i].columns| && boards[i].columns[j].id == fromId ::
                     forall k | 0 <= k < |boards[i].columns[j].cards| :: boards[i].columns[j].cards[k].id != cardId)
    ensures MoveCard(boards, boardId, fromId, toId, cardId) == boards
  {
    match Find(boards, (b: Board) => b.id == boardId)
    case None =>
    case Some(board) =>
      assert board in boards;
      var from := Find(board.columns, (c: Column) => c.id == fromId);
      if from.Some? {
        assert from.value in board.columns;
      }
  }

  /**
   * `moveCard` with everything present: `bi` is the first board with the id,
   * `f` its first column with the source id, `ci` the first card with the
   * card id there, and the target id names a column of that board. Then, in
   * every board with the id, each source column loses every card with that
   * id, keeping the others in order; each target column gets that card
   * appended; other columns and boards stay as they are.
   */
  lemma MoveCardMoves(boards: seq<Board>, boardId: string, fromId: string, toId: string, cardId: string,
                      bi: int, f: int, ci: int)
    requires 0 <= bi < |boards| && boards[bi].id == boardId
    requires forall i | 0 <= i < bi :: boards[i].id != boardId
    requires 0 <= f < |boards[bi].columns| && boards[bi].columns[f].id == fromId
    requires forall j | 0 <= j < f :: boards[bi].columns[j].id != fromId
    requires exists j | 0 <= j < |boards[bi].columns| :: boards[bi].columns[j].id == toId
    requires 0 <= ci < |boards[bi].columns[f].cards| && boards[bi].columns[f].cards[ci].id == cardId
    requires forall k | 0 <= k < ci :: boards[bi].columns[f].cards[k].id != cardId
    ensures var r := MoveCard(boards, boardId, fromId, toId, cardId);
      var card := boards[bi].columns[f].cards[ci];
      && |r| == |boards|
      && forall i | 0 <= i < |boards| ::
           && (boards[i].id != boardId ==> r[i] == boards[i])
           && (boards[i].id == boardId ==>
                 && r[i].(columns := boards[i].columns) == boards[i]
                 && |r[i].columns| == |boards[i].columns|
                 && forall j | 0 <= j < |boards[i].columns| ::
                      var col := boards[i].columns[j];
                      && r[i].columns[j].id == col.id
                      && (col.id == fromId ==>
                            && r[i].columns[j].cards == Filter(col.cards, (x: Card) => !HasId(x, cardId))
                            && forall x | x in r[i].columns[j].cards :: x.id != cardId)
                      && (col.id != fromId && col.id == toId ==> r[i].columns[j].cards == col.cards + [card])
                      && (col.id != fromId && col.id != toId ==> r[i].columns[j] == col))
  {
    var card := boards[bi].columns[f].cards[ci];
    MoveCardFinds(boards, boardId, fromId, toId, cardId, bi, f, ci);
    MoveStepsApplied(boards, boardId, fromId, toId, card);
  }

  /** Helper for `MoveCardMoves`: the lookups find the first board, column and card. */
  lemma MoveCardFinds(boards: seq<Board>, boardId: string, fromId: string, toId: string, cardId: string,
                      bi: int, f: int, ci: int)
    requires 0 <= bi < |boards| && boards[bi].id == boardId
    requires forall i | 0 <= i < bi :: boards[i].id != boardId
    requires 0 <= f < |boards[bi].columns| && boards[bi].columns[f].id == fromId
    requires forall j | 0 <= j < f :: boards[bi].columns[j].id != fromId
    requires exists j | 0 <= j < |boards[bi].columns| :: boards[bi].columns[j].id == toId
    requires 0 <= ci < |boards[bi].columns[f].cards| && boards[bi].columns[f].cards[ci].id == cardId
    requires forall k | 0 <= k < ci :: boards[bi].columns[f].cards[k].id != cardId
    ensures var card := boards[bi].columns[f].cards[ci];
      MoveCard(boards, boardId, fromId, toId, cardId)
        == MapColumns(boards, boardId, (col: Column) => MoveStep(col, fromId, toId, card))
  {
    var cols := boards[bi].columns;
    FindFirst(boards, (b: Board) => b.id == boardId, bi);
    FindFirst(cols, (c: Column) => c.id == fromId, f);
    FindFirst(cols[f].cards, (c: Card) => HasId(c, cardId), ci);
    assert Find(cols, (c: Column) => c.id == toId).Some?;
  }

  /** Helper for `MoveCardMoves`: what the column update does to each board. */
  lemma MoveStepsApplied(boards: seq<Board>, boardId: string, fromId: string, toId: string, card: Card)
    ensures var r := MapColumns(boards, boardId, (col: Column) => MoveStep(col, fromId, toId, card));
      && |r| == |boards|
      && forall i | 0 <= i < |boards| ::
           && (boards[i].id != boardId ==> r[i] == boards[i])
           && (boards[i].id == boardId ==>
                 && r[i].(columns := boards[i].columns) == boards[i]
                 && |r[i].columns| == |boards[i].columns|
                 && forall j | 0 <= j < |boards[i].columns| ::
                      var col := boards[i].columns[j];
                      && r[i].columns[j].id == col.id
                      && (col.id == fromId ==>
                            && r[i].columns[j].cards == Filter(col.cards, (x: Card) => !HasId(x, card.id))
                            && forall x | x in r[i].columns[j].cards :: x.id != card.id)
                      && (col.id != fromId && col.id == toId ==> r[i].columns[j].cards == col.cards + [card])
                      && (col.id != fromId && col.id != toId ==> r[i].columns[j] == col))
  {
  }

  /** A move within one column only removes the card: the source test wins. */
  lemma MoveWithinColumnRemoves(col: Column, card: Card)
    ensures MoveStep(col, col.id, col.id, card) == col.(cards := Filter(col.cards, (c: Card) => !HasId(c, card.id)))
    ensures card !in MoveStep(col, col.id, col.id, card).cards
  {
  }

  /** Total number of cards in a list of columns. */
  function CardCount(columns: seq<Column>): nat {
    if columns == [] then 0 else |columns[0].cards| + CardCount(columns[1..])
  }

  /**
   * Between two distinct columns of a board whose column ids are distinct,
   * and with the card's id once in the source column, a move keeps the
   * number of cards: one leaves the source, one arrives at the target.
   */
  lemma {:induction false} MoveKeepsCount(columns: seq<Column>, fromId: string, toId: string, card: Card)
    requires fromId != toId
    requires Distinct(seq(|columns|, j requires 0 <= j < |columns| => columns[j].id))
    requires exists j | 0 <= j < |columns| :: columns[j].id == fromId
    requires exists j | 0 <= j < |columns| :: columns[j].id == toId
    requires forall j | 0 <= j < |columns| && columns[j].id == fromId ::
               |Filter(columns[j].cards, (c: Card) => !HasId(c, card.id))| + 1 == |columns[j].cards|
    ensures CardCount(seq(|columns|, j requires 0 <= j < |columns| => MoveStep(columns[j], fromId, toId, card)))
            == CardCount(columns)
  {
    var moved := seq(|columns|, j requires 0 <= j < |columns| => MoveStep(columns[j], fromId, toId, card));
    var f :| 0 <= f < |columns| && columns[f].id == fromId;
    var t :| 0 <= t < |columns| && columns[t].id == toId;
    var ids := seq(|columns|, j requires 0 <= j < |columns| => columns[j].id);
    forall j | 0 <= j < |columns| && j != f && j != t ensures moved[j] == columns[j] {
      assert ids[j] != ids[f] && ids[j] != ids[t];
    }
    CountAt(columns, moved, f, t);
  }

  /** Helper for `MoveKeepsCount`: columns other than `f` and `t` are unchanged. */
  lemma {:induction false} CountAt(columns: seq<Column>, moved: seq<Column>, f: int, t: int)
    requires |moved| == |columns| && 0 <= f < |columns| && 0 <= t < |columns| && f != t
    requires |moved[f].cards| + 1 == |columns[f].cards| && |moved[t].cards| == |columns[t].cards| + 1
    requires forall j | 0 <= j < |columns| && j != f && j != t :: |moved[j].cards| == |columns[j].cards|
    ensures CardCount(moved) == CardCount(columns)
    decreases |columns|
  {
    if f == 0 || t == 0 {
      var other := if f == 0 then t else f;
      SameCountExcept(columns[1..], moved[1..], other - 1, if f == 0 then 1 else -1);
    } else {
      CountAt(columns[1..], moved[1..], f - 1, t - 1);
    }
  }

  /** Helper: the counts differ by `delta` at one index and agree elsewhere. */
  lemma {:induction false} SameCountExcept(columns: seq<Column>, moved: seq<Column>, k: int, delta: int)
    requires |moved| == |columns| && 0 <= k < |columns|
    requires |moved[k].cards| == |columns[k].cards| + delta
    requires forall j | 0 <= j < |columns| && j != k :: |moved[j].cards| == |columns[j].cards|
    ensures CardCount(moved) == CardCount(columns) + delta
    decreases |columns|
  {
    if k > 0 {
      SameCountExcept(columns[1..], moved[1..], k - 1, delta);
    } else {
      SameCount(columns[1..], moved[1..]);
    }
  }

  lemma {:induction false} SameCount(columns: seq<Column>, moved: seq<Column>)
    requires |moved| == |columns|
    requires forall j | 0 <= j < |columns| :: |moved[j].cards| == |columns[j].cards|
    ensures CardCount(moved) == CardCount(columns)
    decreases |columns|
  {
    if columns != [] {
      SameCount(columns[1..], moved[1..]);
    }
  }
}
