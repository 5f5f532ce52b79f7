/** The board store of `KanbanBoard`: the pure column updates behind add,
    delete and rename, the card total, and the dnd-kit drag handlers with the
    guarded move they commit. */
module KanbanBoard {
  import opened Wrappers
  import opened Sequences
  import opened Kanban

  /** `activeDragCard`: what the drag overlay shows while a card is dragged. */
  datatype DragCard = DragCard(id: string, title: string, columnId: string)

  /** `active.data.current` of a drag event: missing (None at the use site),
      the data a card registers, or data of any other `type`. */
  datatype ActiveData = ActiveCard(cardId: string, title: string, columnId: string) | ActiveOther

  /** `over.data.current`: the data a card or a column registers, or any other. */
  datatype OverData = OverCard(cardId: string, columnId: string) | OverColumn(columnId: string) | OverOther

  /** dnd-kit's `over`: the droppable under the pointer, whose data may be missing. */
  datatype Over = Over(data: Option<OverData>)

  /** A drop that passed every guard of `handleDragEnd` before `setColumns`. */
  datatype Move = Move(cardId: string, fromColumnId: string, targetColumnId: string, targetCardId: Option<string>)

  /** The component state: `columns` and `activeDragCard`. */
  datatype BoardState = BoardState(columns: Board, activeDrag: Option<DragCard>)

  /** `updateColumnCards`: applies `update` to the cards of every column whose id
      is `columnId`; column ids, titles and order, and every other column, stay. */
  function UpdateColumnCards(b: Board, columnId: string, update: seq<Card> -> seq<Card>): (r: Board)
    ensures |r| == |b|
    ensures forall i :: 0 <= i < |b| ==> r[i].id == b[i].id && r[i].title == b[i].title
    ensures forall i :: 0 <= i < |b| && b[i].id == columnId ==> r[i].cards == update(b[i].cards)
    ensures forall i :: 0 <= i < |b| && b[i].id != columnId ==> r[i] == b[i]
  {
    if |b| == 0 then []
    else
      var head := if b[0].id == columnId then b[0].(cards := update(b[0].cards)) else b[0];
      [head] + UpdateColumnCards(b[1..], columnId, update)
  }

  /** With no column called `columnId`, the update changes nothing. */
  lemma UpdateMissingColumn(b: Board, columnId: string, update: seq<Card> -> seq<Card>)
    requires FindColumn(b, columnId).None?
    ensures UpdateColumnCards(b, columnId, update) == b
  {
  }

  /** With distinct column ids, updating by id is updating the one column found by index. */
  lemma UpdateFoundColumn(b: Board, columnId: string, update: seq<Card> -> seq<Card>, i: nat)
    requires DistinctColumnIds(b)
    requires FindColumn(b, columnId) == Some(i)
    ensures UpdateColumnCards(b, columnId, update) == b[i := b[i].(cards := update(b[i].cards))]
  {
    var r := UpdateColumnCards(b, columnId, update);
    var e := b[i := b[i].(cards := update(b[i].cards))];
    assert forall j :: 0 <= j < |b| ==> r[j] == e[j];
  }

  /** `totalCards`: `columns.reduce((sum, column) => sum + column.cards.length, 0)`,
      the number of cards on the whole board. */
  function TotalCards(b: Board): (n: nat)
    ensures n == |Cards(b)|
  {
    if |b| == 0 then 0
    else
      var last := |b| - 1;
      assert b == b[..last] + [b[last]];
      CardsAppend(b[..last], [b[last]]);
      TotalCards(b[..last]) + |b[last].cards|
  }

  /** `addCard`: the card `{id: newId, title}` joins the end of the column called
      `columnId`. The id generator is outside the model: `newId` is its output. */
  function AddCard(b: Board, columnId: string, title: string, newId: string): (r: Board)
    ensures |r| == |b|
    ensures forall i :: 0 <= i < |b| ==> r[i].id == b[i].id && r[i].title == b[i].title
    ensures forall i :: 0 <= i < |b| && b[i].id == columnId ==> r[i].cards == b[i].cards + [Card(newId, title)]
    ensures forall i :: 0 <= i < |b| && b[i].id != columnId ==> r[i] == b[i]
    ensures FindColumn(b, columnId).None? ==> r == b
  {
    UpdateColumnCards(b, columnId, cards => cards + [Card(newId, title)])
  }

  /** The cards of `cards` whose id is not `cardId`, as `cards.filter` keeps them:
      a card survives exactly when it was there and has another id. */
  function WithoutCard(cards: seq<Card>, cardId: string): (r: seq<Card>)
    ensures |r| <= |cards|
    ensures forall c :: c in r <==> c in cards && c.id != cardId
  {
    if |cards| == 0 then []
    else if cards[0].id == cardId then WithoutCard(cards[1..], cardId)
    else [cards[0]] + WithoutCard(cards[1..], cardId)
  }

  /** Filtering takes every occurrence of `cardId` out of the ids and leaves the
      count of every other id as it was. */
  lemma {:induction false} WithoutCardIds(cards: seq<Card>, cardId: string)
    ensures multiset(Ids(WithoutCard(cards, cardId))) == multiset(Ids(cards))[cardId := 0]
  {
    if |cards| > 0 {
      var c := cards[0];
      var tail := cards[1..];
      var rest := WithoutCard(tail, cardId);
      WithoutCardIds(tail, cardId);
      assert cards == [c] + tail;
      IdsCons(c, tail);
      var m := multiset(Ids(tail));
      var r := multiset(Ids(WithoutCard(cards, cardId)));
      if c.id == cardId {
        assert WithoutCard(cards, cardId) == rest;
      } else {
        assert WithoutCard(cards, cardId) == [c] + rest;
        IdsCons(c, rest);
        assert r == multiset{c.id} + m[cardId := 0];
      }
      forall x ensures r[x] == (multiset{c.id} + m)[cardId := 0][x] {
      }
    }
  }

  /** Filtering a list that holds no card called `cardId` returns it unchanged. */
  lemma {:induction false} WithoutAbsentCard(cards: seq<Card>, cardId: string)
    requires FindCard(cards, cardId).None?
    ensures WithoutCard(cards, cardId) == cards
  {
    if |cards| > 0 {
      assert cards[0].id != cardId;
      WithoutAbsentCard(cards[1..], cardId);
      assert cards == [cards[0]] + cards[1..];
    }
  }

  /** Filtering keeps order: it filters each part of a list on its own. */
  lemma {:induction false} WithoutCardAppend(a: seq<Card>, b: seq<Card>, cardId: string)
    ensures WithoutCard(a + b, cardId) == WithoutCard(a, cardId) + WithoutCard(b, cardId)
  {
    if |a| == 0 {
      assert a + b == b;
    } else {
      assert (a + b)[1..] == a[1..] + b;
      WithoutCardAppend(a[1..], b, cardId);
    }
  }

  /** `deleteCard`: every card with id `cardId` leaves the column called `columnId`. */
  function DeleteCard(b: Board, cardId: string, columnId: string): (r: Board)
    ensures |r| == |b|
    ensures forall i :: 0 <= i < |b| ==> r[i].id == b[i].id && r[i].title == b[i].title
    ensures forall i :: 0 <= i < |b| && b[i].id == columnId ==> r[i].cards == WithoutCard(b[i].cards, cardId)
    ensures forall i :: 0 <= i < |b| && b[i].id != columnId ==> r[i] == b[i]
  {
    UpdateColumnCards(b, columnId, cards => WithoutCard(cards, cardId))
  }

  /** Deleting twice is deleting once. */
  lemma {:induction false} DeleteCardIdempotent(b: Board, cardId: string, columnId: string)
    ensures DeleteCard(DeleteCard(b, cardId, columnId), cardId, columnId) == DeleteCard(b, cardId, columnId)
  {
    var once := DeleteCard(b, cardId, columnId);
    var twice := DeleteCard(once, cardId, columnId);
    forall i | 0 <= i < |b| && b[i].id == columnId
      ensures twice[i].cards == once[i].cards
    {
      var kept := once[i].cards;
      assert forall j :: 0 <= j < |kept| ==> kept[j] in kept;
      WithoutAbsentCard(kept, cardId);
    }
    assert forall i :: 0 <= i < |b| ==> twice[i] == once[i];
  }

  /** `cards.map((card) => (card.id === cardId ? { ...card, title } : card))` */
  function Retitled(cards: seq<Card>, cardId: string, title: string): (r: seq<Card>)
    ensures Ids(r) == Ids(cards)
    ensures forall i :: 0 <= i < |cards| && cards[i].id == cardId ==> r[i].title == title
    ensures forall i :: 0 <= i < |cards| && cards[i].id != cardId ==> r[i] == cards[i]
  {
    seq(|cards|, i requires 0 <= i < |cards| =>
      if cards[i].id == cardId then cards[i].(title := title) else cards[i])
  }

  /** `renameCard`: the matching cards of the column called `columnId` take `title`. */
  function RenameCard(b: Board, cardId: string, columnId: string, title: string): (r: Board)
    ensures |r| == |b|
    ensures forall i :: 0 <= i < |b| ==> r[i].id == b[i].id && r[i].title == b[i].title
    ensures forall i :: 0 <= i < |b| ==> Ids(r[i].cards) == Ids(b[i].cards)
    ensures forall i :: 0 <= i < |b| && b[i].id == columnId ==> r[i].cards == Retitled(b[i].cards, cardId, title)
    ensures forall i :: 0 <= i < |b| && b[i].id != columnId ==> r[i] == b[i]
  {
    UpdateColumnCards(b, columnId, cards => Retitled(cards, cardId, title))
  }

  /** The last rename wins. */
  lemma RenameCardTwice(b: Board, cardId: string, columnId: string, t1: string, t2: string)
    ensures RenameCard(RenameCard(b, cardId, columnId, t1), cardId, columnId, t2) == RenameCard(b, cardId, columnId, t2)
  {
    var one := RenameCard(RenameCard(b, cardId, columnId, t1), cardId, columnId, t2);
    var two := RenameCard(b, cardId, columnId, t2);
    forall i | 0 <= i < |b| ensures one[i] == two[i] {
      if b[i].id == columnId {
        assert one[i].cards == two[i].cards;
      }
    }
  }

  /** The drag that `handleDragEnd` commits, once its guards have passed, if any. */
  function ResolveDrop(active: Option<ActiveData>, over: Option<Over>): (mv: Option<Move>)
    ensures mv.Some? ==> active.Some? && active.value.ActiveCard?
    ensures mv.Some? ==> active.value.cardId == mv.value.cardId && active.value.columnId == mv.value.fromColumnId
    ensures mv.Some? ==> mv.value.targetColumnId != "" && mv.value.targetCardId != Some(mv.value.cardId)
    ensures mv.Some? ==> over.Some? && over.value.data.Some? && !over.value.data.value.OverOther?
    ensures mv.Some? ==> mv.value.targetColumnId == over.value.data.value.columnId
    ensures mv.Some? ==>
              mv.value.targetCardId == (if over.value.data.value.OverCard? then Some(over.value.data.value.cardId) else None)
    ensures active.Some? && active.value.ActiveCard? && over.Some? && over.value.data.Some? &&
            over.value.data.value.OverCard? && over.value.data.value.columnId != "" &&
            over.value.data.value.cardId != active.value.cardId ==>
              mv == Some(Move(active.value.cardId, active.value.columnId,
                              over.value.data.value.columnId, Some(over.value.data.value.cardId)))
    ensures active.Some? && active.value.ActiveCard? && over.Some? && over.value.data.Some? &&
            over.value.data.value.OverColumn? && over.value.data.value.columnId != "" ==>
              mv == Some(Move(active.value.cardId, active.value.columnId, over.value.data.value.columnId, None))
  {
    if over.None? || active.None? || !active.value.ActiveCard? || over.value.data.None? then None
    else
      var card := active.value;
      match over.value.data.value
      case OverCard(targetCardId, targetColumnId) =>
        if targetColumnId == "" || targetCardId == card.cardId then None
        else Some(Move(card.cardId, card.columnId, targetColumnId, Some(targetCardId)))
      case OverColumn(targetColumnId) =>
        if targetColumnId == "" then None
        else Some(Move(card.cardId, card.columnId, targetColumnId, None))
      case OverOther => None
  }

  /** The same-column branch: `arrayMove(cards, draggedCardIndex, targetIndex)`
      replaces the column at index `si`, provided the target card is named,
      present, and not the dragged card's own slot. */
  function MoveWithinColumn(b: Board, si: nat, ki: nat, targetCardId: Option<string>): (r: Board)
    requires si < |b| && ki < |b[si].cards|
    ensures |r| == |b|
    ensures forall i :: 0 <= i < |b| && i != si ==> r[i] == b[i]
    ensures r[si].id == b[si].id && r[si].title == b[si].title
    ensures multiset(r[si].cards) == multiset(b[si].cards)
  {
    var cards := b[si].cards;
    if !Truthy(targetCardId) then b
    else match FindCard(cards, targetCardId.value)
      case None => b
      case Some(ti) =>
        if ti == ki then b
        else
          b[si := b[si].(cards := ArrayMove(cards, ki, ti))]
  }

  /** Where a card dropped into `dest` goes: before the card called `targetCardId`
      if that id is truthy and present, otherwise at the end. */
  function InsertIndex(dest: seq<Card>, targetCardId: Option<string>): (k: nat)
    ensures k <= |dest|
    ensures k < |dest| <==> Truthy(targetCardId) && FindCard(dest, targetCardId.value).Some?
    ensures k < |dest| ==> dest[k].id == targetCardId.value && forall j :: 0 <= j < k ==> dest[j].id != targetCardId.value
  {
    if Truthy(targetCardId) && FindCard(dest, targetCardId.value).Some? then
      FindCard(dest, targetCardId.value).value
    else |dest|
  }

  /** The cross-column branch: the card at `ki` of column `si` leaves it and is
      spliced into column `di` at its insertion index. */
  function MoveAcrossColumns(b: Board, si: nat, ki: nat, di: nat, targetCardId: Option<string>): (r: Board)
    requires si < |b| && di < |b| && si != di && ki < |b[si].cards|
    ensures |r| == |b|
    ensures forall i :: 0 <= i < |b| && i != si && i != di ==> r[i] == b[i]
    ensures r[si].id == b[si].id && r[si].title == b[si].title
    ensures r[di].id == b[di].id && r[di].title == b[di].title
  {
    var dragged := b[si].cards[ki];
    var source := b[si].(cards := RemoveAt(b[si].cards, ki));
    var dest := b[di].cards;
    var target := b[di].(cards := InsertAt(dest, InsertIndex(dest, targetCardId), dragged));
    b[si := source][di := target]
  }

  /** The `setColumns` updater of `handleDragEnd`: locate both columns and the
      dragged card, then move within or across columns. Card ids, column ids and
      titles, and the cards of every column not named by the move, are kept;
      the board holds the same cards before and after. */
  function MoveCard(b: Board, mv: Move): (r: Board)
    ensures |r| == |b|
    ensures forall i :: 0 <= i < |b| ==> r[i].id == b[i].id && r[i].title == b[i].title
    ensures forall i :: 0 <= i < |b| && b[i].id != mv.fromColumnId && b[i].id != mv.targetColumnId ==> r[i] == b[i]
  {
    var source := FindColumn(b, mv.fromColumnId);
    var destination := FindColumn(b, mv.targetColumnId);
    if source.None? || destination.None? then b
    else
      var si := source.value;
      var di := destination.value;
      match FindCard(b[si].cards, mv.cardId)
      case None => b
      case Some(ki) =>
        if si == di then MoveWithinColumn(b, si, ki, mv.targetCardId)
        else MoveAcrossColumns(b, si, ki, di, mv.targetCardId)
  }

  /** `handleDragStart`: remember the dragged card when the active item is a card;
      anything else clears the drag. */
  function DragStart(s: BoardState, active: Option<ActiveData>): (r: BoardState)
    ensures r.columns == s.columns
    ensures r.activeDrag.Some? <==> active.Some? && active.value.ActiveCard?
    ensures r.activeDrag.Some? ==> active.value == ActiveCard(r.activeDrag.value.id, r.activeDrag.value.title, r.activeDrag.value.columnId)
  {
    match active
    case Some(ActiveCard(cardId, title, columnId)) => s.(activeDrag := Some(DragCard(cardId, title, columnId)))
    case _ => s.(activeDrag := None)
  }

  /** `handleDragCancel` */
  function DragCancel(s: BoardState): (r: BoardState)
    ensures r.columns == s.columns && r.activeDrag.None?
  {
    s.(activeDrag := None)
  }

  /** `handleDragEnd`: the drag always ends; the board moves only if the drop
      passes every guard. */
  function DragEnd(s: BoardState, active: Option<ActiveData>, over: Option<Over>): (r: BoardState)
    ensures r.activeDrag.None?
    ensures |r.columns| == |s.columns|
    ensures forall i :: 0 <= i < |s.columns| ==> r.columns[i].id == s.columns[i].id && r.columns[i].title == s.columns[i].title
    ensures ResolveDrop(active, over).None? ==> r.columns == s.columns
    ensures ResolveDrop(active, over).Some? ==> r.columns == MoveCard(s.columns, ResolveDrop(active, over).value)
  {
    match ResolveDrop(active, over)
    case None => BoardState(s.columns, None)
    case Some(mv) => BoardState(MoveCard(s.columns, mv), None)
  }
}
