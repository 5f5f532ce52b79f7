/** What the board operations promise together: moves conserve the cards,
    same-column and cross-column moves place the card as described, every guard
    of `handleDragEnd` is a no-op, and the id invariants survive every command. */
module BoardProperties {
  import opened Wrappers
  import opened Sequences
  import opened Kanban
  import opened KanbanBoard

  /** Same columns in the same order, with the same ids and titles. */
  predicate SameColumns(a: Board, b: Board) {
    |a| == |b| && forall i :: 0 <= i < |a| ==> a[i].id == b[i].id && a[i].title == b[i].title
  }

  lemma MultisetCancel<T>(a: multiset<T>, b: multiset<T>, m: multiset<T>)
    requires a + m == b + m
    ensures a == b
  {
    assert forall x :: a[x] == b[x] by {
      forall x ensures a[x] == b[x] {
        assert (a + m)[x] == (b + m)[x];
      }
    }
  }

  lemma WithinColumnConserves(b: Board, si: nat, ki: nat, targetCardId: Option<string>)
    requires si < |b| && ki < |b[si].cards|
    ensures multiset(Cards(MoveWithinColumn(b, si, ki, targetCardId))) == multiset(Cards(b))
  {
    var r := MoveWithinColumn(b, si, ki, targetCardId);
    assert r == b[si := r[si]];
    ReplaceColumnCards(b, si, r[si]);
    MultisetCancel(multiset(Cards(r)), multiset(Cards(b)), multiset(b[si].cards));
  }

  /** Taking the card at `ki` out of column `si` and splicing it into column
      `di` at any index `k` keeps the board's cards. */
  lemma SpliceAcrossConserves(b: Board, si: nat, ki: nat, di: nat, k: nat)
    requires si < |b| && di < |b| && si != di && ki < |b[si].cards| && k <= |b[di].cards|
    ensures
      var source := b[si].(cards := RemoveAt(b[si].cards, ki));
      var target := b[di].(cards := InsertAt(b[di].cards, k, b[si].cards[ki]));
      multiset(Cards(b[si := source][di := target])) == multiset(Cards(b))
  {
    var dragged := b[si].cards[ki];
    var src := b[si].cards;
    var dest := b[di].cards;
    var source := b[si].(cards := RemoveAt(src, ki));
    var target := b[di].(cards := InsertAt(dest, k, dragged));
    var b1 := b[si := source];
    var r := b1[di := target];
    ReplaceColumnCards(b, si, source);
    ReplaceColumnCards(b1, di, target);
    var before := multiset(Cards(b));
    var middle := multiset(Cards(b1));
    var after := multiset(Cards(r));
    assert middle + multiset(src) == before + multiset(source.cards);
    assert after + multiset(dest) == middle + multiset(target.cards);
    forall x ensures after[x] == before[x] {
      assert (middle + multiset(src))[x] == (before + multiset(source.cards))[x];
      assert (after + multiset(dest))[x] == (middle + multiset(target.cards))[x];
      assert (multiset(source.cards) + multiset{dragged})[x] == multiset(src)[x];
      assert multiset(target.cards)[x] == (multiset(dest) + multiset{dragged})[x];
    }
    assert after == before;
  }

  lemma AcrossColumnsConserves(b: Board, si: nat, ki: nat, di: nat, targetCardId: Option<string>)
    requires si < |b| && di < |b| && si != di && ki < |b[si].cards|
    ensures multiset(Cards(MoveAcrossColumns(b, si, ki, di, targetCardId))) == multiset(Cards(b))
  {
    SpliceAcrossConserves(b, si, ki, di, InsertIndex(b[di].cards, targetCardId));
  }

  /** Conservation: a committed move neither loses nor duplicates a card, so the
      card total shown in the header is unchanged. */
  lemma MoveCardConservesCards(b: Board, mv: Move)
    ensures multiset(Cards(MoveCard(b, mv))) == multiset(Cards(b))
    ensures TotalCards(MoveCard(b, mv)) == TotalCards(b)
  {
    var r := MoveCard(b, mv);
    var source := FindColumn(b, mv.fromColumnId);
    var destination := FindColumn(b, mv.targetColumnId);
    if source.Some? && destination.Some? {
      var si := source.value;
      var di := destination.value;
      var found := FindCard(b[si].cards, mv.cardId);
      if found.Some? {
        if si == di {
          WithinColumnConserves(b, si, found.value, mv.targetCardId);
        } else {
          AcrossColumnsConserves(b, si, found.value, di, mv.targetCardId);
        }
      }
    }
    assert |Cards(r)| == |multiset(Cards(r))|;
  }

  /** Two first-index lookups agree exactly when they look for the same id. */
  lemma SameColumnIffSameId(b: Board, a: string, c: string, i: nat, j: nat)
    requires FindColumn(b, a) == Some(i) && FindColumn(b, c) == Some(j)
    ensures i == j <==> a == c
  {
  }

  /** Same column, target card present and not the dragged card's slot: the
      column becomes `arrayMove(cards, from, to)`, a permutation with the
      dragged card at the target's old index; moving down leaves the target just
      above it, moving up just below it; no other column changes. */
  lemma SameColumnMove(b: Board, mv: Move, si: nat, ki: nat, ti: nat)
    requires mv.targetColumnId == mv.fromColumnId
    requires FindColumn(b, mv.fromColumnId) == Some(si)
    requires FindCard(b[si].cards, mv.cardId) == Some(ki)
    requires Truthy(mv.targetCardId) && FindCard(b[si].cards, mv.targetCardId.value) == Some(ti)
    requires ti != ki
    ensures MoveCard(b, mv) == b[si := b[si].(cards := ArrayMove(b[si].cards, ki, ti))]
    ensures multiset(MoveCard(b, mv)[si].cards) == multiset(b[si].cards)
    ensures MoveCard(b, mv)[si].cards[ti] == b[si].cards[ki]
    ensures ki < ti ==> MoveCard(b, mv)[si].cards[ti - 1].id == mv.targetCardId.value
    ensures ti < ki ==> MoveCard(b, mv)[si].cards[ti + 1].id == mv.targetCardId.value
  {
    ArrayMoveNeighbours(b[si].cards, ki, ti);
  }

  /** Same column, but no truthy target card, the target missing, or the target
      sitting in the dragged card's slot: nothing moves. */
  lemma SameColumnGuards(b: Board, mv: Move)
    requires mv.targetColumnId == mv.fromColumnId
    ensures !Truthy(mv.targetCardId) ==> MoveCard(b, mv) == b
    ensures forall si :: (FindColumn(b, mv.fromColumnId) == Some(si) && Truthy(mv.targetCardId) &&
              FindCard(b[si].cards, mv.targetCardId.value).None?) ==> MoveCard(b, mv) == b
    ensures mv.targetCardId == Some(mv.cardId) ==> MoveCard(b, mv) == b
  {
  }

  /** Different columns: the dragged card leaves its source slot and lands
      immediately before the target card when that card is named and present in
      the destination, otherwise at the end; no third column changes. */
  lemma CrossColumnMove(b: Board, mv: Move, si: nat, di: nat, ki: nat)
    requires mv.fromColumnId != mv.targetColumnId
    requires FindColumn(b, mv.fromColumnId) == Some(si)
    requires FindColumn(b, mv.targetColumnId) == Some(di)
    requires FindCard(b[si].cards, mv.cardId) == Some(ki)
    ensures si != di
    ensures MoveCard(b, mv)[si].cards == RemoveAt(b[si].cards, ki)
    ensures forall i :: 0 <= i < |b| && i != si && i != di ==> MoveCard(b, mv)[i] == b[i]
    ensures forall p :: Truthy(mv.targetCardId) && FindCard(b[di].cards, mv.targetCardId.value) == Some(p) ==>
              && MoveCard(b, mv)[di].cards == InsertAt(b[di].cards, p, b[si].cards[ki])
              && MoveCard(b, mv)[di].cards[p + 1].id == mv.targetCardId.value
    ensures !Truthy(mv.targetCardId) || FindCard(b[di].cards, mv.targetCardId.value).None? ==>
              MoveCard(b, mv)[di].cards == b[di].cards + [b[si].cards[ki]]
  {
    SameColumnIffSameId(b, mv.fromColumnId, mv.targetColumnId, si, di);
    var dest := b[di].cards;
    var dragged := b[si].cards[ki];
    var r := MoveCard(b, mv);
    assert r == MoveAcrossColumns(b, si, ki, di, mv.targetCardId);
    assert InsertAt(dest, |dest|, dragged) == dest + [dragged];
  }

  /** Both columns of the move exist and the source column holds the dragged card. */
  predicate Locatable(b: Board, mv: Move) {
    && FindColumn(b, mv.fromColumnId).Some?
    && FindColumn(b, mv.targetColumnId).Some?
    && FindCard(b[FindColumn(b, mv.fromColumnId).value].cards, mv.cardId).Some?
  }

  /** `handleDragEnd` always ends the drag, and leaves the board as it was when
      there is no `over`, the active item is not a card, the over data is
      missing or of another kind, the target column id is empty, the card is
      dropped on itself, or the columns or the card cannot be found. */
  lemma DragEndGuards(s: BoardState, active: Option<ActiveData>, over: Option<Over>)
    ensures DragEnd(s, active, over).activeDrag.None?
    ensures over.None? ==> DragEnd(s, active, over).columns == s.columns
    ensures active.None? || active.value.ActiveOther? ==> DragEnd(s, active, over).columns == s.columns
    ensures over.Some? && (over.value.data.None? || over.value.data == Some(OverOther)) ==>
              DragEnd(s, active, over).columns == s.columns
    ensures over == Some(Over(Some(OverColumn("")))) ==> DragEnd(s, active, over).columns == s.columns
    ensures forall c :: over == Some(Over(Some(OverCard(c, "")))) ==> DragEnd(s, active, over).columns == s.columns
    ensures forall col :: active.Some? && active.value.ActiveCard? && over == Some(Over(Some(OverCard(active.value.cardId, col)))) ==>
              DragEnd(s, active, over).columns == s.columns
    ensures forall mv :: (ResolveDrop(active, over) == Some(mv) && !Locatable(s.columns, mv)) ==>
              DragEnd(s, active, over).columns == s.columns
  {
  }

  /** Whatever the drop, the drag end conserves the board's cards. */
  lemma DragEndConservesCards(s: BoardState, active: Option<ActiveData>, over: Option<Over>)
    ensures multiset(Cards(DragEnd(s, active, over).columns)) == multiset(Cards(s.columns))
    ensures TotalCards(DragEnd(s, active, over).columns) == TotalCards(s.columns)
  {
    match ResolveDrop(active, over)
    case None =>
    case Some(mv) => MoveCardConservesCards(s.columns, mv);
  }

  /** Dropping card `x` of column `f` on card `y` of another column `c`: the
      card leaves its slot and lands immediately before `y`; no third column
      changes. */
  lemma DropOnCardAcrossColumns(s: BoardState, x: string, t: string, f: string, y: string, c: string,
                                si: nat, di: nat, ki: nat, p: nat)
    requires c != "" && c != f && y != "" && y != x
    requires FindColumn(s.columns, f) == Some(si) && FindColumn(s.columns, c) == Some(di)
    requires FindCard(s.columns[si].cards, x) == Some(ki)
    requires FindCard(s.columns[di].cards, y) == Some(p)
    ensures
      var r := DragEnd(s, Some(ActiveCard(x, t, f)), Some(Over(Some(OverCard(y, c))))).columns;
      && r[si].cards == RemoveAt(s.columns[si].cards, ki)
      && r[di].cards == InsertAt(s.columns[di].cards, p, s.columns[si].cards[ki])
      && r[di].cards[p + 1].id == y
      && forall i :: 0 <= i < |s.columns| && i != si && i != di ==> r[i] == s.columns[i]
  {
    var mv := Move(x, f, c, Some(y));
    assert ResolveDrop(Some(ActiveCard(x, t, f)), Some(Over(Some(OverCard(y, c))))) == Some(mv);
    CrossColumnMove(s.columns, mv, si, di, ki);
  }

  /** Dropping card `x` of column `f` on another column `c` itself: the card
      leaves its slot and is appended to `c`. */
  lemma DropOnColumnAcrossColumns(s: BoardState, x: string, t: string, f: string, c: string,
                                  si: nat, di: nat, ki: nat)
    requires c != "" && c != f
    requires FindColumn(s.columns, f) == Some(si) && FindColumn(s.columns, c) == Some(di)
    requires FindCard(s.columns[si].cards, x) == Some(ki)
    ensures
      var r := DragEnd(s, Some(ActiveCard(x, t, f)), Some(Over(Some(OverColumn(c))))).columns;
      && r[si].cards == RemoveAt(s.columns[si].cards, ki)
      && r[di].cards == s.columns[di].cards + [s.columns[si].cards[ki]]
      && forall i :: 0 <= i < |s.columns| && i != si && i != di ==> r[i] == s.columns[i]
  {
    var mv := Move(x, f, c, None);
    assert ResolveDrop(Some(ActiveCard(x, t, f)), Some(Over(Some(OverColumn(c))))) == Some(mv);
    CrossColumnMove(s.columns, mv, si, di, ki);
  }

  /** Dropping card `x` on another card `y` of its own column `f`: the column
      becomes `arrayMove(cards, from, to)`, so moving down leaves `y` just above
      the card and moving up just below it. */
  lemma DropOnCardWithinColumn(s: BoardState, x: string, t: string, f: string, y: string,
                               si: nat, ki: nat, ti: nat)
    requires f != "" && y != "" && y != x
    requires FindColumn(s.columns, f) == Some(si)
    requires FindCard(s.columns[si].cards, x) == Some(ki)
    requires FindCard(s.columns[si].cards, y) == Some(ti)
    ensures ki != ti
    ensures
      var r := DragEnd(s, Some(ActiveCard(x, t, f)), Some(Over(Some(OverCard(y, f))))).columns;
      && r == s.columns[si := s.columns[si].(cards := ArrayMove(s.columns[si].cards, ki, ti))]
      && r[si].cards[ti] == s.columns[si].cards[ki]
      && (ki < ti ==> r[si].cards[ti - 1].id == y)
      && (ti < ki ==> r[si].cards[ti + 1].id == y)
  {
    var mv := Move(x, f, f, Some(y));
    assert ResolveDrop(Some(ActiveCard(x, t, f)), Some(Over(Some(OverCard(y, f))))) == Some(mv);
    SameColumnMove(s.columns, mv, si, ki, ti);
  }

  /** Dropping a card on its own column, not on a card, moves nothing. */
  lemma DropOnOwnColumn(s: BoardState, x: string, t: string, f: string)
    ensures DragEnd(s, Some(ActiveCard(x, t, f)), Some(Over(Some(OverColumn(f))))).columns == s.columns
  {
    if f != "" {
      SameColumnGuards(s.columns, Move(x, f, f, None));
    }
  }

  /** Appending a card to one column adds exactly that card and its id to the board. */
  lemma AppendToColumn(b: Board, i: nat, card: Card)
    requires i < |b|
    ensures multiset(Cards(b[i := b[i].(cards := b[i].cards + [card])])) == multiset(Cards(b)) + multiset{card}
    ensures IdBag(b[i := b[i].(cards := b[i].cards + [card])]) == IdBag(b) + multiset{card.id}
  {
    var c := b[i].(cards := b[i].cards + [card]);
    var r := b[i := c];
    ReplaceColumnCards(b, i, c);
    IdsAppend(b[i].cards, [card]);
    assert Ids([card]) == [card.id];
    var cardsBefore := multiset(b[i].cards);
    var idsBefore := multiset(Ids(b[i].cards));
    assert multiset(c.cards) == cardsBefore + multiset{card};
    assert multiset(Ids(c.cards)) == idsBefore + multiset{card.id};
    MultisetCancel(multiset(Cards(r)), multiset(Cards(b)) + multiset{card}, cardsBefore);
    MultisetCancel(IdBag(r), IdBag(b) + multiset{card.id}, idsBefore);
  }

  /** Adding to an existing column adds exactly one card to the total; adding to
      a missing column adds none. */
  lemma AddCardTotal(b: Board, columnId: string, title: string, newId: string)
    requires DistinctColumnIds(b)
    ensures TotalCards(AddCard(b, columnId, title, newId)) == TotalCards(b) + (if FindColumn(b, columnId).Some? then 1 else 0)
    ensures IdBag(AddCard(b, columnId, title, newId)) == IdBag(b) + (if FindColumn(b, columnId).Some? then multiset{newId} else multiset{})
  {
    var r := AddCard(b, columnId, title, newId);
    match FindColumn(b, columnId)
    case None =>
    case Some(i) =>
      UpdateFoundColumn(b, columnId, cards => cards + [Card(newId, title)], i);
      assert r == b[i := b[i].(cards := b[i].cards + [Card(newId, title)])];
      AppendToColumn(b, i, Card(newId, title));
      assert |Cards(r)| == |multiset(Cards(r))|;
      assert |Cards(b)| == |multiset(Cards(b))|;
  }

  /** A fresh id keeps card ids unique. */
  lemma AddCardKeepsIdsUnique(b: Board, columnId: string, title: string, newId: string)
    requires DistinctColumnIds(b) && UniqueCardIds(b)
    requires newId !in IdBag(b)
    ensures UniqueCardIds(AddCard(b, columnId, title, newId))
  {
    AddCardTotal(b, columnId, title, newId);
  }

  /** Deleting takes every copy of `cardId` out of the named column. */
  lemma DeleteCardRemovesAll(b: Board, cardId: string, columnId: string, i: nat)
    requires i < |b| && b[i].id == columnId
    ensures cardId !in Ids(DeleteCard(b, cardId, columnId)[i].cards)
  {
    WithoutCardIds(b[i].cards, cardId);
    assert cardId !in multiset(Ids(DeleteCard(b, cardId, columnId)[i].cards));
  }

  /** Deleting only ever takes ids away. */
  lemma DeleteCardShrinks(b: Board, cardId: string, columnId: string)
    requires DistinctColumnIds(b)
    ensures IdBag(DeleteCard(b, cardId, columnId)) <= IdBag(b)
    ensures TotalCards(DeleteCard(b, cardId, columnId)) <= TotalCards(b)
  {
    var r := DeleteCard(b, cardId, columnId);
    match FindColumn(b, columnId)
    case None => UpdateMissingColumn(b, columnId, cards => WithoutCard(cards, cardId));
    case Some(i) =>
      var c := b[i].(cards := WithoutCard(b[i].cards, cardId));
      UpdateFoundColumn(b, columnId, cards => WithoutCard(cards, cardId), i);
      assert r == b[i := c];
      ReplaceColumnCards(b, i, c);
      WithoutCardIds(b[i].cards, cardId);
      var old_ := multiset(Ids(b[i].cards));
      var new_ := multiset(Ids(c.cards));
      assert IdBag(r) + old_ == IdBag(b) + new_;
      forall x ensures IdBag(r)[x] <= IdBag(b)[x] {
        assert (IdBag(r) + old_)[x] == (IdBag(b) + new_)[x];
      }
      SubBagNoLarger(IdBag(r), IdBag(b));
      assert |IdBag(r)| == |Cards(r)|;
      assert |IdBag(b)| == |Cards(b)|;
  }

  lemma SubBagNoLarger<T>(a: multiset<T>, b: multiset<T>)
    requires forall x :: a[x] <= b[x]
    ensures a <= b && |a| <= |b|
  {
    assert b == a + (b - a);
  }

  lemma DeleteCardKeepsIdsUnique(b: Board, cardId: string, columnId: string)
    requires DistinctColumnIds(b) && UniqueCardIds(b)
    ensures UniqueCardIds(DeleteCard(b, cardId, columnId))
  {
    DeleteCardShrinks(b, cardId, columnId);
  }

  /** Boards whose columns hold the same ids column by column hold the same ids. */
  lemma {:induction false} SameIdsColumnwise(a: Board, b: Board)
    requires |a| == |b|
    requires forall i :: 0 <= i < |a| ==> Ids(a[i].cards) == Ids(b[i].cards)
    ensures Ids(Cards(a)) == Ids(Cards(b))
  {
    if |a| > 0 {
      SameIdsColumnwise(a[1..], b[1..]);
      IdsAppend(a[0].cards, Cards(a[1..]));
      IdsAppend(b[0].cards, Cards(b[1..]));
    }
  }

  /** Renaming keeps every id where it was, so the card total and the id invariant. */
  lemma RenameCardKeepsIds(b: Board, cardId: string, columnId: string, title: string)
    ensures Ids(Cards(RenameCard(b, cardId, columnId, title))) == Ids(Cards(b))
    ensures TotalCards(RenameCard(b, cardId, columnId, title)) == TotalCards(b)
    ensures UniqueCardIds(b) ==> UniqueCardIds(RenameCard(b, cardId, columnId, title))
  {
    var r := RenameCard(b, cardId, columnId, title);
    SameIdsColumnwise(r, b);
    assert IdBag(r) == IdBag(b);
  }

  /** Moves keep the id invariant: the ids are only permuted. */
  lemma MoveCardKeepsIdsUnique(b: Board, mv: Move)
    ensures IdBag(MoveCard(b, mv)) == IdBag(b)
    ensures UniqueCardIds(b) ==> UniqueCardIds(MoveCard(b, mv))
  {
    MoveCardConservesCards(b, mv);
    IdsRespectPermutation(Cards(MoveCard(b, mv)), Cards(b));
  }

  /** The intents the board component handles, one per callback. */
  datatype Command =
    | Add(columnId: string, title: string, newId: string)
    | Delete(cardId: string, columnId: string)
    | Rename(cardId: string, columnId: string, title: string)
    | StartDrag(active: Option<ActiveData>)
    | CancelDrag
    | EndDrag(active: Option<ActiveData>, over: Option<Over>)

  function Step(s: BoardState, cmd: Command): BoardState {
    match cmd
    case Add(columnId, title, newId) => s.(columns := AddCard(s.columns, columnId, title, newId))
    case Delete(cardId, columnId) => s.(columns := DeleteCard(s.columns, cardId, columnId))
    case Rename(cardId, columnId, title) => s.(columns := RenameCard(s.columns, cardId, columnId, title))
    case StartDrag(active) => DragStart(s, active)
    case CancelDrag => DragCancel(s)
    case EndDrag(active, over) => DragEnd(s, active, over)
  }

  /** The board invariants: card ids unique across the board, column ids distinct. */
  predicate Valid(s: BoardState) {
    UniqueCardIds(s.columns) && DistinctColumnIds(s.columns)
  }

  /** An add command whose generated id is not already on the board. */
  predicate FreshId(s: BoardState, cmd: Command) {
    cmd.Add? ==> cmd.newId !in IdBag(s.columns)
  }

  /** Every command keeps the columns themselves, which are fixed at start-up:
      only card contents ever change. */
  lemma StepKeepsColumns(s: BoardState, cmd: Command)
    ensures SameColumns(Step(s, cmd).columns, s.columns)
  {
  }

  /** Columns with the same ids keep distinct ids distinct. */
  lemma SameColumnsKeepDistinctIds(a: Board, b: Board)
    requires SameColumns(a, b) && DistinctColumnIds(b)
    ensures DistinctColumnIds(a)
  {
  }

  /** Every command keeps the board invariants, given a fresh id for each add. */
  lemma StepPreservesValid(s: BoardState, cmd: Command)
    requires Valid(s) && FreshId(s, cmd)
    ensures Valid(Step(s, cmd))
  {
    var r := Step(s, cmd);
    StepKeepsColumns(s, cmd);
    SameColumnsKeepDistinctIds(r.columns, s.columns);
    match cmd
    case Add(columnId, title, newId) =>
      assert r.columns == AddCard(s.columns, columnId, title, newId);
      AddCardKeepsIdsUnique(s.columns, columnId, title, newId);
    case Delete(cardId, columnId) =>
      assert r.columns == DeleteCard(s.columns, cardId, columnId);
      DeleteCardKeepsIdsUnique(s.columns, cardId, columnId);
    case Rename(cardId, columnId, title) =>
      assert r.columns == RenameCard(s.columns, cardId, columnId, title);
      RenameCardKeepsIds(s.columns, cardId, columnId, title);
    case StartDrag(active) =>
      assert r.columns == s.columns;
    case CancelDrag =>
      assert r.columns == s.columns;
    case EndDrag(active, over) =>
      match ResolveDrop(active, over)
      case None =>
        assert r.columns == s.columns;
      case Some(mv) =>
        assert r.columns == MoveCard(s.columns, mv);
        MoveCardKeepsIdsUnique(s.columns, mv);
  }

  /** The start-up state: the seed columns and no drag. */
  lemma InitialStateValid()
    ensures Valid(BoardState(InitialColumns, None))
    ensures TotalCards(InitialColumns) == 4
  {
    InitialColumnsWellFormed();
  }
}
