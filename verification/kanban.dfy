/** The board's data: cards, columns and the board itself, with the whole-board
    views (every card in reading order, every card id) that the invariants use. */
module Kanban {
  import opened Wrappers
  import opened Sequences

  datatype Card = Card(id: string, title: string)

  datatype Column = Column(id: string, title: string, cards: seq<Card>)

  /** Columns left to right; each column's cards top to bottom. */
  type Board = seq<Column>

  /** Every card of the board, column by column. */
  function Cards(b: Board): seq<Card> {
    if |b| == 0 then [] else b[0].cards + Cards(b[1..])
  }

  function Ids(cards: seq<Card>): (ids: seq<string>)
    ensures |ids| == |cards|
    ensures forall i :: 0 <= i < |cards| ==> ids[i] == cards[i].id
  {
    seq(|cards|, i requires 0 <= i < |cards| => cards[i].id)
  }

  /** The multiset of card ids on the board. */
  function IdBag(b: Board): multiset<string> {
    multiset(Ids(Cards(b)))
  }

  /** No card id occurs twice on the board. */
  predicate UniqueCardIds(b: Board) {
    forall id | id in IdBag(b) :: IdBag(b)[id] == 1
  }

  /** No column id occurs twice. */
  predicate DistinctColumnIds(b: Board) {
    forall i, j :: 0 <= i < j < |b| ==> b[i].id != b[j].id
  }

  /** `columns.findIndex((column) => column.id === id)` */
  function FindColumn(b: Board, id: string): Option<nat> {
    FirstIndex(b, (c: Column) => c.id == id)
  }

  /** `cards.findIndex((card) => card.id === id)` */
  function FindCard(cards: seq<Card>, id: string): Option<nat> {
    FirstIndex(cards, (c: Card) => c.id == id)
  }

  lemma {:induction false} CardsAppend(a: Board, b: Board)
    ensures Cards(a + b) == Cards(a) + Cards(b)
  {
    if |a| == 0 {
      assert a + b == b;
    } else {
      assert (a + b)[1..] == a[1..] + b;
      CardsAppend(a[1..], b);
    }
  }

  /** Flattening around one column: the cards before it, its own, the cards after. */
  lemma CardsAround(b: Board, i: nat)
    requires i < |b|
    ensures Cards(b) == Cards(b[..i]) + b[i].cards + Cards(b[i + 1..])
  {
    var tail := b[i..];
    assert b == b[..i] + tail;
    CardsAppend(b[..i], tail);
    assert tail[1..] == b[i + 1..];
  }

  lemma IdsAppend(a: seq<Card>, b: seq<Card>)
    ensures Ids(a + b) == Ids(a) + Ids(b)
  {
  }

  lemma IdsCons(c: Card, cards: seq<Card>)
    ensures multiset(Ids([c] + cards)) == multiset{c.id} + multiset(Ids(cards))
  {
    IdsAppend([c], cards);
    assert Ids([c]) == [c.id];
  }

  /** Replacing one column changes the board's card multiset by exactly the
      difference between the old and the new column. */
  lemma {:induction false} ReplaceColumnCards(b: Board, i: nat, c: Column)
    requires i < |b|
    ensures multiset(Cards(b[i := c])) + multiset(b[i].cards) == multiset(Cards(b)) + multiset(c.cards)
    ensures IdBag(b[i := c]) + multiset(Ids(b[i].cards)) == IdBag(b) + multiset(Ids(c.cards))
  {
    var b' := b[i := c];
    CardsAround(b, i);
    CardsAround(b', i);
    assert b'[..i] == b[..i];
    assert b'[i + 1..] == b[i + 1..];
    IdsAppend(Cards(b[..i]) + b[i].cards, Cards(b[i + 1..]));
    IdsAppend(Cards(b[..i]), b[i].cards);
    IdsAppend(Cards(b[..i]) + c.cards, Cards(b[i + 1..]));
    IdsAppend(Cards(b[..i]), c.cards);
  }

  /** Two card lists with the same cards have the same ids. */
  lemma {:induction false} IdsRespectPermutation(a: seq<Card>, b: seq<Card>)
    requires multiset(a) == multiset(b)
    ensures multiset(Ids(a)) == multiset(Ids(b))
    decreases |a|
  {
    if |a| == 0 {
      assert |b| == |multiset(b)| == 0;
    } else {
      var x := a[0];
      assert x in multiset(b);
      var k :| 0 <= k < |b| && b[k] == x;
      var rest := RemoveAt(b, k);
      RestAfterFirst(a, b, k);
      IdsRespectPermutation(a[1..], rest);
      var idsRest := RemoveAt(Ids(b), k);
      assert Ids(rest) == idsRest;
      assert Ids(a) == [x.id] + Ids(a[1..]);
    }
  }

  /** If `a` and `b` hold the same cards, dropping `a`'s first card and one equal
      card of `b` leaves two lists holding the same cards. */
  lemma RestAfterFirst(a: seq<Card>, b: seq<Card>, k: nat)
    requires multiset(a) == multiset(b)
    requires |a| > 0 && k < |b| && b[k] == a[0]
    ensures multiset(a[1..]) == multiset(RemoveAt(b, k))
  {
    var x := a[0];
    assert a == [x] + a[1..];
    assert multiset(a[1..]) == multiset(a) - multiset{x};
    assert multiset(RemoveAt(b, k)) == multiset(b) - multiset{x};
  }

  /** The board the application starts with. */
  const InitialColumns: Board := [
    Column("todo", "Todo", [
      Card("card-1", "Define board requirements"),
      Card("card-2", "Create reusable components")
    ]),
    Column("in-progress", "In Progress", [
      Card("card-3", "Build drag-and-drop interactions")
    ]),
    Column("done", "Done", [
      Card("card-4", "Set up React + TypeScript app")
    ])
  ]

  /** The seed board satisfies both id invariants. */
  lemma InitialColumnsWellFormed()
    ensures UniqueCardIds(InitialColumns)
    ensures DistinctColumnIds(InitialColumns)
    ensures |Cards(InitialColumns)| == 4
  {
    var b := InitialColumns;
    assert Cards(b[3..]) == [];
    assert Cards(b[2..]) == b[2].cards;
    assert Cards(b[1..]) == b[1].cards + b[2].cards;
    var ids := Ids(Cards(b));
    assert ids == ["card-1", "card-2", "card-3", "card-4"];
  }
}
