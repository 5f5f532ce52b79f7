# Kanban board core in Dafny

A model of the drag-and-drop task board's core: the board store of
`KanbanBoard` (pure column updates behind add, delete and rename, the card
total, and the drag handlers with the guarded move they commit), the
native-pointer `Card` (inline title editing and the touch gesture that turns a
press into a drag and a release into a drop), and the add-card form of
`Column`.

The board is `seq<Column>`, a column is `Column(id, title, cards: seq<Card>)`
and a card is `Card(id, title)`, as in `src/types/kanban.ts`. Every handler is
a pure function from the old state to the new one; the gesture and form
handlers also return the callback prop they fire, so "fires exactly once" and
"fires nothing" are statements about an `Option<Callback>`.

Modules, one per concern:

- `Wrappers`: `Option`, plus JavaScript truthiness of an optional string
  (`undefined` and `''` are both falsy).
- `Text`: `String.prototype.trim` over the ECMAScript whitespace and
  line-terminator characters.
- `Sequences`: `findIndex`, the two `splice` forms, and dnd-kit's `arrayMove`.
- `Kanban`: the data types, the flattened list of every card, the id
  invariants and the seed board.
- `KanbanBoard`: the operations of `KanbanBoard.tsx`.
- `BoardProperties`: conservation, placement, guard and invariant lemmas
  about those operations, and a `Step` function over all board commands.
- `CardGesture`: the handlers of `Card.tsx`.
- `AddCardForm`: the handlers of `Column.tsx`.

Inputs the program gets from the browser or libraries are parameters:

- the id `createId` would generate;
- dnd-kit's `active` and `over` data;
- the pointer event;
- the element hit at the release point;
- the pressed key.

Points of the code's behaviour worth knowing:

- A same-column drop uses `arrayMove(cards, from, to)`, where `to` is the
  target's index before the dragged card is removed. So a card dragged down
  onto a target lands just after it, and one dragged up lands just before it
  (`BoardProperties.DropOnCardWithinColumn`). Only the cross-column path always
  inserts before the target (`BoardProperties.DropOnCardAcrossColumns`).
- The same-column branch replaces the column by its index (the first column
  with that id). `updateColumnCards` updates every column with a matching id.
  The two agree while column ids are distinct (`KanbanBoard.UpdateFoundColumn`).
- `renameCard` itself accepts any title. The empty-title guard lives in the
  card's `saveTitle`.
- Nothing keeps the drag state pointing at a card that still exists.
  `handleDragEnd` reads the event's `active` data, not `activeDragCard`.

## Model

| member | source | states |
|---|---|---|
| `Text.Trim` | src/components/Card.tsx:78 | the trimmed text is empty exactly when the input is whitespace only; otherwise it starts and ends with a visible character |
| `Text.TrimEmptyOnlyForWhitespace` | src/components/Card.tsx:78-79 | `!nextTitle` holds exactly for drafts made only of whitespace |
| `Text.TrimIsSlice` | src/components/Column.tsx:57 | the trimmed title is a slice of the draft with only whitespace cut off either side |
| `Text.TrimIdempotent` | src/components/Column.tsx:57 | trimming an already trimmed title changes nothing |
| `Sequences.FirstIndex` | src/components/KanbanBoard.tsx:144-146 | `findIndex` returns the first matching index, or none when no element matches |
| `Sequences.RemoveAt` | src/components/KanbanBoard.tsx:190 | `splice(i, 1)` drops exactly the element at `i` and shifts the rest down, one element fewer in the multiset |
| `Sequences.InsertAt` | src/components/KanbanBoard.tsx:204 | `splice(i, 0, x)` puts `x` at `i` and shifts the rest up, one more element in the multiset |
| `Sequences.ArrayMove` | src/components/KanbanBoard.tsx:179 | `arrayMove` returns a permutation of the list with the moved element at the target index |
| `Sequences.InsertUndoesRemove` | src/components/KanbanBoard.tsx:190 | re-inserting a removed element at its index restores the list |
| `Sequences.ArrayMoveRoundTrip` | src/components/KanbanBoard.tsx:179 | moving from `to` back to `from` undoes a move |
| `Sequences.ArrayMoveNeighbours` | src/components/KanbanBoard.tsx:173-179 | a move down leaves the target's old occupant just above the moved element, a move up just below; a move onto its own slot is the identity |
| `Sequences.ArrayMoveOutsideSpan` | src/components/KanbanBoard.tsx:179 | elements outside the span between the two indices keep their positions |
| `Kanban.InitialColumnsWellFormed` | src/data/mockData.ts:3-22 | the seed board has four cards, no card id twice and no column id twice |
| `KanbanBoard.UpdateColumnCards` | src/components/KanbanBoard.tsx:30-37 | columns keep their number, order, ids and titles; exactly the columns with the given id get the updated cards, every other column is untouched |
| `KanbanBoard.UpdateMissingColumn` | src/components/KanbanBoard.tsx:30-37 | with no column of that id the board is returned unchanged |
| `KanbanBoard.UpdateFoundColumn` | src/components/KanbanBoard.tsx:30-37 | with distinct column ids, updating by id is replacing the single column found by `findIndex` |
| `KanbanBoard.TotalCards` | src/components/KanbanBoard.tsx:59-62 | the header total is the number of cards on the whole board |
| `KanbanBoard.AddCard` | src/components/KanbanBoard.tsx:64-71 | the named column gains exactly `{id, title}` at its end with its other cards in order; other columns are untouched; no such column means no change |
| `KanbanBoard.WithoutCard` | src/components/KanbanBoard.tsx:76 | the filter keeps a card exactly when it was present and has a different id, and the list never grows |
| `KanbanBoard.WithoutCardIds` | src/components/KanbanBoard.tsx:73-78 | the filter removes every occurrence of the deleted id and keeps the count of every other id |
| `KanbanBoard.WithoutAbsentCard` | src/components/KanbanBoard.tsx:76 | filtering out an id that is absent returns the list unchanged |
| `KanbanBoard.WithoutCardAppend` | src/components/KanbanBoard.tsx:76 | the filter works part by part, so the survivors keep their relative order |
| `KanbanBoard.DeleteCard` | src/components/KanbanBoard.tsx:73-79 | only the named column's cards change, to the filtered list; ids, titles and other columns stay |
| `KanbanBoard.DeleteCardIdempotent` | src/components/KanbanBoard.tsx:73-79 | deleting the same card twice equals deleting it once |
| `KanbanBoard.Retitled` | src/components/KanbanBoard.tsx:85 | the card ids and their order are unchanged; matching cards take the new title, others are untouched |
| `KanbanBoard.RenameCard` | src/components/KanbanBoard.tsx:81-90 | only titles of matching cards in the named column change; every column keeps its ids, order and length |
| `KanbanBoard.RenameCardTwice` | src/components/KanbanBoard.tsx:81-90 | of two renames of the same card, the last one wins |
| `KanbanBoard.ResolveDrop` | src/components/KanbanBoard.tsx:113-141 | a move is produced exactly for a card drag over a card or column whose column id is non-empty, and not onto the dragged card itself; it carries the dragged card, its source column, over's column and, for a card, over's card |
| `KanbanBoard.MoveWithinColumn` | src/components/KanbanBoard.tsx:164-181 | the same-column branch changes only the source column, and only into a permutation of its cards |
| `KanbanBoard.InsertIndex` | src/components/KanbanBoard.tsx:192-202 | the index of the first card with the target id when that id is truthy and present, otherwise the destination's length |
| `KanbanBoard.MoveAcrossColumns` | src/components/KanbanBoard.tsx:184-205 | the cross-column branch changes only the cards of the source and destination columns |
| `KanbanBoard.MoveCard` | src/components/KanbanBoard.tsx:143-206 | the committed move keeps every column's id and title, and leaves columns named by neither side untouched |
| `KanbanBoard.DragStart` | src/components/KanbanBoard.tsx:92-105 | the drag state is set exactly when the active item is a card, and then holds that card's id, title and column |
| `KanbanBoard.DragCancel` | src/components/KanbanBoard.tsx:107-109 | cancelling clears the drag state and leaves the board alone |
| `KanbanBoard.DragEnd` | src/components/KanbanBoard.tsx:111-207 | the drag state is always cleared; a drop that passes the guards commits exactly the move toward over's column and card, any other drop leaves the board as it was; columns keep their ids and titles |
| `BoardProperties.WithinColumnConserves` | src/components/KanbanBoard.tsx:177-181 | a same-column reorder keeps the board's cards |
| `BoardProperties.AcrossColumnsConserves` | src/components/KanbanBoard.tsx:184-205 | removing from one column and inserting into another keeps the board's cards |
| `BoardProperties.MoveCardConservesCards` | src/components/KanbanBoard.tsx:143-206 | a move neither loses nor duplicates a card, so `totalCards` is unchanged |
| `BoardProperties.SameColumnIffSameId` | src/components/KanbanBoard.tsx:144-149 | source and destination indices coincide exactly when the two column ids are equal |
| `BoardProperties.SameColumnMove` | src/components/KanbanBoard.tsx:164-181 | the column becomes `arrayMove(cards, from, to)`, a permutation with the dragged card at the target's index; no other column changes |
| `BoardProperties.SameColumnGuards` | src/components/KanbanBoard.tsx:164-176 | in the same column, a falsy target card id, a missing target, or a target in the dragged card's slot leaves the board unchanged |
| `BoardProperties.CrossColumnMove` | src/components/KanbanBoard.tsx:184-205 | the card leaves its source slot and lands immediately before the present target card, otherwise at the end; no third column changes |
| `BoardProperties.DragEndGuards` | src/components/KanbanBoard.tsx:111-162 | the drag always ends; the board is unchanged with no `over`, non-card or missing data, an empty target column id, a self-drop, or a column or card that cannot be found |
| `BoardProperties.DragEndConservesCards` | src/components/KanbanBoard.tsx:111-207 | whatever the drop, the board's cards and their total are conserved |
| `BoardProperties.DropOnCardAcrossColumns` | src/components/KanbanBoard.tsx:184-205 | a card dropped on a card of another column leaves its source slot and lands immediately before that card; no third column changes |
| `BoardProperties.DropOnColumnAcrossColumns` | src/components/KanbanBoard.tsx:184-205 | a card dropped on another column itself leaves its source slot and is appended to that column |
| `BoardProperties.DropOnCardWithinColumn` | src/components/KanbanBoard.tsx:164-181 | a card dropped on another card of its own column is `arrayMove`d to that card's index: dragged down it lands just after the target, dragged up just before it |
| `BoardProperties.DropOnOwnColumn` | src/components/KanbanBoard.tsx:165-167 | a card dropped on its own column rather than on a card moves nothing |
| `BoardProperties.AppendToColumn` | src/components/KanbanBoard.tsx:66-69 | appending to one column adds exactly that card and its id to the board |
| `BoardProperties.AddCardTotal` | src/components/KanbanBoard.tsx:64-71 | adding to an existing column raises the total by one and adds the new id once; a missing column adds nothing |
| `BoardProperties.AddCardKeepsIdsUnique` | src/components/KanbanBoard.tsx:64-71 | with a fresh id, card ids stay unique |
| `BoardProperties.DeleteCardRemovesAll` | src/components/KanbanBoard.tsx:73-79 | after a delete, the id is gone from the named column |
| `BoardProperties.DeleteCardShrinks` | src/components/KanbanBoard.tsx:73-79 | deleting only takes ids away and never raises the total |
| `BoardProperties.DeleteCardKeepsIdsUnique` | src/components/KanbanBoard.tsx:73-79 | deleting keeps card ids unique |
| `BoardProperties.RenameCardKeepsIds` | src/components/KanbanBoard.tsx:81-90 | renaming keeps every id in place, the total, and id uniqueness |
| `BoardProperties.MoveCardKeepsIdsUnique` | src/components/KanbanBoard.tsx:184-205 | a move only permutes the ids, so they stay unique |
| `BoardProperties.StepKeepsColumns` | src/components/KanbanBoard.tsx:39-207 | no command adds, removes, reorders or renames a column |
| `BoardProperties.StepPreservesValid` | src/components/KanbanBoard.tsx:39-207 | every add (with a fresh id), delete, rename, drag start, cancel and drag end keeps card ids unique and column ids distinct |
| `BoardProperties.InitialStateValid` | src/components/KanbanBoard.tsx:40-45 | the start-up state satisfies the invariants and shows four cards |
| `CardGesture.InitialState` | src/components/Card.tsx:33-38 | a card first renders not editing, with its title as the draft, no pointer tracked and no drag, so the ref invariant holds and the gesture is idle |
| `CardGesture.BeginEditing` | src/components/Card.tsx:233 | clicking the title enters editing and changes nothing else |
| `CardGesture.CancelEditing` | src/components/Card.tsx:72-75 | the draft is restored to the card's title and editing ends; nothing else changes |
| `CardGesture.SaveTitle` | src/components/Card.tsx:77-86 | a whitespace-only draft fires no rename and acts as `cancelEditing`; any other draft fires `onRename(card.id, columnId, trimmed)` once; editing ends either way |
| `CardGesture.TitleInputKeyDown` | src/components/Card.tsx:88-98 | Enter saves, Escape cancels, any other key changes nothing |
| `CardGesture.PointerDown` | src/components/Card.tsx:100-111 | non-touch pointers and presses while editing are ignored; otherwise the start point is recorded, the drag flag cleared and the pointer id stored |
| `CardGesture.PointerMove` | src/components/Card.tsx:113-139 | `onDragStart` fires exactly on a tracked touch move, not yet dragging, whose Manhattan distance is strictly above 10; every other move changes nothing |
| `CardGesture.ResolveRelease` | src/components/Card.tsx:162-188 | the drop goes to a hit card carrying both ids, else to a hit column carrying its id, else it is a cancel |
| `CardGesture.PointerUp` | src/components/Card.tsx:141-191 | other pointers change nothing; the tracked release clears the start point and pointer id, fires nothing after a mere press, and fires exactly one resolved callback after a drag, clearing the drag flag |
| `CardGesture.PointerCancel` | src/components/Card.tsx:193-198 | every tracker is reset and `onCancelDrag` fires |
| `CardGesture.PointerHandlersPreserveWellformed` | src/components/Card.tsx:100-198 | the three refs stay consistent: a start point exactly while a pointer is tracked, a drag only during a press |
| `CardGesture.EditHandlersPreserveWellformed` | src/components/Card.tsx:72-98 | title editing never disturbs the pointer refs |
| `CardGesture.PhaseTransitions` | src/components/Card.tsx:113-191 | a move only goes from Pressed to Dragging; a tracked release returns to Idle; a release fires only from Dragging |
| `CardGesture.DragStartFiresAtMostOnce` | src/components/Card.tsx:127-132 | over any run of moves in one press, `onDragStart` fires at most once, never after the drag began, and the drag flag ends up set exactly when it fired |
| `AddCardForm.ResetAddForm` | src/components/Column.tsx:51-54 | the form closes and the draft title becomes empty |
| `AddCardForm.OpenAddForm` | src/components/Column.tsx:66-68 | the form opens and the draft title is kept |
| `AddCardForm.SubmitCard` | src/components/Column.tsx:56-64 | a whitespace-only title fires nothing and leaves the form as it was; any other title fires `onAddCard(column.id, trimmed)` once and resets the form |
| `AddCardForm.CardInputKeyDown` | src/components/Column.tsx:70-80 | Enter submits, Escape resets, any other key changes nothing |
| `AddCardForm.SubmittedTitlesAreVisible` | src/components/Column.tsx:56-62 | every title handed to `onAddCard` is non-empty, already trimmed, and starts and ends with a visible character |
| `AddCardForm.KeysNeverAddBlankCards` | src/components/Column.tsx:70-80 | over any sequence of key presses, no `onAddCard` call carries a whitespace-only title or another column's id |
| `AddCardForm.SubmitThenAdd` | src/components/Column.tsx:62 | a title that is not whitespace-only is submitted, and adding it puts a card with the trimmed, visible title at the end of its column |

## Left out

- `createId` (src/components/KanbanBoard.tsx:22-28) draws on `crypto.randomUUID`, `Date.now` and `Math.random`. The generated id is a parameter of `AddCard`. Freshness is a precondition where uniqueness is proved.
- dnd-kit sensors, activation constraints and `closestCorners` collision detection (src/components/KanbanBoard.tsx:47-57, 218) are library internals. The resolved `active` and `over` data are inputs.
- The `as string` casts of the drag data (src/components/KanbanBoard.tsx:101-103, 126-136): card and column data are modelled as carrying their fields as strings.
- `arrayMove`'s handling of a negative or out-of-range target index: the board only passes indices found by `findIndex`.
- JSX rendering, CSS classes, the `DragOverlay` markup, and the `SortableContext`/`useDroppable` wiring are presentation only.
- `Column.tsx` renders `Card` with a `dndId` prop and no drag callbacks (src/components/Column.tsx:126-133). Each file is modelled on its own terms.
- DOM hit-testing with `elementFromPoint`/`closest` (src/components/Card.tsx:157-178) is the `HitTest` input.
- The HTML5 `draggable`/`onDragStart`/`onDrop` attributes (src/components/Card.tsx:206-213) are not modelled. They call the same callbacks without any state of their own.
- `event.preventDefault()` during a drag (src/components/Card.tsx:134-136) is browser behaviour.
- Title-clipping measurement, resize listeners and focus effects (src/components/Card.tsx:45-70, src/components/Column.tsx:45-49) are layout and browser I/O.
- The draft re-sync effect (src/components/Card.tsx:41-43) and the inputs' `onChange` handlers are not modelled. A new draft is simply a new state value.
- Pointer coordinates are integers, not floating point.
- React's batching of state updates and its stale closures are not modelled. Each handler runs on the state it is given.
- `Text.Trim`: the whitespace set is the one fixed by ECMAScript plus the Unicode space separators as currently assigned. A later Unicode version could add characters.
