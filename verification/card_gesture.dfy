/** The native-pointer `Card`: inline title editing and the touch gesture that
    turns a press into a drag and a release into a drop. The three pointer refs
    form a small state machine, Idle -> Pressed -> Dragging -> Idle; the DOM
    hit-test of the release point is an input. */
module CardGesture {
  import opened Wrappers
  import opened Text
  import opened Kanban

  /** Combined horizontal and vertical travel a press must exceed to become a drag. */
  const DragThreshold: int := 10

  datatype Point = Point(x: int, y: int)

  datatype PointerKind = Mouse | Pen | Touch

  datatype PointerEvent = PointerEvent(kind: PointerKind, pointerId: int, x: int, y: int)

  /** The props the handlers read. */
  datatype CardProps = CardProps(card: Card, columnId: string)

  /** `isEditing`, `draftTitle` and the refs `pointerStart`, `pointerDragging`,
      `activePointerId`. */
  datatype CardState = CardState(
    isEditing: bool,
    draftTitle: string,
    pointerStart: Option<Point>,
    pointerDragging: bool,
    activePointerId: Option<int>)

  /** A callback prop invocation. */
  datatype Callback =
    | OnRename(cardId: string, columnId: string, title: string)
    | OnDragStart(cardId: string, fromColumnId: string)
    | OnDropOnCard(targetColumnId: string, targetCardId: string)
    | OnDropToColumnEnd(targetColumnId: string)
    | OnCancelDrag

  /** The state after a handler ran, and the callback it fired, if any. */
  datatype Step = Step(state: CardState, fired: Option<Callback>)

  /** The nearest `[data-card-id]` element under the release point, with its
      `data-card-id` and `data-column-id` (either may be missing). */
  datatype CardHit = CardHit(cardId: Option<string>, columnId: Option<string>)

  /** The nearest `[data-column-id]` element, with its `data-column-id`. */
  datatype ColumnHit = ColumnHit(columnId: Option<string>)

  /** What `document.elementFromPoint(...)?.closest(...)` finds at the release point. */
  datatype HitTest = HitTest(card: Option<CardHit>, column: Option<ColumnHit>)

  datatype Phase = Idle | Pressed | Dragging

  /** A card as first rendered: not editing, the draft is its title, no press;
      the ref invariant holds from the start and the gesture is idle. */
  function InitialState(p: CardProps): (r: CardState)
    ensures Wellformed(r) && PhaseOf(r) == Idle
    ensures !r.isEditing && r.draftTitle == p.card.title
  {
    CardState(false, p.card.title, None, false, None)
  }

  /** The refs always agree: a start point exactly while a pointer is tracked,
      and a drag only during a press. */
  predicate Wellformed(st: CardState) {
    && (st.pointerStart.Some? <==> st.activePointerId.Some?)
    && (st.pointerDragging ==> st.pointerStart.Some?)
  }

  function PhaseOf(st: CardState): Phase {
    if st.pointerStart.None? then Idle
    else if st.pointerDragging then Dragging
    else Pressed
  }

  function Abs(n: int): nat {
    if n < 0 then -n else n
  }

  /** The title button's click: enter editing. */
  function BeginEditing(st: CardState): (r: CardState)
    ensures r.isEditing
    ensures r.(isEditing := st.isEditing) == st
  {
    st.(isEditing := true)
  }

  /** `cancelEditing`: the draft goes back to the card's title and editing ends. */
  function CancelEditing(p: CardProps, st: CardState): (r: CardState)
    ensures !r.isEditing && r.draftTitle == p.card.title
    ensures r.(isEditing := st.isEditing, draftTitle := st.draftTitle) == st
  {
    st.(isEditing := false, draftTitle := p.card.title)
  }

  /** `saveTitle`: a draft that trims to nothing is discarded as by `cancelEditing`;
      any other draft is reported trimmed through `onRename`, once. Editing ends
      either way and the pointer refs are untouched. */
  function SaveTitle(p: CardProps, st: CardState): (r: Step)
    ensures !r.state.isEditing
    ensures r.state.pointerStart == st.pointerStart && r.state.pointerDragging == st.pointerDragging
    ensures r.state.activePointerId == st.activePointerId
    ensures r.fired.None? <==> AllWhitespace(st.draftTitle)
    ensures r.fired.None? ==> r.state == CancelEditing(p, st)
    ensures r.fired.Some? ==> r.fired.value == OnRename(p.card.id, p.columnId, Trim(st.draftTitle))
    ensures r.fired.Some? ==> r.state.draftTitle == st.draftTitle
  {
    var nextTitle := Trim(st.draftTitle);
    if nextTitle == "" then Step(CancelEditing(p, st), None)
    else Step(st.(isEditing := false), Some(OnRename(p.card.id, p.columnId, nextTitle)))
  }

  /** The title input's key handler: Enter saves, Escape cancels, any other key
      does nothing. */
  function TitleInputKeyDown(p: CardProps, st: CardState, key: string): (r: Step)
    ensures key == "Enter" ==> r == SaveTitle(p, st)
    ensures key == "Escape" ==> r == Step(CancelEditing(p, st), None)
    ensures key != "Enter" && key != "Escape" ==> r == Step(st, None)
  {
    var afterEnter := if key == "Enter" then SaveTitle(p, st) else Step(st, None);
    if key == "Escape" then Step(CancelEditing(p, afterEnter.state), afterEnter.fired)
    else afterEnter
  }

  /** `handlePointerDown`: a touch press while not editing starts tracking at the
      press point; anything else is ignored. Never fires a callback. */
  function PointerDown(st: CardState, e: PointerEvent): (r: CardState)
    ensures e.kind != Touch || st.isEditing ==> r == st
    ensures e.kind == Touch && !st.isEditing ==>
      && r.pointerStart == Some(Point(e.x, e.y))
      && !r.pointerDragging
      && r.activePointerId == Some(e.pointerId)
      && PhaseOf(r) == Pressed
    ensures r.isEditing == st.isEditing && r.draftTitle == st.draftTitle
  {
    if e.kind != Touch || st.isEditing then st
    else st.(pointerStart := Some(Point(e.x, e.y)), pointerDragging := false, activePointerId := Some(e.pointerId))
  }

  /** Whether `e` is the tracked touch pointer. */
  predicate IsTrackedTouch(st: CardState, e: PointerEvent) {
    e.kind == Touch && st.activePointerId == Some(e.pointerId)
  }

  /** `handlePointerMove`: the first move of a tracked press whose Manhattan
      distance from the start exceeds the threshold fires `onDragStart` and marks
      the drag; every other move changes nothing. */
  function PointerMove(p: CardProps, st: CardState, e: PointerEvent): (r: Step)
    ensures r.fired.Some? <==>
      && IsTrackedTouch(st, e) && st.pointerStart.Some? && !st.pointerDragging
      && Abs(e.x - st.pointerStart.value.x) + Abs(e.y - st.pointerStart.value.y) > DragThreshold
    ensures r.fired.Some? ==> r.fired.value == OnDragStart(p.card.id, p.columnId) && r.state == st.(pointerDragging := true)
    ensures r.fired.None? ==> r.state == st
  {
    if !IsTrackedTouch(st, e) || st.pointerStart.None? then Step(st, None)
    else
      var start := st.pointerStart.value;
      var movedX := Abs(e.x - start.x);
      var movedY := Abs(e.y - start.y);
      if !st.pointerDragging && movedX + movedY > DragThreshold then
        Step(st.(pointerDragging := true), Some(OnDragStart(p.card.id, p.columnId)))
      else Step(st, None)
  }

  /** The drop a release after a drag resolves to: a hit card carrying both ids,
      else a hit column carrying its id, else a cancel. */
  function ResolveRelease(hit: HitTest): (c: Callback)
    ensures c.OnDropOnCard? <==> hit.card.Some? && Truthy(hit.card.value.cardId) && Truthy(hit.card.value.columnId)
    ensures c.OnDropOnCard? ==> c == OnDropOnCard(hit.card.value.columnId.value, hit.card.value.cardId.value)
    ensures c.OnDropToColumnEnd? ==> hit.column.Some? && Truthy(hit.column.value.columnId)
    ensures c.OnDropToColumnEnd? ==> c == OnDropToColumnEnd(hit.column.value.columnId.value)
    ensures c == OnCancelDrag <==> !c.OnDropOnCard? && !(hit.column.Some? && Truthy(hit.column.value.columnId))
    ensures !c.OnRename? && !c.OnDragStart?
  {
    if hit.card.Some? && Truthy(hit.card.value.cardId) && Truthy(hit.card.value.columnId) then
      OnDropOnCard(hit.card.value.columnId.value, hit.card.value.cardId.value)
    else if hit.column.Some? && Truthy(hit.column.value.columnId) then
      OnDropToColumnEnd(hit.column.value.columnId.value)
    else
      OnCancelDrag
  }

  /** `handlePointerUp`: the tracked touch pointer's release stops tracking; after
      a drag it fires exactly one drop or cancel callback and ends the drag,
      after a mere press it fires nothing. Other pointers change nothing. */
  function PointerUp(st: CardState, e: PointerEvent, hit: HitTest): (r: Step)
    ensures !IsTrackedTouch(st, e) ==> r == Step(st, None)
    ensures IsTrackedTouch(st, e) ==>
      && r.state.pointerStart.None? && r.state.activePointerId.None? && !r.state.pointerDragging
      && r.state.isEditing == st.isEditing && r.state.draftTitle == st.draftTitle
      && (r.fired.Some? <==> st.pointerDragging)
    ensures r.fired.Some? ==> r.fired.value == ResolveRelease(hit)
  {
    if !IsTrackedTouch(st, e) then Step(st, None)
    else
      var released := st.(pointerStart := None, activePointerId := None);
      if !released.pointerDragging then Step(released, None)
      else Step(released.(pointerDragging := false), Some(ResolveRelease(hit)))
  }

  /** `handlePointerCancel`: every ref is reset and `onCancelDrag` fires,
      whatever the pointer and whatever the phase. */
  function PointerCancel(st: CardState): (r: Step)
    ensures r.fired == Some(OnCancelDrag)
    ensures r.state == st.(pointerStart := None, pointerDragging := false, activePointerId := None)
    ensures PhaseOf(r.state) == Idle
  {
    Step(st.(pointerStart := None, pointerDragging := false, activePointerId := None), Some(OnCancelDrag))
  }

  /** Every pointer handler keeps the refs consistent. */
  lemma PointerHandlersPreserveWellformed(p: CardProps, st: CardState, e: PointerEvent, hit: HitTest)
    requires Wellformed(st)
    ensures Wellformed(PointerDown(st, e))
    ensures Wellformed(PointerMove(p, st, e).state)
    ensures Wellformed(PointerUp(st, e, hit).state)
    ensures Wellformed(PointerCancel(st).state)
  {
  }

  /** Editing the title never disturbs the refs. */
  lemma EditHandlersPreserveWellformed(p: CardProps, st: CardState, key: string)
    requires Wellformed(st)
    ensures Wellformed(SaveTitle(p, st).state)
    ensures Wellformed(TitleInputKeyDown(p, st, key).state)
    ensures Wellformed(CancelEditing(p, st)) && Wellformed(BeginEditing(st))
  {
    var r := TitleInputKeyDown(p, st, key);
    if key == "Enter" {
      assert r == SaveTitle(p, st);
    } else if key == "Escape" {
      assert r.state == CancelEditing(p, st);
    } else {
      assert r.state == st;
    }
  }

  /** The phases: a move only ever goes from Pressed to Dragging, a tracked
      release and a cancel always return to Idle. */
  lemma PhaseTransitions(p: CardProps, st: CardState, e: PointerEvent, hit: HitTest)
    requires Wellformed(st)
    ensures PointerMove(p, st, e).state != st ==> PhaseOf(st) == Pressed && PhaseOf(PointerMove(p, st, e).state) == Dragging
    ensures IsTrackedTouch(st, e) ==> PhaseOf(PointerUp(st, e, hit).state) == Idle
    ensures PointerUp(st, e, hit).fired.Some? ==> PhaseOf(st) == Dragging
  {
  }

  /** The moves of one press, in order: the final state and every callback fired. */
  function Moves(p: CardProps, st: CardState, es: seq<PointerEvent>): (r: Step)
    decreases |es|
  {
    if |es| == 0 then Step(st, None)
    else
      var first := PointerMove(p, st, es[0]);
      var rest := Moves(p, first.state, es[1..]);
      Step(rest.state, if first.fired.Some? then first.fired else rest.fired)
  }

  /** How many `onDragStart` calls a run of moves makes. */
  function DragStarts(p: CardProps, st: CardState, es: seq<PointerEvent>): nat
    decreases |es|
  {
    if |es| == 0 then 0
    else
      var first := PointerMove(p, st, es[0]);
      (if first.fired.Some? then 1 else 0) + DragStarts(p, first.state, es[1..])
  }

  /** `onDragStart` fires at most once per press: however many moves follow a
      press, at most one starts the drag, none once the drag has started, and a
      drag is under way afterwards exactly when one did. Moves never touch the
      start point or the tracked pointer. */
  lemma {:induction false} DragStartFiresAtMostOnce(p: CardProps, st: CardState, es: seq<PointerEvent>)
    ensures DragStarts(p, st, es) <= (if st.pointerDragging then 0 else 1)
    ensures !st.pointerDragging ==> (Moves(p, st, es).state.pointerDragging <==> DragStarts(p, st, es) == 1)
    ensures st.pointerDragging ==> Moves(p, st, es).state == st
    decreases |es|
  {
    if |es| > 0 {
      var first := PointerMove(p, st, es[0]);
      DragStartFiresAtMostOnce(p, first.state, es[1..]);
    }
  }
}
