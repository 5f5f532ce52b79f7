/** The add-card form of a `Column`: whether it is open and the title typed so
    far. Its one rule: a title that is whitespace only never reaches `onAddCard`. */
module AddCardForm {
  import opened Wrappers
  import opened Text
  import opened Kanban
  import KanbanBoard

  datatype FormState = FormState(isAdding: bool, newCardTitle: string)

  /** An `onAddCard(columnId, title)` call. */
  datatype AddRequest = AddRequest(columnId: string, title: string)

  /** The form after a handler ran, and the `onAddCard` call it made, if any. */
  datatype FormStep = FormStep(state: FormState, added: Option<AddRequest>)

  /** A column as first rendered: the form closed and empty. */
  const ClosedForm := FormState(false, "")

  /** `resetAddForm`: close the form and clear the draft. */
  function ResetAddForm(st: FormState): (r: FormState)
    ensures !r.isAdding && r.newCardTitle == ""
  {
    ClosedForm
  }

  /** `openAddForm`: open the form, keeping whatever was typed. */
  function OpenAddForm(st: FormState): (r: FormState)
    ensures r.isAdding && r.newCardTitle == st.newCardTitle
  {
    st.(isAdding := true)
  }

  /** `submitCard`: a title that trims to nothing is ignored and the form stays
      as it is; any other title is reported trimmed through `onAddCard`, once,
      and the form is reset. */
  function SubmitCard(columnId: string, st: FormState): (r: FormStep)
    ensures r.added.None? <==> AllWhitespace(st.newCardTitle)
    ensures r.added.None? ==> r.state == st
    ensures r.added.Some? ==> r.added.value == AddRequest(columnId, Trim(st.newCardTitle))
    ensures r.added.Some? ==> r.state == ResetAddForm(st)
  {
    var title := Trim(st.newCardTitle);
    if title == "" then FormStep(st, None)
    else FormStep(ResetAddForm(st), Some(AddRequest(columnId, title)))
  }

  /** `handleCardInputKeyDown`: Enter submits, Escape resets, any other key does
      nothing. */
  function CardInputKeyDown(columnId: string, st: FormState, key: string): (r: FormStep)
    ensures key == "Enter" ==> r == SubmitCard(columnId, st)
    ensures key == "Escape" ==> r == FormStep(ClosedForm, None)
    ensures key != "Enter" && key != "Escape" ==> r == FormStep(st, None)
  {
    var afterEnter := if key == "Enter" then SubmitCard(columnId, st) else FormStep(st, None);
    if key == "Escape" then FormStep(ResetAddForm(afterEnter.state), afterEnter.added)
    else afterEnter
  }

  /** Every title the form hands on is non-empty, already trimmed, and starts and
      ends with a visible character. */
  lemma SubmittedTitlesAreVisible(columnId: string, st: FormState)
    ensures SubmitCard(columnId, st).added.Some? ==>
      var t := SubmitCard(columnId, st).added.value.title;
      && t != ""
      && Trim(t) == t
      && !IsWhitespace(t[0]) && !IsWhitespace(t[|t| - 1])
  {
    var r := SubmitCard(columnId, st);
    if r.added.Some? {
      var t := Trim(st.newCardTitle);
      assert r.added.value.title == t;
      TrimIdempotent(st.newCardTitle);
    }
  }

  /** Whatever keys are pressed, the form never asks for a whitespace-only card. */
  lemma {:induction false} KeysNeverAddBlankCards(columnId: string, st: FormState, keys: seq<string>)
    ensures forall req :: req in AddsFromKeys(columnId, st, keys) ==> !AllWhitespace(req.title) && req.columnId == columnId
    decreases |keys|
  {
    if |keys| > 0 {
      var step := CardInputKeyDown(columnId, st, keys[0]);
      KeysNeverAddBlankCards(columnId, step.state, keys[1..]);
      if step.added.Some? {
        assert keys[0] == "Enter";
        var t := step.added.value.title;
        assert t == Trim(st.newCardTitle) && t != [];
        assert !IsWhitespace(t[0]);
      }
    }
  }

  /** The `onAddCard` calls a run of key presses makes, in order. */
  function AddsFromKeys(columnId: string, st: FormState, keys: seq<string>): seq<AddRequest>
    decreases |keys|
  {
    if |keys| == 0 then []
    else
      var step := CardInputKeyDown(columnId, st, keys[0]);
      (if step.added.Some? then [step.added.value] else []) + AddsFromKeys(columnId, step.state, keys[1..])
  }

  /** A card added through the form lands at the end of its column carrying the
      trimmed title, which has a visible character. */
  lemma SubmitThenAdd(b: Board, columnId: string, st: FormState, newId: string, i: nat)
    requires i < |b| && b[i].id == columnId
    requires !AllWhitespace(st.newCardTitle)
    ensures SubmitCard(columnId, st).added.Some?
    ensures
      var req := SubmitCard(columnId, st).added.value;
      var r := KanbanBoard.AddCard(b, req.columnId, req.title, newId);
      && r[i].cards == b[i].cards + [Card(newId, Trim(st.newCardTitle))]
      && !AllWhitespace(r[i].cards[|r[i].cards| - 1].title)
  {
    var t := Trim(st.newCardTitle);
    assert !IsWhitespace(t[0]);
  }
}
