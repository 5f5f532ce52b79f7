/** The array primitives the board code is built from: `findIndex`,
    `splice` (remove one / insert one) and dnd-kit's `arrayMove`. */
module Sequences {
  import opened Wrappers

  /** `s.findIndex(p)`: the first index whose element satisfies `p`; None stands for -1. */
  function FirstIndex<T>(s: seq<T>, p: T -> bool): (r: Option<nat>)
    ensures r.Some? ==> r.value < |s| && p(s[r.value])
    ensures r.Some? ==> forall j :: 0 <= j < r.value ==> !p(s[j])
    ensures r.None? ==> forall j :: 0 <= j < |s| ==> !p(s[j])
  {
    if |s| == 0 then None
    else if p(s[0]) then Some(0)
    else match FirstIndex(s[1..], p)
      case None => None
      case Some(k) => Some(k + 1)
  }

  /** `s.splice(i, 1)`: the element at `i` leaves, everything after it shifts down. */
  function RemoveAt<T>(s: seq<T>, i: nat): (r: seq<T>)
    requires i < |s|
    ensures |r| == |s| - 1
    ensures forall j :: 0 <= j < i ==> r[j] == s[j]
    ensures forall j :: i <= j < |r| ==> r[j] == s[j + 1]
    ensures multiset(r) + multiset{s[i]} == multiset(s)
  {
    assert s == s[..i] + [s[i]] + s[i + 1..];
    s[..i] + s[i + 1..]
  }

  /** `s.splice(i, 0, x)`: `x` lands at index `i`, everything from `i` on shifts up. */
  function InsertAt<T>(s: seq<T>, i: nat, x: T): (r: seq<T>)
    requires i <= |s|
    ensures |r| == |s| + 1
    ensures r[i] == x
    ensures forall j :: 0 <= j < i ==> r[j] == s[j]
    ensures forall j :: i <= j < |s| ==> r[j + 1] == s[j]
    ensures multiset(r) == multiset(s) + multiset{x}
  {
    assert s == s[..i] + s[i..];
    s[..i] + [x] + s[i..]
  }

  /** dnd-kit's `arrayMove(s, from, to)`: take the element out at `from`, then put
      it back at index `to` of the shortened list. The result is a permutation of
      `s` with the moved element at `to`. */
  function ArrayMove<T>(s: seq<T>, from: nat, to: nat): (r: seq<T>)
    requires from < |s| && to < |s|
    ensures |r| == |s|
    ensures r[to] == s[from]
    ensures multiset(r) == multiset(s)
  {
    InsertAt(RemoveAt(s, from), to, s[from])
  }

  /** Putting an element back where it was taken out restores the list. */
  lemma InsertUndoesRemove<T>(s: seq<T>, i: nat)
    requires i < |s|
    ensures InsertAt(RemoveAt(s, i), i, s[i]) == s
  {
    var r := InsertAt(RemoveAt(s, i), i, s[i]);
    assert forall j :: 0 <= j < |s| ==> r[j] == s[j];
  }

  /** Moving back undoes a move. */
  lemma ArrayMoveRoundTrip<T>(s: seq<T>, from: nat, to: nat)
    requires from < |s| && to < |s|
    ensures ArrayMove(ArrayMove(s, from, to), to, from) == s
  {
    var m := ArrayMove(s, from, to);
    assert RemoveAt(m, to) == RemoveAt(s, from);
    InsertUndoesRemove(s, from);
  }

  /** What happens around the moved element: moving down (`from < to`) leaves the
      element that was at `to` just above it, moving up leaves it just below. */
  lemma ArrayMoveNeighbours<T>(s: seq<T>, from: nat, to: nat)
    requires from < |s| && to < |s|
    ensures from == to ==> ArrayMove(s, from, to) == s
    ensures from < to ==> ArrayMove(s, from, to)[to - 1] == s[to]
    ensures to < from ==> ArrayMove(s, from, to)[to + 1] == s[to]
  {
    var r := ArrayMove(s, from, to);
    if from == to {
      assert forall j :: 0 <= j < |s| ==> r[j] == s[j];
    }
  }

  /** Elements outside the span between `from` and `to` keep their index. */
  lemma ArrayMoveOutsideSpan<T>(s: seq<T>, from: nat, to: nat)
    requires from < |s| && to < |s|
    ensures forall j :: 0 <= j < |s| && j < from && j < to ==> ArrayMove(s, from, to)[j] == s[j]
    ensures forall j :: 0 <= j < |s| && j > from && j > to ==> ArrayMove(s, from, to)[j] == s[j]
  {
  }
}
