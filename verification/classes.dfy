/** Per-cell class sets: `toggleClass`, `addClass`, `removeClass`,
    `hasClass` and the highlight aliases. A selection of cells is a set of
    indices; indices past the last cell select nothing. */
module Classes {
  import opened JsValues
  import opened Arrays

  /** The class that marks a highlighted cell. */
  const HighlightClass: string := "jsavhighlight"

  /** Arguments of `toggleClass`; it returns the selection and the class. */
  datatype ToggleArgs = ToggleArgs(indices: set<nat>, className: string)

  /** The class set `s` with `c` switched on or off. */
  function Flip(s: set<string>, c: string): set<string> {
    if c in s then s - {c} else s + {c}
  }

  /** `toggleClass(indices, c)`: flip `c` on every selected cell. */
  function ToggleClass(a: AVArray, sel: set<nat>, c: string): (r: Applied<ToggleArgs>)
    ensures r.arr.values == a.values && Size(r.arr) == Size(a)
    ensures forall i :: 0 <= i < Size(a) && i in sel ==> (c in r.arr.classes[i] <==> c !in a.classes[i])
    ensures forall i :: 0 <= i < Size(a) && i in sel ==> r.arr.classes[i] - {c} == a.classes[i] - {c}
    ensures forall i :: 0 <= i < Size(a) && i !in sel ==> r.arr.classes[i] == a.classes[i]
    ensures r.undo == ToggleArgs(sel, c)
  {
    var cs := seq(|a.classes|, i requires 0 <= i < |a.classes| =>
                  if i in sel then Flip(a.classes[i], c) else a.classes[i]);
    Applied(AVArray(a.values, cs), ToggleArgs(sel, c))
  }

  /** Toggling again with the returned arguments restores the class sets. */
  lemma ToggleUndo(a: AVArray, sel: set<nat>, c: string)
    ensures var r := ToggleClass(a, sel, c);
            ToggleClass(r.arr, r.undo.indices, r.undo.className).arr == a
  {
    var r := ToggleClass(a, sel, c);
    var u := ToggleClass(r.arr, sel, c).arr;
    forall i | 0 <= i < Size(a)
      ensures u.classes[i] == a.classes[i]
    {
      if i in sel {
        assert c in u.classes[i] <==> c in a.classes[i];
        assert u.classes[i] - {c} == a.classes[i] - {c};
      }
    }
    assert u.classes == a.classes;
  }

  /** The selected cells of `a` that lack class `c`: what `normalizeIndices`
      yields under the filter `:not(.c)`. */
  function Lacking(a: AVArray, sel: set<nat>, c: string): set<nat> {
    set i | i in sel && i < Size(a) && c !in a.classes[i]
  }

  /** The selected cells of `a` that have class `c`: the filter `.c`. */
  function Having(a: AVArray, sel: set<nat>, c: string): set<nat> {
    set i | i in sel && i < Size(a) && c in a.classes[i]
  }

  /** `addClass(indices, c)`: toggle only the selected cells lacking `c`, and
      record no step at all when there are none. */
  function AddClass(a: AVArray, sel: set<nat>, c: string): (r: Applied<Option<ToggleArgs>>)
    ensures r.arr.values == a.values && Size(r.arr) == Size(a)
    ensures forall i :: 0 <= i < Size(a) && i in sel ==> r.arr.classes[i] == a.classes[i] + {c}
    ensures forall i :: 0 <= i < Size(a) && i !in sel ==> r.arr.classes[i] == a.classes[i]
    ensures r.undo.None? <==> forall i :: 0 <= i < Size(a) && i in sel ==> c in a.classes[i]
    ensures r.undo.None? ==> r.arr == a
    ensures r.undo.Some? ==> r.undo.value == ToggleArgs(Lacking(a, sel, c), c)
  {
    var idx := Lacking(a, sel, c);
    if idx == {} then
      assert forall i :: 0 <= i < Size(a) && i in sel ==> i in idx || c in a.classes[i];
      Applied(a, None)
    else
      var t := ToggleClass(a, idx, c);
      assert forall i :: 0 <= i < Size(a) && i in sel && c in a.classes[i] ==> i !in idx;
      assert forall i :: 0 <= i < Size(a) && i in sel && c !in a.classes[i] ==> i in idx;
      Applied(t.arr, Some(t.undo))
  }

  /** `removeClass(indices, c)`: toggle only the selected cells having `c`,
      and record no step at all when there are none. */
  function RemoveClass(a: AVArray, sel: set<nat>, c: string): (r: Applied<Option<ToggleArgs>>)
    ensures r.arr.values == a.values && Size(r.arr) == Size(a)
    ensures forall i :: 0 <= i < Size(a) && i in sel ==> r.arr.classes[i] == a.classes[i] - {c}
    ensures forall i :: 0 <= i < Size(a) && i !in sel ==> r.arr.classes[i] == a.classes[i]
    ensures r.undo.None? <==> forall i :: 0 <= i < Size(a) && i in sel ==> c !in a.classes[i]
    ensures r.undo.None? ==> r.arr == a
    ensures r.undo.Some? ==> r.undo.value == ToggleArgs(Having(a, sel, c), c)
  {
    var idx := Having(a, sel, c);
    if idx == {} then
      assert forall i :: 0 <= i < Size(a) && i in sel ==> i in idx || c !in a.classes[i];
      Applied(a, None)
    else
      var t := ToggleClass(a, idx, c);
      assert forall i :: 0 <= i < Size(a) && i in sel && c !in a.classes[i] ==> i !in idx;
      assert forall i :: 0 <= i < Size(a) && i in sel && c in a.classes[i] ==> i in idx;
      Applied(t.arr, Some(t.undo))
  }

  /** `hasClass(indices, c)`: jQuery's `hasClass` on a set of elements,
      true as soon as one of them has `c`. */
  predicate HasClass(a: AVArray, sel: set<nat>, c: string)
    ensures forall i :: i in sel && i < Size(a) && c in a.classes[i] ==> HasClass(a, sel, c)
    ensures HasClass(a, sel, c) ==> exists i :: i in sel && i < Size(a) && c in a.classes[i]
  {
    var h := Having(a, sel, c);
    assert forall i: nat :: i in sel && i < Size(a) && c in a.classes[i] ==> i in h;
    h != {}
  }

  /** Adding a class twice is the same as adding it once; the second call
      records nothing. */
  lemma AddClassIdempotent(a: AVArray, sel: set<nat>, c: string)
    ensures var r := AddClass(a, sel, c);
            AddClass(r.arr, sel, c) == Applied(r.arr, None)
  {
  }

  /** Removing a class twice is the same as removing it once; the second call
      records nothing. */
  lemma RemoveClassIdempotent(a: AVArray, sel: set<nat>, c: string)
    ensures var r := RemoveClass(a, sel, c);
            RemoveClass(r.arr, sel, c) == Applied(r.arr, None)
  {
  }

  /** The step recorded by `addClass` is undone by toggling its arguments. */
  lemma AddClassUndo(a: AVArray, sel: set<nat>, c: string)
    ensures var r := AddClass(a, sel, c);
            r.undo.Some? ==> ToggleClass(r.arr, r.undo.value.indices, r.undo.value.className).arr == a
  {
  }

  /** The step recorded by `removeClass` is undone by toggling its arguments. */
  lemma RemoveClassUndo(a: AVArray, sel: set<nat>, c: string)
    ensures var r := RemoveClass(a, sel, c);
            r.undo.Some? ==> ToggleClass(r.arr, r.undo.value.indices, r.undo.value.className).arr == a
  {
    var r := RemoveClass(a, sel, c);
    if r.undo.Some? {
      ToggleUndo(a, Having(a, sel, c), c);
    }
  }

  /** After `addClass` every selected cell has the class; after `removeClass`
      none has it. */
  lemma AddRemoveHasClass(a: AVArray, sel: set<nat>, c: string)
    ensures forall i: nat :: i < Size(a) && i in sel ==> HasClass(AddClass(a, sel, c).arr, {i}, c)
    ensures !HasClass(RemoveClass(a, sel, c).arr, sel, c)
  {
  }

  /** `isHighlight(index)`. */
  predicate IsHighlight(a: AVArray, index: nat)
    ensures IsHighlight(a, index) <==> index < Size(a) && HighlightClass in a.classes[index]
  {
    HasClass(a, {index}, HighlightClass)
  }

  /** `highlight(indices)`: `addClass` with the highlight class. */
  function Highlight(a: AVArray, sel: set<nat>): (r: Applied<Option<ToggleArgs>>)
    ensures r.arr.values == a.values && Size(r.arr) == Size(a)
    ensures forall i: nat :: i < Size(a) ==> (IsHighlight(r.arr, i) <==> i in sel || IsHighlight(a, i))
  {
    AddClass(a, sel, HighlightClass)
  }

  /** `unhighlight(indices)`: `removeClass` with the highlight class. */
  function Unhighlight(a: AVArray, sel: set<nat>): (r: Applied<Option<ToggleArgs>>)
    ensures r.arr.values == a.values && Size(r.arr) == Size(a)
    ensures forall i: nat :: i < Size(a) ==> (IsHighlight(r.arr, i) <==> i !in sel && IsHighlight(a, i))
  {
    RemoveClass(a, sel, HighlightClass)
  }
}
