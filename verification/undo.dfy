/** The reversibility contract of the raw mutators taken together: each of
    `swap`, `_setvalue` and `toggleClass` returns an argument list which,
    passed back to the same mutator, undoes its effect. Here a mutator call
    and its argument list are one `Op`, and undoing a run of calls means
    applying the returned lists last first. */
module Undo {
  import opened JsValues
  import opened Arrays
  import opened Classes

  /** A raw mutator together with its arguments. */
  datatype Op =
    | SwapOp(i: nat, j: nat)
    | SetOp(index: nat, value: Val)
    | ToggleOp(indices: set<nat>, className: string)

  /** The call addresses only existing cells of an array of `n` cells, so it
      does not grow the array. */
  predicate InBounds(op: Op, n: nat) {
    match op
    case SwapOp(i, j) => i < n && j < n
    case SetOp(index, _) => index < n
    case ToggleOp(_, _) => true
  }

  /** Every call of `ops` addresses only existing cells. */
  predicate AllInBounds(ops: seq<Op>, n: nat) {
    forall k :: 0 <= k < |ops| ==> InBounds(ops[k], n)
  }

  /** Perform one call; its result names the call that undoes it. */
  function Apply(a: AVArray, op: Op): (r: Applied<Op>)
    requires Valid(a) && InBounds(op, Size(a))
    ensures Valid(r.arr) && Size(r.arr) == Size(a)
    ensures InBounds(r.undo, Size(a))
    ensures op.ToggleOp? ==> r.arr.values == a.values
    ensures !op.ToggleOp? ==> r.arr.classes == a.classes
  {
    match op
    case SwapOp(i, j) =>
      var s := Swap(a, i, j);
      Applied(s.arr, SwapOp(s.undo.i, s.undo.j))
    case SetOp(k, v) =>
      var s := SetValue(a, k, v);
      Applied(s.arr, SetOp(s.undo.index, s.undo.value))
    case ToggleOp(sel, c) =>
      var t := ToggleClass(a, sel, c);
      Applied(t.arr, ToggleOp(t.undo.indices, t.undo.className))
  }

  /** One call followed by the call it returned restores the array. */
  lemma ApplyUndo(a: AVArray, op: Op)
    requires Valid(a) && InBounds(op, Size(a))
    ensures var r := Apply(a, op); Apply(r.arr, r.undo).arr == a
  {
    match op
    case SwapOp(i, j) => SwapUndo(a, i, j);
    case SetOp(k, v) => SetValueUndoInBounds(a, k, v);
    case ToggleOp(sel, c) => ToggleUndo(a, sel, c);
  }

  /** Perform a run of calls in order. The result lists the undoing calls
      in the order they must be applied: the last call's first. */
  function Run(a: AVArray, ops: seq<Op>): (r: Applied<seq<Op>>)
    requires Valid(a) && AllInBounds(ops, Size(a))
    ensures Valid(r.arr) && Size(r.arr) == Size(a)
    ensures |r.undo| == |ops|
    ensures AllInBounds(r.undo, Size(a))
    decreases |ops|
  {
    if |ops| == 0 then Applied(a, [])
    else
      var s := Apply(a, ops[0]);
      var rest := Run(s.arr, ops[1..]);
      Applied(rest.arr, rest.undo + [s.undo])
  }

  /** Running two lists one after the other is running their concatenation. */
  lemma {:induction false} RunAppend(a: AVArray, xs: seq<Op>, ys: seq<Op>)
    requires Valid(a) && AllInBounds(xs, Size(a)) && AllInBounds(ys, Size(a))
    ensures AllInBounds(xs + ys, Size(a))
    ensures Run(a, xs + ys).arr == Run(Run(a, xs).arr, ys).arr
    decreases |xs|
  {
    assert AllInBounds(xs + ys, Size(a)) by {
      forall k | 0 <= k < |xs + ys|
        ensures InBounds((xs + ys)[k], Size(a))
      {
        if k < |xs| { assert (xs + ys)[k] == xs[k]; }
        else { assert (xs + ys)[k] == ys[k - |xs|]; }
      }
    }
    if |xs| > 0 {
      var s := Apply(a, xs[0]);
      assert (xs + ys)[0] == xs[0];
      assert (xs + ys)[1..] == xs[1..] + ys;
      RunAppend(s.arr, xs[1..], ys);
    } else {
      assert xs + ys == ys;
    }
  }

  /** Undoing a whole run of in-bounds calls, last call first, restores the
      array exactly: values and class sets. */
  lemma {:induction false} RunUndo(a: AVArray, ops: seq<Op>)
    requires Valid(a) && AllInBounds(ops, Size(a))
    ensures var r := Run(a, ops); Run(r.arr, r.undo).arr == a
    decreases |ops|
  {
    if |ops| > 0 {
      var s := Apply(a, ops[0]);
      var rest := Run(s.arr, ops[1..]);
      var r := Run(a, ops);
      assert r.arr == rest.arr && r.undo == rest.undo + [s.undo];
      RunAppend(r.arr, rest.undo, [s.undo]);
      RunUndo(s.arr, ops[1..]);
      ApplyUndo(a, ops[0]);
    }
  }
}
