/** The logical state of a JSAV array and its value-level operations:
    initialisation, reads, `swap`, `_setvalue`, `isEmpty` and the
    `state()` / `state(s)` snapshot pair. */
module Arrays {
  import opened JsValues

  /** `values` mirrors the `_values` list; `classes[i]` is the class set of
      the value span of the i-th cell. The number of cells in the rendered
      list, which `size()` reports, is `|classes|`. */
  datatype AVArray = AVArray(values: seq<Val>, classes: seq<set<string>>)

  /** What a raw (animatable) mutator returns: the new state, and the
      argument list which, passed back to the same mutator, undoes it. */
  datatype Applied<A> = Applied(arr: AVArray, undo: A)

  /** `size()`: the number of cells. */
  function Size(a: AVArray): (r: nat)
    ensures Valid(a) ==> r == |a.values|
  {
    |a.classes|
  }

  /** One value per cell. Initialisation establishes it and `swap`,
      `_setvalue` and `toggleClass` keep it. Restoring a state taken from an
      array of another size can break it (see `Restore`). */
  predicate Valid(a: AVArray) {
    |a.values| == |a.classes|
  }

  /** `value(i)` used as a read: out-of-range reads give `undefined`. */
  function Value(a: AVArray, i: int): (r: Val)
    ensures Valid(a) && 0 <= i < Size(a) ==> r == a.values[i]
    ensures r != Undef ==> 0 <= i < |a.values| && r in a.values
  {
    if 0 <= i < |a.values| then a.values[i] else Undef
  }

  /** `initialize(data)`: copy the input list, then replace every `null` or
      `undefined` by `""`; one cell without classes per entry. */
  method Initialize(data: seq<Val>) returns (a: AVArray)
    ensures Valid(a) && Size(a) == |data|
    ensures forall i :: 0 <= i < |data| && Nullish(data[i]) ==> a.values[i] == Empty
    ensures forall i :: 0 <= i < |data| && !Nullish(data[i]) ==> a.values[i] == data[i]
    ensures forall i :: 0 <= i < |data| ==> a.classes[i] == {}
  {
    var values := data;
    var i := 0;
    while i < |data|
      invariant 0 <= i <= |data|
      invariant |values| == |data|
      invariant forall k :: 0 <= k < i && Nullish(data[k]) ==> values[k] == Empty
      invariant forall k :: 0 <= k < |data| && (i <= k || !Nullish(data[k])) ==> values[k] == data[k]
    {
      if data[i].Null? || data[i].Undef? {
        values := values[i := Empty];
      }
      i := i + 1;
    }
    a := AVArray(values, seq(|data|, _ => {}));
  }

  /** Arguments of `swap`; it returns its own two indices. */
  datatype SwapArgs = SwapArgs(i: nat, j: nat)

  /** `swap(i, j)`: exchange two values. The cells' class sets are not touched
      by the logical part of the operation. */
  function Swap(a: AVArray, i: nat, j: nat): (r: Applied<SwapArgs>)
    requires i < |a.values| && j < |a.values|
    ensures |r.arr.values| == |a.values| && r.arr.classes == a.classes
    ensures r.arr.values[i] == a.values[j] && r.arr.values[j] == a.values[i]
    ensures forall k :: 0 <= k < |a.values| && k != i && k != j ==> r.arr.values[k] == a.values[k]
    ensures multiset(r.arr.values) == multiset(a.values)
    ensures r.undo == SwapArgs(i, j)
  {
    var tmp := a.values[i];
    Applied(AVArray(a.values[i := a.values[j]][j := tmp], a.classes), SwapArgs(i, j))
  }

  /** Swapping again with the returned arguments restores the array. */
  lemma SwapUndo(a: AVArray, i: nat, j: nat)
    requires i < |a.values| && j < |a.values|
    ensures var r := Swap(a, i, j); Swap(r.arr, r.undo.i, r.undo.j).arr == a
  {
  }

  /** Swapping an index with itself changes nothing. */
  lemma SwapSameIndex(a: AVArray, i: nat)
    requires i < |a.values|
    ensures Swap(a, i, i).arr == a
  {
  }

  /** The growth loop of `_setvalue`: append `""` cells until there are at
      least `n` of them. */
  function Backfill(a: AVArray, n: nat): (r: AVArray)
    requires Valid(a)
    ensures Valid(r)
    ensures |r.values| == if n > |a.values| then n else |a.values|
    ensures forall k :: 0 <= k < |a.values| ==> r.values[k] == a.values[k] && r.classes[k] == a.classes[k]
    ensures forall k :: |a.values| <= k < |r.values| ==> r.values[k] == Empty && r.classes[k] == {}
    decreases n - |a.values|
  {
    if n <= |a.values| then a
    else Backfill(AVArray(a.values + [Empty], a.classes + [{}]), n)
  }

  /** Arguments of `_setvalue`; it returns the index and the value read there
      before the write (`undefined` when the index was past the end). */
  datatype SetArgs = SetArgs(index: nat, value: Val)

  /** `_setvalue(index, v)`: grow with `""` cells up to `index`, then write. */
  function SetValue(a: AVArray, index: nat, v: Val): (r: Applied<SetArgs>)
    requires Valid(a)
    ensures Valid(r.arr)
    ensures |r.arr.values| == if index < |a.values| then |a.values| else index + 1
    ensures r.arr.values[index] == v
    ensures forall k :: 0 <= k < |a.values| && k != index ==> r.arr.values[k] == a.values[k]
    ensures forall k :: |a.values| <= k < index ==> r.arr.values[k] == Empty
    ensures forall k :: 0 <= k < |a.classes| ==> r.arr.classes[k] == a.classes[k]
    ensures forall k :: |a.classes| <= k < |r.arr.classes| ==> r.arr.classes[k] == {}
    ensures r.undo.index == index
    ensures index < |a.values| ==> r.undo.value == a.values[index]
    ensures index >= |a.values| ==> r.undo.value == Undef
  {
    var prior := Value(a, index);
    var grown := Backfill(a, index + 1);
    Applied(AVArray(grown.values[index := v], grown.classes), SetArgs(index, prior))
  }

  /** For an index inside the array, writing back the returned old value
      restores the array exactly. */
  lemma SetValueUndoInBounds(a: AVArray, index: nat, v: Val)
    requires Valid(a) && index < |a.values|
    ensures var r := SetValue(a, index, v);
            SetValue(r.arr, r.undo.index, r.undo.value).arr == a
  {
  }

  /** Undoing a growing write does not shrink the array: the original
      positions are restored, the backfilled cells stay `""`, and the written
      index holds `undefined`, which is what reading it gave before. */
  lemma SetValueUndoGrowing(a: AVArray, index: nat, v: Val)
    requires Valid(a) && index >= |a.values|
    ensures var r := SetValue(a, index, v);
            var u := SetValue(r.arr, r.undo.index, r.undo.value).arr;
            && Valid(u)
            && |u.values| == index + 1
            && u.values[..|a.values|] == a.values
            && u.classes[..|a.classes|] == a.classes
            && (forall k :: |a.values| <= k < index ==> u.values[k] == Empty)
            && u.values[index] == Undef
            && Value(u, index) == Value(a, index)
  {
  }

  /** `isEmpty()`: every cell holds exactly `""`. */
  method IsEmpty(a: AVArray) returns (r: bool)
    ensures r <==> forall i :: 0 <= i < Size(a) ==> Value(a, i) == Empty
    ensures Valid(a) ==> (r <==> forall v :: v in a.values ==> v == Empty)
    ensures Size(a) == 0 ==> r
  {
    var i := 0;
    while i < Size(a)
      invariant 0 <= i <= Size(a)
      invariant forall k :: 0 <= k < i ==> Value(a, k) == Empty
    {
      if Value(a, i) != Empty {
        assert Valid(a) ==> a.values[i] in a.values;
        return false;
      }
      i := i + 1;
    }
    if Valid(a) {
      forall v | v in a.values
        ensures v == Empty
      {
        var k :| 0 <= k < |a.values| && a.values[k] == v;
        assert Value(a, k) == Empty;
      }
    }
    return true;
  }

  /** A saved state: the values and the rendered cells with their classes. */
  datatype Snapshot = Snapshot(values: seq<Val>, classes: seq<set<string>>)

  /** `state()`: a copy of the values and of the rendered cells. */
  function State(a: AVArray): (s: Snapshot)
    ensures |s.values| == |a.values| && |s.classes| == Size(a)
    ensures Restore(a, s) == a
  {
    Snapshot(a.values, a.classes)
  }

  /** `state(s)`: the rendered cells are replaced wholesale by the saved ones;
      the first `|s.values|` values are overwritten and any later ones kept.
      A snapshot with fewer cells than the array has values leaves more
      values than cells, so the result need not be `Valid`. */
  function Restore(a: AVArray, s: Snapshot): (r: AVArray)
    ensures r.classes == s.classes
    ensures |r.values| == if |s.values| < |a.values| then |a.values| else |s.values|
    ensures forall k :: 0 <= k < |s.values| ==> r.values[k] == s.values[k]
    ensures forall k :: |s.values| <= k < |a.values| ==> r.values[k] == a.values[k]
  {
    if |s.values| < |a.values| then AVArray(s.values + a.values[|s.values|..], s.classes)
    else AVArray(s.values, s.classes)
  }

  /** Restoring a state twice is the same as restoring it once. */
  lemma RestoreIdempotent(a: AVArray, s: Snapshot)
    ensures Restore(Restore(a, s), s) == Restore(a, s)
  {
  }

  /** Restoring a state saved from an array of the same size keeps the
      representation invariant and the size. */
  lemma RestoreSameSize(a: AVArray, b: AVArray)
    requires Valid(a) && Valid(b) && Size(a) == Size(b)
    ensures Valid(Restore(a, State(b))) && Size(Restore(a, State(b))) == Size(a)
    ensures Restore(a, State(b)) == b
  {
  }
}
