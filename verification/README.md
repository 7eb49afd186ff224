# JSAV array: logical state model

This project models the logical core of the JSAV array data structure
(`src/array.js`) with the page rendering removed. An array is modelled as two
parts:

- `values` mirrors the `_values` list.
- `classes` holds one class set per rendered cell.

`size()` counts the rendered cells, so it is `|classes|`. `Arrays.Valid`
says there is one value per cell. Initialisation establishes it and the
three raw mutators keep it. Restoring a state with fewer cells than the
array has values breaks it (see `Arrays.Restore`).

The raw mutators `swap`, `_setvalue` and `toggleClass` are pure functions.
Each returns the new state and the argument list that the animation wrapper
records. Passing that list back to the same mutator undoes the call. The
model also covers:

- `initialize` (value normalisation);
- reads through `value`, and `isEmpty`;
- `equals` against a plain list or another array;
- the `state()` / `state(s)` snapshot pair;
- `addClass`, `removeClass` and `hasClass`;
- the highlight aliases `highlight`, `unhighlight` and `isHighlight`.

A cell value is `JsValues.Val`: a string, a number (modelled as an integer),
`null` or `undefined`. `""` is the empty sentinel. `undefined` is a value of
its own, for two reasons:

- `_setvalue` returns `undefined` as the old value of an index past the end.
- Passing that back writes `undefined` into the cell.

So undoing a growing write leaves the array grown, with `undefined` at the
written index.

Modules:

- `JsValues` (values.dfy): the value type.
- `Arrays` (arrays.dfy): state, reads, `initialize`, `swap`, `_setvalue`,
  `isEmpty` and `state`.
- `Classes` (classes.dfy): the class operations and the highlight aliases.
- `Equality` (equals.dfy): `equals`.
- `Undo` (undo.dfy): the three raw mutators as one operation type. It proves
  that undoing a run of in-bounds calls, last first, restores the array.

## Model

| member | source | states |
|---|---|---|
| `Arrays.Size` | src/array.js:133 | `size()` counts the rendered cells. For a valid array this is the number of values. |
| `Arrays.Value` | src/array.js:134-137 | For a valid array, a read at an existing cell gives that cell's value. Any other read gives `undefined`. A defined result is always one of the array's values. |
| `Arrays.Initialize` | src/array.js:178-184 | One cell per input entry, none with a class. `null`/`undefined` entries become `""`; every other entry is copied unchanged. |
| `Arrays.Swap` | src/array.js:112-120 | The two positions exchange values. All other positions and every class set stay the same. The values are a permutation of the old ones. The returned arguments are the swap's own indices. |
| `Arrays.SwapUndo` | src/array.js:112-120 | Swapping again with the returned arguments restores the original array. |
| `Arrays.SwapSameIndex` | src/array.js:112-120 | `swap(i, i)` leaves the array unchanged. |
| `Arrays.Backfill` | src/array.js:159-164 | The growth loop appends `""` cells without classes until the index exists. Existing cells are untouched. |
| `Arrays.SetValue` | src/array.js:156-173 | The new length is the larger of the old length and `index+1`. `values[index]` is the new value. Earlier positions are unchanged. The backfilled positions hold `""` and their cells have no classes. The returned old value is the previous value, or `undefined` past the end. |
| `Arrays.SetValueUndoInBounds` | src/array.js:156-172 | For an index inside the array, writing the returned old value back restores the array exactly. |
| `Arrays.SetValueUndoGrowing` | src/array.js:156-172 | Undoing a growing write does not shrink the array. The original prefix is restored, the backfilled cells stay `""`, and the written index holds `undefined`. Reading that index gives the same result as before the write. |
| `Arrays.IsEmpty` | src/array.js:344-349 | True iff every cell reads `""`. For a valid array this means every value is `""`. It is true for size 0. |
| `Arrays.State` | src/array.js:238-251 | The snapshot has as many values and cells as the array. Restoring it leaves the array unchanged. |
| `Arrays.Restore` | src/array.js:238-243 | The class sets become the saved ones. The first `\|s.values\|` values become the saved values, and later values are kept. |
| `Arrays.RestoreIdempotent` | src/array.js:238-243 | Restoring the same state twice equals restoring it once. |
| `Arrays.RestoreSameSize` | src/array.js:238-251 | Restoring the state of another valid array of the same size yields exactly that array. It stays valid and keeps its size. |
| `Classes.ToggleClass` | src/array.js:313-321 | On every selected cell the class flips and the other classes stay the same. Unselected cells and all values are unchanged. The returned arguments are the selection and the class. |
| `Classes.ToggleUndo` | src/array.js:313-321 | Toggling again with the returned arguments restores the array. |
| `Classes.AddClass` | src/array.js:322-329 | Each selected cell gains the class and unselected cells are unchanged. Only cells lacking the class are toggled. No step is recorded iff every selected cell already has the class, and then the array is unchanged. |
| `Classes.RemoveClass` | src/array.js:330-337 | Each selected cell loses the class and unselected cells are unchanged. Only cells having the class are toggled. No step is recorded iff no selected cell has the class, and then the array is unchanged. |
| `Classes.AddClassIdempotent` | src/array.js:322-329 | A second `addClass` with the same arguments changes nothing and records nothing. |
| `Classes.RemoveClassIdempotent` | src/array.js:330-337 | A second `removeClass` with the same arguments changes nothing and records nothing. |
| `Classes.AddClassUndo` | src/array.js:322-329 | The toggle step recorded by `addClass` is undone by toggling its arguments. |
| `Classes.RemoveClassUndo` | src/array.js:330-337 | The toggle step recorded by `removeClass` is undone by toggling its arguments. |
| `Classes.HasClass` | src/array.js:338-341 | True iff some selected, existing cell has the class. This is jQuery's any-element `hasClass`. |
| `Classes.IsHighlight` | src/array.js:50-52 | True iff the index is an existing cell whose class set holds `jsavhighlight`. |
| `Classes.AddRemoveHasClass` | src/array.js:338-341 | After `addClass`, `hasClass` is true for every selected cell. After `removeClass`, `hasClass` is false for the whole selection. |
| `Classes.Highlight` | src/array.js:50-57 | After `highlight`, a cell is highlighted iff it was selected or was already highlighted. Values are unchanged. |
| `Classes.Unhighlight` | src/array.js:50-62 | After `unhighlight`, a cell is highlighted iff it was highlighted before and was not selected. Values are unchanged. |
| `Equality.EqualsAsWritten` | src/array.js:269-277 | As written: against a plain list, options holding `css` always give true. |
| `Equality.Equals` | src/array.js:252-312 | Corrected `equals`: only the plain-list css branch is corrected (see "## Findings"), and every other branch is the as-written code. A true answer implies equal sizes, both against an array and against a plain list without options. Options without `css` against a plain list give false. |
| `Equality.EqualsAgreesAsWritten` | src/array.js:258-311 | Outside the plain-list css branch, the corrected and the as-written `equals` give the same answer. So the value-path lemmas below hold for the code as written. |
| `Equality.EqualsPlainValues` | src/array.js:258-268 | Without options, equality with a plain list holds iff the array's values are exactly that list. |
| `Equality.EqualsArrayValues` | src/array.js:279-289 | When values are compared and no css is asked for, two valid arrays are equal iff their value lists are equal. |
| `Equality.EqualsArraySizeOnly` | src/array.js:280-289 | With `value: false` and no css, only the sizes are compared. |
| `Equality.EqualsArraySymmetric` | src/array.js:279-307 | Comparing two arrays is symmetric, and an array equals itself under its own styles. |
| `Equality.EqualsAsWrittenCssIgnoresList` | src/array.js:270-276 | An empty array "equals" the list `[1]` under a `css` option as written. The corrected version says it does not. |
| `Equality.EqualsPlainCss` | src/array.js:270-276 | Corrected branch, spelled out per entry (the property with content is `Equality.EqualsPlainCssBounded`): with one css property, equality with a plain list holds iff two things are true. Every entry at an existing cell is that cell's style value. Every entry past the last cell is `undefined`, which is what `css` reads on a missing cell. |
| `Equality.EqualsPlainCssBounded` | src/array.js:270-276 | Corrected: a list without `undefined` entries can match the styles only if it is no longer than the array. |
| `Undo.Apply` | src/array.js:112-173 | A swap or an in-range write keeps validity and size and leaves the classes unchanged. A toggle leaves the values unchanged. The returned undo call is in range too. |
| `Undo.Run` | src/array.js:112-173 | Running in-range calls keeps validity and size. It returns one undo call per call, and each is in range. |
| `Undo.ApplyUndo` | src/array.js:112-172 | Applying a call's returned undo call restores the array. The toggle case is `Classes.ToggleUndo`. |
| `Undo.RunAppend` | src/array.js:112-173 | Running two lists of calls in turn equals running their concatenation. |
| `Undo.RunUndo` | src/array.js:112-173 | Undoing a run of in-range calls, with the recorded undo calls applied last first, restores values and class sets exactly. |

## Left out

- Rendering and jQuery plumbing are not modelled: `css`, `_setcss`, `_setarraycss`, the HTML templates, `_newindex` markup, `layout` and the layout functions (`horizontalArray`, `verticalArray`, `barArray`, `setArrayWidth`). They only drive the page and use floating-point scaling.
- `initializeFromElement` and `clone` are not modelled. They parse or build page elements, and `value2type` is not part of this model.
- Animation branches (`_shouldAnimate`, `SPEED`, `effects.swap`) are not modelled. They are visual only.
- The animation wrapper and the step log are not modelled. Only the inverse argument lists the raw mutators return are modelled, and how they are recorded and replayed is not.
- `Arrays.Swap` leaves the class sets unchanged. Any effect of `effects.swap` on the cells' decoration is decided in a file that is not part of this model.
- `Arrays.Swap` requires both indices to be in range. Out of range, the JavaScript code writes holes into `_values` without adding cells.
- `Arrays.SetValue` takes a natural index and requires the one-value-per-cell invariant. A negative index in JavaScript sets a non-element property, which is not modelled. After a restore that left more values than cells, the JavaScript `_setvalue` still runs. It returns the stale value past the last cell as the old value. That case is not modelled.
- `Arrays.Restore` does not promise `Valid`. A snapshot with fewer cells than the array has values leaves surplus values behind the last cell, because the source replaces all cells but overwrites only the first values. `Arrays.RestoreSameSize` covers the same-size case.
- `Classes.ToggleUndo` is proved for a selection given as a fixed set of indices. The source also accepts a function selector. `toggleClass` returns that function unevaluated, unlike `css`, `addClass` and `removeClass`, which turn it into indices first. On undo the function is evaluated again against the toggled classes, so it can select other cells, and the undo is then not promised.
- `Classes.ToggleClass` and the other class operations treat a class name as a single set element. jQuery splits a name on whitespace and toggles each token. It ignores the empty name. The selectors built for `addClass` and `removeClass` work only for one non-empty token. The model is faithful only for such names, as `jsavhighlight` is.
- `Undo.RunUndo` covers only calls that address existing cells. For a growing write, `Arrays.SetValueUndoGrowing` states what undo does instead.
- Selections are sets of indices, and indices past the last cell select nothing. How `getIndices` and `normalizeIndices` turn other selector forms into such a set is not part of this model.
- Every value span also carries the structural class `jsavvalue` from the template. The class sets here hold only the other classes.
- Numbers are integers. JavaScript's floating-point numbers are not modelled. The loose `==` in `equals` is modelled as structural equality on `Val`. That differs from the source in two ways: string/number coercion, and `null == undefined` being true. For example, a cell holding `null` compared with a list entry `undefined` is equal in the source but not in the model.
- Computed styles for the `css` options of `equals` are a parameter function, because they come from the renderer.
- `Equality.Equals`: against a plain list, a list of css names makes the code call the `css` setter path, whose return value is decided in anim.js. The model answers true there only for an empty list.
- Event binding (`eventhandler`, `on`, `logEvent`) is not modelled; it is UI plumbing. The same goes for `toggleArrow` and `toggleLine`, which are page geometry and marker elements.
- `state(s)` restores the rendered cells from the saved markup. The model treats that markup as the saved class sets.

## Findings

| source | as written | input that shows it | evidently intended | confidence | as-written member | corrected member |
|---|---|---|---|---|---|---|
| src/array.js:270-276 | In the plain-list `css` branch, `len` is never assigned, so `i < len` is false at once and `equals` returns true. | An empty array compared with `[1]` and options `{css: "color"}` gives true. | Loop over the list's length. Compare each entry with what `css` reads at that index: the style of an existing cell, `undefined` past the last cell. | high; not executed | `Equality.EqualsAsWritten` (shown by `Equality.EqualsAsWrittenCssIgnoresList`) | `Equality.Equals` (properties `Equality.EqualsPlainCss`, `Equality.EqualsPlainCssBounded`) |
