/** JavaScript values as they occur in the cells of a JSAV array. */
module JsValues {

  /** A cell value. JavaScript numbers are modelled as integers; `Null` and
      `Undef` stand for `null` and `undefined`, which the array can hold after
      an undo of a growing write (see `Arrays.SetValue`). */
  datatype Val = Str(s: string) | Num(n: int) | Null | Undef

  /** The empty sentinel `""`: a cell that holds no value. */
  const Empty: Val := Str("")

  /** `null` or `undefined`, the values that initialisation replaces by `""`. */
  predicate Nullish(v: Val) {
    v.Null? || v.Undef?
  }

  /** An optional value, used for option keys that may be absent and for
      steps that may not be recorded. */
  datatype Option<T> = None | Some(value: T)
}
