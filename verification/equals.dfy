/** `equals`: comparison of an array with a plain list of values or with
    another array, by values and, on request, by computed style properties.
    JavaScript's loose `==` between values is modelled as structural
    equality of `Val`. */
module Equality {
  import opened JsValues
  import opened Arrays

  /** The `css` option: one property name, or a list of them. */
  datatype Css = Prop(name: string) | Props(names: seq<string>)

  /** The options argument: absent, or an object whose `value` key may be
      absent, true or false, and whose `css` key may be absent. */
  datatype EqOptions = NoOptions | Options(value: Option<bool>, css: Option<Css>)

  /** What an array is compared with. */
  datatype Other = Plain(vals: seq<Val>) | Jsav(arr: AVArray)

  /** Computed styles: the value of a style property on the i-th cell. The
      styles come from the renderer, so they are a parameter here. */
  type Styles = (nat, string) -> string

  /** `css(i, p)` read on one cell: the computed style of an existing cell,
      and `undefined` for an index with no cell (an empty jQuery set). */
  function CssRead(a: AVArray, st: Styles, i: nat, p: string): Val {
    if i < Size(a) then Str(st(i, p)) else Undef
  }

  /** The property names a `css` option asks for. */
  function CssNames(css: Css): seq<string> {
    match css
    case Prop(p) => [p]
    case Props(ps) => ps
  }

  /** Values are compared unless `value` is present and false. */
  predicate ComparesValues(opts: EqOptions) {
    opts.NoOptions? || opts.value.None? || opts.value.value
  }

  /** The css properties the options ask to compare (none without options). */
  function CssOf(opts: EqOptions): Option<Css> {
    if opts.NoOptions? then None else opts.css
  }

  /** Every position of the list holds what the array reads at that index. */
  predicate ValuesAgree(a: AVArray, vs: seq<Val>) {
    forall i :: 0 <= i < |vs| ==> Value(a, i) == vs[i]
  }

  /** The two arrays read the same values at every one of the first `n` cells. */
  predicate ArraysAgree(a: AVArray, b: AVArray, n: nat) {
    forall i :: 0 <= i < n ==> Value(a, i) == Value(b, i)
  }

  /** The named properties agree on the first `n` cells of both arrays. */
  predicate StylesAgree(st: Styles, st': Styles, names: seq<string>, n: nat) {
    forall p, i :: p in names && 0 <= i < n ==> st(i, p) == st'(i, p)
  }

  /** The array branch, shared by both versions of `equals`. */
  predicate EqualsArray(a: AVArray, st: Styles, b: AVArray, st': Styles, opts: EqOptions) {
    && Size(a) == Size(b)
    && (ComparesValues(opts) ==> ArraysAgree(a, b, Size(a)))
    && (CssOf(opts).Some? ==> StylesAgree(st, st', CssNames(CssOf(opts).value), Size(a)))
  }

  /** `equals` as written. Against a plain list with options holding `css`,
      the loop bound `len` is never assigned, so the loop runs zero times and
      the answer is always true. */
  function EqualsAsWritten(a: AVArray, st: Styles, other: Other, st': Styles, opts: EqOptions): (r: bool)
    ensures other.Plain? && opts.Options? && opts.css.Some? ==> r
  {
    match other
    case Plain(vs) =>
      if opts.NoOptions? then Size(a) == |vs| && ValuesAgree(a, vs)
      else opts.css.Some?
    case Jsav(b) => EqualsArray(a, st, b, st', opts)
  }

  /** The plain-list css branch with its loop bounded by the list's length:
      each entry is compared with what `css` reads at that index. A list of
      names turns `css(i, names)` into a setter call, whose result never
      equals a list entry, so only an empty list matches then. */
  predicate PlainCssMatches(a: AVArray, st: Styles, vs: seq<Val>, css: Css) {
    match css
    case Prop(p) => forall i :: 0 <= i < |vs| ==> CssRead(a, st, i, p) == vs[i]
    case Props(_) => |vs| == 0
  }

  /** `equals` with the plain-list css branch corrected; every other branch
      is the code as written. */
  function Equals(a: AVArray, st: Styles, other: Other, st': Styles, opts: EqOptions): (r: bool)
    ensures other.Jsav? && r ==> Size(a) == Size(other.arr)
    ensures other.Plain? && opts.NoOptions? && r ==> Size(a) == |other.vals|
    ensures other.Plain? && opts.Options? && opts.css.None? ==> !r
  {
    if other.Plain? && opts.Options? && opts.css.Some? then
      PlainCssMatches(a, st, other.vals, opts.css.value)
    else
      EqualsAsWritten(a, st, other, st', opts)
  }

  /** The correction touches only the plain-list css branch: on every other
      input the corrected and the as-written `equals` give the same answer. */
  lemma EqualsAgreesAsWritten(a: AVArray, st: Styles, other: Other, st': Styles, opts: EqOptions)
    requires !(other.Plain? && opts.Options? && opts.css.Some?)
    ensures Equals(a, st, other, st', opts) == EqualsAsWritten(a, st, other, st', opts)
  {
  }

  /** Without options, an array equals a plain list exactly when its values
      are that list. */
  lemma EqualsPlainValues(a: AVArray, st: Styles, vs: seq<Val>, st': Styles)
    requires Valid(a)
    ensures Equals(a, st, Plain(vs), st', NoOptions) <==> a.values == vs
  {
  }

  /** When values are compared and no css is asked for, two arrays are equal
      exactly when their value lists are. */
  lemma EqualsArrayValues(a: AVArray, st: Styles, b: AVArray, st': Styles, opts: EqOptions)
    requires Valid(a) && Valid(b)
    requires ComparesValues(opts) && CssOf(opts).None?
    ensures Equals(a, st, Jsav(b), st', opts) <==> a.values == b.values
  {
    if Equals(a, st, Jsav(b), st', opts) {
      forall i | 0 <= i < |a.values|
        ensures a.values[i] == b.values[i]
      {
        assert Value(a, i) == Value(b, i);
      }
    }
  }

  /** With `value: false` and no css, only the sizes are compared. */
  lemma EqualsArraySizeOnly(a: AVArray, st: Styles, b: AVArray, st': Styles)
    ensures Equals(a, st, Jsav(b), st', Options(Some(false), None)) <==> Size(a) == Size(b)
  {
  }

  /** Comparing arrays is symmetric, and every array equals itself under its
      own styles. */
  lemma EqualsArraySymmetric(a: AVArray, st: Styles, b: AVArray, st': Styles, opts: EqOptions)
    ensures Equals(a, st, Jsav(b), st', opts) <==> Equals(b, st', Jsav(a), st, opts)
    ensures Equals(a, st, Jsav(a), st, opts)
  {
  }

  /** The as-written plain-list css branch accepts an empty array against a
      one-element list, whatever the styles. */
  lemma EqualsAsWrittenCssIgnoresList(st: Styles, st': Styles)
    ensures var a := AVArray([], []);
            var opts := Options(None, Some(Prop("color")));
            && EqualsAsWritten(a, st, Plain([Num(1)]), st', opts)
            && !Equals(a, st, Plain([Num(1)]), st', opts)
  {
    var a := AVArray([], []);
    assert CssRead(a, st, 0, "color") == Undef;
  }

  /** With the loop bound fixed, a single css property is compared with the
      list entry by entry: an entry at a cell must be that cell's style, and
      an entry past the last cell must be `undefined`. */
  lemma EqualsPlainCss(a: AVArray, st: Styles, vs: seq<Val>, st': Styles, v: Option<bool>, p: string)
    ensures Equals(a, st, Plain(vs), st', Options(v, Some(Prop(p))))
            <==> && (forall i :: 0 <= i < |vs| && i < Size(a) ==> vs[i] == Str(st(i, p)))
                 && (forall i :: Size(a) <= i < |vs| ==> vs[i] == Undef)
  {
  }

  /** With the loop bound fixed, a list holding no `undefined` matches the
      styles only if it is no longer than the array. */
  lemma EqualsPlainCssBounded(a: AVArray, st: Styles, vs: seq<Val>, st': Styles, v: Option<bool>, p: string)
    requires forall i :: 0 <= i < |vs| ==> vs[i] != Undef
    ensures Equals(a, st, Plain(vs), st', Options(v, Some(Prop(p)))) ==> |vs| <= Size(a)
  {
    if |vs| > Size(a) {
      assert vs[Size(a)] != CssRead(a, st, Size(a), p);
    }
  }
}
