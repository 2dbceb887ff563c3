/** The one-expression helpers of `src/utilities/helpers.js`. */
module Helpers {
  import opened JsValue
  import opened Checks

  /**
   * `returnIfValue(query, def)`: the query unless it is `''`, `undefined`,
   * `null` or `0`. It behaves like `query || def` except that `false` is kept.
   */
  function ReturnIfValue(query: Value, def: Value): (r: Value)
    ensures query != Bool(false) ==> r == Or(query, def)
    ensures query == Bool(false) ==> r == query
    ensures r == query || r == def
  {
    if IsValue(query) then query else def
  }

  /** `I(query)` */
  function I(query: Value): (r: Value)
    ensures r == query
  {
    query
  }

  /** `toggle(query)`: `!query` */
  function Toggle(query: Value): (r: bool)
    ensures r <==> !Truthy(query)
  {
    !Truthy(query)
  }

  /** Toggling twice gives back any boolean, and the truthiness of any other value. */
  lemma ToggleTwice(query: Value)
    ensures Toggle(Bool(Toggle(query))) == Truthy(query)
    ensures query.Bool? ==> Bool(Toggle(Bool(Toggle(query)))) == query
  {
  }

  /** The empty string and zero fall back to the default. */
  lemma ReturnIfValueFallsBack(def: Value)
    ensures ReturnIfValue(Str(""), def) == def
    ensures ReturnIfValue(Num(0), def) == def
    ensures ReturnIfValue(Bool(false), def) == Bool(false)
  {
  }
}
