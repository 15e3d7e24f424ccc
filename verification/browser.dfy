/** The router surface the pages use: `location.state` and `navigate(path, {state, replace})`. */
module Browser {
  import opened Wrappers

  /** A `location.state` object with string-valued fields; `None` is `null`, and a
      key missing from the map reads as `undefined`. */
  type NavState = Option<map<string, string>>

  /** One call of `navigate(path, { state, replace })`. */
  datatype Nav = Nav(path: string, state: NavState, replace: bool)

  /** `state?.key` */
  function Field(state: NavState, key: string): (r: Option<string>)
    ensures r.Some? <==> state.Some? && key in state.value
    ensures r.Some? ==> r.value == state.value[key]
  {
    if state.Some? && key in state.value then Some(state.value[key]) else None
  }

  /** `state?.key` is truthy: present and not the empty string. */
  predicate Truthy(state: NavState, key: string) {
    Field(state, key).Some? && Field(state, key).value != ""
  }
}
