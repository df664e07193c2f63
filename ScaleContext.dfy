/**
 * The bottle scale's settings context: the scale's API address and the CO2 weight the
 * bottle held when it was put on, shared by the home and settings views.
 */
module ScaleContexts {
  /** The JavaScript values the context holds: the initial empty address and number 0, and
      the text of a form field that the settings view saves. */
  datatype JsValue = Undefined | Number(n: real) | Text(s: string)

  datatype ContextState = ContextState(apiAddress: JsValue, containedCo2: JsValue)

  /** The provider's initial state. */
  const Initial := ContextState(Text(""), Number(0.0))

  /** `setApiAddress`. */
  function WithApiAddress(c: ContextState, v: JsValue): (r: ContextState)
    ensures r.apiAddress == v && r.containedCo2 == c.containedCo2
  {
    c.(apiAddress := v)
  }

  /** `setContainedCo2`. */
  function WithContainedCo2(c: ContextState, v: JsValue): (r: ContextState)
    ensures r.containedCo2 == v && r.apiAddress == c.apiAddress
  {
    c.(containedCo2 := v)
  }

  /** Setting a field twice to the same value is the same as setting it once. */
  lemma SettersAreIdempotent(c: ContextState, v: JsValue)
    ensures WithApiAddress(WithApiAddress(c, v), v) == WithApiAddress(c, v)
    ensures WithContainedCo2(WithContainedCo2(c, v), v) == WithContainedCo2(c, v)
  {
  }

  /** The two setters touch different fields, so their order does not matter. */
  lemma SettersCommute(c: ContextState, a: JsValue, w: JsValue)
    ensures WithContainedCo2(WithApiAddress(c, a), w) == WithApiAddress(WithContainedCo2(c, w), a)
  {
  }

  /** `ScaleContextProvider`: the component state behind the context. */
  class ScaleContextProvider {
    var apiAddress: JsValue
    var containedCo2: JsValue

    function State(): ContextState
      reads this
    {
      ContextState(apiAddress, containedCo2)
    }

    /** An empty address and no CO2. */
    constructor ()
      ensures State() == Initial
    {
      apiAddress := Text("");
      containedCo2 := Number(0.0);
    }

    method SetApiAddress(v: JsValue)
      modifies this
      ensures State() == WithApiAddress(old(State()), v)
    {
      apiAddress := v;
    }

    method SetContainedCo2(v: JsValue)
      modifies this
      ensures State() == WithContainedCo2(old(State()), v)
    {
      containedCo2 := v;
    }
  }
}
