/**
 * The slice of JavaScript value semantics the login form relies on:
 * a tri-state flag that is `null`, `true` or `false`, its truthiness,
 * and the short-circuiting `&&` operator, which yields one of its operands.
 */
module JsLogic {
  import opened Wrappers

  /** `None` is `null`, `Some(b)` is the boolean `b`. */
  type TriBool = Option<bool>

  /** JavaScript truthiness restricted to `null`, `true` and `false`: only `true` is truthy. */
  predicate Truthy(t: TriBool) {
    t == Some(true)
  }

  /**
   * `a && b`: yields `a` when `a` is falsy and `b` otherwise. The result is
   * always one of the two operands, and it is truthy exactly when both are.
   */
  function And(a: TriBool, b: TriBool): (r: TriBool)
    ensures r == a || r == b
    ensures Truthy(r) <==> Truthy(a) && Truthy(b)
  {
    if Truthy(a) then b else a
  }

  /** The complete value table of `&&` over `null`, `true` and `false`. */
  lemma AndTable(a: TriBool, b: TriBool)
    ensures And(a, b) == Some(true) <==> a == Some(true) && b == Some(true)
    ensures And(a, b) == None <==> a == None || (a == Some(true) && b == None)
    ensures And(a, b) == Some(false) <==> a == Some(false) || (a == Some(true) && b == Some(false))
  {
  }
}
