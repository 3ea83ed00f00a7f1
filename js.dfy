/** The handful of JavaScript values the film update script handles.

    A cell of a parsed CSV row is either a string or missing (`undefined`);
    the `|| null` defaults of the transformation introduce `null`. */
module Js {

  datatype Value = Undefined | Null | Str(s: string)

  /** JavaScript truthiness of these values: only a non-empty string is truthy. */
  predicate Truthy(v: Value) {
    v.Str? && v.s != ""
  }

  /** JavaScript `a || b`: the left operand when it is truthy, the right one otherwise. */
  function Or(a: Value, b: Value): Value {
    if Truthy(a) then a else b
  }

  /** A JavaScript variable that may still be `undefined` (None). */
  datatype Option<T> = None | Some(value: T)
}
