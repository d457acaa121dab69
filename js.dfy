/** The few JavaScript values the CodeMeta class relies on: optional
    properties, the truthiness test applied to `string | undefined`, and
    arrays, which are heap objects that can be shared and pushed onto. */
module Js {

  /** An optional property (`x?: T`): `None` is `undefined`. */
  datatype Option<T> = None | Some(value: T)

  /** JavaScript truthiness of a `string | undefined` value: both
      `undefined` and the empty string are falsy. */
  predicate Truthy(s: Option<string>)
  {
    s.Some? && s.value != ""
  }

  /** A JavaScript array. Two variables may denote the same array, so it is
      an object; its contents are the sequence `elems`. */
  class JsArray<T> {
    var elems: seq<T>

    /** The array literal `[...elems]`: a new array holding a copy of `elems`. */
    constructor (elems: seq<T>)
      ensures this.elems == elems
    {
      this.elems := elems;
    }

    /** `push(x)`: appends `x` and returns the new length. */
    method Push(x: T) returns (length: nat)
      modifies this
      ensures elems == old(elems) + [x]
      ensures length == |elems|
    {
      elems := elems + [x];
      length := |elems|;
    }
  }
}
