/** The optional value used wherever the clinic's records may lack a field
    (JavaScript `undefined`) or a computation yields no number (`NaN`). */
module Wrappers {

  datatype Option<+T> = None | Some(value: T) {

    /** The carried value, or `default` when there is none (JavaScript `x || default`
        when every present value is truthy). */
    function GetOr(default: T): T {
      match this
      case Some(v) => v
      case None => default
    }
  }
}
