/** Values shared by every part of the model: optional values, the closed
    set of roles and the status-plus-payload reply of a route handler. */
module Common {

  datatype Option<T> = None | Some(value: T) {
    /** The value, or the default when there is none. */
    function GetOr(default: T): T {
      if Some? then value else default
    }
  }

  /** The three roles of the system, as a closed variant rather than strings. */
  datatype Role = Admin | User | StoreOwner

  /** One failed validation rule: the request field and the rule's message. */
  datatype FieldError = FieldError(field: string, message: string)

  /** What a route handler sends back: a success with its payload, a failure
      with a message, or the 400 reply listing every failed validation rule. */
  datatype Reply<T> =
    | Ok(code: nat, value: T)
    | Fail(code: nat, message: string)
    | Invalid(errors: seq<FieldError>)
  {
    function Status(): nat {
      match this
      case Ok(c, _) => c
      case Fail(c, _) => c
      case Invalid(_) => 400
    }
  }

  function Min(a: nat, b: nat): nat {
    if a <= b then a else b
  }
}
