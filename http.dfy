/** The HTTP outcomes the handlers and guards produce. */
module Http {

  /** The status codes the modelled handlers answer with (500s are not modelled). */
  datatype Status = Ok | Created | BadRequest | Unauthorized | Forbidden | NotFound {
    function Code(): nat {
      match this
      case Ok => 200
      case Created => 201
      case BadRequest => 400
      case Unauthorized => 401
      case Forbidden => 403
      case NotFound => 404
    }

    predicate Success() {
      this == Ok || this == Created
    }
  }

  /** What an Express middleware does: pass on to `next`, or answer itself. */
  datatype Decision = Next | Respond(status: Status, message: string)
}
