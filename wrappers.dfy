/** Optional values and results: `null`/`undefined` and thrown exceptions of the service. */
module Wrappers {

  /** A nullable or optional value. */
  datatype Option<+T> = None | Some(value: T) {

    /** The value, or `default` when absent: the `??` operator. */
    function GetOr(default: T): T {
      match this
      case Some(v) => v
      case None => default
    }
  }

  /** The outcome of an operation that either returns a value or throws an error. */
  datatype Result<+R, +E> = Success(value: R) | Failure(error: E)
}

/** The exceptions the services throw to their HTTP callers. */
module Errors {

  /** An HTTP exception with the message the service attaches to it. */
  datatype Error =
    | Unauthorized(message: string)
    | BadRequest(message: string)
      /** A write rejected by a unique index of the table (a database error, not an HTTP one). */
    | UniqueViolation
      /** A `TypeError` from reading a field of a relation the query left empty; answered with status 500. */
    | MissingRelation

  // Messages used by the services; accents are written as escapes.
  const InvalidCredentials := "Credenciales inv\U{00E1}lidas"
  const InvalidRefreshToken := "Refresh token inv\U{00E1}lido"
  const NotARefreshToken := "Token no es de tipo refresh"
  const InvalidSession := "Sesi\U{00F3}n inv\U{00E1}lida o expirada"
  /** The default message of an `UnauthorizedException` thrown without one. */
  const DefaultUnauthorized := "Unauthorized"
  const CannotUpdateOtherUser := "No puedes actualizar este usuario"
  const UserNotFound := "Usuario no encontrado"
  const WrongCurrentPassword := "Contrase\U{00F1}a actual inv\U{00E1}lida"
}
