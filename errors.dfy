/** JavaScript errors as the handlers see them: a `name` and a `message`. */
module Errors {

  datatype Error = Error(name: string, message: string)

  /** The message every handler uses for a missing user. */
  const UserNotFound := "Kullanıcı bulunamadı"

  /** `new Error(message)`. */
  function Thrown(message: string): Error { Error("Error", message) }

  /** Raised by the store when an insert or update would duplicate a user's email. */
  const UniqueConstraint := Error("SequelizeUniqueConstraintError", "Validation error")

  /** Raised by the store when a reset row would reference a missing user. */
  const ForeignKeyConstraint := Error("SequelizeForeignKeyConstraintError", "Cannot add or update a child row: a foreign key constraint fails")

  /** Raised by the query builder when a `where` attribute is `undefined`. */
  function UndefinedWhere(attribute: string): Error
  {
    Error("Error", "WHERE parameter \"" + attribute + "\" has invalid \"undefined\" value")
  }

  /** Raised when a `null` value is dereferenced. */
  function NullDereference(property: string): Error
  {
    Error("TypeError", "Cannot read properties of null (reading '" + property + "')")
  }
}
