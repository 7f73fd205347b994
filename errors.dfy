/**
 * The errors the handlers raise, with the HTTP status and the detail text each
 * one is reported with.
 */
module Errors {

  datatype Error =
    | TokenRejected     // the token does not decode: bad signature, malformed or expired
    | InvalidToken      // the token decodes but carries no subject
    | UserNotFound      // the token's subject is not in the user table
    | AdminOnly         // the caller's role is not "admin"
    | WrongCredentials  // login with an unknown user or a wrong password
    | UserExists        // registration of a username that is taken
    | ItemNotFound      // no item row has the requested id
    | DatabaseError     // a statement the database refuses; not caught, so a server error

  function Status(e: Error): int
  {
    match e
    case TokenRejected => 401
    case InvalidToken => 401
    case UserNotFound => 401
    case AdminOnly => 403
    case WrongCredentials => 401
    case UserExists => 400
    case ItemNotFound => 404
    case DatabaseError => 500
  }

  function Detail(e: Error): string
  {
    match e
    case TokenRejected => "Invalid or expired token"
    case InvalidToken => "Invalid token"
    case UserNotFound => "User not found"
    case AdminOnly => "Admin only"
    case WrongCredentials => "Wrong username or password"
    case UserExists => "User exists"
    case ItemNotFound => "Item not found"
    case DatabaseError => "Internal Server Error"
  }

  /**
   * A client can tell every error apart by its detail text, and by its status
   * apart from the three 401s and the 500.
   */
  lemma DetailsIdentifyErrors(a: Error, b: Error)
    ensures Detail(a) == Detail(b) ==> a == b
    ensures Status(a) == 500 <==> a == DatabaseError
    ensures 400 <= Status(a) < 500 <==> a != DatabaseError
  {
  }
}
