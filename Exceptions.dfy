/**
 * The exceptions the account and token code raises, each with the message it carries.
 * A Java exception that escapes a call becomes the `Err` of a `Result`.
 */
module Exceptions {

  /** What goes wrong while reading a token. */
  datatype TokenError =
    | Rejected       // the parser throws: bad signature, malformed, or expired
    | NullReference  // a method is called on a claim the token does not carry
    | ClassCast      // the "roles" claim holds something other than a list

  datatype AuthError =
    | UserAlreadyExists(message: string)
    | BadCredentials(message: string)
    | UsernameNotFound(message: string)
    | RoleNotFound(message: string)
    | Token(tokenError: TokenError)

  const UsernameTakenMessage := "El nombre de usuario ya existe"
  const EmailTakenMessage := "El email ya está registrado"
  const LoginFailedMessage := "Usuario o contraseña incorrectos."
  const RefreshRejectedMessage := "Token de refresh inválido o expirado."
  const UserMissingMessage := "Usuario no encontrado"

  /** The message of CustomUserDetailsService for an unknown username. */
  function UnknownUsernameMessage(username: string): string
  {
    "Usuario no encontrado: " + username
  }

  /** The message of AdminService for a role name with no stored role. */
  function UnknownRoleMessage(name: string): string
  {
    "Rol no encontrado: " + name
  }
}
