/**
 * The failures the user store reports. The Java code throws an
 * IllegalArgumentException in each of these cases except KeyNotFound: for
 * an absent key getData passes null to the cipher (User.java:111), and what
 * happens then is decided in eu.zoho.chaotx.crypt. Here they are values.
 */
module Errors {

  datatype Error =
    | PasswordTooLong            // password longer than the requested token
    | AlreadyRegistered(uid: string)
    | NotRegistered              // login with an instance the registry does not hold
    | InvalidPassword            // the password does not re-derive the token
    | KeyNotFound(key: string)   // getData on a key that holds no data

  /** The result of an operation that returns nothing on success. */
  datatype Outcome = Pass | Fail(error: Error)

  /** The result of an operation that returns a value on success. */
  datatype Result<+T> = Success(value: T) | Failure(error: Error)
}
