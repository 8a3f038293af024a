/**
 * The interface the user record uses from its encryptor. The algorithms
 * behind it (the seeded token generator and the per-character cipher over
 * the alphanumeric alphabet) are not part of this model: an Encryptor is
 * any pair of deterministic functions of these shapes.
 */
module Crypt {

  /** The combining function the cipher applies per character: the
      encrypt function adds the key character, the decrypt function
      subtracts it. */
  datatype Direction = Encrypt | Decrypt

  datatype Encryptor = Encryptor(
    createToken: (string, nat) -> string,
    execute: (string, string, Direction) -> string)

  /** The cipher's round-trip law for one text under one key. Nothing in
      the model proves it; lemmas that need it take it as a precondition. */
  predicate Inverts(e: Encryptor, text: string, key: string)
  {
    e.execute(e.execute(text, key, Encrypt), key, Decrypt) == text
  }
}
