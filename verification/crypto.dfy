/** The cryptographic calls the core makes, left abstract: bcrypt hashing is an outcome the caller
    supplies, bcrypt comparison is a predicate parameter `(hash, plaintext) -> bool`, and HS256 token
    signing is likewise an outcome. */
module Crypto {

  /** `bcrypt.GenerateFromPassword`: the hash, or the error text. */
  datatype HashResult = Hashed(hash: string) | HashFailed(text: string)

  /** `token.SignedString(key)`: the compact JWT, or the error text. */
  datatype SignResult = Signed(token: string) | SignFailed(text: string)
}
