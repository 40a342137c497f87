/** SHA-256, taken to be injective. */
module Hashing {
  datatype Digest = Sha256(text: string)
}
