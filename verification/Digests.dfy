/** SHA-256 hex digests, taken to be injective: a digest is named by the text it is of. */
module Digests {

  datatype Digest = Sha256(preimage: string)
}
