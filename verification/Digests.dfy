/** SHA-256 taken as an ideal digest: equal exactly when the digested octets are equal. */
module Digests {
  import opened Octets

  datatype Digest = Sha256(content: seq<Octet>)
}
