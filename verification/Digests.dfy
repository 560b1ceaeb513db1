/** Digests of five words, and the pair hash as an unknown function of two of them. */
module Digests {
  import opened Words

  type Digest = d: seq<Word> | |d| == 5 witness [0, 0, 0, 0, 0]

  const NO_DIGEST: Digest := [0, 0, 0, 0, 0]

  type PairHash = (Digest, Digest) -> Digest
}
