/** Short digests in names: the repository cuts a SHA-256 digest to ten hexadecimal characters. */
module Digest {
  predicate IsHex(c: char) {
    '0' <= c <= '9' || 'a' <= c <= 'f'
  }

  predicate IsShortHash(h: string) {
    |h| == 10 && forall i :: 0 <= i < |h| ==> IsHex(h[i])
  }
}
