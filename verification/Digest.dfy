/** Content digests as text. */
module Digest {
  predicate IsHex(c: char) {
    '0' <= c <= '9' || 'a' <= c <= 'f'
  }

  predicate HexOf(s: string, length: nat) {
    |s| == length && forall i | 0 <= i < |s| :: IsHex(s[i])
  }

  /** A digest in the form "algorithm:hex" of one of the three registered algorithms. */
  predicate ValidDigest(d: string) {
    |d| > 7 && ((d[..7] == "sha256:" && HexOf(d[7..], 64)) ||
                (d[..7] == "sha384:" && HexOf(d[7..], 96)) ||
                (d[..7] == "sha512:" && HexOf(d[7..], 128)))
  }
}
