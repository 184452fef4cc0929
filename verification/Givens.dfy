/** What the exporter takes from libraries and the process: the salted digest and
    the Unicode text functions. The theorems hold for every choice of these. */
module Givens {
  import opened Utf8

  predicate LowerHex(b: byte) { 0x30 <= b <= 0x39 || 0x61 <= b <= 0x66 }

  /** The 12 leading hex characters of a SHA-256 digest. */
  type Digest = d: Bytes | |d| == 12 && forall i :: 0 <= i < |d| ==> LowerHex(d[i])
    witness seq(12, i => 0x30 as byte)

  /** fingerprint under the salt one process rolled. */
  type Fingerprint = Bytes -> Digest

  /** strings.ToLower, strings.TrimSpace and "shannonEntropy(v) >= 3.5". */
  datatype Text = Text(lower: Bytes -> Bytes, trim: Bytes -> Bytes, highEntropy: Bytes -> bool)

  /** What the normalisation of configured substrings needs of folding and
      trimming: each is idempotent, and folding brings back no outer space. */
  ghost predicate TextLaws(text: Text) {
    && (forall s {:trigger text.lower(s)} :: text.lower(text.lower(s)) == text.lower(s))
    && (forall s {:trigger text.trim(s)} :: text.trim(text.lower(text.trim(s))) == text.lower(text.trim(s)))
  }
}
