/** The content fingerprint that serves as a document's `_id`:
    `hashlib.sha256(text.encode('utf-8')).hexdigest()`. SHA-256 itself is a
    library call and stays abstract: any function from byte strings to
    64-character lowercase hexadecimal strings. */
module Hashing {
  import opened Text

  predicate IsLowerHexDigit(c: char) {
    '0' <= c <= '9' || 'a' <= c <= 'f'
  }

  /** The shape of `hexdigest()` for SHA-256: 64 lowercase hex digits. */
  predicate IsHexDigest(s: string) {
    |s| == 64 && forall i :: 0 <= i < |s| ==> IsLowerHexDigit(s[i])
  }

  type Digest = s: string | IsHexDigest(s)
    witness seq(64, _ => '0')

  /** SHA-256 followed by `hexdigest()`, left uninterpreted. */
  type Sha256 = seq<byte> -> Digest

  /** `generate_sha256(text)`: the digest of the UTF-8 bytes of `text`. */
  function Fingerprint(sha256: Sha256, text: string): Digest {
    sha256(Utf8Encode(text))
  }

  /** Two different byte strings with the same digest. */
  predicate Collides(sha256: Sha256, x: seq<byte>, y: seq<byte>) {
    x != y && sha256(x) == sha256(y)
  }

  /** Two different texts can only share an `_id` if SHA-256 itself collides
      on two different byte strings: the UTF-8 step never merges texts. */
  lemma SharedIdIsHashCollision(sha256: Sha256, t1: string, t2: string)
    requires t1 != t2 && Fingerprint(sha256, t1) == Fingerprint(sha256, t2)
    ensures Collides(sha256, Utf8Encode(t1), Utf8Encode(t2))
  {
    if Utf8Encode(t1) == Utf8Encode(t2) {
      Utf8Injective(t1, t2);
    }
  }
}
