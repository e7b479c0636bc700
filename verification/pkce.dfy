/**
 * `RFC_7636_code_pair`: a PKCE code verifier and its S256 code challenge
 * (sections 4.1 and 4.2 of RFC 7636). The 32 random bytes and the SHA-256
 * function are parameters of the model.
 */
module Pkce {
  import opened Wrappers
  import opened Bytes
  import opened Base64Url

  /** The number of random bytes drawn for the verifier. */
  const RandomLength: nat := 32
  /** Length of a SHA-256 digest in bytes. */
  const DigestLength: nat := 32
  /** The verifier length bounds of section 4.1 of RFC 7636. */
  const MinVerifierLength: nat := 43
  const MaxVerifierLength: nat := 128

  datatype CodePair = CodePair(verifier: string, challenge: string)

  /** What the model assumes of SHA-256: a total function with 32-byte digests. */
  ghost predicate IsDigest(sha256: seq<byte> -> seq<byte>) {
    forall m :: |sha256(m)| == DigestLength
  }

  /** Every base64url character is ASCII. */
  lemma UrlSafeIsAscii(s: string)
    requires IsUrlSafeText(s)
    ensures AllAscii(s)
  {
  }

  /**
   * The challenge as the helper computes it: the UTF-8 bytes of the verifier,
   * hashed, base64url-encoded and stripped of `=`.
   */
  function S256(verifier: string, sha256: seq<byte> -> seq<byte>): (challenge: string)
    requires IsDigest(sha256)
    ensures challenge == EncodeNoPad(sha256(Utf8(verifier)))
    ensures |challenge| == 43
    ensures IsUrlSafeText(challenge) && PadChar !in challenge
  {
    StripEncode(sha256(Utf8(verifier)));
    StripPadding(Encode(sha256(Utf8(verifier))))
  }

  /** The verifier/challenge pair produced from the given random bytes. */
  function CodePairOf(random: seq<byte>, sha256: seq<byte> -> seq<byte>): (p: CodePair)
    requires |random| == RandomLength
    requires IsDigest(sha256)
    ensures p.verifier == EncodeNoPad(random)
    ensures |p.verifier| == 43
    ensures MinVerifierLength <= |p.verifier| <= MaxVerifierLength
    ensures IsUrlSafeText(p.verifier) && PadChar !in p.verifier
    ensures IsUrlSafeText(p.challenge) && PadChar !in p.challenge
    ensures |p.challenge| == 43
    ensures AllAscii(p.verifier)
    ensures p.challenge == EncodeNoPad(sha256(Ascii(p.verifier)))
    ensures Decode(Repad(p.verifier)) == Some(random)
  {
    StripEncode(random);
    var verifier := StripPadding(Encode(random));
    UrlSafeIsAscii(verifier);
    Utf8OfAscii(verifier);
    DecodeRepadNoPad(random);
    CodePair(verifier, S256(verifier, sha256))
  }

  /** The challenge is a function of the verifier alone. */
  lemma ChallengeDeterminedByVerifier(r1: seq<byte>, r2: seq<byte>, sha256: seq<byte> -> seq<byte>)
    requires |r1| == RandomLength && |r2| == RandomLength
    requires IsDigest(sha256)
    requires CodePairOf(r1, sha256).verifier == CodePairOf(r2, sha256).verifier
    ensures CodePairOf(r1, sha256).challenge == CodePairOf(r2, sha256).challenge
  {
  }

  /** Different random bytes always give different verifiers. */
  lemma VerifierInjective(r1: seq<byte>, r2: seq<byte>, sha256: seq<byte> -> seq<byte>)
    requires |r1| == RandomLength && |r2| == RandomLength
    requires IsDigest(sha256)
    requires r1 != r2
    ensures CodePairOf(r1, sha256).verifier != CodePairOf(r2, sha256).verifier
  {
    if CodePairOf(r1, sha256).verifier == CodePairOf(r2, sha256).verifier {
      EncodeNoPadInjective(r1, r2);
    }
  }
}
