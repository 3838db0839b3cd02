/**
 * The PKCE values of the login page: the code verifier (`randomString`,
 * random octets written as lower-case hex) and the S256 code challenge
 * (`base64url` of the verifier's SHA-256 digest). The random source and the
 * digest are inputs here.
 */
module Pkce {
  import opened Wrappers
  import opened JsBuiltins
  import Base64Url

  /** `randomString`'s default `len`. */
  const DefaultLength: nat := 64

  /** One octet as two lower-case hex digits, high nibble first. */
  function HexPair(x: Byte): (r: string)
    ensures |r| == 2 && IsLowerHex(r[0]) && IsLowerHex(r[1])
  {
    [Digit(x / 16), Digit(x % 16)]
  }

  /** `HexPair` is what `x.toString(16).padStart(2, "0")` writes. */
  lemma HexPairIsPaddedToString(x: Byte)
    ensures HexPair(x) == PadStart(ToStringRadix(x, 16), 2, '0')
  {
    PaddedTwoDigits(x, 16);
  }

  predicate IsLowerHex(c: char) {
    '0' <= c <= '9' || 'a' <= c <= 'f'
  }

  /** `randomString(len)` for the `len` octets the random source filled
      the array with: each octet as two hex digits, joined. */
  function RandomString(random: seq<Byte>): (r: string)
    ensures |r| == 2 * |random|
    decreases |random|
  {
    if |random| == 0 then "" else HexPair(random[0]) + RandomString(random[1..])
  }

  /** Octet `i` of the random input is written at positions `2i` and
      `2i + 1`, high nibble first. */
  lemma {:induction false} RandomStringAt(random: seq<Byte>, i: nat)
    requires i < |random|
    ensures RandomString(random)[2 * i] == Digit(random[i] / 16)
    ensures RandomString(random)[2 * i + 1] == Digit(random[i] % 16)
    decreases i
  {
    var rest := RandomString(random[1..]);
    assert RandomString(random) == HexPair(random[0]) + rest;
    if i > 0 {
      RandomStringAt(random[1..], i - 1);
      assert RandomString(random)[2 * i] == rest[2 * (i - 1)];
      assert RandomString(random)[2 * i + 1] == rest[2 * (i - 1) + 1];
    }
  }

  /** Reading hex text back into octets; `None` for an odd length or a
      character that is not a lower-case hex digit. */
  function HexDecode(s: string): (r: Option<seq<Byte>>)
    ensures r.Some? ==> |s| == 2 * |r.value|
    decreases |s|
  {
    if |s| == 0 then Some([])
    else if |s| == 1 || !IsLowerHex(s[0]) || !IsLowerHex(s[1]) then None
    else
      match HexDecode(s[2..])
      case None => None
      case Some(rest) =>
        var high := DigitValue(s[0]).value;
        var low := DigitValue(s[1]).value;
        Some([high * 16 + low] + rest)
  }

  /** The verifier's text determines the random octets it was made from. */
  lemma {:induction false} HexRoundTrip(random: seq<Byte>)
    ensures HexDecode(RandomString(random)) == Some(random)
    decreases |random|
  {
    if |random| > 0 {
      var x := random[0];
      var rest := RandomString(random[1..]);
      var s := HexPair(x) + rest;
      assert RandomString(random) == s;
      assert s[2..] == rest;
      DigitValueOfDigit(x / 16);
      DigitValueOfDigit(x % 16);
      HexRoundTrip(random[1..]);
      assert HexDecode(s) == Some([x] + random[1..]);
      assert random == [x] + random[1..];
    }
  }

  /** The `unreserved` characters of section 4.1 of RFC 7636:
      letters, digits, `-`, `.`, `_` and `~`. */
  predicate IsUnreserved(c: char) {
    'A' <= c <= 'Z' || 'a' <= c <= 'z' || '0' <= c <= '9' || c == '-' || c == '.' || c == '_' || c == '~'
  }

  /** A code verifier as section 4.1 of RFC 7636 requires it: 43 to 128
      unreserved characters. */
  predicate IsValidVerifier(s: string) {
    43 <= |s| <= 128 && forall i :: 0 <= i < |s| ==> IsUnreserved(s[i])
  }

  /** The verifier is lower-case hex, two characters per octet. */
  lemma {:induction false} RandomStringIsLowerHex(random: seq<Byte>)
    ensures forall i :: 0 <= i < |RandomString(random)| ==> IsLowerHex(RandomString(random)[i])
  {
    var r := RandomString(random);
    forall i | 0 <= i < |r| ensures IsLowerHex(r[i]) {
      RandomStringAt(random, i / 2);
    }
  }

  /** With the default length the verifier has 128 characters, the most
      RFC 7636 allows, all of them unreserved. */
  lemma DefaultVerifierIsValid(random: seq<Byte>)
    requires |random| == DefaultLength
    ensures IsValidVerifier(RandomString(random))
  {
    RandomStringIsLowerHex(random);
  }

  /** `randomString(len)` yields a valid verifier exactly for 22 to 64
      octets. */
  lemma VerifierLengthBounds(random: seq<Byte>)
    ensures IsValidVerifier(RandomString(random)) <==> 22 <= |random| <= 64
  {
    RandomStringIsLowerHex(random);
  }

  /** The S256 code challenge of section 4.2 of RFC 7636:
      BASE64URL-ENCODE of the verifier's SHA-256 digest. */
  function Challenge(digest: seq<Byte>): (r: string)
    ensures |r| == (4 * |digest| + 2) / 3
  {
    Base64Url.Base64Url(digest)
  }

  /** A 32-octet SHA-256 digest yields a 43-character challenge in the
      URL-safe alphabet, without padding. */
  lemma ChallengeOfDigest(digest: seq<Byte>)
    requires |digest| == 32
    ensures |Challenge(digest)| == 43
    ensures forall i :: 0 <= i < 43 ==> Base64Url.IsUrlSafeChar(Challenge(digest)[i]) && Challenge(digest)[i] != '='
  {
  }
}
