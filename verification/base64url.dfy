/**
 * The `base64url` helper of the login page: the standard base64 encoding of
 * section 4 of RFC 4648 (as produced by `btoa`), rewritten to the URL- and
 * filename-safe alphabet of section 5 and stripped of its `=` padding. This
 * is the BASE64URL-ENCODE that section 4.2 of RFC 7636 applies to the
 * SHA-256 digest of the code verifier.
 */
module Base64Url {
  import opened Wrappers
  import opened JsBuiltins

  /** A 6-bit group, the unit one base64 character encodes. */
  type Sextet = x: int | 0 <= x < 64

  /** Table 2 of RFC 4648 (section 5), the URL- and filename-safe alphabet. */
  function UrlSafeChar(v: Sextet): char {
    if v < 26 then ('A' as int + v) as char
    else if v < 52 then ('a' as int + v - 26) as char
    else if v < 62 then ('0' as int + v - 52) as char
    else if v == 62 then '-'
    else '_'
  }

  /** Table 1 of RFC 4648 (section 4), the alphabet `btoa` writes. */
  function StandardChar(v: Sextet): char {
    if v == 62 then '+' else if v == 63 then '/' else UrlSafeChar(v)
  }

  predicate IsUrlSafeChar(c: char) {
    'A' <= c <= 'Z' || 'a' <= c <= 'z' || '0' <= c <= '9' || c == '-' || c == '_'
  }

  /** The inverse of table 2: `None` for a character outside the alphabet. */
  function UrlSafeValue(c: char): (r: Option<Sextet>)
    ensures r.Some? <==> IsUrlSafeChar(c)
    ensures r.Some? ==> UrlSafeChar(r.value) == c
  {
    if 'A' <= c <= 'Z' then Some(c as int - 'A' as int)
    else if 'a' <= c <= 'z' then Some(c as int - 'a' as int + 26)
    else if '0' <= c <= '9' then Some(c as int - '0' as int + 52)
    else if c == '-' then Some(62)
    else if c == '_' then Some(63)
    else None
  }

  lemma UrlSafeValueOfChar(v: Sextet)
    ensures IsUrlSafeChar(UrlSafeChar(v))
    ensures UrlSafeValue(UrlSafeChar(v)) == Some(v)
  {
  }

  /** A 24-bit input group of three octets as four sextets, most significant
      bits first (section 4 of RFC 4648). */
  function Split(a: Byte, b: Byte, c: Byte): (r: seq<Sextet>)
    ensures |r| == 4
  {
    [a / 4, (a % 4) * 16 + b / 16, (b % 16) * 4 + c / 64, c % 64]
  }

  /** Four sextets back into three octets. */
  function Join(w: Sextet, x: Sextet, y: Sextet, z: Sextet): (r: seq<Byte>)
    ensures |r| == 3
  {
    [w * 4 + x / 16, (x % 16) * 16 + y / 4, (y % 4) * 64 + z]
  }

  lemma JoinSplit(a: Byte, b: Byte, c: Byte)
    ensures var s := Split(a, b, c); Join(s[0], s[1], s[2], s[3]) == [a, b, c]
  {
  }

  lemma SplitJoin(w: Sextet, x: Sextet, y: Sextet, z: Sextet)
    ensures var o := Join(w, x, y, z); Split(o[0], o[1], o[2]) == [w, x, y, z]
  {
    var o := Join(w, x, y, z);
    assert o[0] / 4 == w && o[0] % 4 == x / 16;
    assert o[1] / 16 == x % 16 && o[1] % 16 == y / 4;
    assert o[2] / 64 == y % 4 && o[2] % 64 == z;
  }

  /** The sextets of a byte string: whole groups first, then a final group
      of one or two octets completed with zero bits, of which only the
      sextets that carry input bits are kept (two for one octet, three for
      two). */
  function Sextets(bytes: seq<Byte>): (r: seq<Sextet>)
    ensures |r| == (4 * |bytes| + 2) / 3
    decreases |bytes|
  {
    if |bytes| == 0 then []
    else if |bytes| == 1 then Split(bytes[0], 0, 0)[..2]
    else if |bytes| == 2 then Split(bytes[0], bytes[1], 0)[..3]
    else Split(bytes[0], bytes[1], bytes[2]) + Sextets(bytes[3..])
  }

  /** The octets a run of sextets stands for; `None` for a length no
      encoder produces, or when the bits a final partial group pads with
      are not zero. */
  function Octets(s: seq<Sextet>): (r: Option<seq<Byte>>)
    decreases |s|
  {
    if |s| == 0 then Some([])
    else if |s| == 1 then None
    else if |s| == 2 then
      if s[1] % 16 == 0 then Some(Join(s[0], s[1], 0, 0)[..1]) else None
    else if |s| == 3 then
      if s[2] % 4 == 0 then Some(Join(s[0], s[1], s[2], 0)[..2]) else None
    else
      match Octets(s[4..])
      case None => None
      case Some(rest) => Some(Join(s[0], s[1], s[2], s[3]) + rest)
  }

  /** A final group of one octet decodes back to it. */
  lemma OctetsOfLastOne(a: Byte)
    ensures Octets(Sextets([a])) == Some([a])
  {
    var s := Split(a, 0, 0);
    JoinSplit(a, 0, 0);
    var t := s[..2];
    assert Sextets([a]) == t;
    assert s[2] == 0 && s[3] == 0;
    assert t[1] % 16 == 0;
    assert Join(t[0], t[1], 0, 0) == [a, 0, 0];
    assert Octets(t) == Some(Join(t[0], t[1], 0, 0)[..1]);
    assert Join(t[0], t[1], 0, 0)[..1] == [a];
    assert Octets(Sextets([a])) == Some([a]);
  }

  /** A final group of two octets decodes back to them. */
  lemma OctetsOfLastTwo(a: Byte, b: Byte)
    ensures Octets(Sextets([a, b])) == Some([a, b])
  {
    var s := Split(a, b, 0);
    JoinSplit(a, b, 0);
    var t := s[..3];
    assert Sextets([a, b]) == t;
    assert s[3] == 0;
    assert t[2] % 4 == 0;
    assert Join(t[0], t[1], t[2], 0) == [a, b, 0];
    assert Octets(t) == Some(Join(t[0], t[1], t[2], 0)[..2]);
    assert Join(t[0], t[1], t[2], 0)[..2] == [a, b];
    assert Octets(Sextets([a, b])) == Some([a, b]);
  }

  /** Decoding the sextets of a byte string gives the byte string back. */
  lemma {:induction false} OctetsOfSextets(bytes: seq<Byte>)
    ensures Octets(Sextets(bytes)) == Some(bytes)
    decreases |bytes|
  {
    if |bytes| == 1 {
      assert bytes == [bytes[0]];
      OctetsOfLastOne(bytes[0]);
    } else if |bytes| == 2 {
      assert bytes == [bytes[0], bytes[1]];
      OctetsOfLastTwo(bytes[0], bytes[1]);
    } else if |bytes| >= 3 {
      var head := Split(bytes[0], bytes[1], bytes[2]);
      var s := head + Sextets(bytes[3..]);
      assert Sextets(bytes) == s;
      assert s[4..] == Sextets(bytes[3..]);
      OctetsOfSextets(bytes[3..]);
      JoinSplit(bytes[0], bytes[1], bytes[2]);
      assert Join(s[0], s[1], s[2], s[3]) == bytes[..3];
      assert Octets(s) == Some(bytes[..3] + bytes[3..]);
      assert bytes == bytes[..3] + bytes[3..];
    }
  }

  lemma {:induction false} SextetsOfOctets(s: seq<Sextet>)
    requires Octets(s).Some?
    ensures Sextets(Octets(s).value) == s
    decreases |s|
  {
    if |s| == 2 {
      SplitJoin(s[0], s[1], 0, 0);
    } else if |s| == 3 {
      SplitJoin(s[0], s[1], s[2], 0);
    } else if |s| >= 4 {
      var head := Join(s[0], s[1], s[2], s[3]);
      var rest := Octets(s[4..]).value;
      var bytes := head + rest;
      assert bytes[3..] == rest;
      SextetsOfOctets(s[4..]);
      SplitJoin(s[0], s[1], s[2], s[3]);
      assert s == s[..4] + s[4..];
    }
  }

  function SpellUrlSafe(v: seq<Sextet>): (r: string)
    ensures |r| == |v|
  {
    seq(|v|, i requires 0 <= i < |v| => UrlSafeChar(v[i]))
  }

  function SpellStandard(v: seq<Sextet>): (r: string)
    ensures |r| == |v|
  {
    seq(|v|, i requires 0 <= i < |v| => StandardChar(v[i]))
  }

  /** The `=` characters that complete the final quantum to four. */
  function Padding(n: nat): (r: string)
    ensures forall i :: 0 <= i < |r| ==> r[i] == '='
  {
    if n % 3 == 1 then "==" else if n % 3 == 2 then "=" else ""
  }

  /** The characters of table 1. */
  predicate IsStandardChar(c: char) {
    'A' <= c <= 'Z' || 'a' <= c <= 'z' || '0' <= c <= '9' || c == '+' || c == '/'
  }

  /** `btoa` over the octets of `data`: section 4 of RFC 4648, padded. Its
      characters are from table 1, followed by at most two `=`. */
  function Standard(bytes: seq<Byte>): (r: string)
    ensures forall i :: 0 <= i < |r| ==> IsStandardChar(r[i]) || (r[i] == '=' && |r| - 2 <= i)
    ensures forall i, j :: 0 <= i < j < |r| && r[i] == '=' ==> r[j] == '='
  {
    var v := Sextets(bytes);
    StandardAlphabet(v);
    SpellStandard(v) + Padding(|bytes|)
  }

  lemma StandardAlphabet(v: seq<Sextet>)
    ensures forall i :: 0 <= i < |v| ==> IsStandardChar(SpellStandard(v)[i])
  {
    forall i | 0 <= i < |v| ensures IsStandardChar(SpellStandard(v)[i]) {
      UrlSafeValueOfChar(v[i]);
    }
  }

  /** `btoa` writes four characters for every started group of three
      octets. */
  lemma StandardLength(bytes: seq<Byte>)
    ensures |Standard(bytes)| == 4 * ((|bytes| + 2) / 3)
  {
    var n := |bytes|;
    var k := n / 3;
    assert n == 3 * k + n % 3;
    if n % 3 == 0 {
      assert (4 * n + 2) / 3 == 4 * k;
    } else if n % 3 == 1 {
      assert (4 * n + 2) / 3 == 4 * k + 2;
    } else {
      assert (4 * n + 2) / 3 == 4 * k + 3;
    }
  }

  /** The reference: section 5 of RFC 4648 with the padding omitted, as
      section 3.2 of that RFC allows and appendix A of RFC 7636 specifies. */
  function Encode(bytes: seq<Byte>): (r: string)
    ensures |r| == (4 * |bytes| + 2) / 3
  {
    SpellUrlSafe(Sextets(bytes))
  }

  /** Decoding an unpadded section 5 string; `None` for a character
      outside the alphabet or a string no encoder produces. */
  function Decode(s: string): (r: Option<seq<Byte>>)
  {
    if forall i :: 0 <= i < |s| ==> IsUrlSafeChar(s[i]) then
      Octets(seq(|s|, i requires 0 <= i < |s| && IsUrlSafeChar(s[i]) => UrlSafeValue(s[i]).value))
    else None
  }

  /** `base64url(data)` as the login page writes it: `btoa`, then `+` to `-`,
      `/` to `_`, and the trailing run of `=` removed. */
  function Base64Url(bytes: seq<Byte>): (r: string)
    ensures |r| == (4 * |bytes| + 2) / 3
    ensures forall i :: 0 <= i < |r| ==> IsUrlSafeChar(r[i])
  {
    Base64UrlIsUnpaddedSection5(bytes);
    StripTrailing(ReplaceAll(ReplaceAll(Standard(bytes), '+', '-'), '/', '_'), '=')
  }

  /** Rewriting the alphabet and stripping the padding of the standard
      encoding yields exactly the unpadded URL-safe encoding. */
  lemma Base64UrlIsUnpaddedSection5(bytes: seq<Byte>)
    ensures StripTrailing(ReplaceAll(ReplaceAll(Standard(bytes), '+', '-'), '/', '_'), '=') == Encode(bytes)
    ensures forall i :: 0 <= i < |Encode(bytes)| ==> IsUrlSafeChar(Encode(bytes)[i])
  {
    var v := Sextets(bytes);
    var u := SpellUrlSafe(v);
    var pad := Padding(|bytes|);
    var x := ReplaceAll(ReplaceAll(Standard(bytes), '+', '-'), '/', '_');
    forall i | 0 <= i < |v|
      ensures x[i] == u[i] && IsUrlSafeChar(u[i]) && u[i] != '='
    {
      UrlSafeValueOfChar(v[i]);
    }
    assert x == u + pad;
    StripTrailingRun(u, pad, '=');
  }

  /** Decoding recovers the input octets. */
  lemma DecodeEncode(bytes: seq<Byte>)
    ensures Decode(Encode(bytes)) == Some(bytes)
  {
    var v := Sextets(bytes);
    var s := Encode(bytes);
    forall i | 0 <= i < |s| ensures IsUrlSafeChar(s[i]) && UrlSafeValue(s[i]).value == v[i] {
      UrlSafeValueOfChar(v[i]);
    }
    assert seq(|s|, i requires 0 <= i < |s| && IsUrlSafeChar(s[i]) => UrlSafeValue(s[i]).value) == v;
    OctetsOfSextets(bytes);
  }

  /** Every string the decoder accepts is the encoding of what it decodes
      to: the encoding is a bijection onto the decodable strings. */
  lemma EncodeDecode(s: string)
    requires Decode(s).Some?
    ensures Encode(Decode(s).value) == s
  {
    var v := seq(|s|, i requires 0 <= i < |s| && IsUrlSafeChar(s[i]) => UrlSafeValue(s[i]).value);
    SextetsOfOctets(v);
    assert SpellUrlSafe(v) == s;
  }

  /** Distinct digests give distinct code challenges. */
  lemma Base64UrlInjective(a: seq<Byte>, b: seq<Byte>)
    requires Base64Url(a) == Base64Url(b)
    ensures a == b
  {
    Base64UrlIsUnpaddedSection5(a);
    Base64UrlIsUnpaddedSection5(b);
    DecodeEncode(a);
    DecodeEncode(b);
  }
}
