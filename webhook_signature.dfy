/**
 * `_verify_signature` (gestor/routers/webhooks.py): GitHub's
 * `X-Hub-Signature-256` check. The expected header is "sha256=" followed by
 * the lower-case hexadecimal HMAC-SHA256 of the request body keyed with the
 * webhook secret (HMAC as in RFC 2104, SHA-256 as in FIPS 180-4).
 *
 * HMAC-SHA256 itself is a parameter: any function from (key, message) to a
 * 32-byte digest. The secret is given as the bytes of its UTF-8 encoding.
 */
module WebhookSignature {
  import opened Wrappers

  type Byte = x: int | 0 <= x < 256

  /** A SHA-256 digest: 32 bytes. */
  type Digest = s: seq<Byte> | |s| == 32 witness seq(32, _ => 0)

  /** A keyed MAC producing a SHA-256-sized digest. */
  type Mac = (seq<Byte>, seq<Byte>) -> Digest

  const SignaturePrefix: string := "sha256="

  /** Length of a well-formed header: the prefix and two hex digits per digest byte. */
  const SignatureLength: nat := 71

  /** The characters of lower-case hexadecimal. */
  predicate IsHexDigit(c: char) { '0' <= c <= '9' || 'a' <= c <= 'f' }

  /** The lower-case digit of a nibble: '0'..'9', then 'a'..'f'. */
  function HexDigit(n: nat): (c: char)
    requires n < 16
    ensures IsHexDigit(c)
  {
    if n < 10 then ('0' as int + n) as char else ('a' as int + n - 10) as char
  }

  /** `hexdigest()` of one byte: two lower-case digits, high nibble first. */
  function HexByte(b: Byte): string
  {
    [HexDigit(b / 16), HexDigit(b % 16)]
  }

  /** `hexdigest()`: the bytes as lower-case hexadecimal. */
  function Hex(bytes: seq<Byte>): (r: string)
    ensures |r| == 2 * |bytes|
    ensures forall i :: 0 <= i < |r| ==> IsHexDigit(r[i])
  {
    if bytes == [] then "" else HexByte(bytes[0]) + Hex(bytes[1..])
  }

  /** The value of a lower-case hex digit; upper-case digits are not produced by `hexdigest()`. */
  function DigitValue(c: char): (v: Option<nat>)
    ensures v.Some? ==> v.value < 16 && HexDigit(v.value) == c
    ensures v.None? <==> !IsHexDigit(c)
  {
    if '0' <= c <= '9' then Some(c as int - '0' as int)
    else if 'a' <= c <= 'f' then Some(c as int - 'a' as int + 10)
    else None
  }

  /** Reads lower-case hexadecimal back into bytes: the inverse of `Hex`. */
  function Unhex(s: string): (r: Option<seq<Byte>>)
    ensures r.Some? ==> |s| == 2 * |r.value|
    decreases |s|
  {
    if s == "" then Some([])
    else if |s| == 1 then None
    else match (DigitValue(s[0]), DigitValue(s[1]), Unhex(s[2..]))
      case (Some(hi), Some(lo), Some(rest)) => Some([hi * 16 + lo] + rest)
      case _ => None
  }

  /** Reading back what `Hex` wrote gives the original bytes. */
  lemma {:induction false} UnhexHex(bytes: seq<Byte>)
    ensures Unhex(Hex(bytes)) == Some(bytes)
  {
    if bytes != [] {
      var b := bytes[0];
      var s := Hex(bytes);
      assert s[0] == HexDigit(b / 16) && s[1] == HexDigit(b % 16) && s[2..] == Hex(bytes[1..]);
      assert (b / 16) * 16 + b % 16 == b;
      UnhexHex(bytes[1..]);
      assert bytes == [b] + bytes[1..];
    }
  }

  /** Different digests never share a hex text. */
  lemma HexInjective(a: seq<Byte>, b: seq<Byte>)
    requires Hex(a) == Hex(b)
    ensures a == b
  {
    UnhexHex(a);
    UnhexHex(b);
  }

  /** The header GitHub sends for a digest. */
  function ExpectedSignature(digest: Digest): (r: string)
    ensures |r| == SignatureLength
    ensures r[..|SignaturePrefix|] == SignaturePrefix
    ensures forall i :: |SignaturePrefix| <= i < |r| ==> IsHexDigit(r[i])
  {
    SignaturePrefix + Hex(digest)
  }

  /**
   * `_verify_signature`: False when the header is absent or empty; otherwise
   * whether it equals the expected signature (`compare_digest` is a
   * constant-time equality).
   */
  function VerifySignature(payload: seq<Byte>, secret: seq<Byte>, header: Option<string>, hmac: Mac): (ok: bool)
    ensures ok <==> header.Some? && header.value == ExpectedSignature(hmac(secret, payload))
  {
    if header.None? || header.value == "" then false
    else ExpectedSignature(hmac(secret, payload)) == header.value
  }

  /** A missing or empty header is rejected. */
  lemma EmptyHeaderRejected(payload: seq<Byte>, secret: seq<Byte>, hmac: Mac)
    ensures !VerifySignature(payload, secret, None, hmac)
    ensures !VerifySignature(payload, secret, Some(""), hmac)
  {
  }

  /** A header without the prefix, or of any length but 71, is rejected. */
  lemma MalformedHeaderRejected(payload: seq<Byte>, secret: seq<Byte>, header: string, hmac: Mac)
    requires |header| != SignatureLength || header[..|SignaturePrefix|] != SignaturePrefix
    ensures !VerifySignature(payload, secret, Some(header), hmac)
  {
  }

  /** The digest a header carries: the prefix, then lower-case hex of 32 bytes. */
  function ParseSignature(header: string): (r: Option<seq<Byte>>)
    ensures r.Some? ==> |r.value| == 32
  {
    if |header| != SignatureLength || header[..|SignaturePrefix|] != SignaturePrefix then None
    else Unhex(header[|SignaturePrefix|..])
  }

  /** A header is accepted exactly when the digest it carries is the HMAC of the body under the secret. */
  lemma {:induction false} VerifyIffDigestMatches(payload: seq<Byte>, secret: seq<Byte>, header: string, hmac: Mac)
    ensures VerifySignature(payload, secret, Some(header), hmac) <==>
            ParseSignature(header) == Some(hmac(secret, payload))
  {
    var digest := hmac(secret, payload);
    UnhexHex(digest);
    assert ExpectedSignature(digest)[|SignaturePrefix|..] == Hex(digest);
    if ParseSignature(header) == Some(digest) {
      var hex := header[|SignaturePrefix|..];
      assert Unhex(hex) == Some(digest);
      HexRoundTrip(hex);
      assert header == header[..|SignaturePrefix|] + hex;
    }
  }

  /** Text that reads as hex is what `Hex` writes for the bytes read. */
  lemma {:induction false} HexRoundTrip(s: string)
    requires Unhex(s).Some?
    ensures Hex(Unhex(s).value) == s
    decreases |s|
  {
    if s != "" {
      HexRoundTrip(s[2..]);
      var hi, lo := DigitValue(s[0]).value, DigitValue(s[1]).value;
      var b: Byte := hi * 16 + lo;
      assert b / 16 == hi && b % 16 == lo;
      assert Unhex(s).value[1..] == Unhex(s[2..]).value;
      assert s == [s[0], s[1]] + s[2..];
    }
  }
}
