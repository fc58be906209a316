/**
 * The Base64urlUInt form of the key document: section 2 and section 6.3.1 of RFC 7518, over the URL-safe
 * alphabet of section 5 of RFC 4648.
 */
module Base64Url {
  import opened Models

  type Octet = n: nat | n < 256
  type Sextet = n: nat | n < 64

  /** `int.bit_length`. */
  function BitLength(value: nat): nat {
    if value == 0 then 0 else 1 + BitLength(value / 2)
  }

  /** `value.to_bytes(length, "big")`; None is its OverflowError. */
  function ToBytes(value: nat, length: nat): Option<seq<Octet>> {
    if length == 0 then (if value == 0 then Some([]) else None)
    else
      var high := ToBytes(value / 256, length - 1);
      if high.None? then None else Some(high.value + [value % 256])
  }

  function FromBytes(raw: seq<Octet>): nat {
    if raw == [] then 0 else 256 * FromBytes(raw[..|raw| - 1]) + raw[|raw| - 1]
  }

  function Char(d: Sextet): char {
    if d < 26 then 'A' + d as char
    else if d < 52 then 'a' + (d - 26) as char
    else if d < 62 then '0' + (d - 52) as char
    else if d == 62 then '-' else '_'
  }

  function ValueOf(c: char): Option<Sextet> {
    if 'A' <= c <= 'Z' then Some((c - 'A') as int)
    else if 'a' <= c <= 'z' then Some((c - 'a') as int + 26)
    else if '0' <= c <= '9' then Some((c - '0') as int + 52)
    else if c == '-' then Some(62)
    else if c == '_' then Some(63)
    else None
  }

  lemma CharRoundTrip(d: Sextet)
    ensures ValueOf(Char(d)) == Some(d) && Char(d) != '='
  {
  }

  /**
   * The table in section 5 of RFC 4648: capital letters, small letters and digits, each in ascending order without
   * gaps, then the two signs that are safe in URLs.
   */
  lemma CharTable()
    ensures Char(0) == 'A' && Char(25) == 'Z' && Char(26) == 'a' && Char(51) == 'z' && Char(52) == '0'
    ensures Char(61) == '9' && Char(62) == '-' && Char(63) == '_'
    ensures forall d: Sextet | d != 25 && d != 51 && d < 61 :: Char(d + 1) == Char(d) + 1 as char
  {
  }

  /** `base64.urlsafe_b64encode`: three octets to four characters, the last group padded. */
  function Encode(raw: seq<Octet>): string {
    if raw == [] then ""
    else if |raw| == 1 then [Char(raw[0] / 4), Char(raw[0] % 4 * 16)] + "=="
    else if |raw| == 2 then [Char(raw[0] / 4), Char(raw[0] % 4 * 16 + raw[1] / 16), Char(raw[1] % 16 * 4)] + "="
    else [Char(raw[0] / 4), Char(raw[0] % 4 * 16 + raw[1] / 16), Char(raw[1] % 16 * 4 + raw[2] / 64), Char(raw[2] % 64)]
         + Encode(raw[3..])
  }

  function StripPadding(s: string): string {
    if s != "" && s[|s| - 1] == '=' then StripPadding(s[..|s| - 1]) else s
  }

  /** `_b64url_uint`. */
  function B64UrlUint(value: nat): Option<string> {
    var raw := ToBytes(value, (BitLength(value) + 7) / 8);
    if raw.None? then None else Some(StripPadding(Encode(raw.value)))
  }

  /** Decodes characters without padding, rejecting foreign characters and impossible lengths. */
  function Decode(s: string): Option<seq<Octet>> {
    if s == "" then Some([])
    else if |s| == 1 then None
    else
      var a, b := ValueOf(s[0]), ValueOf(s[1]);
      if a.None? || b.None? then None
      else
        var first: Octet := a.value * 4 + b.value / 16;
        if |s| == 2 then Some([first])
        else
          var c := ValueOf(s[2]);
          if c.None? then None
          else
            var second: Octet := b.value % 16 * 16 + c.value / 4;
            if |s| == 3 then Some([first, second])
            else
              var d, rest := ValueOf(s[3]), Decode(s[4..]);
              if d.None? || rest.None? then None
              else Some([first, second, c.value % 4 * 64 + d.value] + rest.value)
  }

  lemma StripPaddingOf(s: string, pad: string)
    requires s == "" || s[|s| - 1] != '='
    requires pad == "" || pad == "=" || pad == "=="
    ensures StripPadding(s + pad) == s
    decreases |pad|
  {
    if pad == "==" {
      StripPaddingOf(s, "=");
      assert (s + "==")[..|s| + 1] == s + "=";
    } else if pad == "=" {
      assert (s + "=")[..|s|] == s;
    } else {
      assert s + pad == s;
    }
  }

  /** The characters before the padding, and the padding. */
  function Padding(n: nat): string {
    if n % 3 == 1 then "==" else if n % 3 == 2 then "=" else ""
  }

  predicate UrlSafe(s: string) {
    forall i | 0 <= i < |s| :: ValueOf(s[i]).Some?
  }

  lemma ThreeOctets(a: Octet, b: Octet, c: Octet)
    ensures
      var p, q, r, t := a / 4, a % 4 * 16 + b / 16, b % 16 * 4 + c / 64, c % 64;
      && p * 4 + q / 16 == a
      && q % 16 * 16 + r / 4 == b
      && r % 4 * 64 + t == c
  {
  }

  /** The encoding is URL-safe characters and padding; without the padding it decodes to the same octets. */
  lemma {:induction false} EncodeDecodes(raw: seq<Octet>)
    ensures
      var s := StripPadding(Encode(raw));
      && Encode(raw) == s + Padding(|raw|)
      && UrlSafe(s)
      && Decode(s) == Some(raw)
      && (raw != [] ==> s != "")
  {
    if raw == [] {
      assert UrlSafe("");
    } else if |raw| == 1 {
      EncodeOneDecodes(raw);
    } else if |raw| == 2 {
      EncodeTwoDecodes(raw);
    } else {
      EncodeLongDecodes(raw);
    }
  }

  lemma DecodeTwo(p: Sextet, q: Sextet)
    ensures Decode([Char(p), Char(q)]) == Some([p * 4 + q / 16]) && UrlSafe([Char(p), Char(q)]) && Char(q) != '='
  {
    hide Char, ValueOf;
    CharRoundTrip(p);
    CharRoundTrip(q);
  }

  lemma DecodeThree(p: Sextet, q: Sextet, r: Sextet)
    ensures Decode([Char(p), Char(q), Char(r)]) == Some([p * 4 + q / 16, q % 16 * 16 + r / 4])
    ensures UrlSafe([Char(p), Char(q), Char(r)]) && Char(r) != '='
  {
    hide Char, ValueOf;
    CharRoundTrip(p);
    CharRoundTrip(q);
    CharRoundTrip(r);
  }

  lemma EncodeOneDecodes(raw: seq<Octet>)
    requires |raw| == 1
    ensures
      var s := StripPadding(Encode(raw));
      Encode(raw) == s + "==" && UrlSafe(s) && Decode(s) == Some(raw) && s != ""
  {
    hide Decode, UrlSafe, Char, StripPadding;
    DecodeTwo(raw[0] / 4, raw[0] % 4 * 16);
    StripPaddingOf([Char(raw[0] / 4), Char(raw[0] % 4 * 16)], "==");
    ThreeOctets(raw[0], 0, 0);
    assert raw == [raw[0]];
  }

  lemma EncodeTwoDecodes(raw: seq<Octet>)
    requires |raw| == 2
    ensures
      var s := StripPadding(Encode(raw));
      Encode(raw) == s + "=" && UrlSafe(s) && Decode(s) == Some(raw) && s != ""
  {
    hide Decode, UrlSafe, Char, StripPadding;
    var p, q, r := raw[0] / 4, raw[0] % 4 * 16 + raw[1] / 16, raw[1] % 16 * 4;
    DecodeThree(p, q, r);
    StripPaddingOf([Char(p), Char(q), Char(r)], "=");
    ThreeOctets(raw[0], raw[1], 0);
    assert raw == [raw[0], raw[1]];
  }

  function FourChars(a: Octet, b: Octet, c: Octet): string {
    [Char(a / 4), Char(a % 4 * 16 + b / 16), Char(b % 16 * 4 + c / 64), Char(c % 64)]
  }

  lemma DecodeGroup(a: Octet, b: Octet, c: Octet, rest: string, raw: seq<Octet>)
    requires Decode(rest) == Some(raw)
    ensures Decode(FourChars(a, b, c) + rest) == Some([a, b, c] + raw)
  {
    CharRoundTrip(a / 4);
    CharRoundTrip(a % 4 * 16 + b / 16);
    CharRoundTrip(b % 16 * 4 + c / 64);
    CharRoundTrip(c % 64);
    ThreeOctets(a, b, c);
    var s := FourChars(a, b, c) + rest;
    assert s[4..] == rest;
    assert s[0] == Char(a / 4) && s[1] == Char(a % 4 * 16 + b / 16);
    assert s[2] == Char(b % 16 * 4 + c / 64) && s[3] == Char(c % 64);
  }

  lemma UrlSafeGroup(a: Octet, b: Octet, c: Octet, rest: string)
    requires UrlSafe(rest)
    ensures UrlSafe(FourChars(a, b, c) + rest)
  {
    CharRoundTrip(a / 4);
    CharRoundTrip(a % 4 * 16 + b / 16);
    CharRoundTrip(b % 16 * 4 + c / 64);
    CharRoundTrip(c % 64);
  }

  lemma EncodeGroups(raw: seq<Octet>)
    requires |raw| >= 3
    ensures Encode(raw) == FourChars(raw[0], raw[1], raw[2]) + Encode(raw[3..])
    ensures |FourChars(raw[0], raw[1], raw[2])| == 4
  {
  }

  lemma {:induction false} EncodeLongDecodes(raw: seq<Octet>)
    requires |raw| >= 3
    ensures
      var s := StripPadding(Encode(raw));
      && Encode(raw) == s + Padding(|raw|)
      && UrlSafe(s)
      && Decode(s) == Some(raw)
      && s != ""
    decreases raw, 0
  {
    hide Decode, UrlSafe, Encode, StripPadding, FourChars;
    EncodeDecodes(raw[3..]);
    EncodeGroups(raw);
    var head, rest := FourChars(raw[0], raw[1], raw[2]), StripPadding(Encode(raw[3..]));
    DecodeGroup(raw[0], raw[1], raw[2], rest, raw[3..]);
    UrlSafeGroup(raw[0], raw[1], raw[2], rest);
    UrlSafeEnd(head + rest);
    assert |head| == 4;
    assert head + (rest + Padding(|raw|)) == head + rest + Padding(|raw|);
    StripPaddingOf(head + rest, Padding(|raw|));
    assert raw == [raw[0], raw[1], raw[2]] + raw[3..];
  }

  lemma UrlSafeEnd(s: string)
    requires UrlSafe(s)
    ensures s == "" || s[|s| - 1] != '='
  {
  }

  lemma BitLengthBy16(value: nat)
    ensures value < 16 ==> BitLength(value) <= 4
    ensures value >= 16 ==> BitLength(value) == 4 + BitLength(value / 16)
  {
    var v1 := value / 2;
    var v2 := v1 / 2;
    var v3 := v2 / 2;
    assert v3 / 2 == value / 16;
    assert BitLength(v1) == if v1 == 0 then 0 else 1 + BitLength(v2);
    assert BitLength(v2) == if v2 == 0 then 0 else 1 + BitLength(v3);
    assert BitLength(v3) == if v3 == 0 then 0 else 1 + BitLength(v3 / 2);
  }

  lemma BitLengthBy256(value: nat)
    requires value > 0
    ensures (BitLength(value) + 7) / 8 == 1 + (BitLength(value / 256) + 7) / 8
  {
    BitLengthBy16(value);
    BitLengthBy16(value / 16);
    assert value / 16 / 16 == value / 256;
  }

  /** The length the code computes is enough, and not one octet too long. */
  lemma {:induction false} MinimalBytes(value: nat)
    ensures
      var raw := ToBytes(value, (BitLength(value) + 7) / 8);
      && raw.Some?
      && FromBytes(raw.value) == value
      && (raw.value != [] ==> raw.value[0] != 0)
      && (raw.value == [] <==> value == 0)
  {
    hide BitLength, ToBytes, FromBytes;
    if value == 0 {
      NoBytes();
    } else {
      BitLengthBy256(value);
      MinimalBytes(value / 256);
      ToBytesStep(value, (BitLength(value / 256) + 7) / 8);
    }
  }

  lemma NoBytes()
    ensures ToBytes(0, (BitLength(0) + 7) / 8) == Some([]) && FromBytes([]) == 0
  {
  }

  lemma ToBytesStep(value: nat, length: nat)
    requires ToBytes(value / 256, length).Some?
    requires FromBytes(ToBytes(value / 256, length).value) == value / 256
    ensures ToBytes(value, 1 + length) == Some(ToBytes(value / 256, length).value + [value % 256])
    ensures FromBytes(ToBytes(value, 1 + length).value) == value
  {
    var high := ToBytes(value / 256, length).value;
    assert (high + [value % 256])[..|high|] == high;
  }

  /** Decoding what `_b64url_uint` gives for a positive number gives the number back; so it is injective. */
  lemma UintRoundTrip(value: nat)
    ensures
      var text := B64UrlUint(value);
      && text.Some? && UrlSafe(text.value)
      && Decode(text.value).Some? && FromBytes(Decode(text.value).value) == value
  {
    MinimalBytes(value);
    EncodeDecodes(ToBytes(value, (BitLength(value) + 7) / 8).value);
  }

  lemma UintInjective(a: nat, b: nat)
    requires B64UrlUint(a) == B64UrlUint(b)
    ensures a == b
  {
    UintRoundTrip(a);
    UintRoundTrip(b);
  }

  /** Section 2 of RFC 7518: the octets of the number, as few as possible but at least one, without padding. */
  ghost predicate IsBase64UrlUint(text: string, value: nat) {
    exists raw: seq<Octet> ::
      && raw != [] && FromBytes(raw) == value && (|raw| == 1 || raw[0] != 0)
      && text == StripPadding(Encode(raw))
  }

  /** The code meets the definition for every number except zero, which it writes as the empty string. */
  lemma MeetsRfcIff(value: nat)
    ensures B64UrlUint(value).Some?
    ensures IsBase64UrlUint(B64UrlUint(value).value, value) <==> value > 0
  {
    MinimalBytes(value);
    var raw := ToBytes(value, (BitLength(value) + 7) / 8).value;
    if IsBase64UrlUint(B64UrlUint(value).value, value) && value == 0 {
      var other: seq<Octet> :| other != [] && B64UrlUint(value).value == StripPadding(Encode(other));
      EncodeDecodes(other);
    }
    if value > 0 {
      assert raw != [] && FromBytes(raw) == value && (|raw| == 1 || raw[0] != 0);
    }
  }

  datatype Jwk = Jwk(kid: string, kty: string, alg: string, use: string, n: string, e: string)

  /** `_public_key_to_jwk` from the numbers of an RSA public key on. */
  function PublicKeyToJwk(modulus: nat, exponent: nat, kid: string, algorithm: string): Option<Jwk> {
    match (B64UrlUint(modulus), B64UrlUint(exponent))
    case (Some(n), Some(e)) => Some(Jwk(kid, "RSA", algorithm, "sig", n, e))
    case _ => None
  }

  /** The key document names an RSA signing key, and its two numbers read back as modulus and exponent. */
  lemma JwkHoldsKey(modulus: nat, exponent: nat, kid: string, algorithm: string)
    ensures
      var jwk := PublicKeyToJwk(modulus, exponent, kid, algorithm);
      && jwk.Some?
      && jwk.value.kty == "RSA" && jwk.value.use == "sig"
      && jwk.value.alg == algorithm && jwk.value.kid == kid
      && Decode(jwk.value.n).Some? && FromBytes(Decode(jwk.value.n).value) == modulus
      && Decode(jwk.value.e).Some? && FromBytes(Decode(jwk.value.e).value) == exponent
  {
    UintRoundTrip(modulus);
    UintRoundTrip(exponent);
  }

  /** The example of appendix C of RFC 7515, and the exponent of almost every RSA key. */
  lemma EncodingExamples()
    ensures Encode([3, 236, 255, 224, 193]) == "A-z_4ME="
    ensures Encode([1, 0, 1]) == "AQAB"
  {
    hide Char;
    var raw: seq<Octet> := [3, 236, 255, 224, 193];
    assert raw[3..] == [224, 193];
    var e: seq<Octet> := [1, 0, 1];
    assert e[3..] == [];
    CharExamples();
  }

  lemma CharExamples()
    ensures Char(0) == 'A' && Char(1) == 'B' && Char(4) == 'E' && Char(12) == 'M' && Char(16) == 'Q'
    ensures Char(51) == 'z' && Char(56) == '4' && Char(62) == '-' && Char(63) == '_'
  {
  }

  /** Every RSA public key has a key document, and the document determines the key. */
  lemma JwkDeterminesKey(modulus: nat, exponent: nat, kid: string, algorithm: string, modulus': nat, exponent': nat,
                         kid': string, algorithm': string)
    ensures PublicKeyToJwk(modulus, exponent, kid, algorithm).Some?
    ensures PublicKeyToJwk(modulus, exponent, kid, algorithm) == PublicKeyToJwk(modulus', exponent', kid', algorithm')
       <==> modulus == modulus' && exponent == exponent' && kid == kid' && algorithm == algorithm'
  {
    UintRoundTrip(modulus);
    UintRoundTrip(exponent);
    UintRoundTrip(modulus');
    UintRoundTrip(exponent');
  }
}
