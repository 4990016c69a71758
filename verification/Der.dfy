// DER encoding of an RSA public key: sections 8.1.3 and 8.3 of ITU-T X.690 and Appendix A.1.1 of
// RFC 8017. The encoder follows por.rs; the reader is a strict reference decoder.

module Der {
  import opened Basics
  import opened BigEndian

  const TAG_INTEGER: byte := 0x02
  const TAG_SEQUENCE: byte := 0x30

  // --- The encoding, as a function of the numbers alone ----------------------------------------

  function LengthOctets(length: nat): seq<byte>
    requires length < U64
  {
    if length < 0x80 then [length]
    else
      WordSize(); MinimalLength(length, 8);
      [0x80 + |Minimal(length)|] + Minimal(length)
  }

  function Tlv(tag: byte, content: seq<byte>): seq<byte>
    requires |content| < U64
  {
    [tag] + LengthOctets(|content|) + content
  }

  /** The content octets: two's complement, positive, as short as possible. */
  function IntegerContent(n: nat): seq<byte> {
    var bytes := Minimal(n);
    if bytes != [] && bytes[0] >= 0x80 then [0] + bytes else bytes
  }

  function Integer(n: nat): seq<byte>
    requires |IntegerContent(n)| < U64
  {
    Tlv(TAG_INTEGER, IntegerContent(n))
  }

  /** Every length in the encoding of `(n, e)` fits the machine's 64-bit `usize`. */
  predicate Encodable(n: nat, e: nat) {
    && |IntegerContent(n)| < U64 && |IntegerContent(e)| < U64
    && |Integer(n) + Integer(e)| < U64
  }

  function RsaPublicKey(n: nat, e: nat): seq<byte>
    requires Encodable(n, e)
  {
    Tlv(TAG_SEQUENCE, Integer(n) + Integer(e))
  }

  // --- The source's procedures, on the bytes a JWK carries -------------------------------------

  method DerLength(length: nat) returns (out: seq<byte>)
    requires length < U64
    ensures out == LengthOctets(length)
  {
    if length < 0x80 {
      return [length];
    }
    var bytes := WordBytes(length, 8);
    var significant := FirstNonZero(bytes);
    WordSize(); ValueOfWord(length, 8); TrimmedIsMinimal(bytes); MinimalLength(length, 8);
    var tail := bytes[significant..];
    out := [0x80 + |tail|];
    out := out + tail;
  }

  method DerInteger(value: seq<byte>) returns (out: seq<byte>)
    requires |value| < U64 - 1
    ensures |IntegerContent(Value(value))| <= |value| + 1
    ensures out == Integer(Value(value))
  {
    hide Value, Minimal, LengthOctets, FirstNonZero;
    var trimmed := value[FirstNonZero(value)..];
    TrimmedIsMinimal(value);
    var content := [];
    if trimmed != [] && trimmed[0] >= 0x80 {
      content := content + [0x00];
    }
    content := content + trimmed;
    assert content == IntegerContent(Value(value));
    out := [TAG_INTEGER];
    var length := DerLength(|content|);
    out := out + length;
    out := out + content;
  }

  /** The two inputs are in memory at once, so their lengths together stay below 2^63. */
  method DerRsaPublicKey(modulus: seq<byte>, exponent: seq<byte>) returns (out: seq<byte>)
    requires |modulus| + |exponent| < 0x8000_0000_0000_0000
    ensures Encodable(Value(modulus), Value(exponent))
    ensures out == RsaPublicKey(Value(modulus), Value(exponent))
  {
    var body := DerInteger(modulus);
    var second := DerInteger(exponent);
    LengthOctetsLength(|IntegerContent(Value(modulus))|);
    LengthOctetsLength(|IntegerContent(Value(exponent))|);
    body := body + second;
    out := [TAG_SEQUENCE];
    var length := DerLength(|body|);
    out := out + length;
    out := out + body;
  }

  lemma LengthOctetsLength(length: nat)
    requires length < U64
    ensures |LengthOctets(length)| <= 9
  {
    WordSize(); MinimalLength(length, 8);
  }

  // --- A strict reader -------------------------------------------------------------------------

  /** Definite length octets in the shortest form, and what follows them. */
  function ReadLength(bs: seq<byte>): Option<(nat, seq<byte>)> {
    if bs == [] then None
    else if bs[0] < 0x80 then Some((bs[0], bs[1..]))
    else
      var k := bs[0] - 0x80;
      if k == 0 || k >= 0x7f || |bs| < 1 + k || bs[1] == 0 then None
      else
        var length := Value(bs[1..1 + k]);
        if length < 0x80 then None else Some((length, bs[1 + k..]))
  }

  /** One element with the given tag: its content octets, and what follows the element. */
  function ReadTlv(tag: byte, bs: seq<byte>): Option<(seq<byte>, seq<byte>)> {
    if bs == [] || bs[0] != tag then None
    else match ReadLength(bs[1..])
      case None => None
      case Some((length, rest)) =>
        if length <= |rest| then Some((rest[..length], rest[length..])) else None
  }

  /** Content octets of a positive INTEGER: present, sign bit clear, no superfluous zero octet. */
  predicate PositiveContent(content: seq<byte>) {
    && content != [] && content[0] < 0x80
    && (content[0] == 0 ==> |content| > 1 && content[1] >= 0x80)
  }

  function ReadPositiveInteger(bs: seq<byte>): Option<(nat, seq<byte>)> {
    match ReadTlv(TAG_INTEGER, bs)
    case None => None
    case Some((content, rest)) =>
      if PositiveContent(content) then Some((Value(content), rest)) else None
  }

  /** A whole `RSAPublicKey` and nothing after it. */
  function ReadRsaPublicKey(bs: seq<byte>): Option<(nat, nat)> {
    match ReadTlv(TAG_SEQUENCE, bs)
    case None => None
    case Some((body, rest)) =>
      if rest != [] then None
      else match ReadPositiveInteger(body)
        case None => None
        case Some((n, afterModulus)) =>
          match ReadPositiveInteger(afterModulus)
          case None => None
          case Some((e, end)) => if end == [] then Some((n, e)) else None
  }

  // --- Encoding and reading are inverse --------------------------------------------------------

  lemma ReadLengthOf(length: nat, rest: seq<byte>)
    requires length < U64
    ensures ReadLength(LengthOctets(length) + rest) == Some((length, rest))
  {
    var bs := LengthOctets(length) + rest;
    if length < 0x80 {
      assert bs[1..] == rest;
    } else {
      WordSize(); MinimalLength(length, 8); ValueOfMinimal(length);
      var k := |Minimal(length)|;
      assert bs[1..1 + k] == Minimal(length);
      assert bs[1 + k..] == rest;
    }
  }

  lemma ReadTlvOf(tag: byte, content: seq<byte>, rest: seq<byte>)
    requires |content| < U64
    ensures ReadTlv(tag, Tlv(tag, content) + rest) == Some((content, rest))
  {
    assert (Tlv(tag, content) + rest)[1..] == LengthOctets(|content|) + (content + rest);
    ReadLengthOf(|content|, content + rest);
  }

  lemma IntegerContentValue(n: nat)
    ensures Value(IntegerContent(n)) == n
    ensures PositiveContent(IntegerContent(n)) <==> n > 0
  {
    ValueOfMinimal(n);
    var c := IntegerContent(n);
    if c != Minimal(n) {
      LeadingZeroes(c, 1);
      assert c[1..] == Minimal(n);
    }
  }

  lemma ReadIntegerOf(n: nat, rest: seq<byte>)
    requires |IntegerContent(n)| < U64
    ensures ReadPositiveInteger(Integer(n) + rest) == if n > 0 then Some((n, rest)) else None
  {
    ReadTlvOf(TAG_INTEGER, IntegerContent(n), rest);
    IntegerContentValue(n);
  }

  /** The encoding reads back as the same two naturals exactly when neither is zero. */
  lemma RsaRoundTrip(n: nat, e: nat)
    requires Encodable(n, e)
    ensures ReadRsaPublicKey(RsaPublicKey(n, e)) == if n > 0 && e > 0 then Some((n, e)) else None
  {
    var body := Integer(n) + Integer(e);
    assert RsaPublicKey(n, e) + [] == RsaPublicKey(n, e);
    ReadTlvOf(TAG_SEQUENCE, body, []);
    ReadIntegerOf(n, Integer(e));
    assert Integer(e) + [] == Integer(e);
    ReadIntegerOf(e, []);
  }

  /** Different integers never share an encoding, zero included. */
  lemma RsaInjective(n: nat, e: nat, n': nat, e': nat)
    requires Encodable(n, e) && Encodable(n', e')
    ensures RsaPublicKey(n, e) == RsaPublicKey(n', e') <==> n == n' && e == e'
  {
    if RsaPublicKey(n, e) == RsaPublicKey(n', e') {
      RsaContents(n, e);
      RsaContents(n', e');
    }
  }

  /** The encoding determines both content octet strings, hence both numbers. */
  lemma RsaContents(n: nat, e: nat)
    requires Encodable(n, e)
    ensures var body := ReadTlv(TAG_SEQUENCE, RsaPublicKey(n, e));
            body.Some? &&
            var first := ReadTlv(TAG_INTEGER, body.value.0);
            first.Some? && Value(first.value.0) == n &&
            var second := ReadTlv(TAG_INTEGER, first.value.1);
            second.Some? && Value(second.value.0) == e
  {
    assert RsaPublicKey(n, e) + [] == RsaPublicKey(n, e);
    ReadTlvOf(TAG_SEQUENCE, Integer(n) + Integer(e), []);
    ReadTlvOf(TAG_INTEGER, IntegerContent(n), Integer(e));
    assert Integer(e) + [] == Integer(e);
    ReadTlvOf(TAG_INTEGER, IntegerContent(e), []);
    IntegerContentValue(n);
    IntegerContentValue(e);
  }

  /** Two JWK spellings give one key exactly when they denote the same integers. */
  lemma SameKeySameIntegers(m: seq<byte>, x: seq<byte>, m': seq<byte>, x': seq<byte>)
    requires Encodable(Value(m), Value(x)) && Encodable(Value(m'), Value(x'))
    ensures RsaPublicKey(Value(m), Value(x)) == RsaPublicKey(Value(m'), Value(x'))
       <==> m[FirstNonZero(m)..] == m'[FirstNonZero(m')..] && x[FirstNonZero(x)..] == x'[FirstNonZero(x')..]
  {
    RsaInjective(Value(m), Value(x), Value(m'), Value(x'));
    TrimmedIsMinimal(m); TrimmedIsMinimal(m'); TrimmedIsMinimal(x); TrimmedIsMinimal(x');
    ValueOfMinimal(Value(m)); ValueOfMinimal(Value(m')); ValueOfMinimal(Value(x)); ValueOfMinimal(Value(x'));
  }

  // --- The encoding is canonical: nothing else reads as the same key ---------------------------

  lemma ReadLengthCanonical(bs: seq<byte>)
    requires ReadLength(bs).Some? && ReadLength(bs).value.0 < U64
    ensures bs == LengthOctets(ReadLength(bs).value.0) + ReadLength(bs).value.1
  {
    hide Value, Minimal;
    if bs[0] >= 0x80 {
      var k := bs[0] - 0x80;
      var octets := bs[1..1 + k];
      assert octets[0] == bs[1];
      MinimalOfValue(octets);
      assert bs == [bs[0]] + octets + bs[1 + k..];
    }
  }

  lemma ReadTlvCanonical(tag: byte, bs: seq<byte>)
    requires ReadTlv(tag, bs).Some? && |bs| < U64
    ensures var (content, rest) := ReadTlv(tag, bs).value;
            |content| < U64 && bs == Tlv(tag, content) + rest
  {
    hide ReadLength, LengthOctets;
    ReadLengthShrinks(bs[1..]);
    ReadLengthCanonical(bs[1..]);
    var (length, rest) := ReadLength(bs[1..]).value;
    var octets, content, after := LengthOctets(length), rest[..length], rest[length..];
    assert rest == content + after;
    assert bs == [bs[0]] + (octets + (content + after));
    assert bs == [bs[0]] + octets + content + after;
  }

  lemma ReadLengthShrinks(bs: seq<byte>)
    requires ReadLength(bs).Some?
    ensures |ReadLength(bs).value.1| < |bs|
  {
  }

  lemma ContentCanonical(content: seq<byte>)
    requires PositiveContent(content)
    ensures content == IntegerContent(Value(content)) && Value(content) > 0
  {
    if content[0] == 0 {
      LeadingZeroes(content, 1);
      MinimalOfValue(content[1..]);
      assert content == [0] + content[1..];
    } else {
      MinimalOfValue(content);
    }
  }

  /** A byte string that reads as a key is the encoder's own output for it. */
  lemma RsaCanonical(bs: seq<byte>)
    requires |bs| < U64 && ReadRsaPublicKey(bs).Some?
    ensures var (n, e) := ReadRsaPublicKey(bs).value;
            n > 0 && e > 0 && Encodable(n, e) && bs == RsaPublicKey(n, e)
  {
    ReadTlvCanonical(TAG_SEQUENCE, bs);
    var body := ReadTlv(TAG_SEQUENCE, bs).value.0;
    assert bs == Tlv(TAG_SEQUENCE, body);
    ReadTlvCanonical(TAG_INTEGER, body);
    var (c, afterModulus) := ReadTlv(TAG_INTEGER, body).value;
    ContentCanonical(c);
    ReadTlvCanonical(TAG_INTEGER, afterModulus);
    var (c', end) := ReadTlv(TAG_INTEGER, afterModulus).value;
    ContentCanonical(c');
    assert afterModulus == Integer(Value(c'));
  }

  /** The identifier octets of a key and of its two integers are those of SEQUENCE and INTEGER. */
  lemma IdentifierOctets(n: nat, e: nat)
    requires Encodable(n, e)
    ensures RsaPublicKey(n, e)[0] == 0x30 && Integer(n)[0] == 0x02 && Integer(e)[0] == 0x02
    ensures Integer(n) + Integer(e) <= RsaPublicKey(n, e)[|RsaPublicKey(n, e)| - |Integer(n) + Integer(e)|..]
  {
  }

  /** The key of modulus 128 and exponent 3, octet by octet. */
  lemma SmallKey()
    ensures Encodable(128, 3)
    ensures RsaPublicKey(128, 3) == [0x30, 0x07, 0x02, 0x02, 0x00, 0x80, 0x02, 0x01, 0x03]
  {
    assert Minimal(128) == [0x80] && Minimal(3) == [0x03];
    assert Integer(128) == [0x02, 0x02, 0x00, 0x80] && Integer(3) == [0x02, 0x01, 0x03];
  }
}
