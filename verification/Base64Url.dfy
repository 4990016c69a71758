// The unpadded base64url codec of the trust lab (section 5 of RFC 4648).

module Base64Url {
  import opened Basics

  type sextet = x: int | 0 <= x < 64

  /** The modulus of the decoder's 32-bit accumulator. */
  const U32: int := 0x1_0000_0000

  /** The alphabet, by its ranges: `A-Z`, `a-z`, `0-9`, `-`, `_`. */
  function Symbol(v: sextet): char {
    if v < 26 then 'A' + v as char
    else if v < 52 then 'a' + (v - 26) as char
    else if v < 62 then '0' + (v - 52) as char
    else if v == 62 then '-'
    else '_'
  }

  /** Where a character stands in the alphabet, if it does. */
  function Position(c: char): (r: Option<sextet>)
    ensures r.Some? ==> Symbol(r.value) == c
  {
    if 'A' <= c <= 'Z' then Some((c - 'A') as int)
    else if 'a' <= c <= 'z' then Some((c - 'a') as int + 26)
    else if '0' <= c <= '9' then Some((c - '0') as int + 52)
    else if c == '-' then Some(62)
    else if c == '_' then Some(63)
    else None
  }

  lemma PositionOfSymbol(v: sextet)
    ensures Position(Symbol(v)) == Some(v)
  {
    if v < 26 {
      assert 'A' <= Symbol(v) <= 'Z';
    } else if v < 52 {
      assert 'a' <= Symbol(v) <= 'z';
    } else if v < 62 {
      assert '0' <= Symbol(v) <= '9';
    }
  }

  /** The 24-bit group of a chunk, missing bytes read as zero. */
  function Combined(chunk: seq<byte>): (n: nat)
    requires 1 <= |chunk| <= 3
    ensures n < 0x100_0000
  {
    var first: int := chunk[0];
    var second: int := if |chunk| > 1 then chunk[1] else 0;
    var third: int := if |chunk| > 2 then chunk[2] else 0;
    first * 0x10000 + second * 0x100 + third
  }

  /** `(n >> shift) & 0x3f` for the four shifts of a group. */
  function Bits(n: nat, shift: nat): sextet
    requires shift in {0, 6, 12, 18}
  {
    (if shift == 18 then n / 0x40000 else if shift == 12 then n / 0x1000 else if shift == 6 then n / 64 else n) % 64
  }

  /** The characters of one chunk of one, two or three bytes. */
  function EncodeChunk(chunk: seq<byte>): string
    requires 1 <= |chunk| <= 3
  {
    var combined := Combined(chunk);
    [Symbol(Bits(combined, 18)), Symbol(Bits(combined, 12))]
    + (if |chunk| > 1 then [Symbol(Bits(combined, 6))] else [])
    + (if |chunk| > 2 then [Symbol(Bits(combined, 0))] else [])
  }

  function Encode(input: seq<byte>): string {
    if input == [] then ""
    else if |input| <= 3 then EncodeChunk(input)
    else EncodeChunk(input[..3]) + Encode(input[3..])
  }

  /** `2^bits` for the shifts the decoder performs. */
  function ShiftDivisor(bits: nat): (d: int)
    ensures d > 0
  {
    if bits == 0 then 1 else if bits == 2 then 4 else 16
  }

  /** The accumulator after one more character: a 32-bit left shift, then the sextet. */
  function Shifted(acc: nat, v: sextet): nat {
    acc * 64 % U32 + v
  }

  /** What the decoder appends from a state `(acc, bits)` on. */
  function DecodeFrom(acc: nat, bits: nat, s: string): Option<seq<byte>>
    requires bits in {0, 2, 4, 6}
    decreases |s|
  {
    if s == "" then Some([])
    else
      var position := Position(s[0]);
      if position.None? then None
      else
        var acc' := Shifted(acc, position.value);
        if bits < 2 then DecodeFrom(acc', bits + 6, s[1..])
        else
          Prepend([acc' / ShiftDivisor(bits - 2) % 256], DecodeFrom(acc', bits - 2, s[1..]))
  }

  function Prepend(front: seq<byte>, rest: Option<seq<byte>>): Option<seq<byte>> {
    if rest.None? then None else Some(front + rest.value)
  }

  lemma PrependNothing(rest: Option<seq<byte>>)
    ensures Prepend([], rest) == rest
  {
    assert rest.Some? ==> [] + rest.value == rest.value;
  }

  lemma PrependTwice(front: seq<byte>, b: byte, rest: Option<seq<byte>>)
    ensures Prepend(front, Prepend([b], rest)) == Prepend(front + [b], rest)
  {
    assert rest.Some? ==> front + ([b] + rest.value) == front + [b] + rest.value;
  }

  function Decode(s: string): Option<seq<byte>> {
    DecodeFrom(0, 0, s)
  }

  lemma EncodeNext(input: seq<byte>, i: nat, before: string)
    requires i < |input|
    ensures var end := if i + 3 <= |input| then i + 3 else |input|;
            before + Encode(input[i..]) == before + EncodeChunk(input[i..end]) + Encode(input[end..])
  {
    var end := if i + 3 <= |input| then i + 3 else |input|;
    EncodeSplit(input[i..]);
    assert input[i..][..end - i] == input[i..end] && input[i..][end - i..] == input[end..];
  }

  lemma NothingEncoded()
    ensures Encode([]) == ""
  {
  }

  method B64Url(input: seq<byte>) returns (out: string)
    ensures out == Encode(input)
  {
    hide Encode, Bits, Symbol, Combined;
    out := "";
    var i := 0;
    NothingEncoded();
    assert input[0..] == input;
    while i < |input|
      invariant 0 <= i <= |input|
      invariant out + Encode(input[i..]) == Encode(input)
    {
      var end := if i + 3 <= |input| then i + 3 else |input|;
      var chunk := input[i..end];
      var combined := Combined(chunk);
      ghost var before := out;
      out := out + [Symbol(Bits(combined, 18))];
      out := out + [Symbol(Bits(combined, 12))];
      if |chunk| > 1 {
        out := out + [Symbol(Bits(combined, 6))];
      }
      if |chunk| > 2 {
        out := out + [Symbol(Bits(combined, 0))];
      }
      assert out == before + EncodeChunk(chunk);
      EncodeNext(input, i, before);
      i := end;
    }
    assert input[i..] == [];
    assert out + "" == out;
  }

  lemma EncodeSplit(input: seq<byte>)
    requires input != []
    ensures var k := if |input| < 3 then |input| else 3;
            Encode(input) == EncodeChunk(input[..k]) + Encode(input[k..])
  {
    hide EncodeChunk;
    if |input| <= 3 {
      var k := |input|;
      assert input[..k] == input && input[k..] == [];
      NothingEncoded();
      assert EncodeChunk(input) + "" == EncodeChunk(input);
    }
  }

  method B64UrlDecode(input: string) returns (r: Option<seq<byte>>)
    ensures r == Decode(input)
  {
    var accumulator: nat := 0;
    var bits: nat := 0;
    var out: seq<byte> := [];
    var i := 0;
    PrependNothing(Decode(input));
    assert input[0..] == input;
    while i < |input|
      invariant 0 <= i <= |input|
      invariant bits in {0, 2, 4, 6}
      invariant Decode(input) == Prepend(out, DecodeFrom(accumulator, bits, input[i..]))
    {
      var position := Position(input[i]);
      if position.None? {
        return None;
      }
      assert input[i..][1..] == input[i + 1..];
      accumulator := accumulator * 64 % U32 + position.value;
      bits := bits + 6;
      if bits >= 8 {
        bits := bits - 8;
        PrependTwice(out, accumulator / ShiftDivisor(bits) % 256, DecodeFrom(accumulator, bits, input[i + 1..]));
        out := out + [accumulator / ShiftDivisor(bits) % 256];
      }
      i := i + 1;
    }
    assert out + [] == out;
    r := Some(out);
  }

  // --- The round trip ------------------------------------------------------------------------

  /** Only the low bits of the accumulator matter, so what 32 bits drop is never read. */
  lemma ShiftedLowBits(acc: nat, v: sextet)
    ensures Shifted(acc, v) % 64 == v
    ensures Shifted(acc, v) % 4096 == acc % 64 * 64 + v
  {
    var q := acc * 64 / U32;
    var s := acc * 64 % U32 + v;
    assert s == acc * 64 - U32 * q + v;
    DivModUnique(s, 4096, acc / 64 - 0x10_0000 * q, acc % 64 * 64 + v);
    DivModUnique(s, 64, acc - 0x400_0000 * q, v);
  }

  lemma ReadByte(x: nat)
    ensures x / 16 % 256 == x % 4096 / 16
    ensures x / 4 % 256 == x % 4096 % 1024 / 4
    ensures x % 256 == x % 4096 % 256
  {
    var q, r := x / 4096, x % 4096;
    DivModUnique(x, 16, 256 * q + r / 16, r % 16);
    DivModUnique(x / 16, 256, q, r / 16);
    DivModUnique(x, 4, 1024 * q + r / 4, r % 4);
    DivModUnique(x / 4, 256, 4 * q + r / 1024, r % 1024 / 4);
    DivModUnique(x, 256, 16 * q + r / 256, r % 256);
  }

  /** The four sextets of a group, in terms of its bytes. */
  lemma Sextets(a: int, b: int, c: int)
    requires 0 <= a < 256 && 0 <= b < 256 && 0 <= c < 256
    ensures var n := a * 0x10000 + b * 0x100 + c;
            Bits(n, 18) == a / 4 && Bits(n, 12) == a % 4 * 16 + b / 16
            && Bits(n, 6) == b % 16 * 4 + c / 64 && Bits(n, 0) == c % 64
  {
    var a1, a0, b1, b0, c1, c0 := a / 4, a % 4, b / 16, b % 16, c / 64, c % 64;
    assert a == 4 * a1 + a0 && b == 16 * b1 + b0 && c == 64 * c1 + c0;
    var n := a * 0x10000 + b * 0x100 + c;
    DivModUnique(n, 0x40000, a1, a0 * 0x10000 + b * 0x100 + c);
    DivModUnique(a1, 64, 0, a1);
    DivModUnique(n, 0x1000, a * 16 + b1, b0 * 0x100 + c);
    DivModUnique(a * 16 + b1, 64, a1, a0 * 16 + b1);
    DivModUnique(n, 64, a * 0x400 + b * 4 + c1, c0);
    DivModUnique(a * 0x400 + b * 4 + c1, 64, a * 16 + b1, b0 * 4 + c1);
  }

  /** Four symbols of one full group give its three bytes, whatever the accumulator held. */
  lemma GroupDecodes(acc: nat, a: byte, b: byte, c: byte, rest: string) returns (acc4: nat)
    ensures DecodeFrom(acc, 0, EncodeChunk([a, b, c]) + rest) == Prepend([a, b, c], DecodeFrom(acc4, 0, rest))
  {
    var n := Combined([a, b, c]);
    Sextets(a, b, c);
    var s0, s1, s2, s3 := Bits(n, 18), Bits(n, 12), Bits(n, 6), Bits(n, 0);
    var acc1 := Shifted(acc, s0);
    var acc2 := Shifted(acc1, s1);
    var acc3 := Shifted(acc2, s2);
    acc4 := Shifted(acc3, s3);
    var t3 := [Symbol(s3)] + rest;
    var t2 := [Symbol(s2)] + t3;
    var t1 := [Symbol(s1)] + t2;
    assert EncodeChunk([a, b, c]) + rest == [Symbol(s0)] + t1;
    SilentStep(acc, s0, t1);
    FirstByte(acc, a, s0, s1, t2);
    SecondByte(acc1, b, s1, s2, t3);
    ThirdByte(acc2, c, s2, s3, rest);
    PrependThrice(a, b, c, DecodeFrom(acc4, 0, rest));
  }

  lemma PrependThrice(a: byte, b: byte, c: byte, rest: Option<seq<byte>>)
    ensures Prepend([a], Prepend([b], Prepend([c], rest))) == Prepend([a, b, c], rest)
  {
    if rest.Some? {
      assert [a] + ([b] + ([c] + rest.value)) == [a, b, c] + rest.value;
    }
  }

  /** The first character of a group only fills the accumulator. */
  lemma SilentStep(acc: nat, s0: sextet, t: string)
    ensures DecodeFrom(acc, 0, [Symbol(s0)] + t) == DecodeFrom(Shifted(acc, s0), 6, t)
  {
    PositionOfSymbol(s0);
    assert ([Symbol(s0)] + t)[1..] == t;
  }

  lemma FirstByte(acc: nat, a: byte, s0: sextet, s1: sextet, t: string)
    requires s0 == a / 4 && s1 / 16 == a % 4
    ensures DecodeFrom(Shifted(acc, s0), 6, [Symbol(s1)] + t)
         == Prepend([a], DecodeFrom(Shifted(Shifted(acc, s0), s1), 4, t))
  {
    var acc2 := Shifted(Shifted(acc, s0), s1);
    PositionOfSymbol(s1);
    ShiftedLowBits(acc, s0); ShiftedLowBits(Shifted(acc, s0), s1); ReadByte(acc2);
    DivModUnique(s0 * 64 + s1, 16, a, s1 % 16);
    assert ([Symbol(s1)] + t)[1..] == t;
  }

  lemma SecondByte(acc: nat, b: byte, s1: sextet, s2: sextet, t: string)
    requires s1 % 16 == b / 16 && s2 / 4 == b % 16
    ensures DecodeFrom(Shifted(acc, s1), 4, [Symbol(s2)] + t)
         == Prepend([b], DecodeFrom(Shifted(Shifted(acc, s1), s2), 2, t))
  {
    var acc3 := Shifted(Shifted(acc, s1), s2);
    PositionOfSymbol(s2);
    ShiftedLowBits(acc, s1); ShiftedLowBits(Shifted(acc, s1), s2); ReadByte(acc3);
    DivModUnique(s1 * 64 + s2, 1024, s1 / 16, b * 4 + s2 % 4);
    DivModUnique(b * 4 + s2 % 4, 4, b, s2 % 4);
    assert acc3 / 4 % 256 == b;
    assert ([Symbol(s2)] + t)[1..] == t;
  }

  lemma ThirdByte(acc: nat, c: byte, s2: sextet, s3: sextet, t: string)
    requires s2 % 4 == c / 64 && s3 == c % 64
    ensures DecodeFrom(Shifted(acc, s2), 2, [Symbol(s3)] + t)
         == Prepend([c], DecodeFrom(Shifted(Shifted(acc, s2), s3), 0, t))
  {
    var acc4 := Shifted(Shifted(acc, s2), s3);
    PositionOfSymbol(s3);
    ShiftedLowBits(acc, s2); ShiftedLowBits(Shifted(acc, s2), s3); ReadByte(acc4);
    DivModUnique(s2 * 64 + s3, 256, s2 / 4, c);
    assert acc4 / 1 % 256 == c;
    assert ([Symbol(s3)] + t)[1..] == t;
  }

  lemma NothingLeft(acc: nat, bits: nat)
    requires bits in {0, 2, 4, 6}
    ensures DecodeFrom(acc, bits, "") == Some([])
  {
  }

  lemma TailDecodes(acc: nat, chunk: seq<byte>)
    requires 1 <= |chunk| <= 2
    ensures DecodeFrom(acc, 0, EncodeChunk(chunk)) == Some(chunk)
  {
    hide DecodeFrom, Bits, Symbol, Shifted;
    var a, b := chunk[0], if |chunk| > 1 then chunk[1] else 0;
    var n := Combined(chunk);
    Sextets(a, b, 0);
    var s0, s1, s2 := Bits(n, 18), Bits(n, 12), Bits(n, 6);
    var t2 := if |chunk| > 1 then [Symbol(s2)] + "" else "";
    assert EncodeChunk(chunk) == [Symbol(s0)] + ([Symbol(s1)] + t2);
    SilentStep(acc, s0, [Symbol(s1)] + t2);
    FirstByte(acc, a, s0, s1, t2);
    if |chunk| > 1 {
      SecondByte(Shifted(acc, s0), b, s1, s2, "");
      NothingLeft(Shifted(Shifted(Shifted(acc, s0), s1), s2), 2);
      assert chunk == [a] + ([b] + []);
    } else {
      NothingLeft(Shifted(Shifted(acc, s0), s1), 4);
      assert chunk == [a] + [];
    }
  }

  /** The decoder recovers every byte string from any accumulator left over at a group boundary. */
  lemma {:induction false} RoundTripFrom(acc: nat, x: seq<byte>)
    ensures DecodeFrom(acc, 0, Encode(x)) == Some(x)
    decreases |x|
  {
    if x == [] {
    } else if |x| < 3 {
      TailDecodes(acc, x);
    } else {
      EncodeSplit(x);
      assert x[..3] == [x[0], x[1], x[2]];
      var acc' := GroupDecodes(acc, x[0], x[1], x[2], Encode(x[3..]));
      RoundTripFrom(acc', x[3..]);
      assert x == x[..3] + x[3..];
    }
  }

  lemma RoundTrip(x: seq<byte>)
    ensures Decode(Encode(x)) == Some(x)
  {
    RoundTripFrom(0, x);
  }

  // --- What an encoding looks like -----------------------------------------------------------

  ghost predicate OnlyAlphabet(s: string) {
    forall i :: 0 <= i < |s| ==> Position(s[i]).Some?
  }

  /** Every character is in the alphabet, and six bits per character cover the input exactly. */
  lemma {:induction false} EncodeShape(x: seq<byte>)
    ensures OnlyAlphabet(Encode(x))
    ensures |Encode(x)| == (8 * |x| + 5) / 6
    decreases |x|
  {
    if x != [] {
      EncodeSplit(x);
      var k := if |x| < 3 then |x| else 3;
      ChunkShape(x[..k]);
      EncodeShape(x[k..]);
    }
  }

  lemma ChunkShape(chunk: seq<byte>)
    requires 1 <= |chunk| <= 3
    ensures OnlyAlphabet(EncodeChunk(chunk)) && |EncodeChunk(chunk)| == |chunk| + 1
  {
    forall i | 0 <= i < |EncodeChunk(chunk)| ensures Position(EncodeChunk(chunk)[i]).Some? {
      var v: sextet :| EncodeChunk(chunk)[i] == Symbol(v);
      PositionOfSymbol(v);
    }
  }

  /** The alphabet: three runs of consecutive characters, then two more. */
  lemma AlphabetIs()
    ensures Symbol(0) == 'A' && Symbol(25) == 'Z' && Symbol(26) == 'a' && Symbol(51) == 'z'
    ensures Symbol(52) == '0' && Symbol(61) == '9' && Symbol(62) == '-' && Symbol(63) == '_'
    ensures forall v: sextet :: v < 61 && v != 25 && v != 51 ==> Symbol(v + 1) as int == Symbol(v) as int + 1
  {
  }

  /** The first bits of a group come first. */
  lemma GroupReads()
    ensures Encode([0x66, 0x6F, 0x6F]) == "Zm9v" && Encode([0x66, 0x6F]) == "Zm8" && Encode([0x66]) == "Zg"
    ensures Encode([0xFB, 0xFF]) == "-_8"
  {
    hide Symbol;
    Letters();
    Sextets(0x66, 0x6F, 0x6F);
    Sextets(0x66, 0x6F, 0);
    Sextets(0x66, 0, 0);
    Sextets(0xFB, 0xFF, 0);
  }

  lemma Letters()
    ensures Symbol(25) == 'Z' && Symbol(38) == 'm' && Symbol(61) == '9' && Symbol(47) == 'v' && Symbol(60) == '8'
    ensures Symbol(32) == 'g' && Symbol(62) == '-' && Symbol(63) == '_'
  {
  }
}
