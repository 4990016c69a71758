// Natural numbers and their big-endian byte strings.

module BigEndian {
  import opened Basics

  /** The natural number a big-endian byte string denotes. */
  function Value(bs: seq<byte>): nat {
    if bs == [] then 0 else Value(bs[..|bs| - 1]) * 256 + bs[|bs| - 1]
  }

  /** The shortest big-endian byte string denoting `n`; zero is the empty string. */
  function Minimal(n: nat): seq<byte> {
    if n == 0 then [] else Minimal(n / 256) + [n % 256]
  }

  /** `to_be_bytes` for a machine word of `width` bytes. */
  function WordBytes(n: nat, width: nat): (bs: seq<byte>)
    ensures |bs| == width
  {
    if width == 0 then [] else WordBytes(n / 256, width - 1) + [n % 256]
  }

  /** Index of the first byte that is not zero, or the length when there is none. */
  function FirstNonZero(bs: seq<byte>): (k: nat)
    ensures k <= |bs|
    ensures forall i :: 0 <= i < k ==> bs[i] == 0
    ensures k < |bs| ==> bs[k] != 0
  {
    if bs == [] || bs[0] != 0 then 0 else 1 + FirstNonZero(bs[1..])
  }

  lemma ValueAppend(bs: seq<byte>, b: byte)
    ensures Value(bs + [b]) == Value(bs) * 256 + b
  {
    assert (bs + [b])[..|bs|] == bs;
  }

  lemma {:induction false} ValueOfMinimal(n: nat)
    ensures Value(Minimal(n)) == n
    ensures n > 0 ==> Minimal(n) != [] && Minimal(n)[0] != 0
  {
    if n > 0 {
      ValueOfMinimal(n / 256);
      ValueAppend(Minimal(n / 256), n % 256);
    }
  }

  /** A byte string with no leading zero is the minimal one of its value. */
  lemma {:induction false} MinimalOfValue(bs: seq<byte>)
    requires bs != [] ==> bs[0] != 0
    ensures Minimal(Value(bs)) == bs
    ensures bs != [] ==> Value(bs) > 0
  {
    if bs != [] {
      var front, last := bs[..|bs| - 1], bs[|bs| - 1];
      MinimalOfValue(front);
      DivModUnique(Value(bs), 256, Value(front), last);
      assert bs == front + [last];
    }
  }

  lemma {:induction false} LeadingZeroes(bs: seq<byte>, k: nat)
    requires k <= |bs| && forall i :: 0 <= i < k ==> bs[i] == 0
    ensures Value(bs) == Value(bs[k..])
  {
    if k == |bs| {
      AllZero(bs);
    } else if bs != [] {
      var front := bs[..|bs| - 1];
      LeadingZeroes(front, k);
      assert bs[k..][..|bs| - 1 - k] == front[k..];
    }
  }

  lemma {:induction false} AllZero(bs: seq<byte>)
    requires forall i :: 0 <= i < |bs| ==> bs[i] == 0
    ensures Value(bs) == 0
  {
    if bs != [] {
      AllZero(bs[..|bs| - 1]);
    }
  }

  /** Trimming leading zeroes is what makes two spellings of one integer the same. */
  lemma TrimmedIsMinimal(bs: seq<byte>)
    ensures bs[FirstNonZero(bs)..] == Minimal(Value(bs))
  {
    var k := FirstNonZero(bs);
    LeadingZeroes(bs, k);
    MinimalOfValue(bs[k..]);
  }

  function Pow256(k: nat): (p: nat)
    ensures p > 0
  {
    if k == 0 then 1 else 256 * Pow256(k - 1)
  }

  lemma {:induction false} ValueOfWord(n: nat, width: nat)
    requires n < Pow256(width)
    ensures Value(WordBytes(n, width)) == n
  {
    if width > 0 {
      assert n / 256 < Pow256(width - 1);
      ValueOfWord(n / 256, width - 1);
      ValueAppend(WordBytes(n / 256, width - 1), n % 256);
    }
  }

  lemma {:induction false} WordOfValue(bs: seq<byte>)
    ensures Value(bs) < Pow256(|bs|) && WordBytes(Value(bs), |bs|) == bs
  {
    if bs != [] {
      var front, last := bs[..|bs| - 1], bs[|bs| - 1];
      WordOfValue(front);
      DivModUnique(Value(bs), 256, Value(front), last);
      assert bs == front + [last];
    }
  }

  lemma WordSize()
    ensures Pow256(8) == U64
  {
    assert Pow256(4) == 0x1_0000_0000;
  }

  lemma {:induction false} MinimalLength(n: nat, width: nat)
    requires n < Pow256(width)
    ensures |Minimal(n)| <= width
  {
    if n > 0 {
      assert n / 256 < Pow256(width - 1);
      MinimalLength(n / 256, width - 1);
    }
  }
}
