// Types shared by every module of the model.

module Basics {

  datatype Option<+T> = None | Some(value: T)

  /** The source's `Result`: an answer, or the reason there is none. */
  datatype Result<+T, +E> = Ok(value: T) | Err(error: E)

  type byte = x: int | 0 <= x < 256

  /** A signed 64-bit integer. Arithmetic on it is checked: an overflow is a verification error. */
  newtype i64 = x: int | -0x8000_0000_0000_0000 <= x < 0x8000_0000_0000_0000

  const U64: int := 0x1_0000_0000_0000_0000
  const I64_MAX: int := 0x7fff_ffff_ffff_ffff

  type u64 = x: int | 0 <= x < U64

  /** A JSON value as the source's JSON library presents it. */
  datatype Json =
    | Null
    | Bool(flag: bool)
    | Int(number: int)
    | Float(fraction: real)
    | Str(text: string)
    | Arr(items: seq<Json>)
    | Obj(members: map<string, Json>)
  {
    /** Member lookup; anything that is not an object has no members. */
    function Get(name: string): Option<Json> {
      if Obj? && name in members then Some(members[name]) else None
    }

    /** The text of a string value. */
    function AsStr(): Option<string> {
      if Str? then Some(text) else None
    }

    /** The integer a value denotes, when it is whole and fits 64 signed bits. */
    function AsI64(): Option<i64> {
      if Int? && -I64_MAX - 1 <= number <= I64_MAX then Some(number as i64) else None
    }
  }

  /** No element occurs twice. */
  ghost predicate Distinct<T>(s: seq<T>) {
    forall i, j :: 0 <= i < j < |s| ==> s[i] != s[j]
  }

  lemma {:induction false} OnlyOnce<T>(s: seq<T>, x: T)
    requires Distinct(s)
    ensures multiset(s)[x] <= 1
  {
    if s != [] {
      assert s == [s[0]] + s[1..];
      OnlyOnce(s[1..], x);
    }
  }

  lemma TwicePresent<T>(s: seq<T>, i: nat, j: nat)
    requires i < j < |s| && s[i] == s[j]
    ensures multiset(s)[s[i]] >= 2
  {
    var a, b := s[..j], s[j..];
    assert s == a + b && a[i] == s[i] && b[0] == s[j];
    assert s[i] in multiset(a) && s[j] in multiset(b);
  }

  /** The elements of a sequence. */
  function Elements<T(!new)>(s: seq<T>): (r: set<T>)
    ensures forall x :: x in r <==> x in s
  {
    set x | x in s
  }

  lemma ProductNonNegative(a: int, b: int)
    requires a >= 0 && b >= 0
    ensures a * b >= 0
  {
  }

  /** Quotient and remainder are determined by the division equation. */
  lemma DivModUnique(x: int, d: int, q: int, r: int)
    requires d > 0 && 0 <= r < d && x == q * d + r
    ensures x / d == q && x % d == r
  {
    var k := q - x / d;
    assert k * d == x % d - r by {
      assert x == d * (x / d) + x % d;
      assert k * d == q * d - x / d * d;
    }
    assert k * d == (k - 1) * d + d && -k * d == (-k - 1) * d + d;
    if k >= 1 {
      ProductNonNegative(k - 1, d);
    } else if k <= -1 {
      ProductNonNegative(-k - 1, d);
    }
  }
}
