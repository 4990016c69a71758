// Splitting and joining on a separator, as the source's string methods do it.

module Texts {
  import opened Basics

  /** Index of the first occurrence of `x`, or the length when there is none. */
  function IndexOf<T(==)>(s: seq<T>, x: T): (k: nat)
    ensures k <= |s|
    ensures forall i :: 0 <= i < k ==> s[i] != x
    ensures k < |s| ==> s[k] == x
    ensures k == |s| <==> x !in s
  {
    if s == [] then 0 else if s[0] == x then 0 else 1 + IndexOf(s[1..], x)
  }

  /** Every maximal piece between separators; a string without one is a single piece. */
  function Split<T(==)>(s: seq<T>, x: T): (r: seq<seq<T>>)
    ensures r != []
    decreases |s|
  {
    var k := IndexOf(s, x);
    if k == |s| then [s] else [s[..k]] + Split(s[k + 1..], x)
  }

  function Join<T>(parts: seq<seq<T>>, x: T): seq<T>
    requires parts != []
  {
    if |parts| == 1 then parts[0] else parts[0] + [x] + Join(parts[1..], x)
  }

  /** The pieces that hold anything. */
  function NonEmpty<T>(parts: seq<seq<T>>): seq<seq<T>> {
    if parts == [] then [] else (if |parts[0]| == 0 then [] else [parts[0]]) + NonEmpty(parts[1..])
  }

  /** The text before and after the first separator. */
  function SplitOnce<T(==)>(s: seq<T>, x: T): Option<(seq<T>, seq<T>)> {
    var k := IndexOf(s, x);
    if k == |s| then None else Some((s[..k], s[k + 1..]))
  }

  lemma IndexOfConcat<T>(a: seq<T>, x: T, b: seq<T>)
    requires x !in a
    ensures IndexOf(a + [x] + b, x) == |a|
  {
    var s := a + [x] + b;
    assert s[|a|] == x;
    assert forall i :: 0 <= i < |a| ==> s[i] == a[i];
  }

  lemma SplitOnceConcat<T>(a: seq<T>, x: T, b: seq<T>)
    requires x !in a
    ensures SplitOnce(a + [x] + b, x) == Some((a, b))
  {
    IndexOfConcat(a, x, b);
    var s := a + [x] + b;
    assert s[..|a|] == a && s[|a| + 1..] == b;
  }

  lemma SplitFirst<T>(a: seq<T>, x: T, b: seq<T>)
    requires x !in a
    ensures Split(a + [x] + b, x) == [a] + Split(b, x)
  {
    IndexOfConcat(a, x, b);
    var s := a + [x] + b;
    assert s[..|a|] == a && s[|a| + 1..] == b;
  }

  lemma {:induction false} SplitJoin<T>(parts: seq<seq<T>>, x: T)
    requires parts != [] && forall p :: p in parts ==> x !in p
    ensures Split(Join(parts, x), x) == parts
  {
    if |parts| == 1 {
      assert parts[0] in parts;
    } else {
      var first, others := parts[0], parts[1..];
      assert first in parts;
      assert forall p :: p in others ==> p in parts;
      SplitJoin(others, x);
      SplitFirst(first, x, Join(others, x));
      assert parts == [first] + others;
    }
  }

  lemma JoinThree<T>(a: seq<T>, b: seq<T>, c: seq<T>, x: T)
    ensures Join([a, b, c], x) == a + [x] + b + [x] + c
  {
    assert [a, b, c][1..] == [b, c] && [b, c][1..] == [c];
    assert Join([b, c], x) == b + [x] + c;
    assert a + [x] + (b + [x] + c) == a + [x] + b + [x] + c;
  }

  /** Splitting loses nothing and leaves no separator inside a piece. */
  lemma {:induction false} JoinSplit<T>(s: seq<T>, x: T)
    ensures Join(Split(s, x), x) == s
    ensures forall p :: p in Split(s, x) ==> x !in p
    decreases |s|
  {
    var k := IndexOf(s, x);
    if k < |s| {
      JoinSplit(s[k + 1..], x);
      assert s == s[..k] + [x] + s[k + 1..];
    }
  }

  /** The code points Unicode calls white space, which is what trimming removes. */
  predicate IsWhitespace(c: char) {
    var n := c as int;
    || 0x09 <= n <= 0x0D || n == 0x20 || n == 0x85 || n == 0xA0 || n == 0x1680
    || 0x2000 <= n <= 0x200A || n == 0x2028 || n == 0x2029 || n == 0x202F || n == 0x205F || n == 0x3000
  }

  /** `trim().is_empty()`. */
  predicate IsBlank(s: string) {
    forall i :: 0 <= i < |s| ==> IsWhitespace(s[i])
  }

  function Trim(s: string): string {
    TrimEnd(TrimStart(s))
  }

  function TrimStart(s: string): string {
    if s != "" && IsWhitespace(s[0]) then TrimStart(s[1..]) else s
  }

  function TrimEnd(s: string): string {
    if s != "" && IsWhitespace(s[|s| - 1]) then TrimEnd(s[..|s| - 1]) else s
  }
}
