// Total orders, lexicographic order, and sorting.

module Ordering {

  ghost predicate TotalOrder<T(!new)>(le: (T, T) -> bool) {
    && (forall a, b :: le(a, b) || le(b, a))
    && (forall a, b :: le(a, b) && le(b, a) ==> a == b)
    && (forall a, b, c :: le(a, b) && le(b, c) ==> le(a, c))
  }

  // --- Sorting ---------------------------------------------------------------------------------

  ghost predicate Sorted<T>(le: (T, T) -> bool, s: seq<T>) {
    forall i, j :: 0 <= i < j < |s| ==> le(s[i], s[j])
  }

  function InsertBy<T>(le: (T, T) -> bool, x: T, s: seq<T>): seq<T> {
    if s == [] || le(x, s[0]) then [x] + s else [s[0]] + InsertBy(le, x, s[1..])
  }

  function SortBy<T>(le: (T, T) -> bool, s: seq<T>): seq<T> {
    if s == [] then [] else InsertBy(le, s[0], SortBy(le, s[1..]))
  }

  lemma SortedCons<T>(le: (T, T) -> bool, x: T, s: seq<T>)
    requires Sorted(le, s) && forall i :: 0 <= i < |s| ==> le(x, s[i])
    ensures Sorted(le, [x] + s)
  {
  }

  lemma {:induction false} InsertBySorted<T(!new)>(le: (T, T) -> bool, x: T, s: seq<T>)
    requires TotalOrder(le) && Sorted(le, s)
    ensures Sorted(le, InsertBy(le, x, s)) && multiset(InsertBy(le, x, s)) == multiset(s) + multiset{x}
  {
    if s == [] || le(x, s[0]) {
      assert forall i :: 0 < i < |s| ==> le(x, s[0]) && le(s[0], s[i]);
    } else {
      var first, others := s[0], s[1..];
      assert s == [first] + others;
      InsertBySorted(le, x, others);
      var rest := InsertBy(le, x, others);
      forall i | 0 <= i < |rest| ensures le(first, rest[i]) {
        assert rest[i] in multiset(rest);
        assert rest[i] in others || rest[i] == x;
      }
      SortedCons(le, first, rest);
    }
  }

  lemma {:induction false} SortBySorted<T(!new)>(le: (T, T) -> bool, s: seq<T>)
    requires TotalOrder(le)
    ensures Sorted(le, SortBy(le, s)) && multiset(SortBy(le, s)) == multiset(s)
  {
    if s != [] {
      SortBySorted(le, s[1..]);
      InsertBySorted(le, s[0], SortBy(le, s[1..]));
      assert s == [s[0]] + s[1..];
    }
  }

  /** A sorted sequence is determined by what it holds. */
  lemma {:induction false} SortedUnique<T(!new)>(le: (T, T) -> bool, a: seq<T>, b: seq<T>)
    requires TotalOrder(le) && Sorted(le, a) && Sorted(le, b) && multiset(a) == multiset(b)
    ensures a == b
  {
    hide TotalOrder, Sorted;
    SameLength(a, b);
    if a != [] {
      var a', b' := a[1..], b[1..];
      SameFirst(le, a, b);
      SortedTail(le, a);
      SortedTail(le, b);
      SortedUnique(le, a', b');
      assert a == [a[0]] + a' && b == [b[0]] + b';
    }
  }

  lemma SameLength<T>(a: seq<T>, b: seq<T>)
    requires multiset(a) == multiset(b)
    ensures |a| == |b|
  {
    assert |multiset(a)| == |multiset(b)|;
  }

  lemma SameFirst<T(!new)>(le: (T, T) -> bool, a: seq<T>, b: seq<T>)
    requires TotalOrder(le) && Sorted(le, a) && Sorted(le, b) && multiset(a) == multiset(b) && a != [] && b != []
    ensures a[0] == b[0]
  {
    assert a[0] in multiset(b) && b[0] in multiset(a);
    SmallestFirst(le, a, b[0]);
    SmallestFirst(le, b, a[0]);
  }

  lemma SortedTail<T(!new)>(le: (T, T) -> bool, s: seq<T>)
    requires Sorted(le, s) && s != []
    ensures Sorted(le, s[1..]) && multiset(s[1..]) == multiset(s) - multiset{s[0]}
  {
    assert s == [s[0]] + s[1..];
  }

  lemma SmallestFirst<T(!new)>(le: (T, T) -> bool, s: seq<T>, x: T)
    requires TotalOrder(le) && Sorted(le, s) && x in multiset(s)
    ensures le(s[0], x)
  {
    var i :| 0 <= i < |s| && s[i] == x;
  }

  /** Sorting forgets the order of its input, and nothing else. */
  lemma SortByCanonical<T(!new)>(le: (T, T) -> bool, a: seq<T>, b: seq<T>)
    requires TotalOrder(le)
    ensures SortBy(le, a) == SortBy(le, b) <==> multiset(a) == multiset(b)
  {
    SortBySorted(le, a);
    SortBySorted(le, b);
    if multiset(a) == multiset(b) {
      SortedUnique(le, SortBy(le, a), SortBy(le, b));
    }
  }

  // --- Lexicographic order ---------------------------------------------------------------------

  predicate LexLe<T(==)>(le: (T, T) -> bool, a: seq<T>, b: seq<T>) {
    if a == [] then true
    else if b == [] then false
    else if a[0] != b[0] then le(a[0], b[0])
    else LexLe(le, a[1..], b[1..])
  }

  lemma {:induction false} LexTotal<T(!new)>(le: (T, T) -> bool, a: seq<T>, b: seq<T>)
    requires TotalOrder(le)
    ensures LexLe(le, a, b) || LexLe(le, b, a)
    ensures LexLe(le, a, b) && LexLe(le, b, a) ==> a == b
  {
    if a != [] && b != [] && a[0] == b[0] {
      LexTotal(le, a[1..], b[1..]);
      assert a == [a[0]] + a[1..] && b == [b[0]] + b[1..];
    }
  }

  lemma {:induction false} LexTransitive<T(!new)>(le: (T, T) -> bool, a: seq<T>, b: seq<T>, c: seq<T>)
    requires TotalOrder(le) && LexLe(le, a, b) && LexLe(le, b, c)
    ensures LexLe(le, a, c)
  {
    if a != [] && a[0] == b[0] && b[0] == c[0] {
      LexTransitive(le, a[1..], b[1..], c[1..]);
    }
  }

  // --- Strings, labels and series --------------------------------------------------------------

  predicate CharLe(a: char, b: char) { a <= b }

  predicate StringLe(a: string, b: string) { LexLe(CharLe, a, b) }

  lemma StringsOrdered()
    ensures TotalOrder(StringLe)
  {
    assert TotalOrder(CharLe);
    forall a: string, b: string
      ensures (StringLe(a, b) || StringLe(b, a)) && (StringLe(a, b) && StringLe(b, a) ==> a == b)
    {
      LexTotal(CharLe, a, b);
    }
    forall a: string, b: string, c: string | StringLe(a, b) && StringLe(b, c) ensures StringLe(a, c) {
      LexTransitive(CharLe, a, b, c);
    }
  }

  /** The derived order on pairs: first components, then second. */
  predicate PairLe(a: (string, string), b: (string, string)) {
    if a.0 != b.0 then StringLe(a.0, b.0) else StringLe(a.1, b.1)
  }

  lemma PairsOrdered()
    ensures TotalOrder(PairLe)
  {
    StringsOrdered();
  }

  predicate LabelsLe(a: seq<(string, string)>, b: seq<(string, string)>) { LexLe(PairLe, a, b) }

  lemma LabelsOrdered()
    ensures TotalOrder(LabelsLe)
  {
    PairsOrdered();
    forall a: seq<(string, string)>, b: seq<(string, string)>
      ensures (LabelsLe(a, b) || LabelsLe(b, a)) && (LabelsLe(a, b) && LabelsLe(b, a) ==> a == b)
    {
      LexTotal(PairLe, a, b);
    }
    forall a: seq<(string, string)>, b: seq<(string, string)>, c: seq<(string, string)>
      | LabelsLe(a, b) && LabelsLe(b, c) ensures LabelsLe(a, c)
    {
      LexTransitive(PairLe, a, b, c);
    }
  }
}
