// The audit trail on disk: a hash chain over daily files, with seals that attest to its prefixes.

module AuditTrail {
  import opened Basics

  /** What a record says, apart from its place in the trail. */
  datatype Content = Content(action: string, subject: string, kind: string, sensitivity: string, target: Option<string>,
                             continuityId: Option<string>, position: Option<u64>, service: string, version: string)

  datatype Body = Body(number: nat, at: string, prev: string, content: Content)

  datatype Record = Record(body: Body, digest: string)

  /** The digest of a record's canonical text. */
  type Hash = Body -> string

  /** How many records the trail held, and the digest of the last of them. */
  datatype Seal = Seal(day: int, records: nat, head: string)

  const GENESIS: string := "0000000000000000000000000000000000000000000000000000000000000000"

  // --- Days in order ---------------------------------------------------------------------------

  type Days = map<int, seq<Record>>

  lemma SomeOrNone(s: set<int>)
    ensures s == {} || exists x :: x in s
  {
    if forall x :: x !in s { assert s == {}; }
  }

  lemma {:induction false} LeastExists(s: set<int>)
    requires s != {}
    ensures exists d :: d in s && forall e :: e in s ==> d <= e
  {
    SomeOrNone(s);
    var x :| x in s;
    var rest := s - {x};
    assert s == rest + {x};
    if rest != {} {
      LeastExists(rest);
      var d :| d in rest && forall e :: e in rest ==> d <= e;
      var least := if d <= x then d else x;
      assert least in s && forall e :: e in s ==> e in rest || e == x;
      assert forall e :: e in s ==> least <= e;
    } else {
      assert forall e :: e in s ==> e == x;
    }
  }

  function Least(s: set<int>): (d: int)
    requires s != {}
    ensures d in s && forall e :: e in s ==> d <= e
  {
    LeastExists(s);
    var d :| d in s && forall e :: e in s ==> d <= e;
    d
  }

  /** The records of every day, oldest day first. */
  function Trail(days: Days): seq<Record>
    decreases |days.Keys|
  {
    if days.Keys == {} then []
    else
      var d := Least(days.Keys);
      Smaller(days, d);
      days[d] + Trail(days - {d})
  }

  lemma Smaller(days: Days, d: int)
    requires d in days
    ensures |(days - {d}).Keys| < |days.Keys|
  {
    assert (days - {d}).Keys == days.Keys - {d};
  }

  function From(days: Days, cut: int): Days { map d | d in days && d >= cut :: days[d] }

  function Until(days: Days, cut: int): Days { map d | d in days && d < cut :: days[d] }

  /** A trail is what came before a day, then what came from it on. */
  lemma {:induction false} TrailSplit(days: Days, cut: int)
    ensures Trail(days) == Trail(Until(days, cut)) + Trail(From(days, cut))
    decreases |days.Keys|
  {
    hide Trail;
    var before, after := Until(days, cut), From(days, cut);
    if days.Keys == {} {
      assert before.Keys == {} && after.Keys == {};
      EmptyDays(days);
      EmptyDays(before);
      EmptyDays(after);
    } else {
      var d := Least(days.Keys);
      if d >= cut {
        assert before.Keys == {};
        EmptyDays(before);
        assert after == days;
      } else {
        var rest := days - {d};
        Smaller(days, d);
        TrailSplit(rest, cut);
        assert d in before && Least(before.Keys) == d;
        assert before - {d} == Until(rest, cut);
        assert after == From(rest, cut);
        NextDay(days, d);
        NextDay(before, d);
        assert days[d] + (Trail(Until(rest, cut)) + Trail(after)) == days[d] + Trail(Until(rest, cut)) + Trail(after);
      }
    }
  }

  // --- The chain -------------------------------------------------------------------------------

  /** The digest a record at place `i` must name. */
  function Before(trail: seq<Record>, i: nat): string
    requires i <= |trail|
  {
    if i == 0 then GENESIS else trail[i - 1].digest
  }

  function Head(trail: seq<Record>): string { Before(trail, |trail|) }

  ghost predicate Linked(hash: Hash, trail: seq<Record>, i: nat)
    requires i < |trail|
  {
    && trail[i].digest == hash(trail[i].body)
    && trail[i].body.prev == Before(trail, i)
    && trail[i].body.number == i + 1
  }

  ghost predicate Chained(hash: Hash, trail: seq<Record>) {
    forall i :: 0 <= i < |trail| ==> Linked(hash, trail, i)
  }

  /** The seals beside the days, by the point of the trail each attests to: a later day's replaces an
      earlier one's. */
  function Points(days: Days, seals: map<int, Seal>): map<nat, Seal>
    decreases |days.Keys|
  {
    if days.Keys == {} then map[]
    else
      var d := Least(days.Keys);
      Smaller(days, d);
      (if d in seals then map[seals[d].records := seals[d]] else map[]) + Points(days - {d}, seals)
  }

  /** The seal of the latest day that attests to the point `n`. */
  ghost predicate LatestSeal(days: Days, seals: map<int, Seal>, n: nat, d: int) {
    && d in days && d in seals && seals[d].records == n
    && forall e :: e in days && e in seals && seals[e].records == n ==> e <= d
  }

  ghost predicate SealedAt(days: Days, seals: map<int, Seal>, n: nat, d: int) {
    d in days && d in seals && seals[d].records == n
  }

  /** Every seal beside a day on disk is read, unless a later day's attests to the same point. */
  lemma {:induction false} PointsExactly(days: Days, seals: map<int, Seal>, n: nat)
    ensures n in Points(days, seals) <==> exists d :: SealedAt(days, seals, n, d)
    ensures n in Points(days, seals) ==>
      exists d :: LatestSeal(days, seals, n, d) && Points(days, seals)[n] == seals[d]
    decreases |days.Keys|
  {
    if days.Keys != {} {
      var first := Least(days.Keys);
      var rest := days - {first};
      Smaller(days, first);
      PointsExactly(rest, seals, n);
      if n in Points(rest, seals) {
        var d :| LatestSeal(rest, seals, n, d) && Points(rest, seals)[n] == seals[d];
        assert LatestSeal(days, seals, n, d) && SealedAt(days, seals, n, d);
      } else if first in seals && seals[first].records == n {
        assert SealedAt(days, seals, n, first);
        OnlySeal(days, seals, n, first);
      } else {
        forall d ensures !SealedAt(days, seals, n, d) {
          if d != first { assert !SealedAt(rest, seals, n, d); }
        }
      }
    }
  }

  lemma OnlySeal(days: Days, seals: map<int, Seal>, n: nat, first: int)
    requires SealedAt(days, seals, n, first) && forall d :: !SealedAt(days - {first}, seals, n, d)
    ensures LatestSeal(days, seals, n, first)
  {
    forall e | e in days && e in seals && seals[e].records == n ensures e <= first {
      assert !SealedAt(days - {first}, seals, n, e);
    }
  }

  ghost predicate SealsHold(trail: seq<Record>, points: map<nat, Seal>) {
    && (forall n :: n in points ==> n <= |trail|)
    && (forall n :: 1 <= n <= |trail| && n in points ==> points[n].head == trail[n - 1].digest)
  }

  // --- Verification ----------------------------------------------------------------------------

  datatype Refusal = Altered | DoesNotFollow | Misnumbered | Rewritten | Truncated

  datatype Verification = Verification(records: nat, days: nat, head: string)

  /** The first `n` records are linked, and agree with every seal that attests to one of them. */
  ghost predicate ReadTo(hash: Hash, trail: seq<Record>, points: map<nat, Seal>, n: nat) {
    && n <= |trail|
    && (forall i :: 0 <= i < n ==> Linked(hash, trail, i))
    && (forall i :: 1 <= i <= n && i in points ==> points[i].head == trail[i - 1].digest)
  }

  method VerifyFile(hash: Hash, file: seq<Record>, points: map<nat, Seal>, records: nat, head: string,
                    ghost trail: seq<Record>)
    returns (r: Result<(nat, string), Refusal>)
    requires ReadTo(hash, trail, points, records) && head == Before(trail, records)
    requires records + |file| <= |trail| && trail[records..records + |file|] == file
    ensures r.Ok? ==>
      r.value.0 == records + |file| && ReadTo(hash, trail, points, r.value.0) && r.value.1 == Before(trail, r.value.0)
    ensures r.Err? ==> !(Chained(hash, trail) && SealsHold(trail, points))
  {
    hide Linked;
    var count, last := records, head;
    for i := 0 to |file|
      invariant count == records + i && ReadTo(hash, trail, points, count) && last == Before(trail, count)
    {
      var record := file[i];
      assert trail[count] == trail[records..records + |file|][i];
      LinkedExactly(hash, trail, count);
      if hash(record.body) != record.digest { return Err(Altered); }
      if record.body.prev != last { return Err(DoesNotFollow); }
      if record.body.number != count + 1 { return Err(Misnumbered); }
      last := record.digest;
      count := count + 1;
      if count in points && points[count].head != last { return Err(Rewritten); }
    }
    r := Ok((count, last));
  }

  /** Reads a whole trail. It is accepted exactly when every record is linked and every seal holds. */
  method Verify(hash: Hash, days: Days, seals: map<int, Seal>) returns (r: Result<Verification, Refusal>)
    ensures r.Ok? <==> Chained(hash, Trail(days)) && SealsHold(Trail(days), Points(days, seals))
    ensures r.Ok? ==> r.value == Verification(|Trail(days)|, |days.Keys|, Head(Trail(days)))
  {
    hide Trail, Points, Linked;
    var points := Points(days, seals);
    ghost var trail := Trail(days);
    var left := days;
    var head, records: nat := GENESIS, 0;
    assert trail[0..] == trail;
    while left.Keys != {}
      invariant ReadTo(hash, trail, points, records) && trail[records..] == Trail(left)
      invariant head == Before(trail, records)
      decreases |left.Keys|
    {
      var d := Least(left.Keys);
      Smaller(left, d);
      NextDay(left, d);
      FileInTrail(trail, records, left[d], Trail(left - {d}));
      var read := VerifyFile(hash, left[d], points, records, head, trail);
      if read.Err? { return Err(read.error); }
      left := left - {d};
      records, head := read.value.0, read.value.1;
    }
    EmptyDays(left);
    assert |trail[records..]| == |trail| - records;
    if exists n | n in points :: n > records { return Err(Truncated); }
    r := Ok(Verification(records, |days.Keys|, head));
  }

  lemma FileInTrail(trail: seq<Record>, n: nat, file: seq<Record>, rest: seq<Record>)
    requires n <= |trail| && trail[n..] == file + rest
    ensures n + |file| <= |trail| && trail[n..n + |file|] == file && trail[n + |file|..] == rest
  {
    assert |trail| - n == |file| + |rest|;
    assert trail[n..n + |file|] == trail[n..][..|file|];
    assert trail[n + |file|..] == trail[n..][|file|..];
  }

  lemma LinkedExactly(hash: Hash, trail: seq<Record>, i: nat)
    requires i < |trail|
    ensures Linked(hash, trail, i) <==>
      trail[i].digest == hash(trail[i].body) && trail[i].body.prev == Before(trail, i) && trail[i].body.number == i + 1
  {
  }

  lemma EmptyDays(days: Days)
    requires days.Keys == {}
    ensures Trail(days) == []
  {
  }

  lemma NextDay(days: Days, d: int)
    requires days.Keys != {} && d == Least(days.Keys)
    ensures Trail(days) == days[d] + Trail(days - {d})
  {
  }

  // --- What the chain and the seals catch ------------------------------------------------------

  /** Two different records with one digest. */
  ghost predicate Collision(hash: Hash, a: Body, b: Body) { a != b && hash(a) == hash(b) }

  /** One digest attests to everything before it: two trails that verify and agree on the digest of
      their `n`th record agree on all `n`, or exhibit two bodies with one digest. */
  lemma {:induction false} HeadAttests(hash: Hash, t: seq<Record>, u: seq<Record>, n: nat)
    requires Chained(hash, t) && Chained(hash, u) && n <= |t| && n <= |u| && Before(t, n) == Before(u, n)
    ensures t[..n] == u[..n] || exists i :: 0 <= i < n && Collision(hash, t[i].body, u[i].body)
  {
    if n > 0 {
      var k := n - 1;
      assert Linked(hash, t, k) && Linked(hash, u, k);
      if t[k].body == u[k].body {
        HeadAttests(hash, t, u, k);
        assert t[..n] == t[..k] + [t[k]] && u[..n] == u[..k] + [u[k]];
      }
    }
  }

  /** A seal that left the machine fixes the records it covers: whatever is done to the files, a trail
      that still verifies beside it holds those same records, or two bodies with one digest. */
  lemma SealAttests(hash: Hash, days: Days, seals: map<int, Seal>, days': Days, seals': map<int, Seal>, n: nat)
    requires Chained(hash, Trail(days)) && SealsHold(Trail(days), Points(days, seals))
    requires Chained(hash, Trail(days')) && SealsHold(Trail(days'), Points(days', seals'))
    requires n in Points(days, seals) && n in Points(days', seals')
    requires Points(days, seals)[n].head == Points(days', seals')[n].head
    ensures n <= |Trail(days)| && n <= |Trail(days')|
    ensures Trail(days)[..n] == Trail(days')[..n]
      || exists i :: 0 <= i < n && Collision(hash, Trail(days)[i].body, Trail(days')[i].body)
  {
    hide Trail, Points, Chained;
    HeadAttests(hash, Trail(days), Trail(days'), n);
  }

  /** An edit of any record but the last is caught, unless it makes a collision. */
  lemma EditCaught(hash: Hash, t: seq<Record>, i: nat, r: Record)
    requires Chained(hash, t) && i + 1 < |t| && r != t[i] && Chained(hash, t[i := r])
    ensures Collision(hash, r.body, t[i].body)
  {
    var u := t[i := r];
    assert Linked(hash, t, i) && Linked(hash, t, i + 1);
    assert Linked(hash, u, i) && Linked(hash, u, i + 1);
  }

  /** Removing a record is caught by the chain exactly when it is not the last one. */
  lemma RemovalCaught(hash: Hash, t: seq<Record>, i: nat)
    requires Chained(hash, t) && i < |t|
    ensures Chained(hash, t[..i] + t[i + 1..]) <==> i == |t| - 1
  {
    var u := t[..i] + t[i + 1..];
    if i < |t| - 1 {
      assert u[i] == t[i + 1];
      assert Linked(hash, t, i + 1);
      assert !Linked(hash, u, i);
    } else {
      assert u == t[..i];
      PrefixChained(hash, t, i);
    }
  }

  lemma PrefixChained(hash: Hash, t: seq<Record>, n: nat)
    requires Chained(hash, t) && n <= |t|
    ensures Chained(hash, t[..n])
  {
    forall i | 0 <= i < n ensures Linked(hash, t[..n], i) {
      assert Linked(hash, t, i);
    }
  }

  /** Any reordering is caught: the same records verify in one order only. */
  lemma ReorderCaught(hash: Hash, t: seq<Record>, u: seq<Record>)
    requires Chained(hash, t) && Chained(hash, u) && multiset(t) == multiset(u)
    ensures t == u
  {
    assert |multiset(t)| == |multiset(u)|;
    forall i | 0 <= i < |t| ensures t[i] == u[i] {
      assert u[i] in multiset(t);
      var j :| 0 <= j < |t| && t[j] == u[i];
      assert Linked(hash, t, j) && Linked(hash, u, i);
    }
  }

  /** What the chain misses and a seal does not: cutting the tail off leaves a chain, and the seals
      accept it exactly when none of them attests to a record that was cut. */
  lemma TruncationCaught(hash: Hash, t: seq<Record>, points: map<nat, Seal>, n: nat)
    requires Chained(hash, t) && SealsHold(t, points) && n <= |t|
    ensures Chained(hash, t[..n])
    ensures SealsHold(t[..n], points) <==> forall k :: k in points ==> k <= n
  {
    PrefixChained(hash, t, n);
  }

  /** A trail whose first records are gone verifies exactly when nothing is missing or nothing is left. */
  lemma SuffixChained(hash: Hash, t: seq<Record>, k: nat)
    requires Chained(hash, t) && k <= |t|
    ensures Chained(hash, t[k..]) <==> k == 0 || k == |t|
  {
    if k == 0 {
      assert t[k..] == t;
    } else if k < |t| {
      assert Linked(hash, t, k);
      assert t[k..][0] == t[k];
      assert !Linked(hash, t[k..], 0);
    }
  }
}
