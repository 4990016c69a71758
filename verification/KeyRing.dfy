// The directory key ring: how a signing key is published, takes over, retires and is forgotten.

module KeyRing {
  import opened Basics

  datatype State = Published | Active | Retired | Archived

  datatype Algorithm = EdDSA | Es256

  datatype Policy = Policy(publishAhead: u64, rotateEvery: u64, retain: u64, verifyRetain: u64) {
    /** How long the public half outlives the key's last signature: never less than the private half. */
    function VerifyFor(): u64 { if verifyRetain < retain then retain else verifyRetain }
  }

  /** One key of the ring. `kid` is derived from the public half and stands for it. */
  datatype Entry = Entry(kid: string, state: State, algorithm: Algorithm, createdAt: u64,
                         activatedAt: Option<u64>, retiredAt: Option<u64>)

  datatype Report = Report(published: nat, activated: nat, retired: nat, archived: nat, forgotten: nat) {
    predicate IsEmpty() { published == 0 && activated == 0 && retired == 0 && archived == 0 && forgotten == 0 }
  }

  /** The ring file, and the private halves on disk. */
  datatype Store = Store(keys: seq<Entry>, files: set<string>)

  /** What writing a new private half came to: done, or failed before or after the file existed. */
  datatype Creation = Created | CreationFailed(left: bool)

  /** What the outside decides for one pass: the names random generation yields, which file
      operations fail, and whether the ring file can be replaced. */
  datatype Luck = Luck(first: string, firstIo: Creation, successor: string, successorIo: Creation,
                       stuck: set<string>, ringIo: bool)

  datatype Failure = CannotCreate | CannotForget | CannotWrite

  function SaturatingAdd(a: u64, b: u64): u64 { if a + b < U64 then a + b else U64 - 1 }

  function SaturatingSub(a: u64, b: u64): u64 { if a >= b then a - b else 0 }

  // --- One pass, in stages ---------------------------------------------------------------------

  function Stop(e: Entry, now: u64): Entry {
    if e.state.Active? then e.(state := Retired, retiredAt := Some(now)) else e
  }

  function StopAll(keys: seq<Entry>, now: u64): (r: seq<Entry>)
    ensures |r| == |keys|
  {
    seq(|keys|, i requires 0 <= i < |keys| => Stop(keys[i], now))
  }

  function Count(keys: seq<Entry>, state: State): nat {
    if keys == [] then 0
    else Count(keys[..|keys| - 1], state) + if keys[|keys| - 1].state == state then 1 else 0
  }

  function NewKey(kid: string, algorithm: Algorithm, now: u64, signing: bool): Entry {
    Entry(kid, if signing then Active else Published, algorithm, now, if signing then Some(now) else None, None)
  }

  /** The ring needs a key that signs at once: it has none, or none of the configured kind. */
  predicate NeedsKey(keys: seq<Entry>, algorithm: Algorithm) {
    forall i :: 0 <= i < |keys| ==> !(keys[i].state.Active? && keys[i].algorithm == algorithm)
  }

  predicate Due(p: Policy, e: Entry, now: u64) {
    e.state.Published? && SaturatingAdd(e.createdAt, p.publishAhead) <= now
  }

  /** The first of the earliest-created keys that are due. */
  function OldestDue(p: Policy, keys: seq<Entry>, now: u64): (r: Option<nat>)
    ensures r.Some? ==> r.value < |keys| && Due(p, keys[r.value], now)
    ensures r.None? ==> forall i :: 0 <= i < |keys| ==> !Due(p, keys[i], now)
    ensures r.Some? ==>
      forall i :: 0 <= i < |keys| && Due(p, keys[i], now) ==> keys[r.value].createdAt <= keys[i].createdAt
  {
    if keys == [] then None
    else
      var n := |keys| - 1;
      var before := OldestDue(p, keys[..n], now);
      if Due(p, keys[n], now) && (before.None? || keys[n].createdAt < keys[before.value].createdAt) then Some(n)
      else before
  }

  function HandOver(keys: seq<Entry>, i: nat, now: u64): (r: seq<Entry>)
    requires i < |keys|
    ensures |r| == |keys|
  {
    StopAll(keys, now)[i := keys[i].(state := Active, activatedAt := Some(now))]
  }

  /** Every due key takes over, oldest first. */
  function TakeOver(p: Policy, keys: seq<Entry>, now: u64, report: Report): (r: (seq<Entry>, Report))
    ensures |r.0| == |keys|
    decreases Count(keys, Published)
  {
    var due := OldestDue(p, keys, now);
    if due.None? then (keys, report)
    else
      HandOverCounts(keys, due.value, now);
      TakeOver(p, HandOver(keys, due.value, now), now,
               report.(retired := report.retired + Count(keys, Active), activated := report.activated + 1))
  }

  function FirstActive(keys: seq<Entry>): (r: Option<Entry>)
    ensures r.Some? ==> r.value in keys && r.value.state.Active?
    ensures r.None? ==> forall e :: e in keys ==> !e.state.Active?
  {
    if keys == [] then None else if keys[0].state.Active? then Some(keys[0]) else FirstActive(keys[1..])
  }

  predicate SuccessorDue(p: Policy, keys: seq<Entry>, now: u64) {
    var active := FirstActive(keys);
    && active.Some? && active.value.activatedAt.Some?
    && SaturatingSub(SaturatingAdd(active.value.activatedAt.value, p.rotateEvery), p.publishAhead) <= now
  }

  predicate Waiting(keys: seq<Entry>) {
    exists i :: 0 <= i < |keys| && keys[i].state.Published?
  }

  datatype Fate = Keep | Archive | Forget

  function FateOf(p: Policy, e: Entry, now: u64): Fate {
    if e.retiredAt.None? then Keep
    else if e.state.Retired? && SaturatingAdd(e.retiredAt.value, p.retain) <= now then
      (if p.VerifyFor() > p.retain then Archive else Forget)
    else if e.state.Archived? && SaturatingAdd(e.retiredAt.value, p.VerifyFor()) <= now then Forget
    else Keep
  }

  /** The names of the keys that meet a fate, in ring order. */
  function Meeting(p: Policy, keys: seq<Entry>, now: u64, fate: Fate): (r: seq<string>)
    ensures forall i :: 0 <= i < |keys| && FateOf(p, keys[i], now) == fate ==> keys[i].kid in r
    ensures forall k :: k in r ==> exists i :: 0 <= i < |keys| && keys[i].kid == k && FateOf(p, keys[i], now) == fate
  {
    if keys == [] then []
    else
      var n := |keys| - 1;
      Meeting(p, keys[..n], now, fate) + if FateOf(p, keys[n], now) == fate then [keys[n].kid] else []
  }

  /** The private halves left after removing `kids` in order, and whether every removal succeeded. */
  function Removed(files: set<string>, kids: seq<string>, stuck: set<string>): (set<string>, bool) {
    if kids == [] then (files, true)
    else if kids[0] in stuck then (files, false)
    else Removed(files - {kids[0]}, kids[1..], stuck)
  }

  function Aged(p: Policy, keys: seq<Entry>, now: u64): seq<Entry> {
    if keys == [] then []
    else
      var n := |keys| - 1;
      var e, fate := keys[n], FateOf(p, keys[n], now);
      Aged(p, keys[..n], now) + if fate.Forget? then [] else [if fate.Archive? then e.(state := Archived) else e]
  }

  const NOTHING := Report(0, 0, 0, 0, 0)

  /** The ring after the first two stages: a key that signs exists, and due keys took over. */
  function Signing(p: Policy, algorithm: Algorithm, keys: seq<Entry>, now: u64, first: string): (seq<Entry>, Report) {
    if NeedsKey(keys, algorithm) then
      var start := StopAll(keys, now) + [NewKey(first, algorithm, now, true)];
      TakeOver(p, start, now, Report(1, 1, Count(keys, Active), 0, 0))
    else TakeOver(p, keys, now, NOTHING)
  }

  predicate NeedsSuccessor(p: Policy, keys: seq<Entry>, now: u64) {
    SuccessorDue(p, keys, now) && !Waiting(keys)
  }

  /** The ring after a successor was published ahead of its turn, if one was needed. */
  function Grown(p: Policy, algorithm: Algorithm, keys: seq<Entry>, now: u64, luck: Luck): (seq<Entry>, Report) {
    var (signing, report) := Signing(p, algorithm, keys, now, luck.first);
    if NeedsSuccessor(p, signing, now) then
      (signing + [NewKey(luck.successor, algorithm, now, false)], report.(published := report.published + 1))
    else (signing, report)
  }

  /** The ring a pass arrives at when nothing fails, and its report. */
  function Maintained(p: Policy, algorithm: Algorithm, keys: seq<Entry>, now: u64, luck: Luck): (seq<Entry>, Report) {
    var (grown, report) := Grown(p, algorithm, keys, now, luck);
    (Aged(p, grown, now),
     report.(archived := |Meeting(p, grown, now, Archive)|, forgotten := |Meeting(p, grown, now, Forget)|))
  }

  /** The file a creation leaves behind, whether it succeeded or not. */
  function FileOf(kid: string, io: Creation): set<string> {
    if io.Created? || io.left then {kid} else {}
  }

  /** A whole pass: the ring file changes in full or not at all. */
  function Pass(p: Policy, algorithm: Algorithm, s: Store, now: u64, luck: Luck): (Store, Result<Report, Failure>) {
    var needsKey := NeedsKey(s.keys, algorithm);
    var files1 := s.files + if needsKey then FileOf(luck.first, luck.firstIo) else {};
    if needsKey && !luck.firstIo.Created? then (s.(files := files1), Err(CannotCreate))
    else
      var needsSuccessor := NeedsSuccessor(p, Signing(p, algorithm, s.keys, now, luck.first).0, now);
      var files2 := files1 + if needsSuccessor then FileOf(luck.successor, luck.successorIo) else {};
      if needsSuccessor && !luck.successorIo.Created? then (s.(files := files2), Err(CannotCreate))
      else
        var grown := Grown(p, algorithm, s.keys, now, luck).0;
        var doomed := Meeting(p, grown, now, Archive) + Meeting(p, grown, now, Forget);
        var (files3, removed) := Removed(files2, doomed, luck.stuck);
        var (keys, report) := Maintained(p, algorithm, s.keys, now, luck);
        if !removed then (s.(files := files3), Err(CannotForget))
        else if report.IsEmpty() then (s.(files := files3), Ok(report))
        else if !luck.ringIo then (s.(files := files3), Err(CannotWrite))
        else (Store(keys, files3), Ok(report))
  }

  // --- The manager -----------------------------------------------------------------------------

  ghost predicate DistinctKids(keys: seq<Entry>) {
    forall i, j :: 0 <= i < j < |keys| ==> keys[i].kid != keys[j].kid
  }

  method StopActive(keys: seq<Entry>, now: u64) returns (r: seq<Entry>, retired: nat)
    ensures r == StopAll(keys, now) && retired == Count(keys, Active)
  {
    r, retired := keys, 0;
    for i := 0 to |keys|
      invariant |r| == |keys|
      invariant forall j :: 0 <= j < i ==> r[j] == Stop(keys[j], now)
      invariant forall j :: i <= j < |keys| ==> r[j] == keys[j]
      invariant retired == Count(keys[..i], Active)
    {
      assert keys[..i + 1][..i] == keys[..i];
      if r[i].state.Active? {
        r := r[i := r[i].(state := Retired, retiredAt := Some(now))];
        retired := retired + 1;
      }
    }
    assert keys[..|keys|] == keys;
  }

  method FindDue(p: Policy, keys: seq<Entry>, now: u64) returns (due: Option<nat>)
    ensures due == OldestDue(p, keys, now)
  {
    due := None;
    for i := 0 to |keys|
      invariant due == OldestDue(p, keys[..i], now)
    {
      assert keys[..i + 1][..i] == keys[..i];
      if Due(p, keys[i], now) && (due.None? || keys[i].createdAt < keys[due.value].createdAt) {
        due := Some(i);
      }
    }
    assert keys[..|keys|] == keys;
  }

  method TakeTurns(p: Policy, keys: seq<Entry>, now: u64, report: Report) returns (r: seq<Entry>, sum: Report)
    ensures (r, sum) == TakeOver(p, keys, now, report)
  {
    hide Count, StopAll;
    r, sum := keys, report;
    while true
      invariant TakeOver(p, keys, now, report) == TakeOver(p, r, now, sum)
      decreases Count(r, Published)
    {
      var due := FindDue(p, r, now);
      if due.None? { return; }
      HandOverCounts(r, due.value, now);
      ghost var before := r;
      var taking := r[due.value];
      var retired;
      r, retired := StopActive(r, now);
      r := r[due.value := taking.(state := Active, activatedAt := Some(now))];
      sum := sum.(retired := sum.retired + retired, activated := sum.activated + 1);
    }
  }

  method Sentence(p: Policy, keys: seq<Entry>, now: u64) returns (toArchive: seq<string>, toForget: seq<string>)
    ensures toArchive == Meeting(p, keys, now, Archive) && toForget == Meeting(p, keys, now, Forget)
  {
    toArchive, toForget := [], [];
    for i := 0 to |keys|
      invariant toArchive == Meeting(p, keys[..i], now, Archive) && toForget == Meeting(p, keys[..i], now, Forget)
    {
      assert keys[..i + 1][..i] == keys[..i];
      var e := keys[i];
      if e.retiredAt.Some? {
        if e.state.Retired? && SaturatingAdd(e.retiredAt.value, p.retain) <= now {
          if p.VerifyFor() > p.retain {
            toArchive := toArchive + [e.kid];
          } else {
            toForget := toForget + [e.kid];
          }
        } else if e.state.Archived? && SaturatingAdd(e.retiredAt.value, p.VerifyFor()) <= now {
          toForget := toForget + [e.kid];
        }
      }
    }
    assert keys[..|keys|] == keys;
  }

  /** A kid is on a list exactly when its entry met that fate: kids are distinct. */
  lemma OnTheList(p: Policy, keys: seq<Entry>, now: u64, fate: Fate, i: nat)
    requires DistinctKids(keys) && i < |keys|
    ensures keys[i].kid in Meeting(p, keys, now, fate) <==> FateOf(p, keys[i], now) == fate
  {
    hide FateOf;
  }

  method CarryOut(p: Policy, keys: seq<Entry>, now: u64, toArchive: seq<string>, toForget: seq<string>)
    returns (r: seq<Entry>, archived: nat)
    requires DistinctKids(keys)
    requires toArchive == Meeting(p, keys, now, Archive) && toForget == Meeting(p, keys, now, Forget)
    ensures r == Aged(p, keys, now) && archived == |toArchive|
  {
    hide FateOf;
    r, archived := [], 0;
    for i := 0 to |keys|
      invariant r == Aged(p, keys[..i], now) && archived == |Meeting(p, keys[..i], now, Archive)|
    {
      assert keys[..i + 1][..i] == keys[..i];
      OnTheList(p, keys, now, Archive, i);
      OnTheList(p, keys, now, Forget, i);
      var e := keys[i];
      if e.kid in toArchive {
        e := e.(state := Archived);
        archived := archived + 1;
      }
      if e.kid !in toForget {
        r := r + [e];
      }
    }
    assert keys[..|keys|] == keys;
  }

  class DirectoryKeyManager {
    const policy: Policy
    const algorithm: Algorithm
    var ring: seq<Entry>
    var files: set<string>

    constructor (policy: Policy, algorithm: Algorithm, ring: seq<Entry>, files: set<string>)
      ensures this.policy == policy && this.algorithm == algorithm && this.ring == ring && this.files == files
    {
      this.policy, this.algorithm, this.ring, this.files := policy, algorithm, ring, files;
    }

    method ForgetAll(kids: seq<string>, stuck: set<string>) returns (ok: bool)
      modifies this`files
      ensures (files, ok) == Removed(old(files), kids, stuck)
    {
      var i := 0;
      assert kids[0..] == kids;
      while i < |kids|
        invariant 0 <= i <= |kids|
        invariant Removed(old(files), kids, stuck) == Removed(files, kids[i..], stuck)
      {
        assert kids[i..][1..] == kids[i + 1..];
        if kids[i] in stuck { return false; }
        files := files - {kids[i]};
        i := i + 1;
      }
      ok := true;
    }

    method Maintain(now: u64, luck: Luck) returns (r: Result<Report, Failure>)
      requires DistinctKids(ring) && Fresh(luck, ring)
      modifies this
      ensures (Store(ring, files), r) == Pass(policy, algorithm, old(Store(ring, files)), now, luck)
    {
      hide Aged, Removed, TakeOver, Meeting, FirstActive, DistinctKids;
      var keys, report := ring, NOTHING;
      if forall i :: 0 <= i < |keys| ==> !(keys[i].state.Active? && keys[i].algorithm == algorithm) {
        var retired;
        keys, retired := StopActive(keys, now);
        files := files + FileOf(luck.first, luck.firstIo);
        if !luck.firstIo.Created? { return Err(CannotCreate); }
        keys := keys + [NewKey(luck.first, algorithm, now, true)];
        report := report.(retired := retired, published := 1, activated := 1);
      }
      assert files == old(files) + if NeedsKey(ring, algorithm) then FileOf(luck.first, luck.firstIo) else {};
      keys, report := TakeTurns(policy, keys, now, report);
      assert (keys, report) == Signing(policy, algorithm, ring, now, luck.first);
      if SuccessorDue(policy, keys, now) && !Waiting(keys) {
        files := files + FileOf(luck.successor, luck.successorIo);
        if !luck.successorIo.Created? { return Err(CannotCreate); }
        keys := keys + [NewKey(luck.successor, algorithm, now, false)];
        report := report.(published := report.published + 1);
      }
      assert (keys, report) == Grown(policy, algorithm, ring, now, luck);
      ghost var needsSuccessor := NeedsSuccessor(policy, Signing(policy, algorithm, ring, now, luck.first).0, now);
      assert files == old(files) + (if NeedsKey(ring, algorithm) then FileOf(luck.first, luck.firstIo) else {})
        + (if needsSuccessor then FileOf(luck.successor, luck.successorIo) else {});
      var toArchive, toForget := Sentence(policy, keys, now);
      var ok := ForgetAll(toArchive + toForget, luck.stuck);
      if !ok { return Err(CannotForget); }
      GrownDistinct(policy, algorithm, ring, now, luck);
      var archived;
      keys, archived := CarryOut(policy, keys, now, toArchive, toForget);
      report := report.(archived := archived, forgotten := |toForget|);
      if report.IsEmpty() { return Ok(report); }
      if !luck.ringIo { return Err(CannotWrite); }
      ring := keys;
      r := Ok(report);
    }

    /** The name of the key a signature is made with; nothing when no key is active or its private
        half is not there. */
    method Sign() returns (kid: Option<string>)
      ensures kid == Signer(Store(ring, files))
    {
      var active := FirstActive(ring);
      if active.None? || active.value.kid !in files { return None; }
      kid := Some(active.value.kid);
    }
  }

  function Signer(s: Store): Option<string> {
    var active := FirstActive(s.keys);
    if active.Some? && active.value.kid in s.files then Some(active.value.kid) else None
  }

  /** Names are derived from freshly generated keys, so they are new and differ. */
  ghost predicate Fresh(luck: Luck, keys: seq<Entry>) {
    && luck.first != luck.successor
    && forall i :: 0 <= i < |keys| ==> keys[i].kid != luck.first && keys[i].kid != luck.successor
  }

  // --- Counting --------------------------------------------------------------------------------

  lemma CountPush(keys: seq<Entry>, e: Entry, state: State)
    ensures Count(keys + [e], state) == Count(keys, state) + if e.state == state then 1 else 0
  {
    assert (keys + [e])[..|keys|] == keys;
  }

  lemma {:induction false} CountUpdate(keys: seq<Entry>, i: nat, e: Entry, state: State)
    requires i < |keys|
    ensures Count(keys[i := e], state) + (if keys[i].state == state then 1 else 0)
         == Count(keys, state) + (if e.state == state then 1 else 0)
  {
    var n := |keys| - 1;
    var after := keys[i := e];
    if i == n {
      assert after[..n] == keys[..n];
    } else {
      assert after[..n] == keys[..n][i := e];
      CountUpdate(keys[..n], i, e, state);
    }
  }

  lemma {:induction false} CountStopped(keys: seq<Entry>, now: u64)
    ensures var r := StopAll(keys, now);
      && Count(r, Active) == 0 && Count(r, Published) == Count(keys, Published)
      && Count(r, Retired) == Count(keys, Retired) + Count(keys, Active) && Count(r, Archived) == Count(keys, Archived)
  {
    if keys != [] {
      var n := |keys| - 1;
      CountStopped(keys[..n], now);
      assert StopAll(keys, now)[..n] == StopAll(keys[..n], now);
    }
  }

  lemma HandOverCounts(keys: seq<Entry>, i: nat, now: u64)
    requires i < |keys| && keys[i].state.Published?
    ensures var r := HandOver(keys, i, now);
      && Count(r, Active) == 1 && Count(r, Published) == Count(keys, Published) - 1
  {
    hide Count;
    var taking := keys[i].(state := Active, activatedAt := Some(now));
    CountStopped(keys, now);
    CountUpdate(StopAll(keys, now), i, taking, Active);
    CountUpdate(StopAll(keys, now), i, taking, Published);
  }

  lemma {:induction false} CountIn(keys: seq<Entry>, state: State, i: nat)
    requires i < |keys| && keys[i].state == state
    ensures Count(keys, state) >= 1
  {
    var n := |keys| - 1;
    if i < n {
      CountIn(keys[..n], state, i);
    }
  }

  lemma {:induction false} CountNone(keys: seq<Entry>, state: State)
    requires forall i :: 0 <= i < |keys| ==> keys[i].state != state
    ensures Count(keys, state) == 0
  {
    if keys != [] {
      CountNone(keys[..|keys| - 1], state);
    }
  }

  // --- What a pass does to one key -------------------------------------------------------------

  predicate Stopped(e: Entry) { e.state.Retired? || e.state.Archived? }

  /** A key carries the times its state implies, and none later than `clock`. */
  ghost predicate WellTimed(e: Entry, clock: u64) {
    && e.createdAt <= clock
    && (e.state.Published? ==> e.retiredAt.None?)
    && (e.state.Active? ==> e.activatedAt.Some? && e.activatedAt.value <= clock && e.retiredAt.None?)
    && (Stopped(e) ==> e.retiredAt.Some? && e.retiredAt.value <= clock)
  }

  /** How one key may change within a pass: it keeps its identity, moves forward only, signs only once
      it is due, and keeps the instant it stopped. */
  ghost predicate Evolves(p: Policy, e: Entry, e': Entry, now: u64) {
    && e'.kid == e.kid && e'.createdAt == e.createdAt && e'.algorithm == e.algorithm
    && (Stopped(e) ==> Stopped(e') && e'.retiredAt == e.retiredAt)
    && (e.state.Archived? ==> e' == e)
    && (e.state.Active? ==> e' == e || (Stopped(e') && e'.retiredAt == Some(now)))
    && (e.state.Published? ==>
          || e' == e
          || (Due(p, e, now) && e'.state.Active? && e'.activatedAt == Some(now) && e'.retiredAt == e.retiredAt)
          || (Due(p, e, now) && Stopped(e') && e'.retiredAt == Some(now)))
  }

  ghost predicate AllEvolve(p: Policy, keys: seq<Entry>, keys': seq<Entry>, now: u64) {
    |keys'| == |keys| && forall i :: 0 <= i < |keys| ==> Evolves(p, keys[i], keys'[i], now)
  }

  lemma EvolvesTwice(p: Policy, a: seq<Entry>, b: seq<Entry>, c: seq<Entry>, now: u64)
    requires AllEvolve(p, a, b, now) && AllEvolve(p, b, c, now)
    ensures AllEvolve(p, a, c, now)
  {
  }

  lemma {:induction false} TakeOverEvolves(p: Policy, keys: seq<Entry>, now: u64, report: Report)
    ensures AllEvolve(p, keys, TakeOver(p, keys, now, report).0, now)
    decreases Count(keys, Published)
  {
    hide Count, AllEvolve;
    var due := OldestDue(p, keys, now);
    if due.None? {
      assert AllEvolve(p, keys, keys, now) by { Unchanged(p, keys, now); }
    } else {
      var next := HandOver(keys, due.value, now);
      var report' := report.(retired := report.retired + Count(keys, Active), activated := report.activated + 1);
      HandOverCounts(keys, due.value, now);
      HandOverEvolves(p, keys, due.value, now);
      TakeOverEvolves(p, next, now, report');
      EvolvesTwice(p, keys, next, TakeOver(p, next, now, report').0, now);
    }
  }

  lemma Unchanged(p: Policy, keys: seq<Entry>, now: u64)
    ensures AllEvolve(p, keys, keys, now)
  {
  }

  lemma HandOverEvolves(p: Policy, keys: seq<Entry>, i: nat, now: u64)
    requires i < |keys| && Due(p, keys[i], now)
    ensures AllEvolve(p, keys, HandOver(keys, i, now), now)
  {
  }

  /** The keys a pass works on: those on the ring and those it creates. */
  function Roots(p: Policy, algorithm: Algorithm, keys: seq<Entry>, now: u64, luck: Luck): seq<Entry> {
    keys
    + (if NeedsKey(keys, algorithm) then [NewKey(luck.first, algorithm, now, true)] else [])
    + (if NeedsSuccessor(p, Signing(p, algorithm, keys, now, luck.first).0, now)
       then [NewKey(luck.successor, algorithm, now, false)] else [])
  }

  lemma GrownEvolves(p: Policy, algorithm: Algorithm, keys: seq<Entry>, now: u64, luck: Luck)
    ensures AllEvolve(p, Roots(p, algorithm, keys, now, luck), Grown(p, algorithm, keys, now, luck).0, now)
  {
    hide TakeOver, NeedsKey, NeedsSuccessor;
    var first := NewKey(luck.first, algorithm, now, true);
    if NeedsKey(keys, algorithm) {
      var start := StopAll(keys, now) + [first];
      var report := Report(1, 1, Count(keys, Active), 0, 0);
      assert AllEvolve(p, keys + [first], start, now);
      TakeOverEvolves(p, start, now, report);
      EvolvesTwice(p, keys + [first], start, TakeOver(p, start, now, report).0, now);
    } else {
      TakeOverEvolves(p, keys, now, NOTHING);
    }
  }

  lemma GrownDistinct(p: Policy, algorithm: Algorithm, keys: seq<Entry>, now: u64, luck: Luck)
    requires DistinctKids(keys) && Fresh(luck, keys)
    ensures DistinctKids(Grown(p, algorithm, keys, now, luck).0)
  {
    hide Grown, NeedsKey, NeedsSuccessor;
    GrownEvolves(p, algorithm, keys, now, luck);
  }

  // --- What ageing keeps -----------------------------------------------------------------------

  function AgedEntry(p: Policy, e: Entry, now: u64): Entry {
    if FateOf(p, e, now).Archive? then e.(state := Archived) else e
  }

  ghost predicate Survives(p: Policy, keys: seq<Entry>, now: u64, e: Entry, i: int) {
    0 <= i < |keys| && !FateOf(p, keys[i], now).Forget? && AgedEntry(p, keys[i], now) == e
  }

  /** Ageing keeps exactly the keys that are not to be forgotten. */
  lemma {:induction false} AgedHolds(p: Policy, keys: seq<Entry>, now: u64)
    ensures forall e :: e in Aged(p, keys, now) <==> exists i :: Survives(p, keys, now, e, i)
    ensures |Aged(p, keys, now)| + |Meeting(p, keys, now, Forget)| == |keys|
  {
    hide FateOf, Survives, AgedEntry, Meeting, Aged;
    if keys == [] {
      AgedNothing(p, keys, now);
    } else {
      AgedHolds(p, keys[..|keys| - 1], now);
      AgedPush(p, keys, now);
      forall e ensures e in Aged(p, keys, now) <==> exists i :: Survives(p, keys, now, e, i) {
        SurvivesPush(p, keys, now, e);
      }
    }
  }

  lemma AgedNothing(p: Policy, keys: seq<Entry>, now: u64)
    requires keys == []
    ensures Aged(p, keys, now) == [] && |Meeting(p, keys, now, Forget)| == 0
    ensures forall e, i :: !Survives(p, keys, now, e, i)
  {
  }

  lemma AgedPush(p: Policy, keys: seq<Entry>, now: u64)
    requires keys != []
    ensures var n := |keys| - 1;
      var forgotten := FateOf(p, keys[n], now).Forget?;
      && Aged(p, keys, now) == Aged(p, keys[..n], now) + (if forgotten then [] else [AgedEntry(p, keys[n], now)])
      && |Meeting(p, keys, now, Forget)| == |Meeting(p, keys[..n], now, Forget)| + (if forgotten then 1 else 0)
  {
    hide FateOf;
  }

  lemma SurvivesPush(p: Policy, keys: seq<Entry>, now: u64, e: Entry)
    requires keys != []
    ensures var n := |keys| - 1;
      (exists i :: Survives(p, keys, now, e, i)) <==>
      || (exists i :: Survives(p, keys[..n], now, e, i))
      || (!FateOf(p, keys[n], now).Forget? && AgedEntry(p, keys[n], now) == e)
  {
    hide FateOf, AgedEntry;
    var n := |keys| - 1;
    if i :| Survives(p, keys[..n], now, e, i) {
      assert Survives(p, keys, now, e, i);
    }
    if !FateOf(p, keys[n], now).Forget? && AgedEntry(p, keys[n], now) == e {
      assert Survives(p, keys, now, e, n);
    }
    if i :| Survives(p, keys, now, e, i) {
      if i < n { assert Survives(p, keys[..n], now, e, i); }
    }
  }

  lemma {:induction false} AgedDistinct(p: Policy, keys: seq<Entry>, now: u64)
    requires DistinctKids(keys)
    ensures DistinctKids(Aged(p, keys, now))
  {
    hide FateOf;
    if keys != [] {
      var n := |keys| - 1;
      var before := Aged(p, keys[..n], now);
      AgedDistinct(p, keys[..n], now);
      AgedHolds(p, keys[..n], now);
      forall i | 0 <= i < |before| ensures before[i].kid != keys[n].kid {
        assert before[i] in before;
        var j :| Survives(p, keys[..n], now, before[i], j);
      }
    }
  }

  lemma {:induction false} AgedCounts(p: Policy, keys: seq<Entry>, now: u64, state: State)
    requires state.Active? || state.Published?
    ensures Count(Aged(p, keys, now), state) == Count(keys, state)
  {
    hide FateOf, Count;
    if keys != [] {
      var n := |keys| - 1;
      var front, e := keys[..n], keys[n];
      assert keys == front + [e];
      AgedCounts(p, front, now, state);
      CountPush(front, e, state);
      FateSpares(p, e, now);
      var before := Aged(p, front, now);
      if FateOf(p, e, now).Forget? {
        assert Aged(p, keys, now) == before;
      } else {
        assert Aged(p, keys, now) == before + [AgedEntry(p, e, now)];
        CountPush(before, AgedEntry(p, e, now), state);
      }
    }
  }

  /** Only a key that stopped signing is archived or forgotten. */
  lemma FateSpares(p: Policy, e: Entry, now: u64)
    ensures !Stopped(e) ==> FateOf(p, e, now).Keep?
  {
  }

  // --- What a ring looks like ------------------------------------------------------------------

  /** One key signs (once there is any), at most one waits, and every key is told apart. */
  ghost predicate Shape(keys: seq<Entry>) {
    && DistinctKids(keys)
    && (keys != [] ==> Count(keys, Active) == 1)
    && Count(keys, Published) <= 1
  }

  lemma {:induction false} TakeOverCounts(p: Policy, keys: seq<Entry>, now: u64, report: Report)
    requires Count(keys, Active) == 1
    ensures var (r, sum) := TakeOver(p, keys, now, report);
      && Count(r, Active) == 1 && Count(r, Published) + sum.activated == Count(keys, Published) + report.activated
      && sum.retired - report.retired == sum.activated - report.activated && sum.published == report.published
    decreases Count(keys, Published)
  {
    hide Count;
    var due := OldestDue(p, keys, now);
    if due.Some? {
      HandOverCounts(keys, due.value, now);
      TakeOverCounts(p, HandOver(keys, due.value, now), now,
                     report.(retired := report.retired + Count(keys, Active), activated := report.activated + 1));
    }
  }

  /** After every pass that succeeds exactly one key signs and at most one waits its turn; and the
      report accounts for every key: those that came, those that went, and those that changed hands. */
  lemma PassKeepsShape(p: Policy, algorithm: Algorithm, keys: seq<Entry>, now: u64, luck: Luck)
    requires Shape(keys) && Fresh(luck, keys)
    ensures var (r, report) := Maintained(p, algorithm, keys, now, luck);
      && Shape(r) && Count(r, Active) == 1
      && |r| + report.forgotten == |keys| + report.published
      && Count(r, Active) + report.retired == Count(keys, Active) + report.activated
      && Count(r, Published) + report.activated == Count(keys, Published) + report.published
  {
    hide Count, Aged, Grown, DistinctKids, Fresh, Meeting;
    var grown := Grown(p, algorithm, keys, now, luck).0;
    GrownCounts(p, algorithm, keys, now, luck);
    AgedCounts(p, grown, now, Active);
    AgedCounts(p, grown, now, Published);
    AgedHolds(p, grown, now);
    GrownDistinct(p, algorithm, keys, now, luck);
    AgedDistinct(p, grown, now);
  }

  lemma SigningCounts(p: Policy, algorithm: Algorithm, keys: seq<Entry>, now: u64, first: string)
    requires keys != [] ==> Count(keys, Active) == 1
    ensures var (r, sum) := Signing(p, algorithm, keys, now, first);
      && |r| == |keys| + sum.published && Count(r, Active) == 1
      && 1 + sum.retired == Count(keys, Active) + sum.activated
      && Count(r, Published) + sum.activated == Count(keys, Published) + sum.published
      && Count(r, Published) <= Count(keys, Published)
  {
    hide Count, TakeOver, NeedsKey;
    if NeedsKey(keys, algorithm) {
      var e := NewKey(first, algorithm, now, true);
      CountStopped(keys, now);
      CountPush(StopAll(keys, now), e, Active);
      CountPush(StopAll(keys, now), e, Published);
      TakeOverCounts(p, StopAll(keys, now) + [e], now, Report(1, 1, Count(keys, Active), 0, 0));
      TakeOverGrows(p, StopAll(keys, now) + [e], now, Report(1, 1, Count(keys, Active), 0, 0));
    } else {
      NeverEmpty(keys, algorithm);
      TakeOverCounts(p, keys, now, NOTHING);
    }
  }

  lemma {:induction false} TakeOverGrows(p: Policy, keys: seq<Entry>, now: u64, report: Report)
    ensures TakeOver(p, keys, now, report).1.activated >= report.activated
    decreases Count(keys, Published)
  {
    hide Count;
    var due := OldestDue(p, keys, now);
    if due.Some? {
      HandOverCounts(keys, due.value, now);
      TakeOverGrows(p, HandOver(keys, due.value, now), now,
                    report.(retired := report.retired + Count(keys, Active), activated := report.activated + 1));
    }
  }

  lemma GrownCounts(p: Policy, algorithm: Algorithm, keys: seq<Entry>, now: u64, luck: Luck)
    requires (keys != [] ==> Count(keys, Active) == 1) && Count(keys, Published) <= 1
    ensures var (r, sum) := Grown(p, algorithm, keys, now, luck);
      && |r| == |keys| + sum.published && Count(r, Active) == 1 && Count(r, Published) <= 1
      && 1 + sum.retired == Count(keys, Active) + sum.activated
      && Count(r, Published) + sum.activated == Count(keys, Published) + sum.published
  {
    hide Count, Signing, SuccessorDue;
    SigningCounts(p, algorithm, keys, now, luck.first);
    var signing := Signing(p, algorithm, keys, now, luck.first).0;
    if NeedsSuccessor(p, signing, now) {
      var successor := NewKey(luck.successor, algorithm, now, false);
      CountPush(signing, successor, Active);
      CountPush(signing, successor, Published);
      CountNone(signing, Published);
    }
  }

  lemma NeverEmpty(keys: seq<Entry>, algorithm: Algorithm)
    requires !NeedsKey(keys, algorithm)
    ensures keys != []
  {
  }
}
