// Whose turn it is to sign: what a pass decides, and how long a key can hold on to it.

module KeyTurns {
  import opened Basics
  import opened KeyRing
  import KeyRotation

  // --- A pass that reports nothing changed nothing ---------------------------------------------

  lemma {:induction false} NobodyMet(p: Policy, keys: seq<Entry>, now: u64)
    requires Meeting(p, keys, now, Archive) == [] && Meeting(p, keys, now, Forget) == []
    ensures Aged(p, keys, now) == keys
  {
    hide FateOf;
    if keys != [] {
      NobodyMet(p, keys[..|keys| - 1], now);
    }
  }

  /** Not writing the ring file when the report is empty loses nothing: a pass that succeeds leaves
      the ring it computed. */
  lemma NothingToWrite(p: Policy, algorithm: Algorithm, s: Store, now: u64, luck: Luck)
    requires Pass(p, algorithm, s, now, luck).1.Ok?
    ensures Pass(p, algorithm, s, now, luck).0.keys == Maintained(p, algorithm, s.keys, now, luck).0
  {
    hide Removed, Meeting, NeedsKey, SuccessorDue, Aged, TakeOver;
    var (keys, report) := Maintained(p, algorithm, s.keys, now, luck);
    if report.IsEmpty() {
      SigningReports(p, algorithm, s.keys, now, luck.first);
      NobodyMet(p, Grown(p, algorithm, s.keys, now, luck).0, now);
    }
  }

  lemma SigningReports(p: Policy, algorithm: Algorithm, keys: seq<Entry>, now: u64, first: string)
    ensures var (r, report) := Signing(p, algorithm, keys, now, first);
      report.published == 0 && report.activated == 0 ==> r == keys
  {
    hide NeedsKey;
    if NeedsKey(keys, algorithm) {
      var start := StopAll(keys, now) + [NewKey(first, algorithm, now, true)];
      TakeOverGrows(p, start, now, Report(1, 1, Count(keys, Active), 0, 0));
    } else {
      var due := OldestDue(p, keys, now);
      if due.Some? {
        TakeOverGrows(p, HandOver(keys, due.value, now), now,
                      NOTHING.(retired := Count(keys, Active), activated := 1));
      }
    }
  }

  // --- Who signs after a pass ------------------------------------------------------------------

  lemma {:induction false} CountTwo(keys: seq<Entry>, state: State, i: nat, j: nat)
    requires i < j < |keys| && keys[i].state == state && keys[j].state == state
    ensures Count(keys, state) >= 2
  {
    var n := |keys| - 1;
    if j < n {
      CountTwo(keys[..n], state, i, j);
    } else {
      CountIn(keys[..n], state, i);
    }
  }

  lemma OnlyOne(keys: seq<Entry>, state: State, a: Entry, b: Entry)
    requires Count(keys, state) <= 1 && a in keys && b in keys && a.state == b.state == state
    ensures a == b
  {
    var i :| 0 <= i < |keys| && keys[i] == a;
    var j :| 0 <= j < |keys| && keys[j] == b;
    if i < j { CountTwo(keys, state, i, j); }
    if j < i { CountTwo(keys, state, j, i); }
  }

  /** A key whose turn has come, as it is once it signs. */
  function Signs(e: Entry, now: u64): Entry { e.(state := Active, activatedAt := Some(now)) }

  ghost predicate TurnOf(p: Policy, algorithm: Algorithm, keys: seq<Entry>, now: u64, first: string, a: Entry) {
    if exists e :: e in keys && Due(p, e, now) then exists e :: e in keys && Due(p, e, now) && a == Signs(e, now)
    else if NeedsKey(keys, algorithm) then a == NewKey(first, algorithm, now, true)
    else a in keys && a.state.Active? && a.algorithm == algorithm
  }

  /** With at most one key waiting, taking over is one hand-over at most. */
  lemma OneTurn(p: Policy, keys: seq<Entry>, now: u64, report: Report)
    requires Count(keys, Published) <= 1
    ensures var due := OldestDue(p, keys, now);
      TakeOver(p, keys, now, report).0 == if due.Some? then HandOver(keys, due.value, now) else keys
  {
    hide Count;
    var due := OldestDue(p, keys, now);
    if due.Some? {
      var next := HandOver(keys, due.value, now);
      HandOverCounts(keys, due.value, now);
      var again := OldestDue(p, next, now);
      if again.Some? {
        CountIn(next, Published, again.value);
        assert false;
      }
    }
  }

  /** Oldest first: of all the keys that are due, the one created last is the one left signing. */
  lemma {:induction false} LastTurn(p: Policy, keys: seq<Entry>, now: u64, report: Report) returns (i: nat)
    requires exists j :: 0 <= j < |keys| && Due(p, keys[j], now)
    ensures i < |keys| && Due(p, keys[i], now) && TakeOver(p, keys, now, report).0[i] == Signs(keys[i], now)
    ensures forall j :: 0 <= j < |keys| && Due(p, keys[j], now) ==> keys[j].createdAt <= keys[i].createdAt
    decreases Count(keys, Published)
  {
    hide Count;
    var m := OldestDue(p, keys, now).value;
    var next := HandOver(keys, m, now);
    var report' := report.(retired := report.retired + Count(keys, Active), activated := report.activated + 1);
    HandOverCounts(keys, m, now);
    OthersDue(p, keys, m, now);
    if k :| 0 <= k < |next| && Due(p, next[k], now) {
      i := LastTurn(p, next, now, report');
      assert Due(p, keys[k], now);
    } else {
      i := m;
    }
  }

  /** Handing over leaves every other due key due, and nothing else. */
  lemma OthersDue(p: Policy, keys: seq<Entry>, m: nat, now: u64)
    requires m < |keys|
    ensures var next := HandOver(keys, m, now);
      && (forall j :: 0 <= j < |keys| && j != m ==> (Due(p, next[j], now) <==> Due(p, keys[j], now)))
      && (forall j :: 0 <= j < |keys| && Due(p, next[j], now) ==> j != m && next[j] == keys[j])
  {
  }

  lemma SigningTurn(p: Policy, algorithm: Algorithm, keys: seq<Entry>, now: u64, first: string) returns (a: Entry)
    requires Count(keys, Published) <= 1
    ensures a in Signing(p, algorithm, keys, now, first).0 && a.state.Active?
    ensures TurnOf(p, algorithm, keys, now, first, a)
  {
    hide Count, TakeOver;
    var e := NewKey(first, algorithm, now, true);
    var needs := NeedsKey(keys, algorithm);
    var start := if needs then StopAll(keys, now) + [e] else keys;
    CountStopped(keys, now);
    CountPush(StopAll(keys, now), e, Published);
    OneTurn(p, start, now, if needs then Report(1, 1, Count(keys, Active), 0, 0) else NOTHING);
    SameDue(p, keys, now, e);
    var due := OldestDue(p, start, now);
    if due.Some? {
      var d := start[due.value];
      a := Signs(d, now);
      assert HandOver(start, due.value, now)[due.value] == a;
      assert d in keys;
    } else if needs {
      a := e;
      assert start[|keys|] == a;
    } else {
      var i :| 0 <= i < |keys| && keys[i].state.Active? && keys[i].algorithm == algorithm;
      a := keys[i];
    }
  }

  /** Stopping the active keys and adding one that signs changes nobody's turn. */
  lemma SameDue(p: Policy, keys: seq<Entry>, now: u64, e: Entry)
    requires e.state.Active?
    ensures var start := StopAll(keys, now) + [e];
      && (forall i :: 0 <= i < |start| && Due(p, start[i], now) ==> i < |keys| && start[i] == keys[i])
      && (forall i :: 0 <= i < |keys| && Due(p, keys[i], now) ==> start[i] == keys[i])
  {
  }

  /** The key that signs after a pass, by the ring before it. */
  lemma TurnAfter(p: Policy, algorithm: Algorithm, keys: seq<Entry>, now: u64, luck: Luck) returns (a: Entry)
    requires Shape(keys) && Fresh(luck, keys)
    ensures FirstActive(Maintained(p, algorithm, keys, now, luck).0) == Some(a)
    ensures TurnOf(p, algorithm, keys, now, luck.first, a)
    ensures a in Signing(p, algorithm, keys, now, luck.first).0
  {
    hide Count, Signing, NeedsSuccessor, FateOf, Aged, Meeting, TurnOf, DistinctKids, Fresh;
    a := SigningTurn(p, algorithm, keys, now, luck.first);
    var grown := Grown(p, algorithm, keys, now, luck).0;
    assert a in grown;
    var r := Maintained(p, algorithm, keys, now, luck).0;
    AgedHolds(p, grown, now);
    FateSpares(p, a, now);
    var i :| 0 <= i < |grown| && grown[i] == a;
    assert Survives(p, grown, now, a, i);
    PassKeepsShape(p, algorithm, keys, now, luck);
    OnlyOne(r, Active, FirstActive(r).value, a);
  }

  /** After a pass the signing key is of the configured kind exactly when no waiting key of another
      kind was due: a successor published before the kind was changed takes over from the key that
      was created to replace it. */
  lemma MigrationExactly(p: Policy, algorithm: Algorithm, keys: seq<Entry>, now: u64, luck: Luck)
    requires Shape(keys) && Fresh(luck, keys)
    ensures var active := FirstActive(Maintained(p, algorithm, keys, now, luck).0);
      && active.Some?
      && (active.value.algorithm == algorithm <==> !exists e :: e in keys && Due(p, e, now) && e.algorithm != algorithm)
  {
    hide Maintained, Count, DistinctKids, Fresh, NeedsKey, Due;
    var a := TurnAfter(p, algorithm, keys, now, luck);
    forall e, e' | e in keys && e' in keys && Due(p, e, now) && Due(p, e', now) ensures e == e' {
      DueWaits(p, e, now);
      DueWaits(p, e', now);
      OnlyOne(keys, Published, e, e');
    }
  }

  lemma DueWaits(p: Policy, e: Entry, now: u64)
    requires Due(p, e, now)
    ensures e.state.Published?
  {
  }

  /** A ring whose kind was changed while a successor of the old kind waited. */
  lemma MigrationUndone(p: Policy, luck: Luck)
    requires p.publishAhead == 300 && luck.first == "c" && luck.successor == "d"
    ensures var keys := [Entry("a", Active, EdDSA, 0, Some(0), None), Entry("b", Published, EdDSA, 1000, None, None)];
      && Shape(keys) && Fresh(luck, keys)
      && FirstActive(Maintained(p, Es256, keys, 1300, luck).0).Some?
      && FirstActive(Maintained(p, Es256, keys, 1300, luck).0).value.algorithm == EdDSA
  {
    hide Maintained, Count, FirstActive;
    var a, b := Entry("a", Active, EdDSA, 0, Some(0), None), Entry("b", Published, EdDSA, 1000, None, None);
    var keys := [a, b];
    assert keys == ([] + [a]) + [b];
    CountPush([a], b, Active);
    CountPush([a], b, Published);
    CountPush([], a, Active);
    CountPush([], a, Published);
    CountNone([], Active);
    CountNone([], Published);
    assert [] + [a] == [a];
    assert keys[1] == b && Due(p, b, 1300);
    MigrationExactly(p, Es256, keys, 1300, luck);
  }

  // --- How long a key can hold on --------------------------------------------------------------

  /** A key that stopped, or is not on the ring, does not sign after a later pass. */
  lemma NeverAgain(p: Policy, algorithm: Algorithm, keys: seq<Entry>, now: u64, luck: Luck, kid: string)
    requires Shape(keys) && Fresh(luck, keys) && kid != luck.first && kid != luck.successor
    requires forall e :: e in keys && e.kid == kid ==> Stopped(e)
    ensures FirstActive(Maintained(p, algorithm, keys, now, luck).0).Some?
    ensures FirstActive(Maintained(p, algorithm, keys, now, luck).0).value.kid != kid
  {
    hide Maintained, Count, DistinctKids, TurnOf, Roots;
    var a := TurnAfter(p, algorithm, keys, now, luck);
    var e := KeyRotation.Descends(p, algorithm, keys, now, luck, a);
    KeyRotation.RootsAre(p, algorithm, keys, now, luck, e);
  }

  /** Two passes replace a key that has signed for long enough: one once its successor is due to be
      published, and one a whole `publish_ahead` later. */
  lemma NoKeyOverstays(p: Policy, algorithm: Algorithm, algorithm': Algorithm, keys: seq<Entry>,
                       now: u64, luck: Luck, now': u64, luck': Luck, a: Entry)
    requires Shape(keys) && Fresh(luck, keys) && FirstActive(keys) == Some(a)
    requires forall e :: e in keys ==> e.createdAt <= now
    requires a.activatedAt.Some? && a.activatedAt.value + p.rotateEvery <= now + p.publishAhead
    requires now + p.publishAhead <= now'
    requires var keys' := Maintained(p, algorithm, keys, now, luck).0;
      Fresh(luck', keys') && a.kid != luck'.first && a.kid != luck'.successor
    ensures var keys'' := Maintained(p, algorithm', Maintained(p, algorithm, keys, now, luck).0, now', luck').0;
      FirstActive(keys'').Some? && FirstActive(keys'').value.kid != a.kid
  {
    hide Maintained, Count, DistinctKids, TurnOf, SuccessorDue, FirstActive, Roots, Due;
    assert SuccessorDue(p, keys, now) by { LongEnough(p, keys, now, a); }
    var keys' := Maintained(p, algorithm, keys, now, luck).0;
    PassKeepsShape(p, algorithm, keys, now, luck);
    var b := TurnAfter(p, algorithm, keys, now, luck);
    if b.kid != a.kid {
      forall e | e in keys' && e.kid == a.kid ensures Stopped(e) {
        Replaced(p, algorithm, keys, now, luck, a, b, e);
      }
      NeverAgain(p, algorithm', keys', now', luck', a.kid);
    } else {
      var w := SuccessorWaits(p, algorithm, keys, now, luck, a, b);
      assert Due(p, w, now') by { DueLater(p, w, now, now'); }
      var c := TurnAfter(p, algorithm', keys', now', luck');
      NotTheSame(p, algorithm', keys', now', luck'.first, b, w, c);
    }
  }

  lemma LongEnough(p: Policy, keys: seq<Entry>, now: u64, a: Entry)
    requires FirstActive(keys) == Some(a) && a.activatedAt.Some?
    requires a.activatedAt.value + p.rotateEvery <= now + p.publishAhead
    ensures SuccessorDue(p, keys, now)
  {
    hide FirstActive;
  }

  /** A pass publishes a key that does not sign yet exactly when, once every due key has taken over, none
      waits and the one that signs has done so for all of `rotate_every` but `publish_ahead`: never
      earlier, unless the window reaches the end of the clock. */
  lemma SuccessorExactly(p: Policy, algorithm: Algorithm, keys: seq<Entry>, now: u64, luck: Luck)
    requires Fresh(luck, keys)
    ensures var signing := Signing(p, algorithm, keys, now, luck.first).0;
      NewKey(luck.successor, algorithm, now, false) in Grown(p, algorithm, keys, now, luck).0 <==>
      && (forall e :: e in signing ==> !e.state.Published?)
      && (exists a ::
            && FirstActive(signing) == Some(a) && a.activatedAt.Some?
            && (a.activatedAt.value + p.rotateEvery <= now + p.publishAhead || now + p.publishAhead >= U64 - 1))
  {
    hide Signing, FirstActive;
    var signing := Signing(p, algorithm, keys, now, luck.first).0;
    var successor := NewKey(luck.successor, algorithm, now, false);
    assert successor !in signing by { NotYet(p, algorithm, keys, now, luck); }
    assert Waiting(signing) <==> exists e :: e in signing && e.state.Published? by {
      if Waiting(signing) {
        var i :| 0 <= i < |signing| && signing[i].state.Published?;
        assert signing[i] in signing;
      }
    }
  }

  lemma NotYet(p: Policy, algorithm: Algorithm, keys: seq<Entry>, now: u64, luck: Luck)
    requires Fresh(luck, keys)
    ensures NewKey(luck.successor, algorithm, now, false) !in Signing(p, algorithm, keys, now, luck.first).0
  {
    hide TakeOver, NeedsKey;
    var signing := Signing(p, algorithm, keys, now, luck.first).0;
    if NeedsKey(keys, algorithm) {
      TakeOverEvolves(p, StopAll(keys, now) + [NewKey(luck.first, algorithm, now, true)], now,
                      Report(1, 1, Count(keys, Active), 0, 0));
    } else {
      TakeOverEvolves(p, keys, now, NOTHING);
    }
    forall i | 0 <= i < |signing| ensures signing[i].kid != luck.successor {
    }
  }

  lemma DueLater(p: Policy, w: Entry, now: u64, now': u64)
    requires w.state.Published? && w.createdAt <= now && now + p.publishAhead <= now'
    ensures Due(p, w, now')
  {
  }

  lemma NotTheSame(p: Policy, algorithm: Algorithm, keys: seq<Entry>, now: u64, first: string,
                   b: Entry, w: Entry, c: Entry)
    requires Shape(keys) && b in keys && b.state.Active? && w in keys && Due(p, w, now)
    requires TurnOf(p, algorithm, keys, now, first, c)
    ensures c.kid != b.kid
  {
    hide Count;
    var e :| e in keys && Due(p, e, now) && c == Signs(e, now);
    var i :| 0 <= i < |keys| && keys[i] == e;
    var j :| 0 <= j < |keys| && keys[j] == b;
  }

  lemma Replaced(p: Policy, algorithm: Algorithm, keys: seq<Entry>, now: u64, luck: Luck, a: Entry, b: Entry, e: Entry)
    requires Shape(keys) && Fresh(luck, keys) && FirstActive(keys) == Some(a) && b.kid != a.kid
    requires FirstActive(Maintained(p, algorithm, keys, now, luck).0) == Some(b)
    requires e in Maintained(p, algorithm, keys, now, luck).0 && e.kid == a.kid
    ensures Stopped(e)
  {
    hide Maintained, Count, Roots, Due;
    PassKeepsShape(p, algorithm, keys, now, luck);
    if e.state.Active? {
      OnlyOne(Maintained(p, algorithm, keys, now, luck).0, Active, e, b);
    } else if e.state.Published? {
      var r := KeyRotation.Descends(p, algorithm, keys, now, luck, e);
      KeyRotation.RootsAre(p, algorithm, keys, now, luck, r);
      assert r in keys ==> r == a by { if r in keys { SameKey(keys, r, a); } }
    }
  }

  lemma SameKey(keys: seq<Entry>, a: Entry, b: Entry)
    requires DistinctKids(keys) && a in keys && b in keys && a.kid == b.kid
    ensures a == b
  {
    var i :| 0 <= i < |keys| && keys[i] == a;
    var j :| 0 <= j < |keys| && keys[j] == b;
  }

  lemma SuccessorWaits(p: Policy, algorithm: Algorithm, keys: seq<Entry>, now: u64, luck: Luck, a: Entry, b: Entry)
    returns (w: Entry)
    requires Shape(keys) && Fresh(luck, keys) && FirstActive(keys) == Some(a) && b.kid == a.kid
    requires TurnOf(p, algorithm, keys, now, luck.first, b)
    requires SuccessorDue(p, keys, now) && forall e :: e in keys ==> e.createdAt <= now
    ensures w in Maintained(p, algorithm, keys, now, luck).0 && w.state.Published? && w.createdAt <= now
  {
    hide Count, FateOf, Aged, Meeting, FirstActive, SuccessorDue, TakeOver, Fresh;
    StaysActive(p, algorithm, keys, now, luck, a, b);
    var grown := Grown(p, algorithm, keys, now, luck).0;
    assert Signing(p, algorithm, keys, now, luck.first).0 == keys;
    var i: nat;
    if Waiting(keys) {
      i :| 0 <= i < |keys| && keys[i].state.Published?;
    } else {
      i := |keys|;
    }
    w := grown[i];
    FateSpares(p, w, now);
    AgedHolds(p, grown, now);
    assert Survives(p, grown, now, w, i);
  }

  /** The key that signed still does only if nothing was due and no key had to be created. */
  lemma StaysActive(p: Policy, algorithm: Algorithm, keys: seq<Entry>, now: u64, luck: Luck, a: Entry, b: Entry)
    requires Shape(keys) && Fresh(luck, keys) && FirstActive(keys) == Some(a) && b.kid == a.kid
    requires TurnOf(p, algorithm, keys, now, luck.first, b)
    ensures !NeedsKey(keys, algorithm) && Signing(p, algorithm, keys, now, luck.first).0 == keys
  {
    hide Count, NeedsKey, FirstActive, Due;
    if exists e :: e in keys && Due(p, e, now) {
      var e :| e in keys && Due(p, e, now) && b == Signs(e, now);
      DueWaits(p, e, now);
      SameKey(keys, e, a);
    }
    OneTurn(p, keys, now, NOTHING);
  }

  // --- Nothing lingers -------------------------------------------------------------------------

  /** A key still on the ring after a pass, though its signatures need no longer verify, was archived. */
  lemma LateIsArchived(p: Policy, algorithm: Algorithm, keys: seq<Entry>, now: u64, luck: Luck, e: Entry)
    requires e in Maintained(p, algorithm, keys, now, luck).0 && Stopped(e) && e.retiredAt.Some?
    requires SaturatingAdd(e.retiredAt.value, p.VerifyFor()) <= now
    ensures e.state.Archived?
  {
    hide Grown, Aged, Meeting;
    var grown := Grown(p, algorithm, keys, now, luck).0;
    AgedHolds(p, grown, now);
    var i :| Survives(p, grown, now, e, i);
  }

  /** Two passes forget a key whose signatures need no longer verify: the first archives it at the
      latest, the second drops it. */
  lemma ForgottenInTime(p: Policy, algorithm: Algorithm, algorithm': Algorithm, keys: seq<Entry>,
                        now: u64, luck: Luck, now': u64, luck': Luck, e: Entry)
    requires now <= now' < U64 - 1
    requires var keys' := Maintained(p, algorithm, keys, now, luck).0;
      e in Maintained(p, algorithm', keys', now', luck').0
    requires Stopped(e) && e.retiredAt.Some?
    ensures now < SaturatingAdd(e.retiredAt.value, p.VerifyFor())
  {
    hide Maintained, Grown, Aged, Meeting, Evolves, FateOf, Roots;
    var keys' := Maintained(p, algorithm, keys, now, luck).0;
    if SaturatingAdd(e.retiredAt.value, p.VerifyFor()) <= now {
      LateIsArchived(p, algorithm', keys', now', luck', e);
      var grown := Grown(p, algorithm', keys', now', luck').0;
      var roots := Roots(p, algorithm', keys', now', luck');
      assert Maintained(p, algorithm', keys', now', luck').0 == Aged(p, grown, now') by {
        Ageing(p, algorithm', keys', now', luck');
      }
      AgedHolds(p, grown, now');
      GrownEvolves(p, algorithm', keys', now', luck');
      var i :| Survives(p, grown, now', e, i);
      var r, g := roots[i], grown[i];
      KeyRotation.RootsAre(p, algorithm', keys', now', luck', r);
      if r in keys' && Stopped(r) {
        KeyRotation.AgedEvolves(p, g, now');
        KeyRotation.EvolvesThrough(p, r, g, e, now');
        SameRetirement(p, r, e, now');
        LateIsArchived(p, algorithm, keys, now, luck, r);
        DroppedNow(p, r, g, now, now');
      } else {
        FateSpares(p, g, now');
        StartedTurning(p, algorithm', keys', now', luck', r);
        JustStopped(p, r, g, now, now');
      }
      assert false;
    }
  }

  lemma Ageing(p: Policy, algorithm: Algorithm, keys: seq<Entry>, now: u64, luck: Luck)
    ensures Maintained(p, algorithm, keys, now, luck).0 == Aged(p, Grown(p, algorithm, keys, now, luck).0, now)
  {
  }

  lemma SameRetirement(p: Policy, r: Entry, e: Entry, now: u64)
    requires Evolves(p, r, e, now) && Stopped(r)
    ensures r.retiredAt == e.retiredAt
  {
  }

  /** A root that is not a stopped key of the ring is not stopped. */
  lemma StartedTurning(p: Policy, algorithm: Algorithm, keys: seq<Entry>, now: u64, luck: Luck, r: Entry)
    requires r in Roots(p, algorithm, keys, now, luck) && !(r in keys && Stopped(r))
    ensures !Stopped(r)
  {
    hide Roots;
    KeyRotation.RootsAre(p, algorithm, keys, now, luck, r);
  }

  lemma JustStopped(p: Policy, r: Entry, g: Entry, now: u64, now': u64)
    requires Evolves(p, r, g, now') && !Stopped(r) && Stopped(g) && now <= now' < U64 - 1
    requires g.retiredAt.Some? && SaturatingAdd(g.retiredAt.value, p.VerifyFor()) <= now
    ensures FateOf(p, g, now').Forget?
  {
  }

  lemma DroppedNow(p: Policy, r: Entry, g: Entry, now: u64, now': u64)
    requires Evolves(p, r, g, now') && r.state.Archived? && r.retiredAt.Some? && now <= now'
    requires SaturatingAdd(r.retiredAt.value, p.VerifyFor()) <= now
    ensures FateOf(p, g, now').Forget?
  {
  }
}
