// Where private halves are: there for as long as a key may sign, gone once it has been retired.

module KeyHalves {
  import opened Basics
  import opened KeyRing
  import opened KeyRotation

  /** Keys that may still sign have their private half on disk; archived ones do not. */
  ghost predicate Halves(s: Store) {
    forall e :: e in s.keys ==> (!Stopped(e) ==> e.kid in s.files) && (e.state.Archived? ==> e.kid !in s.files)
  }

  lemma {:induction false} RemovedExactly(files: set<string>, kids: seq<string>, stuck: set<string>)
    ensures var (left, ok) := Removed(files, kids, stuck);
      && left <= files && (forall k :: k in files && k !in kids ==> k in left)
      && (ok ==> forall k :: k in kids ==> k !in left)
  {
    if kids != [] && kids[0] !in stuck {
      RemovedExactly(files - {kids[0]}, kids[1..], stuck);
    }
  }

  /** The kids whose private half a pass removes. */
  function Doomed(p: Policy, algorithm: Algorithm, keys: seq<Entry>, now: u64, luck: Luck): seq<string> {
    var grown := Grown(p, algorithm, keys, now, luck).0;
    Meeting(p, grown, now, Archive) + Meeting(p, grown, now, Forget)
  }

  /** What a pass does to the files, whether or not it succeeds. */
  lemma PassFiles(p: Policy, algorithm: Algorithm, s: Store, now: u64, luck: Luck)
    ensures var (s', r) := Pass(p, algorithm, s, now, luck);
      var doomed := Doomed(p, algorithm, s.keys, now, luck);
      && (forall k :: k in s.files && k !in doomed ==> k in s'.files)
      && (forall k :: k in s'.files ==> k in s.files || k == luck.first || k == luck.successor)
      && (r.Ok? ==> forall k :: k in doomed ==> k !in s'.files)
      && (r.Ok? && NeedsKey(s.keys, algorithm) && luck.first !in doomed ==> luck.first in s'.files)
      && (r.Ok? && NeedsSuccessor(p, Signing(p, algorithm, s.keys, now, luck.first).0, now) ==>
            luck.successor in doomed || luck.successor in s'.files)
  {
    hide Grown, Meeting, Removed, NeedsKey, NeedsSuccessor, Signing, Maintained;
    var needsKey := NeedsKey(s.keys, algorithm);
    var needsSuccessor := NeedsSuccessor(p, Signing(p, algorithm, s.keys, now, luck.first).0, now);
    var files := s.files + (if needsKey then FileOf(luck.first, luck.firstIo) else {})
      + (if needsSuccessor then FileOf(luck.successor, luck.successorIo) else {});
    RemovedExactly(files, Doomed(p, algorithm, s.keys, now, luck), luck.stuck);
  }

  // --- Which keys are doomed -------------------------------------------------------------------

  lemma DoomedExactly(p: Policy, algorithm: Algorithm, keys: seq<Entry>, now: u64, luck: Luck, i: nat)
    requires DistinctKids(keys) && Fresh(luck, keys) && i < |Grown(p, algorithm, keys, now, luck).0|
    ensures var g := Grown(p, algorithm, keys, now, luck).0[i];
      g.kid in Doomed(p, algorithm, keys, now, luck) <==> !FateOf(p, g, now).Keep?
  {
    hide Grown, Meeting, FateOf, DistinctKids, Fresh;
    var grown := Grown(p, algorithm, keys, now, luck).0;
    GrownDistinct(p, algorithm, keys, now, luck);
    OnTheList(p, grown, now, Archive, i);
    OnTheList(p, grown, now, Forget, i);
  }

  /** A key that may still sign when a pass begins is not doomed by it, as long as private halves are
      kept at all: its retirement, if any, has only begun. */
  lemma SigningNotDoomed(p: Policy, e: Entry, g: Entry, now: u64)
    requires !Stopped(e) && Evolves(p, e, g, now) && p.retain > 0 && now < U64 - 1
    requires WellTimed(e, now)
    ensures FateOf(p, g, now).Keep?
  {
  }

  /** Nothing is archived before the last stage. */
  lemma {:induction false} TakeOverArchives(p: Policy, keys: seq<Entry>, now: u64, report: Report)
    ensures var r := TakeOver(p, keys, now, report).0;
      forall i :: 0 <= i < |keys| && r[i].state.Archived? ==> keys[i].state.Archived?
    decreases Count(keys, Published)
  {
    hide Count;
    var due := OldestDue(p, keys, now);
    if due.Some? {
      HandOverCounts(keys, due.value, now);
      TakeOverArchives(p, HandOver(keys, due.value, now), now,
                       report.(retired := report.retired + Count(keys, Active), activated := report.activated + 1));
    }
  }

  lemma GrownArchives(p: Policy, algorithm: Algorithm, keys: seq<Entry>, now: u64, luck: Luck, i: nat)
    requires i < |Grown(p, algorithm, keys, now, luck).0| && Grown(p, algorithm, keys, now, luck).0[i].state.Archived?
    ensures i < |keys| && keys[i].state.Archived?
  {
    hide TakeOver, NeedsKey, NeedsSuccessor;
    if NeedsKey(keys, algorithm) {
      TakeOverArchives(p, StopAll(keys, now) + [NewKey(luck.first, algorithm, now, true)], now,
                       Report(1, 1, Count(keys, Active), 0, 0));
    } else {
      TakeOverArchives(p, keys, now, NOTHING);
    }
  }

  lemma RootAt(p: Policy, algorithm: Algorithm, keys: seq<Entry>, now: u64, luck: Luck, i: nat)
    requires i < |Grown(p, algorithm, keys, now, luck).0|
    ensures i < |Roots(p, algorithm, keys, now, luck)|
    ensures var e, g := Roots(p, algorithm, keys, now, luck)[i], Grown(p, algorithm, keys, now, luck).0[i];
      && Evolves(p, e, g, now)
      && (i < |keys| ==> e == keys[i])
      && (i >= |keys| ==>
            || (e == NewKey(luck.first, algorithm, now, true) && NeedsKey(keys, algorithm))
            || (e == NewKey(luck.successor, algorithm, now, false)
                && NeedsSuccessor(p, Signing(p, algorithm, keys, now, luck.first).0, now)))
  {
    hide Grown, NeedsKey, NeedsSuccessor, Signing, Evolves;
    GrownEvolves(p, algorithm, keys, now, luck);
  }

  // --- Every pass keeps the halves where they belong -------------------------------------------

  lemma UnwrittenKeeps(p: Policy, w: World, now: u64, algorithm: Algorithm, luck: Luck)
    requires Sound(p, w) && Admissible(w, Maintain(now, algorithm, luck)) && p.retain > 0 && Halves(w.store)
    ensures Halves(w.store.(files := Pass(p, algorithm, w.store, now, luck).0.files))
  {
    hide Pass, Grown, Evolves, FateOf, Doomed, LogSound, Roots, NeedsKey, NeedsSuccessor, Signing, Shape;
    var keys, files := w.store.keys, Pass(p, algorithm, w.store, now, luck).0.files;
    FreshNames(p, w, luck);
    PassFiles(p, algorithm, w.store, now, luck);
    assert DistinctKids(keys) by { ShapeDistinct(keys); }
    GrownLonger(p, algorithm, keys, now, luck);
    forall e | e in keys
      ensures (!Stopped(e) ==> e.kid in files) && (e.state.Archived? ==> e.kid !in files)
    {
      var i :| 0 <= i < |keys| && keys[i] == e;
      RootAt(p, algorithm, keys, now, luck, i);
      DoomedExactly(p, algorithm, keys, now, luck, i);
      var g := Grown(p, algorithm, keys, now, luck).0[i];
      SameKid(p, e, g, now);
      if !Stopped(e) {
        SigningNotDoomed(p, e, g, now);
      }
    }
  }

  lemma ShapeDistinct(keys: seq<Entry>)
    requires Shape(keys)
    ensures DistinctKids(keys)
  {
  }

  lemma GrownLonger(p: Policy, algorithm: Algorithm, keys: seq<Entry>, now: u64, luck: Luck)
    ensures |Grown(p, algorithm, keys, now, luck).0| >= |keys|
  {
    hide Grown, NeedsKey, NeedsSuccessor, Signing;
    GrownEvolves(p, algorithm, keys, now, luck);
  }

  /** A successful pass leaves no private half of a key retired for `retain`. */
  lemma WrittenKeeps(p: Policy, w: World, now: u64, algorithm: Algorithm, luck: Luck)
    requires Sound(p, w) && Admissible(w, Maintain(now, algorithm, luck)) && p.retain > 0 && Halves(w.store)
    requires Pass(p, algorithm, w.store, now, luck).1.Ok?
    ensures var files := Pass(p, algorithm, w.store, now, luck).0.files;
      var keys := Maintained(p, algorithm, w.store.keys, now, luck).0;
      && Halves(Store(keys, files))
      && forall e :: e in keys && e.retiredAt.Some? && SaturatingAdd(e.retiredAt.value, p.retain) <= now ==>
           e.kid !in files
  {
    hide Pass, Grown, Evolves, FateOf, Doomed, LogSound, Roots, NeedsKey, NeedsSuccessor, Signing, Shape, Aged, Meeting;
    var files := Pass(p, algorithm, w.store, now, luck).0.files;
    var keys := Maintained(p, algorithm, w.store.keys, now, luck).0;
    var grown := Grown(p, algorithm, w.store.keys, now, luck).0;
    AgedHolds(p, grown, now);
    forall e | e in keys
      ensures (!Stopped(e) ==> e.kid in files) && (e.state.Archived? ==> e.kid !in files)
      ensures e.retiredAt.Some? && SaturatingAdd(e.retiredAt.value, p.retain) <= now ==> e.kid !in files
    {
      var i :| Survives(p, grown, now, e, i);
      KeyAfter(p, w, now, algorithm, luck, i);
    }
  }

  lemma KeyAfter(p: Policy, w: World, now: u64, algorithm: Algorithm, luck: Luck, i: nat)
    requires Sound(p, w) && Admissible(w, Maintain(now, algorithm, luck)) && p.retain > 0 && Halves(w.store)
    requires Pass(p, algorithm, w.store, now, luck).1.Ok?
    requires i < |Grown(p, algorithm, w.store.keys, now, luck).0|
    ensures var e := AgedEntry(p, Grown(p, algorithm, w.store.keys, now, luck).0[i], now);
      var files := Pass(p, algorithm, w.store, now, luck).0.files;
      && (!Stopped(e) ==> e.kid in files) && (e.state.Archived? ==> e.kid !in files)
      && (e.retiredAt.Some? && SaturatingAdd(e.retiredAt.value, p.retain) <= now ==> e.kid !in files)
  {
    hide Pass, Grown, Evolves, Doomed, LogSound, Roots, NeedsKey, NeedsSuccessor, Signing, Shape, FateOf;
    var keys := w.store.keys;
    var g := Grown(p, algorithm, keys, now, luck).0[i];
    FreshNames(p, w, luck);
    assert DistinctKids(keys) by { ShapeDistinct(keys); }
    PassFiles(p, algorithm, w.store, now, luck);
    RootAt(p, algorithm, keys, now, luck, i);
    DoomedExactly(p, algorithm, keys, now, luck, i);
    var e := Roots(p, algorithm, keys, now, luck)[i];
    SameKid(p, e, g, now);
    FateSpares(p, g, now);
    if g.state.Archived? {
      GrownArchives(p, algorithm, keys, now, luck, i);
    }
    if i < |keys| {
      TimedKey(p, w, e, now);
    }
    Ends(p, e, g, now);
  }

  lemma TimedKey(p: Policy, w: World, e: Entry, now: u64)
    requires KeysSound(p, w) && e in w.store.keys && w.clock <= now
    ensures WellTimed(e, now)
  {
  }

  /** How a key that a pass worked on ends it. */
  lemma Ends(p: Policy, e: Entry, g: Entry, now: u64)
    requires Evolves(p, e, g, now) && WellTimed(e, now)
    ensures Stopped(e) ==> Stopped(g)
    ensures !Stopped(g) ==> g.retiredAt.None?
    ensures g.state.Retired? && g.retiredAt.Some? && SaturatingAdd(g.retiredAt.value, p.retain) <= now ==>
      !FateOf(p, g, now).Keep?
  {
  }

  // --- In every run ----------------------------------------------------------------------------

  lemma StepKeepsHalves(p: Policy, w: World, step: Step)
    requires Sound(p, w) && Admissible(w, step) && p.retain > 0 && Halves(w.store)
    ensures Halves(Next(p, w, step).store)
  {
    hide Sound, Halves, Pass, Maintained, Named;
    match step
    case Maintain(now, algorithm, luck) =>
      KeptOrWritten(p, w, now, algorithm, luck);
      var (store, r) := Pass(p, algorithm, w.store, now, luck);
      if store.keys == w.store.keys {
        UnwrittenKeeps(p, w, now, algorithm, luck);
        assert store == w.store.(files := store.files);
      } else {
        WrittenOk(p, w, now, algorithm, luck);
        WrittenKeeps(p, w, now, algorithm, luck);
      }
    case _ =>
  }

  lemma WrittenOk(p: Policy, w: World, now: u64, algorithm: Algorithm, luck: Luck)
    ensures var (store, r) := Pass(p, algorithm, w.store, now, luck); store.keys != w.store.keys ==> r.Ok?
  {
    hide Maintained, Grown, Removed, Meeting, NeedsKey, NeedsSuccessor, Signing;
  }

  lemma {:induction false} RunKeepsHalves(p: Policy, w: World, steps: seq<Step>, w': World)
    requires Sound(p, w) && Run(p, w, steps, w') && p.retain > 0 && Halves(w.store)
    ensures Sound(p, w') && Halves(w'.store)
    decreases |steps|
  {
    hide Sound, Next, Admissible, Halves;
    if steps != [] {
      StepKeeps(p, w, steps[0]);
      StepKeepsHalves(p, w, steps[0]);
      RunKeepsHalves(p, Next(p, w, steps[0]), steps[1..], w');
    }
  }

  /** In every run of a ring that keeps private halves for any time at all, whatever fails and wherever
      it stops, a ring with keys on it can sign: the file of the key it names is there. */
  lemma AlwaysAbleToSign(p: Policy, steps: seq<Step>, w: World)
    requires Run(p, FRESH, steps, w) && p.retain > 0
    ensures w.store.keys != [] ==> Signer(w.store).Some?
  {
    hide Run, EntrySound, LogSound, Count;
    FreshSound(p);
    RunKeepsHalves(p, FRESH, steps, w);
    if w.store.keys != [] && FirstActive(w.store.keys).None? {
      assert Count(w.store.keys, Active) == 0 by { CountNone(w.store.keys, Active); }
    }
  }

  /** After a pass that succeeds, no key retired for `retain` has a private half on disk. */
  lemma PrivateHalvesGone(p: Policy, steps: seq<Step>, w: World, now: u64, algorithm: Algorithm, luck: Luck, e: Entry)
    requires Run(p, FRESH, steps, w) && p.retain > 0 && Admissible(w, Maintain(now, algorithm, luck))
    requires Pass(p, algorithm, w.store, now, luck).1.Ok?
    requires e in Maintained(p, algorithm, w.store.keys, now, luck).0 && Stopped(e)
    requires e.retiredAt.Some? && SaturatingAdd(e.retiredAt.value, p.retain) <= now
    ensures e.kid !in Pass(p, algorithm, w.store, now, luck).0.files
  {
    hide Run, Sound, Pass, Maintained, Halves, Admissible;
    FreshSound(p);
    assert Halves(FRESH.store) by { NoHalves(); }
    RunKeepsHalves(p, FRESH, steps, w);
    WrittenKeeps(p, w, now, algorithm, luck);
  }

  lemma NoHalves()
    ensures Halves(Store([], {}))
  {
  }

  // --- Not before its time ---------------------------------------------------------------------

  /** A key retired for less than `retain` still has its private half. */
  ghost predicate Kept(p: Policy, s: Store, clock: u64) {
    forall e :: e in s.keys && e.state.Retired? && e.retiredAt.Some? && clock < e.retiredAt.value + p.retain ==>
      e.kid in s.files
  }

  lemma SparedUntil(p: Policy, g: Entry, now: u64)
    requires g.retiredAt.Some? && now < g.retiredAt.value + p.retain && now < U64 - 1
    ensures FateOf(p, g, now).Keep?
  {
  }

  lemma UnwrittenKept(p: Policy, w: World, now: u64, algorithm: Algorithm, luck: Luck)
    requires Sound(p, w) && Admissible(w, Maintain(now, algorithm, luck)) && Kept(p, w.store, w.clock)
    ensures Kept(p, w.store.(files := Pass(p, algorithm, w.store, now, luck).0.files), now)
  {
    hide Pass, Grown, Evolves, FateOf, Doomed, LogSound, Roots, NeedsKey, NeedsSuccessor, Signing, Shape;
    var keys, files := w.store.keys, Pass(p, algorithm, w.store, now, luck).0.files;
    FreshNames(p, w, luck);
    PassFiles(p, algorithm, w.store, now, luck);
    assert DistinctKids(keys) by { ShapeDistinct(keys); }
    GrownLonger(p, algorithm, keys, now, luck);
    forall e | e in keys && e.state.Retired? && e.retiredAt.Some? && now < e.retiredAt.value + p.retain
      ensures e.kid in files
    {
      var i :| 0 <= i < |keys| && keys[i] == e;
      RootAt(p, algorithm, keys, now, luck, i);
      DoomedExactly(p, algorithm, keys, now, luck, i);
      var g := Grown(p, algorithm, keys, now, luck).0[i];
      SameKid(p, e, g, now);
      StillStopped(p, e, g, now);
      SparedUntil(p, g, now);
    }
  }

  lemma StillStopped(p: Policy, e: Entry, g: Entry, now: u64)
    requires Evolves(p, e, g, now)
    ensures Stopped(e) ==> Stopped(g) && g.retiredAt == e.retiredAt
    ensures g.state.Retired? ==> !e.state.Archived?
  {
  }

  lemma WrittenKept(p: Policy, w: World, now: u64, algorithm: Algorithm, luck: Luck)
    requires Sound(p, w) && Admissible(w, Maintain(now, algorithm, luck))
    requires Halves(w.store) && Kept(p, w.store, w.clock) && Pass(p, algorithm, w.store, now, luck).1.Ok?
    ensures Kept(p, Store(Maintained(p, algorithm, w.store.keys, now, luck).0,
                          Pass(p, algorithm, w.store, now, luck).0.files), now)
  {
    hide Pass, Grown, Evolves, FateOf, Doomed, LogSound, Roots, NeedsKey, NeedsSuccessor, Signing, Shape, Aged, Meeting;
    var files := Pass(p, algorithm, w.store, now, luck).0.files;
    var keys := Maintained(p, algorithm, w.store.keys, now, luck).0;
    var grown := Grown(p, algorithm, w.store.keys, now, luck).0;
    AgedHolds(p, grown, now);
    FreshNames(p, w, luck);
    PassFiles(p, algorithm, w.store, now, luck);
    assert DistinctKids(w.store.keys) by { ShapeDistinct(w.store.keys); }
    forall e | e in keys && e.state.Retired? && e.retiredAt.Some? && now < e.retiredAt.value + p.retain
      ensures e.kid in files
    {
      var i :| Survives(p, grown, now, e, i);
      SparedUntil(p, e, now);
      SparedUntil(p, grown[i], now);
      RootAt(p, algorithm, w.store.keys, now, luck, i);
      DoomedExactly(p, algorithm, w.store.keys, now, luck, i);
      var root := Roots(p, algorithm, w.store.keys, now, luck)[i];
      SameKid(p, root, grown[i], now);
      StillStopped(p, root, grown[i], now);
    }
  }

  lemma StepKeepsKept(p: Policy, w: World, step: Step)
    requires Sound(p, w) && Admissible(w, step) && Halves(w.store) && Kept(p, w.store, w.clock)
    ensures Kept(p, Next(p, w, step).store, step.now)
  {
    hide Sound, Halves, Pass, Maintained, Named;
    match step
    case Maintain(now, algorithm, luck) =>
      KeptOrWritten(p, w, now, algorithm, luck);
      var (store, r) := Pass(p, algorithm, w.store, now, luck);
      if store.keys == w.store.keys {
        UnwrittenKept(p, w, now, algorithm, luck);
        assert store == w.store.(files := store.files);
      } else {
        WrittenOk(p, w, now, algorithm, luck);
        WrittenKept(p, w, now, algorithm, luck);
      }
    case _ =>
  }

  lemma {:induction false} RunKeepsKept(p: Policy, w: World, steps: seq<Step>, w': World)
    requires Sound(p, w) && Run(p, w, steps, w') && p.retain > 0 && Halves(w.store) && Kept(p, w.store, w.clock)
    ensures Kept(p, w'.store, w'.clock)
    decreases |steps|
  {
    hide Sound, Pass, Admissible, Halves, Kept, Maintained, Named;
    if steps != [] {
      StepKeeps(p, w, steps[0]);
      StepKeepsHalves(p, w, steps[0]);
      StepKeepsKept(p, w, steps[0]);
      assert Next(p, w, steps[0]).clock == steps[0].now;
      RunKeepsKept(p, Next(p, w, steps[0]), steps[1..], w');
    }
  }

  /** In every run, whatever fails, a retired key keeps its private half until it has been retired for
      `retain`. */
  lemma PrivateHalvesKept(p: Policy, steps: seq<Step>, w: World, e: Entry)
    requires Run(p, FRESH, steps, w) && p.retain > 0
    requires e in w.store.keys && e.state.Retired? && e.retiredAt.Some? && w.clock < e.retiredAt.value + p.retain
    ensures e.kid in w.store.files
  {
    hide Run, Sound, Halves;
    FreshSound(p);
    NoHalves();
    RunKeepsKept(p, FRESH, steps, w);
  }

  // --- When a pass succeeds, and what a failed creation leaves ---------------------------------

  lemma {:induction false} RemovedAll(files: set<string>, kids: seq<string>, stuck: set<string>)
    ensures Removed(files, kids, stuck).1 <==> forall k :: k in kids ==> k !in stuck
  {
    if kids != [] && kids[0] !in stuck {
      RemovedAll(files - {kids[0]}, kids[1..], stuck);
    }
  }

  /** A pass succeeds exactly when every file operation it needs does: the keys it has to create, the private
      halves it has to remove, and the ring file when there is anything to write. */
  lemma PassSucceedsExactly(p: Policy, algorithm: Algorithm, s: Store, now: u64, luck: Luck)
    ensures Pass(p, algorithm, s, now, luck).1.Ok? <==>
      && (NeedsKey(s.keys, algorithm) ==> luck.firstIo == Created)
      && (NeedsSuccessor(p, Signing(p, algorithm, s.keys, now, luck.first).0, now) ==> luck.successorIo == Created)
      && (forall k :: k in Doomed(p, algorithm, s.keys, now, luck) ==> k !in luck.stuck)
      && (Maintained(p, algorithm, s.keys, now, luck).1.IsEmpty() || luck.ringIo)
  {
    hide Grown, Meeting, Removed, NeedsKey, NeedsSuccessor, Signing, Maintained;
    var doomed := Doomed(p, algorithm, s.keys, now, luck);
    forall files ensures Removed(files, doomed, luck.stuck).1 <==> forall k :: k in doomed ==> k !in luck.stuck {
      RemovedAll(files, doomed, luck.stuck);
    }
  }

  /** A private half on disk that the ring does not name. */
  ghost predicate Orphan(s: Store, kid: string) {
    kid in s.files && forall e :: e in s.keys ==> e.kid != kid
  }

  /** A key that could not be created leaves the ring as it was, and its file exactly when that had been
      written; no pass then removes it, since the ring never names it. */
  lemma FailedCreationStays(p: Policy, algorithm: Algorithm, s: Store, now: u64, luck: Luck, kid: string)
    ensures NeedsKey(s.keys, algorithm) && luck.firstIo.CreationFailed? ==>
      Pass(p, algorithm, s, now, luck).0 == s.(files := s.files + if luck.firstIo.left then {luck.first} else {})
    ensures Orphan(s, kid) && kid != luck.first && kid != luck.successor ==>
      kid in Pass(p, algorithm, s, now, luck).0.files
  {
    hide Grown, Meeting, Removed, NeedsSuccessor, Signing, Maintained;
    if Orphan(s, kid) && kid != luck.first && kid != luck.successor {
      PassFiles(p, algorithm, s, now, luck);
      NotDoomed(p, algorithm, s.keys, now, luck, kid);
    }
  }

  lemma NotDoomed(p: Policy, algorithm: Algorithm, keys: seq<Entry>, now: u64, luck: Luck, kid: string)
    requires (forall e :: e in keys ==> e.kid != kid) && kid != luck.first && kid != luck.successor
    ensures kid !in Doomed(p, algorithm, keys, now, luck)
  {
    hide Grown, FateOf, NeedsKey, NeedsSuccessor, Signing, Roots;
    var grown := Grown(p, algorithm, keys, now, luck).0;
    forall i | 0 <= i < |grown| ensures grown[i].kid != kid {
      RootAt(p, algorithm, keys, now, luck, i);
      SameKid(p, Roots(p, algorithm, keys, now, luck)[i], grown[i], now);
    }
  }
}
