// Every run of a key ring: passes that succeed or fail anywhere, key sets fetched, signatures made.

module KeyRotation {
  import opened Basics
  import opened KeyRing

  datatype Event =
    | Fetched(at: u64, kids: set<string>)   // somebody read the published key set
    | Signed(at: u64, kid: string)          // the ring signed

  /** When a key was created, and whether it signed from its first second. */
  datatype Birth = Birth(at: u64, signing: bool)

  datatype World = World(store: Store, clock: u64, births: map<string, Birth>, log: seq<Event>)

  datatype Step =
    | Maintain(now: u64, algorithm: Algorithm, luck: Luck)
    | Fetch(now: u64)
    | Sign(now: u64)

  function Kids(keys: seq<Entry>): (r: set<string>)
    ensures forall e :: e in keys ==> e.kid in r
    ensures forall k :: k in r ==> exists e :: e in keys && e.kid == k
  {
    set e | e in keys :: e.kid
  }

  /** The clock never goes back nor reaches its last second, and new keys have new names. */
  ghost predicate Admissible(w: World, step: Step) {
    && w.clock <= step.now < U64 - 1
    && (step.Maintain? ==>
          step.luck.first != step.luck.successor && step.luck.first !in w.births && step.luck.successor !in w.births)
  }

  function Next(p: Policy, w: World, step: Step): World {
    match step
    case Fetch(now) => w.(clock := now, log := w.log + [Fetched(now, Kids(w.store.keys))])
    case Sign(now) =>
      var kid := Signer(w.store);
      w.(clock := now, log := w.log + if kid.Some? then [Signed(now, kid.value)] else [])
    case Maintain(now, algorithm, luck) =>
      var store := Pass(p, algorithm, w.store, now, luck).0;
      World(store, now, Named(w.births, store.keys, now, luck), w.log)
  }

  function Named(births: map<string, Birth>, keys: seq<Entry>, now: u64, luck: Luck): map<string, Birth> {
    map k | k in births.Keys + Kids(keys) :: if k in births then births[k] else Birth(now, k == luck.first)
  }

  ghost predicate Run(p: Policy, w: World, steps: seq<Step>, w': World)
    decreases |steps|
  {
    if steps == [] then w == w'
    else Admissible(w, steps[0]) && Run(p, Next(p, w, steps[0]), steps[1..], w')
  }

  const FRESH := World(Store([], {}), 0, map[], [])

  // --- The invariant ---------------------------------------------------------------------------

  ghost predicate EntrySound(p: Policy, births: map<string, Birth>, clock: u64, e: Entry) {
    && WellTimed(e, clock) && e.kid in births && births[e.kid].at == e.createdAt
    && (e.state.Active? ==> births[e.kid].signing || e.createdAt + p.publishAhead <= clock)
  }

  /** The key still vouches for what it signed at `at`: it signs, or stopped no earlier. */
  ghost predicate Vouches(e: Entry, kid: string, at: u64) {
    e.kid == kid && (e.state.Active? || (Stopped(e) && e.retiredAt.Some? && e.retiredAt.value >= at))
  }

  ghost predicate SignedSound(p: Policy, w: World, at: u64, kid: string) {
    && at <= w.clock && kid in w.births
    && (w.births[kid].signing || w.births[kid].at + p.publishAhead <= at)
    && (at + p.VerifyFor() <= w.clock || exists e :: e in w.store.keys && Vouches(e, kid, at))
  }

  ghost predicate FetchedSound(w: World, at: u64, kids: set<string>) {
    at <= w.clock && forall e :: e in w.store.keys && e.createdAt < at ==> e.kid in kids
  }

  /** A signature and a fetched key set agree: the set holds the key, from its creation until its
      signatures need no longer verify. */
  ghost predicate Agree(p: Policy, births: map<string, Birth>, signed: Event, fetched: Event)
    requires signed.Signed? && fetched.Fetched?
  {
    && signed.kid in births
    && (births[signed.kid].at < fetched.at < signed.at + p.VerifyFor() ==> signed.kid in fetched.kids)
  }

  ghost predicate KeysSound(p: Policy, w: World) {
    Shape(w.store.keys) && forall e :: e in w.store.keys ==> EntrySound(p, w.births, w.clock, e)
  }

  ghost predicate LogSound(p: Policy, w: World) {
    && (forall i :: 0 <= i < |w.log| && w.log[i].Signed? ==> SignedSound(p, w, w.log[i].at, w.log[i].kid))
    && (forall i :: 0 <= i < |w.log| && w.log[i].Fetched? ==> FetchedSound(w, w.log[i].at, w.log[i].kids))
    && (forall i, j :: 0 <= i < |w.log| && 0 <= j < |w.log| && w.log[i].Signed? && w.log[j].Fetched? ==>
          Agree(p, w.births, w.log[i], w.log[j]))
  }

  ghost predicate Sound(p: Policy, w: World) { KeysSound(p, w) && LogSound(p, w) }

  // --- A pass keeps it -------------------------------------------------------------------------

  /** A key whose signatures need no longer verify. */
  ghost predicate Over(p: Policy, e: Entry, now: u64) {
    if Stopped(e) then e.retiredAt.Some? && e.retiredAt.value + p.VerifyFor() <= now else p.VerifyFor() == 0
  }

  lemma AgedEvolves(p: Policy, e: Entry, now: u64)
    ensures Evolves(p, e, AgedEntry(p, e, now), now)
  {
  }

  lemma EvolvesThrough(p: Policy, a: Entry, b: Entry, c: Entry, now: u64)
    requires Evolves(p, a, b, now) && Evolves(p, b, c, now)
    ensures Evolves(p, a, c, now)
  {
  }

  /** Every key after a pass comes from one it worked on. */
  lemma Descends(p: Policy, algorithm: Algorithm, keys: seq<Entry>, now: u64, luck: Luck, e': Entry) returns (e: Entry)
    requires e' in Maintained(p, algorithm, keys, now, luck).0
    ensures e in Roots(p, algorithm, keys, now, luck) && Evolves(p, e, e', now)
  {
    hide Grown, Roots, Evolves, Aged, FateOf;
    var grown, roots := Grown(p, algorithm, keys, now, luck).0, Roots(p, algorithm, keys, now, luck);
    AgedHolds(p, grown, now);
    GrownEvolves(p, algorithm, keys, now, luck);
    var i :| Survives(p, grown, now, e', i);
    e := roots[i];
    AgedEvolves(p, grown[i], now);
    EvolvesThrough(p, e, grown[i], e', now);
  }

  lemma ForgottenIsOver(p: Policy, e: Entry, e': Entry, now: u64)
    requires Evolves(p, e, e', now) && FateOf(p, e', now).Forget? && now < U64 - 1
    ensures Over(p, e, now)
  {
  }

  /** No key a pass worked on is lost before its signatures need no longer verify. */
  lemma Outlives(p: Policy, algorithm: Algorithm, keys: seq<Entry>, now: u64, luck: Luck, e: Entry)
    requires e in Roots(p, algorithm, keys, now, luck) && now < U64 - 1
    ensures Over(p, e, now) || exists e' :: e' in Maintained(p, algorithm, keys, now, luck).0 && Evolves(p, e, e', now)
  {
    hide Grown, Roots, Evolves, Aged, FateOf, Over;
    var grown, roots := Grown(p, algorithm, keys, now, luck).0, Roots(p, algorithm, keys, now, luck);
    AgedHolds(p, grown, now);
    GrownEvolves(p, algorithm, keys, now, luck);
    var i :| 0 <= i < |roots| && roots[i] == e;
    if FateOf(p, grown[i], now).Forget? {
      ForgottenIsOver(p, e, grown[i], now);
    } else {
      var e' := AgedEntry(p, grown[i], now);
      assert Survives(p, grown, now, e', i);
      AgedEvolves(p, grown[i], now);
      EvolvesThrough(p, e, grown[i], e', now);
    }
  }

  lemma RootsAre(p: Policy, algorithm: Algorithm, keys: seq<Entry>, now: u64, luck: Luck, e: Entry)
    ensures e in Roots(p, algorithm, keys, now, luck) ==>
      || e in keys
      || e == NewKey(luck.first, algorithm, now, true) || e == NewKey(luck.successor, algorithm, now, false)
    ensures e in keys ==> e in Roots(p, algorithm, keys, now, luck)
  {
    hide NeedsKey, NeedsSuccessor, Signing;
  }

  /** The world after a pass whose result was written. */
  function Written(p: Policy, w: World, now: u64, algorithm: Algorithm, luck: Luck, files: set<string>): World {
    var keys := Maintained(p, algorithm, w.store.keys, now, luck).0;
    World(Store(keys, files), now, Named(w.births, keys, now, luck), w.log)
  }

  lemma EvolvedSound(p: Policy, births: map<string, Birth>, clock: u64, births': map<string, Birth>, now: u64,
                     e: Entry, e': Entry)
    requires EntrySound(p, births, clock, e) && Evolves(p, e, e', now) && clock <= now < U64 - 1
    requires e.kid in births' && births'[e.kid] == births[e.kid]
    ensures EntrySound(p, births', now, e')
  {
  }

  lemma PassKeepsKeys(p: Policy, w: World, now: u64, algorithm: Algorithm, luck: Luck, files: set<string>)
    requires KeysSound(p, w) && Admissible(w, Maintain(now, algorithm, luck))
    ensures KeysSound(p, Written(p, w, now, algorithm, luck, files))
  {
    hide Maintained, Evolves, EntrySound, Shape, Roots;
    var w' := Written(p, w, now, algorithm, luck, files);
    FreshNames(p, w, luck);
    PassKeepsShape(p, algorithm, w.store.keys, now, luck);
    forall e' | e' in w'.store.keys ensures EntrySound(p, w'.births, now, e') {
      var e := Descends(p, algorithm, w.store.keys, now, luck, e');
      RootsAre(p, algorithm, w.store.keys, now, luck, e);
      SameKid(p, e, e', now);
      if e in w.store.keys {
        KnownKid(p, w, e);
        EvolvedSound(p, w.births, w.clock, w'.births, now, e, e');
      } else {
        NewSound(p, w, now, algorithm, luck, w'.births, e, e');
      }
    }
  }

  lemma SameKid(p: Policy, e: Entry, e': Entry, now: u64)
    requires Evolves(p, e, e', now)
    ensures e'.kid == e.kid && e'.createdAt == e.createdAt
  {
  }

  lemma KnownKid(p: Policy, w: World, e: Entry)
    requires KeysSound(p, w) && e in w.store.keys
    ensures e.kid in w.births && w.births[e.kid].at == e.createdAt
  {
  }

  lemma FreshNames(p: Policy, w: World, luck: Luck)
    requires KeysSound(p, w) && luck.first != luck.successor && luck.first !in w.births && luck.successor !in w.births
    ensures Fresh(luck, w.store.keys) && Shape(w.store.keys)
  {
    hide Shape;
    forall i | 0 <= i < |w.store.keys| ensures w.store.keys[i].kid in w.births {
      KnownKid(p, w, w.store.keys[i]);
    }
  }

  lemma NewSound(p: Policy, w: World, now: u64, algorithm: Algorithm, luck: Luck, births': map<string, Birth>,
                 e: Entry, e': Entry)
    requires Admissible(w, Maintain(now, algorithm, luck)) && Evolves(p, e, e', now)
    requires e == NewKey(luck.first, algorithm, now, true) || e == NewKey(luck.successor, algorithm, now, false)
    requires e'.kid in births' && births'[e'.kid] == Birth(now, e'.kid == luck.first)
    ensures EntrySound(p, births', now, e')
  {
  }

  lemma PassKeepsLog(p: Policy, w: World, now: u64, algorithm: Algorithm, luck: Luck, files: set<string>)
    requires Sound(p, w) && Admissible(w, Maintain(now, algorithm, luck))
    ensures LogSound(p, Written(p, w, now, algorithm, luck, files))
  {
    hide Maintained, KeysSound, SignedSound, FetchedSound;
    var w' := Written(p, w, now, algorithm, luck, files);
    forall i | 0 <= i < |w.log| && w.log[i].Signed? ensures SignedSound(p, w', w.log[i].at, w.log[i].kid) {
      StillSigned(p, w, now, algorithm, luck, files, w.log[i].at, w.log[i].kid);
    }
    forall i | 0 <= i < |w.log| && w.log[i].Fetched? ensures FetchedSound(w', w.log[i].at, w.log[i].kids) {
      StillFetched(p, w, now, algorithm, luck, files, w.log[i].at, w.log[i].kids);
    }
  }

  lemma StillSigned(p: Policy, w: World, now: u64, algorithm: Algorithm, luck: Luck, files: set<string>,
                    at: u64, kid: string)
    requires KeysSound(p, w) && Admissible(w, Maintain(now, algorithm, luck)) && SignedSound(p, w, at, kid)
    ensures SignedSound(p, Written(p, w, now, algorithm, luck, files), at, kid)
  {
    hide Maintained, Evolves, KeysSound, Over, Roots, Vouches;
    if at + p.VerifyFor() > w.clock {
      var e :| e in w.store.keys && Vouches(e, kid, at);
      RootsAre(p, algorithm, w.store.keys, now, luck, e);
      Outlives(p, algorithm, w.store.keys, now, luck, e);
      if Over(p, e, now) {
        OverAfter(p, w.clock, now, e, kid, at);
      } else {
        var e' :| e' in Maintained(p, algorithm, w.store.keys, now, luck).0 && Evolves(p, e, e', now);
        VouchesStill(p, e, e', now, kid, at);
      }
    }
  }

  lemma OverAfter(p: Policy, clock: u64, now: u64, e: Entry, kid: string, at: u64)
    requires Over(p, e, now) && Vouches(e, kid, at) && at <= clock <= now
    ensures at + p.VerifyFor() <= now
  {
  }

  lemma VouchesStill(p: Policy, e: Entry, e': Entry, now: u64, kid: string, at: u64)
    requires Vouches(e, kid, at) && Evolves(p, e, e', now) && at <= now
    ensures Vouches(e', kid, at)
  {
  }

  lemma StillFetched(p: Policy, w: World, now: u64, algorithm: Algorithm, luck: Luck, files: set<string>,
                     at: u64, kids: set<string>)
    requires KeysSound(p, w) && Admissible(w, Maintain(now, algorithm, luck)) && FetchedSound(w, at, kids)
    ensures FetchedSound(Written(p, w, now, algorithm, luck, files), at, kids)
  {
    hide Maintained, Evolves, KeysSound, Roots;
    var w' := Written(p, w, now, algorithm, luck, files);
    forall e' | e' in w'.store.keys && e'.createdAt < at ensures e'.kid in kids {
      var e := Descends(p, algorithm, w.store.keys, now, luck, e');
      RootsAre(p, algorithm, w.store.keys, now, luck, e);
      SameKid(p, e, e', now);
    }
  }

  // --- Every step keeps it ---------------------------------------------------------------------

  /** A pass that does not write leaves the keys alone. */
  lemma KeptOrWritten(p: Policy, w: World, now: u64, algorithm: Algorithm, luck: Luck)
    ensures var store := Pass(p, algorithm, w.store, now, luck).0;
      store.keys == w.store.keys || store.keys == Maintained(p, algorithm, w.store.keys, now, luck).0
  {
    hide Maintained, Grown, Removed, Meeting, NeedsKey, NeedsSuccessor, Signing;
  }

  lemma TimePasses(p: Policy, w: World, now: u64, store: Store, births: map<string, Birth>)
    requires Sound(p, w) && w.clock <= now && store.keys == w.store.keys
    requires births == w.births
    ensures Sound(p, World(store, now, births, w.log))
  {
    hide Shape;
    var w' := World(store, now, births, w.log);
    forall i | 0 <= i < |w.log| && w.log[i].Signed? ensures SignedSound(p, w', w.log[i].at, w.log[i].kid) {
      assert SignedSound(p, w, w.log[i].at, w.log[i].kid);
    }
  }

  lemma NoNewNames(p: Policy, w: World, now: u64, luck: Luck)
    requires KeysSound(p, w)
    ensures Named(w.births, w.store.keys, now, luck) == w.births
  {
    hide Shape;
    assert forall e :: e in w.store.keys ==> e.kid in w.births;
    assert w.births.Keys + Kids(w.store.keys) == w.births.Keys;
  }

  lemma FetchKeeps(p: Policy, w: World, now: u64)
    requires Sound(p, w) && w.clock <= now
    ensures Sound(p, Next(p, w, Fetch(now)))
  {
    hide Shape, EntrySound;
    var later := w.(clock := now);
    TimePasses(p, w, now, w.store, w.births);
    var e := Fetched(now, Kids(w.store.keys));
    var w' := later.(log := w.log + [e]);
    assert FetchedSound(w', e.at, e.kids);
    forall i | 0 <= i < |w.log| && w.log[i].Signed?
      ensures SignedSound(p, w', w.log[i].at, w.log[i].kid) && Agree(p, w.births, w.log[i], e)
    {
      assert SignedSound(p, later, w.log[i].at, w.log[i].kid);
    }
    forall i | 0 <= i < |w.log| && w.log[i].Fetched? ensures FetchedSound(w', w.log[i].at, w.log[i].kids) {
      assert FetchedSound(later, w.log[i].at, w.log[i].kids);
    }
  }

  lemma SignKeeps(p: Policy, w: World, now: u64)
    requires Sound(p, w) && w.clock <= now
    ensures Sound(p, Next(p, w, Sign(now)))
  {
    hide Shape;
    var later := w.(clock := now);
    TimePasses(p, w, now, w.store, w.births);
    var kid := Signer(w.store);
    if kid.None? {
      assert w.log + [] == w.log;
    } else {
      var active := FirstActive(w.store.keys).value;
      var e := Signed(now, kid.value);
      var w' := later.(log := w.log + [e]);
      assert EntrySound(p, w.births, w.clock, active);
      assert Vouches(active, e.kid, now);
      assert SignedSound(p, w', now, e.kid);
      forall i | 0 <= i < |w.log| && w.log[i].Signed? ensures SignedSound(p, w', w.log[i].at, w.log[i].kid) {
        assert SignedSound(p, later, w.log[i].at, w.log[i].kid);
      }
      forall i | 0 <= i < |w.log| && w.log[i].Fetched?
        ensures FetchedSound(w', w.log[i].at, w.log[i].kids) && Agree(p, w.births, e, w.log[i])
      {
        assert FetchedSound(later, w.log[i].at, w.log[i].kids);
      }
    }
  }

  lemma StepKeeps(p: Policy, w: World, step: Step)
    requires Sound(p, w) && Admissible(w, step)
    ensures Sound(p, Next(p, w, step))
  {
    hide Sound, KeysSound, LogSound, Pass, Maintained, Named;
    match step
    case Fetch(now) => FetchKeeps(p, w, now);
    case Sign(now) => SignKeeps(p, w, now);
    case Maintain(now, algorithm, luck) =>
      assert KeysSound(p, w) && LogSound(p, w) by { SoundParts(p, w); }
      var store := Pass(p, algorithm, w.store, now, luck).0;
      KeptOrWritten(p, w, now, algorithm, luck);
      if store.keys == w.store.keys {
        NoNewNames(p, w, now, luck);
        TimePasses(p, w, now, store, w.births);
      } else {
        PassKeepsKeys(p, w, now, algorithm, luck, store.files);
        PassKeepsLog(p, w, now, algorithm, luck, store.files);
        assert Next(p, w, step) == Written(p, w, now, algorithm, luck, store.files);
        SoundParts(p, Next(p, w, step));
      }
  }

  lemma SoundParts(p: Policy, w: World)
    ensures Sound(p, w) <==> KeysSound(p, w) && LogSound(p, w)
  {
  }

  lemma {:induction false} RunKeeps(p: Policy, w: World, steps: seq<Step>, w': World)
    requires Sound(p, w) && Run(p, w, steps, w')
    ensures Sound(p, w')
    decreases |steps|
  {
    hide Sound, Next, Admissible;
    if steps != [] {
      StepKeeps(p, w, steps[0]);
      RunKeeps(p, Next(p, w, steps[0]), steps[1..], w');
    }
  }

  lemma FreshSound(p: Policy)
    ensures Sound(p, FRESH)
  {
  }

  /** In every run, whatever fails along the way: a key signs only once it was published for the whole
      of `publish_ahead`, unless it was created to sign at once; and its signature verifies against
      every key set fetched between less than `publish_ahead` before it was made (or the key's
      creation) and `verify_retain` after it. Rotation is invisible to a verifier with a cache. */
  lemma RotationInvisible(p: Policy, steps: seq<Step>, w: World, i: nat, j: nat)
    requires Run(p, FRESH, steps, w) && i < |w.log| && j < |w.log| && w.log[i].Signed? && w.log[j].Fetched?
    ensures var (signed, fetched) := (w.log[i], w.log[j]);
      && signed.kid in w.births
      && (w.births[signed.kid].signing || w.births[signed.kid].at + p.publishAhead <= signed.at)
      && ((if w.births[signed.kid].signing then w.births[signed.kid].at < fetched.at
           else signed.at - p.publishAhead < fetched.at) && fetched.at < signed.at + p.VerifyFor()
          ==> signed.kid in fetched.kids)
  {
    hide Run, Shape, EntrySound;
    FreshSound(p);
    RunKeeps(p, FRESH, steps, w);
    assert SignedSound(p, w, w.log[i].at, w.log[i].kid);
    assert Agree(p, w.births, w.log[i], w.log[j]);
  }

  /** In every run exactly one key signs once there is any, and at most one waits. */
  lemma OneKeySigns(p: Policy, steps: seq<Step>, w: World)
    requires Run(p, FRESH, steps, w)
    ensures Shape(w.store.keys)
  {
    hide Run, Shape, EntrySound;
    FreshSound(p);
    RunKeeps(p, FRESH, steps, w);
  }
}
