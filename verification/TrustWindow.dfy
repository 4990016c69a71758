// How long a checkpoint stays trusted while the ring that signed it rotates.

module TrustWindow {
  import opened Basics
  import Exchange
  import opened KeyRing
  import opened KeyRotation
  import KeyTurns
  import KeyHalves

  /** The key ring as the token endpoint sees it: every key on it published under its own name. */
  function Published(s: Store, material: string -> Exchange.Key): Exchange.Ring {
    var jwks := seq(|s.keys|, i requires 0 <= i < |s.keys| => Exchange.Jwk(s.keys[i].kid, material(s.keys[i].kid)));
    var signer := Signer(s);
    Exchange.Ring(Some(jwks), if signer.Some? then Some(Exchange.Jwk(signer.value, material(signer.value))) else None)
  }

  /** A checkpoint one key signed, and whose header names that key, is this realm's exactly while the
      key is on the ring. */
  lemma TrustedExactly(s: Store, material: string -> Exchange.Key, pca: Exchange.Pca, kid: string)
    requires pca.kid == Some(kid)
    ensures Exchange.IsCurrentCheckpoint(Published(s, material), pca, {material(kid)}) <==> kid in Kids(s.keys)
  {
    var ring := Published(s, material);
    if kid in Kids(s.keys) {
      var e :| e in s.keys && e.kid == kid;
      var i :| 0 <= i < |s.keys| && s.keys[i] == e;
      assert ring.published.value[i] == Exchange.Jwk(kid, material(kid));
    }
  }

  /** In every run, a key that signed is on the ring for the whole of its verification retention. */
  lemma StaysOnTheRing(p: Policy, steps: seq<Step>, w: World, i: nat)
    requires Run(p, FRESH, steps, w) && i < |w.log| && w.log[i].Signed? && w.clock < w.log[i].at + p.VerifyFor()
    ensures w.log[i].kid in Kids(w.store.keys)
  {
    hide Run, Shape, EntrySound;
    FreshSound(p);
    RunKeeps(p, FRESH, steps, w);
    assert SignedSound(p, w, w.log[i].at, w.log[i].kid);
  }

  /** In every run, what the ring signed is trusted by the token endpoint for that whole time. */
  lemma TrustedInTheWindow(p: Policy, steps: seq<Step>, w: World, i: nat, material: string -> Exchange.Key,
                           pca: Exchange.Pca)
    requires Run(p, FRESH, steps, w) && i < |w.log| && w.log[i].Signed? && w.clock < w.log[i].at + p.VerifyFor()
    requires pca.kid == Some(w.log[i].kid)
    ensures Exchange.IsCurrentCheckpoint(Published(w.store, material), pca, {material(w.log[i].kid)})
  {
    hide Run, Exchange.IsCurrentCheckpoint, Published;
    StaysOnTheRing(p, steps, w, i);
    TrustedExactly(w.store, material, pca, w.log[i].kid);
  }

  /** However the ring is maintained, what it signed at `at` is trusted at every time before `expiry`. */
  ghost predicate NeverCutShort(p: Policy, at: u64, expiry: int) {
    forall steps, w, i :: Run(p, FRESH, steps, w) && SignedAt(w, i, at) && w.clock < expiry ==>
      w.log[i].kid in Kids(w.store.keys)
  }

  ghost predicate SignedAt(w: World, i: int, at: u64) {
    0 <= i < |w.log| && w.log[i].Signed? && w.log[i].at == at
  }

  /** Rotation never cuts a lineage short exactly when its expiry is no later than the verification
      retention of the ring after the signature. */
  lemma TrustExactly(p: Policy, at: u64, expiry: int)
    requires p.retain > 0 && at < expiry <= I64_MAX
    ensures NeverCutShort(p, at, expiry) <==> expiry <= at + p.VerifyFor()
  {
    hide Run;
    if expiry <= at + p.VerifyFor() {
      forall steps, w, i | Run(p, FRESH, steps, w) && SignedAt(w, i, at) && w.clock < expiry
        ensures w.log[i].kid in Kids(w.store.keys)
      {
        StaysOnTheRing(p, steps, w, i);
      }
    } else {
      var steps, w := Forgotten(p, at);
      assert SignedAt(w, 0, at);
    }
  }

  // --- A run that forgets as soon as it may ----------------------------------------------------

  function Lucky(first: string, successor: string): Luck { Luck(first, Created, successor, Created, {}, true) }

  lemma {:induction false} NothingStuck(files: set<string>, kids: seq<string>)
    ensures Removed(files, kids, {}).1
  {
    if kids != [] {
      NothingStuck(files - {kids[0]}, kids[1..]);
    }
  }

  lemma LuckyPasses(p: Policy, algorithm: Algorithm, s: Store, now: u64, first: string, successor: string)
    ensures Pass(p, algorithm, s, now, Lucky(first, successor)).1.Ok?
  {
    hide Maintained, Grown, Removed, Meeting, NeedsKey, NeedsSuccessor, Signing;
    var luck := Lucky(first, successor);
    var grown := Grown(p, algorithm, s.keys, now, luck).0;
    forall files ensures Removed(files, Meeting(p, grown, now, Archive) + Meeting(p, grown, now, Forget), {}).1 {
      NothingStuck(files, Meeting(p, grown, now, Archive) + Meeting(p, grown, now, Forget));
    }
  }

  /** One more pass, at which nothing fails. */
  lemma OneMore(p: Policy, steps: seq<Step>, w: World, now: u64, algorithm: Algorithm, first: string, successor: string)
    returns (steps': seq<Step>, w': World)
    requires Run(p, FRESH, steps, w) && p.retain > 0 && w.clock <= now < U64 - 1
    requires first != successor && first !in w.births && successor !in w.births
    ensures Run(p, FRESH, steps', w') && w'.clock == now && w'.log == w.log
    ensures Sound(p, w) && Fresh(Lucky(first, successor), w.store.keys)
    ensures w'.store.keys == Maintained(p, algorithm, w.store.keys, now, Lucky(first, successor)).0
    ensures KeyHalves.Halves(w'.store) && w'.births.Keys <= w.births.Keys + {first, successor}
  {
    hide Sound, Pass, Maintained, Fresh;
    var luck := Lucky(first, successor);
    var step := Maintain(now, algorithm, luck);
    steps', w' := steps + [step], Next(p, w, step);
    RunPush(p, FRESH, steps, w, step);
    FreshSound(p);
    assert KeyHalves.Halves(FRESH.store) by { KeyHalves.NoHalves(); }
    KeyHalves.RunKeepsHalves(p, FRESH, steps, w);
    KeyHalves.RunKeepsHalves(p, FRESH, steps', w');
    LuckyPasses(p, algorithm, w.store, now, first, successor);
    KeyTurns.NothingToWrite(p, algorithm, w.store, now, luck);
    assert KeysSound(p, w) by { SoundParts(p, w); }
    FreshNames(p, w, luck);
    forall k | k in Kids(w'.store.keys) ensures k in w.births || k == first || k == successor {
      var e' :| e' in w'.store.keys && e'.kid == k;
      var e := Descends(p, algorithm, w.store.keys, now, luck, e');
      SameKid(p, e, e', now);
      RootsAre(p, algorithm, w.store.keys, now, luck, e);
      if e in w.store.keys { KnownKid(p, w, e); }
    }
  }

  lemma {:induction false} RunPush(p: Policy, w: World, steps: seq<Step>, w': World, step: Step)
    requires Run(p, w, steps, w') && Admissible(w', step)
    ensures Run(p, w, steps + [step], Next(p, w', step))
    decreases |steps|
  {
    hide Next, Admissible;
    var longer := steps + [step];
    if steps == [] {
      assert longer[1..] == [];
      assert Run(p, Next(p, w, step), [], Next(p, w', step));
    } else {
      assert longer[0] == steps[0] && longer[1..] == steps[1..] + [step];
      RunPush(p, Next(p, w, steps[0]), steps[1..], w', step);
    }
  }

  /** Every key of that name has stopped, at that time. */
  ghost predicate RetiredAt(keys: seq<Entry>, kid: string, at: u64) {
    forall e :: e in keys && e.kid == kid ==> Stopped(e) && e.retiredAt == Some(at)
  }

  lemma StaysRetired(p: Policy, algorithm: Algorithm, keys: seq<Entry>, now: u64, luck: Luck, kid: string, at: u64)
    requires RetiredAt(keys, kid, at) && kid != luck.first && kid != luck.successor
    ensures RetiredAt(Maintained(p, algorithm, keys, now, luck).0, kid, at)
  {
    hide Maintained, Roots;
    var keys' := Maintained(p, algorithm, keys, now, luck).0;
    forall e' | e' in keys' && e'.kid == kid ensures Stopped(e') && e'.retiredAt == Some(at) {
      var e := Descends(p, algorithm, keys, now, luck, e');
      RootsAre(p, algorithm, keys, now, luck, e);
    }
  }

  /** A new kind of key retires the one that signs. */
  lemma KindRetires(p: Policy, keys: seq<Entry>, at: u64, luck: Luck, a: Entry)
    requires Shape(keys) && Fresh(luck, keys) && FirstActive(keys) == Some(a) && a.algorithm == EdDSA
    ensures RetiredAt(Maintained(p, Es256, keys, at, luck).0, a.kid, at)
  {
    hide Maintained, Count, Roots;
    var keys' := Maintained(p, Es256, keys, at, luck).0;
    var b := KeyTurns.TurnAfter(p, Es256, keys, at, luck);
    AnotherTurn(p, keys, at, luck, a, b);
    forall e' | e' in keys' && e'.kid == a.kid ensures Stopped(e') && e'.retiredAt == Some(at) {
      KeyTurns.Replaced(p, Es256, keys, at, luck, a, b, e');
      var e := Descends(p, Es256, keys, at, luck, e');
      RootsAre(p, Es256, keys, at, luck, e);
      assert e in keys ==> e == a by { if e in keys { SameKid(p, e, e', at); KeyTurns.SameKey(keys, e, a); } }
    }
  }

  lemma AnotherTurn(p: Policy, keys: seq<Entry>, at: u64, luck: Luck, a: Entry, b: Entry)
    requires Shape(keys) && Fresh(luck, keys) && FirstActive(keys) == Some(a) && a.algorithm == EdDSA
    requires KeyTurns.TurnOf(p, Es256, keys, at, luck.first, b)
    ensures b.kid != a.kid
  {
    hide Count, NeedsKey, FirstActive;
    if e :| e in keys && Due(p, e, at) && b == KeyTurns.Signs(e, at) {
      if e.kid == a.kid { KeyTurns.SameKey(keys, e, a); }
    } else if b in keys && b.state.Active? {
      KeyTurns.OnlyOne(keys, Active, a, b);
    }
  }

  /** The first key of a new ring signs at once. */
  lemma FirstKey(p: Policy, at: u64) returns (steps: seq<Step>, w: World)
    requires p.retain > 0 && at < U64 - 1
    ensures Run(p, FRESH, steps, w) && w.clock == at && w.log == [] && w.births.Keys <= {"a", "b"}
    ensures FirstActive(w.store.keys) == Some(NewKey("a", EdDSA, at, true)) && KeyHalves.Halves(w.store)
  {
    hide Run, Sound, Maintained, KeyHalves.Halves, Shape, FirstActive, KeyTurns.TurnOf;
    NoSteps(p);
    steps, w := OneMore(p, [], FRESH, at, EdDSA, "a", "b");
    NoShape();
    var a := KeyTurns.TurnAfter(p, EdDSA, [], at, Lucky("a", "b"));
    FirstTurn(p, at, a);
  }

  lemma FirstSigns(p: Policy, at: u64) returns (steps: seq<Step>, w: World)
    requires p.retain > 0 && at < U64 - 1
    ensures Run(p, FRESH, steps, w) && w.clock == at && w.log == [Signed(at, "a")] && w.births.Keys <= {"a", "b"}
    ensures FirstActive(w.store.keys) == Some(NewKey("a", EdDSA, at, true))
  {
    hide Run, Next, KeyHalves.Halves, FirstActive;
    var steps1, w1 := FirstKey(p, at);
    ItsHalf(w1.store, NewKey("a", EdDSA, at, true));
    RunPush(p, FRESH, steps1, w1, Sign(at));
    SignNext(p, w1, at, "a");
    steps, w := steps1 + [Sign(at)], Next(p, w1, Sign(at));
  }

  lemma SignNext(p: Policy, w: World, now: u64, kid: string)
    requires Signer(w.store) == Some(kid)
    ensures Next(p, w, Sign(now)) == w.(clock := now, log := w.log + [Signed(now, kid)])
  {
  }

  lemma NoSteps(p: Policy)
    ensures Run(p, FRESH, [], FRESH)
  {
  }

  lemma NoShape()
    ensures Shape([])
  {
  }

  lemma FirstTurn(p: Policy, at: u64, a: Entry)
    requires KeyTurns.TurnOf(p, EdDSA, [], at, "a", a)
    ensures a == NewKey("a", EdDSA, at, true)
  {
  }

  lemma ItsHalf(s: Store, a: Entry)
    requires FirstActive(s.keys) == Some(a) && KeyHalves.Halves(s)
    ensures Signer(s) == Some(a.kid)
  {
  }

  /** A run that signs at `at` and has forgotten the key when its verification retention is over. */
  lemma Forgotten(p: Policy, at: u64) returns (steps: seq<Step>, w: World)
    requires p.retain > 0 && at + p.VerifyFor() < U64 - 1
    ensures Run(p, FRESH, steps, w) && w.clock == at + p.VerifyFor() && w.log == [Signed(at, "a")]
    ensures "a" !in Kids(w.store.keys)
  {
    hide Run, Sound, Maintained, Fresh, KeyHalves.Halves, Shape;
    var a := NewKey("a", EdDSA, at, true);
    var later: u64 := at + p.VerifyFor();
    var steps1, w1 := FirstSigns(p, at);
    var steps2, w2 := OneMore(p, steps1, w1, at, Es256, "c", "d");
    assert Shape(w1.store.keys) by { OneKeySigns(p, steps1, w1); }
    KindRetires(p, w1.store.keys, at, Lucky("c", "d"), a);
    var steps3, w3 := OneMore(p, steps2, w2, later, Es256, "e", "f");
    StaysRetired(p, Es256, w2.store.keys, later, Lucky("e", "f"), "a", at);
    steps, w := OneMore(p, steps3, w3, later, Es256, "g", "h");
    StaysRetired(p, Es256, w3.store.keys, later, Lucky("g", "h"), "a", at);
    forall e | e in w.store.keys ensures e.kid != "a" {
      if e.kid == "a" {
        KeyTurns.ForgottenInTime(p, Es256, Es256, w2.store.keys, later, Lucky("e", "f"), later, Lucky("g", "h"), e);
      }
    }
  }

  /** A lineage requested for a year on a ring that vouches for less can be cut short. */
  lemma RequestedYearCutShort(p: Policy, now: u64)
    requires p.retain > 0 && p.VerifyFor() < 31_536_000 && now + 31_536_000 <= I64_MAX
    ensures !NeverCutShort(p, now, now + 31_536_000)
  {
    hide NeverCutShort;
    TrustExactly(p, now, now + 31_536_000);
  }
}
