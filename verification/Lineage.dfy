// What every run of a realm keeps: lineages are fixed at their root, and nothing leaves unrecorded.

module Lineage {
  import opened Basics
  import opened Exchange
  import Expiry
  import Conformance
  import Evidence

  /** A realm in use: its ring, which operators change at will, and everything that happened. */
  datatype World = World(ring: Option<Ring>, log: seq<Event>)

  datatype Step = Initial(request: InitialRequest) | Advance(advance: AdvanceRequest) | ChangeRing(ring: Option<Ring>)

  function After(realm: Realm, w: World, s: Step): World
    requires s.Initial? ==> s.request.now >= 0
  {
    match s
    case Initial(i) => w.(log := w.log + InitialEvents(realm, w.ring, w.log, i))
    case Advance(a) => w.(log := w.log + AdvanceEvents(realm, w.ring, w.log, a))
    case ChangeRing(ring) => w.(ring := ring)
  }

  /** The realm signed `pca` with `key`. */
  ghost predicate HasSigned(log: seq<Event>, key: Key, pca: Pca) {
    exists p :: 0 <= p < |log| && log[p].Signed? && log[p].key == key && log[p].pca == pca
  }

  /** Ideal signatures: whoever built the candidate, its predecessor verifies under a key the realm
      publishes only if the realm signed exactly that predecessor with that key. */
  ghost predicate NoForgery(w: World, c: Candidate) {
    w.ring.Some? && w.ring.value.published.Some? && c.Decoded? ==>
      forall jwk :: jwk in w.ring.value.published.value && jwk.key in c.signers ==>
        HasSigned(w.log, jwk.key, c.predecessor)
  }

  ghost predicate Possible(w: World, s: Step) {
    && (s.Initial? ==> s.request.now >= 0)
    && (s.Advance? ==> NoForgery(w, s.advance.candidate))
  }

  /** The world after each step of a run, as far as the steps are possible. */
  ghost predicate Run(realm: Realm, steps: seq<Step>, worlds: seq<World>) {
    && |worlds| == |steps| + 1 && worlds[0].log == []
    && forall i :: 0 <= i < |steps| ==>
         Possible(worlds[i], steps[i]) && worlds[i + 1] == After(realm, worlds[i], steps[i])
  }

  // --- The invariant ---------------------------------------------------------------------------

  /** A signature starts a lineage, or carries one on from an earlier signature unchanged. */
  ghost predicate SoundSignature(log: seq<Event>, p: nat)
    requires p < |log| && log[p].Signed?
  {
    var c := log[p].pca.payload;
    && c.lineageId.Some? && c.expiresAt.Some?
    && (log[p].parent.None? ==> c.position == 0)
    && (log[p].parent.Some? ==>
          var q := log[p].parent.value;
          && q < p && log[q].Signed?
          && c.position == log[q].pca.payload.position + 1
          && c.lineageId == log[q].pca.payload.lineageId
          && c.expiresAt == log[q].pca.payload.expiresAt)
  }

  /** A token leaves for a signature already made, before its expiry, right after its own record. */
  ghost predicate SoundRelease(log: seq<Event>, p: nat)
    requires p < |log| && log[p].Released?
  {
    var token, q := log[p].token, log[p].signed;
    && q < p && log[q].Signed? && log[q].pca == token.checkpoint
    && token.checkpoint.payload.lineageId == Some(token.jti)
    && token.checkpoint.payload.expiresAt == Some(token.exp)
    && log[p].at < token.exp
    && q + 1 == p - 1
    && log[p - 1].Attempted? && log[p - 1].ok
    && log[p - 1].record == Record(if log[q].parent.None? then "pic.exchange.initialized" else "pic.exchange.advanced",
                                   Some(token.jti), Some(token.checkpoint.payload.position))
  }

  ghost predicate Sound(log: seq<Event>) {
    forall p: nat :: p < |log| ==>
      (log[p].Signed? ==> SoundSignature(log, p)) && (log[p].Released? ==> SoundRelease(log, p))
  }

  lemma SoundKept(log: seq<Event>, more: seq<Event>, p: nat)
    requires Sound(log) && p < |log|
    ensures var longer := log + more;
      (longer[p].Signed? ==> SoundSignature(longer, p)) && (longer[p].Released? ==> SoundRelease(longer, p))
  {
    assert forall i :: 0 <= i < |log| ==> (log + more)[i] == log[i];
  }

  lemma NothingIssuedKeepsSound(log: seq<Event>, more: seq<Event>)
    requires Sound(log) && forall i :: 0 <= i < |more| ==> more[i].Attempted?
    ensures Sound(log + more)
  {
    var longer := log + more;
    forall p: nat | p < |longer|
      ensures (longer[p].Signed? ==> SoundSignature(longer, p)) && (longer[p].Released? ==> SoundRelease(longer, p))
    {
      if p < |log| { SoundKept(log, more, p); }
    }
  }

  /** Issuing keeps the invariant when the new checkpoint continues its parent and is not over. */
  lemma IssueKeepsSound(log: seq<Event>, signer: Jwk, checkpoint: Checkpoint, parent: Option<nat>,
                        action: string, token: Token, at: i64, sinkOk: bool)
    requires Sound(log)
    requires token.checkpoint.payload == checkpoint
    requires checkpoint.lineageId == Some(token.jti) && checkpoint.expiresAt == Some(token.exp)
    requires at < token.exp
    requires parent.None? ==> checkpoint.position == 0 && action == "pic.exchange.initialized"
    requires parent.Some? ==>
      && action == "pic.exchange.advanced" && parent.value < |log| && log[parent.value].Signed?
      && checkpoint.position == log[parent.value].pca.payload.position + 1
      && checkpoint.lineageId == log[parent.value].pca.payload.lineageId
      && checkpoint.expiresAt == log[parent.value].pca.payload.expiresAt
    ensures Sound(log + IssueEvents(log, signer, checkpoint, parent, action, token, at, sinkOk))
  {
    var more := IssueEvents(log, signer, checkpoint, parent, action, token, at, sinkOk);
    var longer := log + more;
    assert longer[|log|] == more[0] && longer[|log| + 1] == more[1];
    assert forall i :: 0 <= i < |log| ==> longer[i] == log[i];
    forall p: nat | p < |longer|
      ensures (longer[p].Signed? ==> SoundSignature(longer, p)) && (longer[p].Released? ==> SoundRelease(longer, p))
    {
      if p < |log| { SoundKept(log, more, p); }
      else { assert longer[p] == more[p - |log|]; }
    }
  }

  /** Under ideal signatures a trusted checkpoint is one the realm signed. */
  lemma TrustedWasSigned(w: World, c: Candidate)
    requires NoForgery(w, c) && w.ring.Some? && c.Decoded?
    requires IsCurrentCheckpoint(w.ring.value, c.predecessor, c.signers)
    ensures FindSigned(w.log, c.signers, c.predecessor) < |w.log|
  {
    var jwk :| jwk in w.ring.value.published.value && jwk.key in c.signers;
    assert HasSigned(w.log, jwk.key, c.predecessor);
  }

  lemma AdvancedFacts(realm: Realm, ring: Option<Ring>, a: AdvanceRequest)
    requires VerdictOf(realm, ring, a).Advanced?
    ensures ring.Some? && a.candidate.Decoded? && Settles(ring.value, a)
    ensures var v := VerdictOf(realm, ring, a);
      && v.checkpoint == Successor(a.candidate, a.authority)
      && a.candidate.predecessor.payload.lineageId == Some(v.lineageId)
      && a.candidate.predecessor.payload.expiresAt == Some(v.expiresAt)
      && a.now < v.expiresAt
      && a.candidate.jti == Some(v.lineageId) && a.candidate.exp == Some(v.expiresAt)
      && a.candidate.nextChallenge != a.candidate.previousChallenge
  {
    hide Evidence.FullValidation, Settles;
  }

  lemma StepKeepsSound(realm: Realm, w: World, s: Step)
    requires Sound(w.log) && Possible(w, s)
    ensures Sound(After(realm, w, s).log)
  {
    hide Sound, IssueEvents, VerdictOf, IsCurrentCheckpoint, Evidence.FullValidation;
    if s.Initial? {
      InitialKeepsSound(realm, w, s.request);
    } else if s.Advance? {
      AdvanceKeepsSound(realm, w, s.advance);
    }
  }

  lemma InitialKeepsSound(realm: Realm, w: World, i: InitialRequest)
    requires Sound(w.log) && i.now >= 0
    ensures Sound(w.log + InitialEvents(realm, w.ring, w.log, i))
  {
    hide Sound, IssueEvents, Expiry.InitialExpiry;
    var verdict := InitialVerdict(realm, w.ring, i);
    if verdict.Err? {
      assert w.log + [] == w.log;
    } else {
      var (signer, checkpoint, expiry) := verdict.value;
      Expiry.AcceptedIsFuture(i.proposal, i.sourceExpiry, i.now, realm.lifetime, realm.policy);
      var token := TokenFor(realm, i.subject, i.now, expiry, i.lineageId, Pca(Some(signer.kid), checkpoint));
      IssueKeepsSound(w.log, signer, checkpoint, None, "pic.exchange.initialized", token, i.now, i.sinkOk);
    }
  }

  lemma AdvanceKeepsSound(realm: Realm, w: World, a: AdvanceRequest)
    requires Sound(w.log) && NoForgery(w, a.candidate)
    ensures Sound(w.log + AdvanceEvents(realm, w.ring, w.log, a))
  {
    hide Sound, IssueEvents, VerdictOf, IsCurrentCheckpoint, Evidence.FullValidation, NoForgery;
    var v := VerdictOf(realm, w.ring, a);
    if v.Unready? {
      assert w.log + [] == w.log;
    } else if v.Rejected? {
      NothingIssuedKeepsSound(w.log, AdvanceEvents(realm, w.ring, w.log, a));
    } else {
      AdvancedFacts(realm, w.ring, a);
      TrustedWasSigned(w, a.candidate);
      var token := TokenFor(realm, None, a.now, v.expiresAt, v.lineageId, Pca(Some(v.signer.kid), v.checkpoint));
      var parent := FindSigned(w.log, a.candidate.signers, a.candidate.predecessor);
      IssueKeepsSound(w.log, v.signer, v.checkpoint, Some(parent), "pic.exchange.advanced", token, a.now, a.sinkOk);
    }
  }

  lemma {:induction false} RunIsSound(realm: Realm, steps: seq<Step>, worlds: seq<World>, n: nat)
    requires Run(realm, steps, worlds) && n < |worlds|
    ensures Sound(worlds[n].log)
  {
    hide After, Possible, Sound;
    if n == 0 {
      EmptyIsSound();
    } else {
      RunIsSound(realm, steps, worlds, n - 1);
      StepKeepsSound(realm, worlds[n - 1], steps[n - 1]);
    }
  }

  lemma EmptyIsSound()
    ensures Sound([])
  {
  }

  // --- Lineages are fixed at their root --------------------------------------------------------

  /** The signature that began a lineage, and how many advances separate a signature from it. */
  ghost function Root(log: seq<Event>, p: nat): (r: nat)
    requires Sound(log) && p < |log| && log[p].Signed?
    ensures r <= p && log[r].Signed? && log[r].parent.None?
  {
    assert SoundSignature(log, p);
    if log[p].parent.None? then p else Root(log, log[p].parent.value)
  }

  ghost function Depth(log: seq<Event>, p: nat): nat
    requires Sound(log) && p < |log| && log[p].Signed?
  {
    assert SoundSignature(log, p);
    if log[p].parent.None? then 0 else Depth(log, log[p].parent.value) + 1
  }

  lemma {:induction false} RootFixes(log: seq<Event>, p: nat)
    requires Sound(log) && p < |log| && log[p].Signed?
    ensures var root, c := log[Root(log, p)].pca.payload, log[p].pca.payload;
      root.position == 0 && root.lineageId.Some? && root.expiresAt.Some?
      && c.lineageId == root.lineageId && c.expiresAt == root.expiresAt && c.position == Depth(log, p)
    decreases p
  {
    assert SoundSignature(log, p);
    if log[p].parent.Some? {
      RootFixes(log, log[p].parent.value);
    } else {
      assert SoundSignature(log, Root(log, p));
    }
  }

  /** In every run — any mix of initial exchanges, advances of arbitrary candidates, siblings from
      one checkpoint, rejections, sink failures and changes of the ring — every released token
      carries the lineage id and the absolute expiry its root was issued with, stands as many
      positions from that root as it took advances, leaves strictly before that expiry, and leaves
      right after a successful record of its lineage and position. */
  lemma EveryReleasedToken(realm: Realm, steps: seq<Step>, worlds: seq<World>, n: nat, p: nat)
    requires Run(realm, steps, worlds) && n < |worlds| && p < |worlds[n].log| && worlds[n].log[p].Released?
    ensures Sound(worlds[n].log)
    ensures var log := worlds[n].log;
      var token, q := log[p].token, log[p].signed;
      && q < p && log[q].Signed? && log[q].pca == token.checkpoint
      && var root := log[Root(log, q)].pca.payload;
         && root.lineageId == Some(token.jti) && root.expiresAt == Some(token.exp)
         && token.checkpoint.payload.position == Depth(log, q)
         && log[p].at < token.exp
         && p >= 1 && log[p - 1].Attempted? && log[p - 1].ok
         && log[p - 1].record.lineage == Some(token.jti) && log[p - 1].record.position == Some(Depth(log, q))
  {
    RunIsSound(realm, steps, worlds, n);
    var log := worlds[n].log;
    assert SoundRelease(log, p);
    RootFixes(log, log[p].signed);
  }

  // --- Roots are what initial exchanges were granted -------------------------------------------

  /** A signature carries the lineage and the expiry an initial request was granted, and was made first. */
  ghost predicate GrantedBy(realm: Realm, i: InitialRequest, e: Event) {
    && i.now >= 0 && e.Signed?
    && var expiry := Expiry.InitialExpiry(i.proposal, i.sourceExpiry, i.now, realm.lifetime, realm.policy);
       && expiry.Ok? && i.now < expiry.value
       && e.pca.payload.expiresAt == Some(expiry.value) && e.pca.payload.lineageId == Some(i.lineageId)
  }

  ghost predicate Granted(realm: Realm, steps: seq<Step>, e: Event) {
    exists k :: 0 <= k < |steps| && steps[k].Initial? && GrantedBy(realm, steps[k].request, e)
  }

  /** The signature a step adds without a parent is the one its initial request was granted. */
  lemma NewRootGranted(realm: Realm, w: World, s: Step, p: nat)
    requires Possible(w, s) && |w.log| <= p < |After(realm, w, s).log|
    requires After(realm, w, s).log[p].Signed? && After(realm, w, s).log[p].parent.None?
    ensures s.Initial? && GrantedBy(realm, s.request, After(realm, w, s).log[p])
  {
    hide VerdictOf, Expiry.InitialExpiry, NoForgery;
    var log := After(realm, w, s).log;
    match s
    case Initial(i) =>
      assert log[p] == InitialEvents(realm, w.ring, w.log, i)[p - |w.log|];
      Expiry.AcceptedIsFuture(i.proposal, i.sourceExpiry, i.now, realm.lifetime, realm.policy);
    case Advance(a) => AdvancesHaveParents(realm, w.ring, w.log, a);
    case ChangeRing(_) =>
  }

  lemma AdvancesHaveParents(realm: Realm, ring: Option<Ring>, log: seq<Event>, a: AdvanceRequest)
    ensures var events := AdvanceEvents(realm, ring, log, a);
      forall i :: |log| <= i < |log| + |events| && (log + events)[i].Signed? ==> (log + events)[i].parent.Some?
  {
    hide VerdictOf;
    var events := AdvanceEvents(realm, ring, log, a);
    forall i | |log| <= i < |log| + |events| && (log + events)[i].Signed? ensures (log + events)[i].parent.Some? {
      assert (log + events)[i] == events[i - |log|];
    }
  }

  /** In every run, a signature with no parent carries the expiry some initial request of the run was
      granted, and its lineage id. */
  lemma {:induction false} RootGranted(realm: Realm, steps: seq<Step>, worlds: seq<World>, n: nat, p: nat)
    requires Run(realm, steps, worlds) && n < |worlds| && p < |worlds[n].log|
    requires worlds[n].log[p].Signed? && worlds[n].log[p].parent.None?
    ensures Granted(realm, steps, worlds[n].log[p])
  {
    hide After, Possible, GrantedBy;
    if n > 0 {
      var w := worlds[n - 1];
      if p < |w.log| {
        LogGrows(realm, w, steps[n - 1]);
        RootGranted(realm, steps, worlds, n - 1, p);
      } else {
        NewRootGranted(realm, w, steps[n - 1], p);
      }
    }
  }

  lemma LogGrows(realm: Realm, w: World, s: Step)
    requires Possible(w, s)
    ensures w.log <= After(realm, w, s).log
  {
    hide InitialEvents, AdvanceEvents, NoForgery;
  }

  /** In every run, the lifetime of every released token was decided once: by the initial exchange that
      drew its lineage id, whose grant no advance can extend. */
  lemma EveryTokenWasGranted(realm: Realm, steps: seq<Step>, worlds: seq<World>, n: nat, p: nat)
    requires Run(realm, steps, worlds) && n < |worlds| && p < |worlds[n].log| && worlds[n].log[p].Released?
    ensures exists k ::
      && 0 <= k < |steps| && steps[k].Initial? && steps[k].request.now >= 0
      && Expiry.InitialExpiry(steps[k].request.proposal, steps[k].request.sourceExpiry, steps[k].request.now,
                              realm.lifetime, realm.policy) == Ok(worlds[n].log[p].token.exp)
      && steps[k].request.lineageId == worlds[n].log[p].token.jti
  {
    hide Expiry.InitialExpiry, Sound, Run;
    EveryReleasedToken(realm, steps, worlds, n, p);
    var log := worlds[n].log;
    var root := Root(log, log[p].signed);
    RootGranted(realm, steps, worlds, n, root);
    var k :| 0 <= k < |steps| && steps[k].Initial? && GrantedBy(realm, steps[k].request, log[root]);
  }

  // --- One attempt per advance -----------------------------------------------------------------

  function Attempts(events: seq<Event>): nat {
    if events == [] then 0 else (if events[0].Attempted? then 1 else 0) + Attempts(events[1..])
  }

  ghost predicate Releases(events: seq<Event>) {
    exists i :: 0 <= i < |events| && events[i].Released?
  }

  function ActionOf(v: Verdict): string { if v.Advanced? then "pic.exchange.advanced" else "pic.exchange.rejected" }

  /** An advance whose signer exists makes exactly one audit attempt: `advanced` when it settled,
      `rejected` otherwise; and a token leaves exactly when it settled and that attempt succeeded. */
  lemma OneAttemptPerAdvance(realm: Realm, ring: Option<Ring>, log: seq<Event>, a: AdvanceRequest)
    ensures var events, verdict := AdvanceEvents(realm, ring, log, a), VerdictOf(realm, ring, a);
      && (SignerFor(realm, ring).Err? ==> events == [])
      && (SignerFor(realm, ring).Ok? ==>
           && Attempts(events) == 1
           && (exists i :: 0 <= i < |events| && events[i].Attempted? && events[i].ok == a.sinkOk
                 && events[i].record.action == ActionOf(verdict)))
      && (Releases(events) <==> verdict.Advanced? && a.sinkOk)
  {
    hide Preflight, Settles, FindSigned;
    var events, verdict := AdvanceEvents(realm, ring, log, a), VerdictOf(realm, ring, a);
    if verdict.Rejected? {
      assert events[0].Attempted? && events[1..] == [];
    } else if verdict.Advanced? {
      assert events[1].Attempted?;
      AttemptsOfIssue(events);
      if a.sinkOk { assert events[2].Released?; }
    }
  }

  /** What the record of a rejection says: nothing of a candidate that did not get as far as settlement,
      and otherwise the lineage of its predecessor and the position it proposed. */
  lemma RejectedSays(realm: Realm, ring: Option<Ring>, log: seq<Event>, a: AdvanceRequest)
    requires SignerFor(realm, ring).Ok? && !VerdictOf(realm, ring, a).Advanced?
    ensures AdvanceEvents(realm, ring, log, a) == [Attempted(
      if WellPresented(a)
      then Record("pic.exchange.rejected", a.candidate.predecessor.payload.lineageId, Some(a.candidate.position))
      else Record("pic.exchange.rejected", None, None), a.sinkOk)]
  {
    hide Preflight, Settles, WellPresented, Settleable, FindSigned;
    VerdictExactly(realm, ring, a);
  }

  lemma AttemptsOfIssue(events: seq<Event>)
    requires 2 <= |events| <= 3 && events[0].Signed? && events[1].Attempted? && (|events| == 3 ==> events[2].Released?)
    ensures Attempts(events) == 1
  {
    var tail := events[1..];
    var last := tail[1..];
    assert tail[0] == events[1];
    if |events| == 3 {
      assert last[0] == events[2] && last[1..] == [];
    } else {
      assert last == [];
    }
    assert Attempts(last) == 0;
    assert Attempts(tail) == 1;
  }

  /** An initial exchange attempts a record exactly when it issued, and releases exactly when that
      record was written. */
  lemma InitialRecordsWhatItIssues(realm: Realm, ring: Option<Ring>, log: seq<Event>, i: InitialRequest)
    requires i.now >= 0
    ensures var events, issued := InitialEvents(realm, ring, log, i), InitialVerdict(realm, ring, i).Ok?;
      Attempts(events) == (if issued then 1 else 0) && (Releases(events) <==> issued && i.sinkOk)
  {
    hide InitialVerdict;
    var events := InitialEvents(realm, ring, log, i);
    if InitialVerdict(realm, ring, i).Ok? {
      AttemptsOfIssue(events);
      if i.sinkOk { assert events[2].Released?; }
    }
  }

  // --- What an advance depends on --------------------------------------------------------------

  /** A settled advance satisfied every entry of the predecessor's execution contract with the claims
      its own evidence disclosed, moved the challenge, and was made before the lineage expired from a
      checkpoint signed by the realm with a key it still publishes. */
  lemma SettledAdvance(realm: Realm, w: World, a: AdvanceRequest)
    requires NoForgery(w, a.candidate) && VerdictOf(realm, w.ring, a).Advanced?
    ensures a.candidate.Decoded? && Evidence.FullValidation(a.setting, a.candidate.evidence).Ok?
    ensures var claims := Evidence.FullValidation(a.setting, a.candidate.evidence).value.profile.claims;
      var contract := a.candidate.predecessor.payload.authority.contract;
      forall i :: 0 <= i < |contract| ==> Conformance.Meets(claims, contract[i])
    ensures a.candidate.nextChallenge != a.candidate.previousChallenge
    ensures w.ring.Some? && w.ring.value.published.Some?
    ensures exists jwk :: jwk in w.ring.value.published.value && HasSigned(w.log, jwk.key, a.candidate.predecessor)
    ensures a.candidate.predecessor.payload.expiresAt.Some? && a.now < a.candidate.predecessor.payload.expiresAt.value
  {
    hide VerdictOf, Evidence.FullValidation, Conformance.Meets;
    AdvancedFacts(realm, w.ring, a);
    var claims := Evidence.FullValidation(a.setting, a.candidate.evidence).value.profile.claims;
    Conformance.CheckExactly(claims, a.candidate.predecessor.payload.authority.contract);
    var jwk :| jwk in w.ring.value.published.value && jwk.key in a.candidate.signers;
    assert HasSigned(w.log, jwk.key, a.candidate.predecessor);
  }

  /** Withdrawing every key that signed a checkpoint ends it: no candidate built on it is advanced. */
  lemma WithdrawnCheckpointNotAdvanced(realm: Realm, w: World, a: AdvanceRequest)
    requires NoForgery(w, a.candidate) && a.candidate.Decoded?
    requires w.ring.Some? && w.ring.value.published.Some? ==>
      forall jwk :: jwk in w.ring.value.published.value ==> !HasSigned(w.log, jwk.key, a.candidate.predecessor)
    ensures !VerdictOf(realm, w.ring, a).Advanced?
  {
    hide VerdictOf, Evidence.FullValidation;
    if VerdictOf(realm, w.ring, a).Advanced? {
      SettledAdvance(realm, w, a);
    }
  }

  /** Two siblings of one checkpoint: whatever each carries, both stay in the lineage they came from. */
  lemma SiblingsShareTheirLineage(log: seq<Event>, p: nat, p': nat)
    requires Sound(log) && p < |log| && p' < |log| && log[p].Signed? && log[p'].Signed?
    requires log[p].parent.Some? && log[p].parent == log[p'].parent
    ensures Root(log, p) == Root(log, p') && Depth(log, p) == Depth(log, p')
    ensures log[p].pca.payload.lineageId == log[p'].pca.payload.lineageId
    ensures log[p].pca.payload.expiresAt == log[p'].pca.payload.expiresAt
  {
    assert SoundSignature(log, p) && SoundSignature(log, p');
  }
}
