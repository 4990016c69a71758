// The realm's token endpoint as a state machine over its ring and its log. Signatures are ideal: a
// signature by a ring key exists only over what the realm itself signed with that key.

module Exchange {
  import opened Basics
  import Expiry
  import Conformance
  import Evidence

  /** Key material; a `kid` names it. */
  type Key = nat
  datatype Jwk = Jwk(kid: string, key: Key)

  /** The realm's token-signing ring: what it publishes (nothing when unreadable) and what signs. */
  datatype Ring = Ring(published: Option<seq<Jwk>>, active: Option<Jwk>)

  datatype Authority = Authority(content: Json, contract: Conformance.Contract)

  datatype Checkpoint = Checkpoint(position: nat, authority: Authority, challenge: seq<byte>,
                                   lineageId: Option<string>, expiresAt: Option<i64>)

  /** A signed checkpoint: protected header and payload. */
  datatype Pca = Pca(kid: Option<string>, payload: Checkpoint)

  datatype Token = Token(iss: string, sub: Option<string>, iat: i64, exp: i64, jti: string, checkpoint: Pca)

  datatype Record = Record(action: string, lineage: Option<string>, position: Option<nat>)

  /** Everything that happened, in order. `parent` and `signed` point back into the log. */
  datatype Event =
    | Signed(key: Key, pca: Pca, parent: Option<nat>)
    | Attempted(record: Record, ok: bool)
    | Released(token: Token, at: i64, signed: nat)

  datatype Error = TemporarilyUnavailable | ServerError | InvalidRequest | InvalidGrant

  datatype Realm = Realm(issuer: Option<string>, mountPath: string, signingAlgorithm: string,
                         lifetime: u64, policy: Expiry.Policy)

  function IssuerOf(realm: Realm): string {
    if realm.issuer.Some? then realm.issuer.value else realm.mountPath
  }

  /** The signer exists when the algorithm is one this build produces and a key is active. */
  function SignerFor(realm: Realm, ring: Option<Ring>): Result<Jwk, Error> {
    if ring.None? then Err(TemporarilyUnavailable)
    else if realm.signingAlgorithm != "EdDSA" && realm.signingAlgorithm != "ES256" then Err(ServerError)
    else if ring.value.active.None? then Err(TemporarilyUnavailable)
    else Ok(ring.value.active.value)
  }

  // --- Requests --------------------------------------------------------------------------------

  /** An initial exchange: what validating and mapping the access token gave, the proposal, and the
      fresh random values drawn for it. `signs` is whether issuing the artifacts succeeds. */
  datatype InitialRequest = InitialRequest(
    derived: Result<Authority, Error>, proposal: Expiry.Proposal, sourceExpiry: Option<i64>, subject: Option<string>,
    lineageId: string, challenge: seq<byte>, now: i64, signs: bool, sinkOk: bool)

  datatype Algorithms = Algorithms(jose: string, cose: Option<string>)

  /** A candidate as it decodes. `signers` are the keys its predecessor's signature verifies under. */
  datatype Candidate =
    | Undecodable
    | Decoded(alg: string, jti: Option<string>, exp: Option<i64>,
              continuityAlg: Option<string>, continuityKid: Option<string>,
              transitionAlg: Option<string>, transitionKid: Option<string>,
              porType: string, evidence: seq<byte>,
              previousChallenge: seq<byte>, nextChallenge: seq<byte>, position: nat,
              predecessor: Pca, signers: set<Key>)

  /** An advancement: the candidate, the realm's evidence setting, the algorithms a key allows, what
      the protocol crate's own checks and signing decide, and the authority it settles on. */
  datatype AdvanceRequest = AdvanceRequest(
    candidate: Candidate, setting: Evidence.Setting, algorithms: Json -> Option<Algorithms>,
    protocolOk: bool, authority: Authority, now: i64, sinkOk: bool)

  // --- Preflight -------------------------------------------------------------------------------

  datatype Metadata = Metadata(lineageId: Option<string>, expiresAt: i64, proposedPosition: nat)

  function BoundJwk(claims: map<string, Json>): Option<Json> {
    if "cnf" in claims then claims["cnf"].Get("jwk") else None
  }

  /** The checks that bind a candidate to its evidence key and to its predecessor checkpoint. */
  function Bound(c: Candidate, profile: Evidence.Profile, algorithms: Json -> Option<Algorithms>)
    : Result<Metadata, Error>
    requires c.Decoded?
  {
    var jwk := BoundJwk(profile.claims);
    if jwk.None? || algorithms(jwk.value).None? then Err(InvalidGrant)
    else
      var expected := algorithms(jwk.value).value;
      if c.alg != expected.jose || expected.cose.None? then Err(InvalidGrant)
      else if c.continuityAlg != expected.cose || c.transitionAlg != expected.cose then Err(InvalidGrant)
      else if c.continuityKid.None? || c.continuityKid != c.transitionKid then Err(InvalidGrant)
      else if c.nextChallenge == c.previousChallenge then Err(InvalidGrant)
      else
        var pca := c.predecessor.payload;
        if pca.lineageId.Some? && c.jti != pca.lineageId then Err(InvalidGrant)
        else if pca.expiresAt.None? || c.exp != pca.expiresAt then Err(InvalidGrant)
        else Ok(Metadata(pca.lineageId, pca.expiresAt.value, c.position))
  }

  function Preflight(a: AdvanceRequest): Result<Metadata, Error> {
    if a.candidate.Undecodable? then Err(InvalidGrant)
    else if a.candidate.porType != "sd-jwt" then Err(InvalidGrant)
    else
      var full := Evidence.FullValidation(a.setting, a.candidate.evidence);
      if full.Err? then Err(InvalidGrant) else Bound(a.candidate, full.value.profile, a.algorithms)
  }

  // --- Settlement ------------------------------------------------------------------------------

  /** A checkpoint is this realm's when a key it still publishes, and that the header does not rule
      out, verifies it. */
  predicate IsCurrentCheckpoint(ring: Ring, pca: Pca, signers: set<Key>) {
    && ring.published.Some?
    && exists jwk :: jwk in ring.published.value && (pca.kid.None? || pca.kid.value == jwk.kid) && jwk.key in signers
  }

  /** The settled checkpoint: one position on, same lineage, same absolute expiry. */
  function Successor(c: Candidate, authority: Authority): Checkpoint
    requires c.Decoded?
  {
    var pca := c.predecessor.payload;
    Checkpoint(pca.position + 1, authority, c.nextChallenge, pca.lineageId, pca.expiresAt)
  }

  /** The hooks settlement consults: checkpoint trust, evidence, contract conformance; the rest is
      the protocol crate's own. Revocation is not configured and refuses nothing. */
  predicate Settles(ring: Ring, a: AdvanceRequest)
    requires a.candidate.Decoded?
  {
    var full := Evidence.FullValidation(a.setting, a.candidate.evidence);
    && IsCurrentCheckpoint(ring, a.candidate.predecessor, a.candidate.signers)
    && full.Ok?
    && Conformance.Reason(Some(full.value.profile.claims), a.candidate.predecessor.payload.authority.contract).None?
    && a.protocolOk
  }

  /** What an advancement comes to, before anything is recorded. */
  datatype Verdict =
    | Unready(error: Error)
    | Rejected(error: Error, lineage: Option<string>, position: Option<nat>)
    | Advanced(signer: Jwk, checkpoint: Checkpoint, lineageId: string, expiresAt: i64)

  function VerdictOf(realm: Realm, ring: Option<Ring>, a: AdvanceRequest): Verdict {
    var signer := SignerFor(realm, ring);
    if signer.Err? then Unready(signer.error)
    else
      var metadata := Preflight(a);
      if metadata.Err? then Rejected(metadata.error, None, None)
      else
        var Metadata(lineage, expiresAt, position) := metadata.value;
        if lineage.None? then Rejected(InvalidGrant, None, Some(position))
        else if expiresAt <= a.now || !Settles(ring.value, a) then Rejected(InvalidGrant, lineage, Some(position))
        else Advanced(signer.value, Successor(a.candidate, a.authority), lineage.value, expiresAt)
  }

  /** The error of an advancement that released nothing: a record that was not written hides any other. */
  function AdvanceError(v: Verdict, sinkOk: bool): Error {
    match v
    case Unready(error) => error
    case Rejected(error, _, _) => if sinkOk then error else ServerError
    case Advanced(_, _, _, _) => ServerError
  }

  /** Index of a signature in the log, or the length when it is not there. */
  function FindSigned(log: seq<Event>, keys: set<Key>, pca: Pca): (k: nat)
    ensures k <= |log|
    ensures k < |log| ==> log[k].Signed? && log[k].key in keys && log[k].pca == pca
    ensures k == |log| ==> forall i :: 0 <= i < |log| ==> !(log[i].Signed? && log[i].key in keys && log[i].pca == pca)
  {
    if log == [] then 0
    else if log[0].Signed? && log[0].key in keys && log[0].pca == pca then 0
    else
      var k := FindSigned(log[1..], keys, pca);
      assert forall i :: 0 < i < |log| ==> log[i] == log[1..][i - 1];
      k + 1
  }

  function TokenFor(realm: Realm, sub: Option<string>, now: i64, exp: i64, jti: string, pca: Pca): Token {
    Token(IssuerOf(realm), sub, now, exp, jti, pca)
  }

  /** Issue, record, release: the token leaves only when the record was written. */
  function IssueEvents(log: seq<Event>, signer: Jwk, checkpoint: Checkpoint, parent: Option<nat>,
                       action: string, token: Token, at: i64, sinkOk: bool): seq<Event> {
    [Signed(signer.key, token.checkpoint, parent),
     Attempted(Record(action, Some(token.jti), Some(checkpoint.position)), sinkOk)]
    + if sinkOk then [Released(token, at, |log|)] else []
  }

  function AdvanceEvents(realm: Realm, ring: Option<Ring>, log: seq<Event>, a: AdvanceRequest): seq<Event> {
    match VerdictOf(realm, ring, a)
    case Unready(_) => []
    case Rejected(_, lineage, position) => [Attempted(Record("pic.exchange.rejected", lineage, position), a.sinkOk)]
    case Advanced(signer, checkpoint, lineageId, expiresAt) =>
      var pca := Pca(Some(signer.kid), checkpoint);
      var parent := FindSigned(log, a.candidate.signers, a.candidate.predecessor);
      IssueEvents(log, signer, checkpoint, Some(parent), "pic.exchange.advanced",
                  TokenFor(realm, None, a.now, expiresAt, lineageId, pca), a.now, a.sinkOk)
  }

  function ExpiryError(refusal: Expiry.Refusal): Error {
    if refusal.NotInFuture? then InvalidGrant else InvalidRequest
  }

  function InitialVerdict(realm: Realm, ring: Option<Ring>, i: InitialRequest): Result<(Jwk, Checkpoint, i64), Error>
    requires i.now >= 0
  {
    if i.derived.Err? then Err(i.derived.error)
    else
      var expiry := Expiry.InitialExpiry(i.proposal, i.sourceExpiry, i.now, realm.lifetime, realm.policy);
      if expiry.Err? then Err(ExpiryError(expiry.error))
      else
        var signer := SignerFor(realm, ring);
        if signer.Err? then Err(signer.error)
        else if !i.signs then Err(ServerError)
        else
          var checkpoint := Checkpoint(0, i.derived.value, i.challenge, Some(i.lineageId), Some(expiry.value));
          Ok((signer.value, checkpoint, expiry.value))
  }

  function InitialEvents(realm: Realm, ring: Option<Ring>, log: seq<Event>, i: InitialRequest): seq<Event>
    requires i.now >= 0
  {
    var verdict := InitialVerdict(realm, ring, i);
    if verdict.Err? then []
    else
      var (signer, checkpoint, expiry) := verdict.value;
      var token := TokenFor(realm, i.subject, i.now, expiry, i.lineageId, Pca(Some(signer.kid), checkpoint));
      IssueEvents(log, signer, checkpoint, None, "pic.exchange.initialized", token, i.now, i.sinkOk)
  }

  // --- Which requests are granted, in terms of the request alone -------------------------------

  /** A signer is there to be used: a ring, an algorithm this build signs with, an active key. */
  ghost predicate CanSign(realm: Realm, ring: Option<Ring>, jwk: Jwk) {
    ring.Some? && realm.signingAlgorithm in {"EdDSA", "ES256"} && ring.value.active == Some(jwk)
  }

  /** The key the evidence binds, `cnf.jwk`. */
  ghost predicate Binds(claims: map<string, Json>, jwk: Json) {
    && "cnf" in claims && claims["cnf"].Obj? && "jwk" in claims["cnf"].members && claims["cnf"].members["jwk"] == jwk
  }

  /** Token and artifacts are signed as that key signs: its JOSE algorithm, its COSE algorithm twice, and
      one key id on both artifacts. */
  ghost predicate SignedAs(c: Candidate, algorithms: Option<Algorithms>)
    requires c.Decoded?
  {
    && algorithms.Some? && algorithms.value.jose == c.alg && algorithms.value.cose.Some?
    && c.continuityAlg == algorithms.value.cose && c.transitionAlg == algorithms.value.cose
    && c.continuityKid.Some? && c.transitionKid == c.continuityKid
  }

  /** The token repeats the lineage id and the expiry of the checkpoint it advances. */
  ghost predicate Continues(c: Candidate)
    requires c.Decoded?
  {
    && (c.predecessor.payload.lineageId.Some? ==> c.jti == c.predecessor.payload.lineageId)
    && c.predecessor.payload.expiresAt.Some? && c.exp == c.predecessor.payload.expiresAt
  }

  /** A candidate that gets as far as settlement. */
  ghost predicate WellPresented(a: AdvanceRequest) {
    && a.candidate.Decoded? && a.candidate.porType == "sd-jwt"
    && Evidence.FullValidation(a.setting, a.candidate.evidence).Ok?
    && (exists jwk ::
          && Binds(Evidence.FullValidation(a.setting, a.candidate.evidence).value.profile.claims, jwk)
          && SignedAs(a.candidate, a.algorithms(jwk)))
    && a.candidate.nextChallenge != a.candidate.previousChallenge
    && Continues(a.candidate)
  }

  /** A key the realm publishes, that the checkpoint's header does not rule out, verifies it. */
  ghost predicate Vouched(ring: Ring, pca: Pca, signers: set<Key>) {
    && ring.published.Some?
    && exists i ::
         && 0 <= i < |ring.published.value| && ring.published.value[i].key in signers
         && (pca.kid == None || pca.kid == Some(ring.published.value[i].kid))
  }

  /** A well-presented candidate that settles: a lineage that has not expired, from a checkpoint the realm
      vouches for, with evidence that meets every entry of its contract. */
  ghost predicate Settleable(ring: Ring, a: AdvanceRequest)
    requires WellPresented(a)
  {
    var pca := a.candidate.predecessor;
    && pca.payload.lineageId.Some? && a.now < pca.payload.expiresAt.value
    && Vouched(ring, pca, a.candidate.signers)
    && (forall i :: 0 <= i < |pca.payload.authority.contract| ==>
          Conformance.Meets(Evidence.FullValidation(a.setting, a.candidate.evidence).value.profile.claims,
                            pca.payload.authority.contract[i]))
    && a.protocolOk
  }

  lemma BoundExactly(c: Candidate, profile: Evidence.Profile, algorithms: Json -> Option<Algorithms>)
    requires c.Decoded?
    ensures Bound(c, profile, algorithms) ==
      if (exists jwk :: Binds(profile.claims, jwk) && SignedAs(c, algorithms(jwk)))
         && c.nextChallenge != c.previousChallenge && Continues(c)
      then Ok(Metadata(c.predecessor.payload.lineageId, c.predecessor.payload.expiresAt.value, c.position))
      else Err(InvalidGrant)
  {
    var bound := BoundJwk(profile.claims);
    assert forall jwk :: Binds(profile.claims, jwk) <==> bound == Some(jwk);
    if bound.Some? {
      assert Binds(profile.claims, bound.value);
    }
  }

  /** The preflight passes exactly the well-presented candidates, with what their predecessor says. */
  lemma PreflightExactly(a: AdvanceRequest)
    ensures Preflight(a) ==
      if WellPresented(a)
      then Ok(Metadata(a.candidate.predecessor.payload.lineageId, a.candidate.predecessor.payload.expiresAt.value,
                       a.candidate.position))
      else Err(InvalidGrant)
  {
    hide Evidence.FullValidation, Bound, Binds, SignedAs, Continues;
    if a.candidate.Decoded? && a.candidate.porType == "sd-jwt" {
      var full := Evidence.FullValidation(a.setting, a.candidate.evidence);
      if full.Ok? {
        BoundExactly(a.candidate, full.value.profile, a.algorithms);
      }
    }
  }

  lemma VouchedExactly(ring: Ring, pca: Pca, signers: set<Key>)
    ensures Vouched(ring, pca, signers) <==> IsCurrentCheckpoint(ring, pca, signers)
  {
    if IsCurrentCheckpoint(ring, pca, signers) {
      var jwk :| && jwk in ring.published.value && (pca.kid.None? || pca.kid.value == jwk.kid) && jwk.key in signers;
      var i :| 0 <= i < |ring.published.value| && ring.published.value[i] == jwk;
    }
  }

  /** Which verdict a request gets, and what it says, stated on the request and the ring alone. */
  lemma VerdictExactly(realm: Realm, ring: Option<Ring>, a: AdvanceRequest)
    ensures var v := VerdictOf(realm, ring, a);
      && (v.Unready? <==> forall jwk :: !CanSign(realm, ring, jwk))
      && (v.Unready? ==>
            v.error == if ring.Some? && realm.signingAlgorithm !in {"EdDSA", "ES256"} then ServerError
                       else TemporarilyUnavailable)
      && (v.Rejected? && !WellPresented(a) ==> v == Rejected(InvalidGrant, None, None))
      && (v.Rejected? && WellPresented(a) ==>
            v == Rejected(InvalidGrant, a.candidate.predecessor.payload.lineageId, Some(a.candidate.position)))
      && (v.Advanced? <==>
            (exists jwk :: CanSign(realm, ring, jwk)) && WellPresented(a) && Settleable(ring.value, a))
  {
    hide Evidence.FullValidation, Preflight, WellPresented, Conformance.Meets, Vouched, IsCurrentCheckpoint;
    PreflightExactly(a);
    SignerExactly(realm, ring);
    if ring.Some? && WellPresented(a) {
      SettlesExactly(ring.value, a);
    }
  }

  lemma SignerExactly(realm: Realm, ring: Option<Ring>)
    ensures forall jwk :: SignerFor(realm, ring) == Ok(jwk) <==> CanSign(realm, ring, jwk)
    ensures SignerFor(realm, ring).Err? ==>
      SignerFor(realm, ring).error ==
      if ring.Some? && realm.signingAlgorithm !in {"EdDSA", "ES256"} then ServerError else TemporarilyUnavailable
  {
  }

  lemma SettlesExactly(ring: Ring, a: AdvanceRequest)
    requires WellPresented(a)
    ensures Settleable(ring, a) <==>
      && a.candidate.predecessor.payload.lineageId.Some?
      && a.now < a.candidate.predecessor.payload.expiresAt.value && Settles(ring, a)
  {
    hide Evidence.FullValidation, Conformance.Meets, Vouched, IsCurrentCheckpoint;
    var pca := a.candidate.predecessor;
    VouchedExactly(ring, pca, a.candidate.signers);
    var claims := Evidence.FullValidation(a.setting, a.candidate.evidence).value.profile.claims;
    Conformance.CheckExactly(claims, pca.payload.authority.contract);
  }

  /** What an advance is: the active key signs the next position of the same lineage and expiry, with the
      candidate's next challenge and the settled authority. */
  lemma AdvancedSays(realm: Realm, ring: Option<Ring>, a: AdvanceRequest)
    requires VerdictOf(realm, ring, a).Advanced?
    ensures ring.Some? && WellPresented(a) && a.candidate.predecessor.payload.lineageId.Some?
    ensures var v, pca := VerdictOf(realm, ring, a), a.candidate.predecessor.payload;
      && ring.value.active == Some(v.signer)
      && v.lineageId == pca.lineageId.value && v.expiresAt == pca.expiresAt.value
      && v.checkpoint.position == pca.position + 1 && v.checkpoint.authority == a.authority
      && v.checkpoint.challenge == a.candidate.nextChallenge
      && v.checkpoint.lineageId == pca.lineageId && v.checkpoint.expiresAt == pca.expiresAt
  {
    hide Evidence.FullValidation, Preflight, WellPresented, Settles;
    PreflightExactly(a);
    VerdictExactly(realm, ring, a);
  }

  /** Which initial request is issued what: a first position, with the authority derived for it, its own
      challenge and lineage id, and the expiry it was granted. */
  lemma IssuedExactly(realm: Realm, ring: Option<Ring>, i: InitialRequest, jwk: Jwk, c: Checkpoint, expiry: i64)
    requires i.now >= 0
    ensures InitialVerdict(realm, ring, i) == Ok((jwk, c, expiry)) <==>
      && i.derived.Ok? && i.signs && CanSign(realm, ring, jwk)
      && Expiry.InitialExpiry(i.proposal, i.sourceExpiry, i.now, realm.lifetime, realm.policy) == Ok(expiry)
      && c.position == 0 && c.authority == i.derived.value && c.challenge == i.challenge
      && c.lineageId == Some(i.lineageId) && c.expiresAt == Some(expiry)
    ensures i.derived.Err? ==> InitialVerdict(realm, ring, i) == Err(i.derived.error)
    ensures var granted := Expiry.InitialExpiry(i.proposal, i.sourceExpiry, i.now, realm.lifetime, realm.policy);
      i.derived.Ok? && granted.Err? ==>
        InitialVerdict(realm, ring, i)
        == Err(if granted.error == Expiry.NotInFuture then InvalidGrant else InvalidRequest)
  {
    hide Expiry.InitialExpiry;
    SignerExactly(realm, ring);
  }

  // --- The endpoint ----------------------------------------------------------------------------

  class TokenEndpoint {
    const realm: Realm
    var ring: Option<Ring>
    var log: seq<Event>

    constructor (realm: Realm, ring: Option<Ring>)
      ensures this.realm == realm && this.ring == ring && log == []
    {
      this.realm, this.ring, log := realm, ring, [];
    }

    /** One synchronous audit record. */
    method WriteRecord(record: Record, sinkOk: bool) returns (ok: bool)
      modifies this`log
      ensures log == old(log) + [Attempted(record, sinkOk)] && ok == sinkOk
    {
      log := log + [Attempted(record, sinkOk)];
      ok := sinkOk;
    }

    method RecordAdvancementRejected(lineage: Option<string>, position: Option<nat>, sinkOk: bool) returns (ok: bool)
      modifies this`log
      ensures log == old(log) + [Attempted(Record("pic.exchange.rejected", lineage, position), sinkOk)] && ok == sinkOk
    {
      ok := WriteRecord(Record("pic.exchange.rejected", lineage, position), sinkOk);
    }

    method ExchangeInitial(i: InitialRequest) returns (r: Result<Token, Error>)
      requires i.now >= 0
      modifies this`log
      ensures log == old(log) + InitialEvents(realm, ring, old(log), i)
      ensures r.Ok? <==> InitialVerdict(realm, ring, i).Ok? && i.sinkOk
      ensures r.Err? ==>
        r.error == if InitialVerdict(realm, ring, i).Err? then InitialVerdict(realm, ring, i).error else ServerError
      ensures r.Ok? ==> |log| > 0 && log[|log| - 1] == Released(r.value, i.now, |old(log)|)
      ensures r.Ok? ==>
        && ring.Some? && ring.value.active.Some? && i.derived.Ok?
        && r.value.iss == (if realm.issuer.Some? then realm.issuer.value else realm.mountPath)
        && r.value.sub == i.subject && r.value.iat == i.now && r.value.jti == i.lineageId
        && log[|old(log)|] == Signed(ring.value.active.value.key, r.value.checkpoint, None)
        && r.value.checkpoint.kid == Some(ring.value.active.value.kid)
        && r.value.checkpoint.payload
           == Checkpoint(0, i.derived.value, i.challenge, Some(i.lineageId), Some(r.value.exp))
    {
      if i.derived.Err? { return Err(i.derived.error); }
      var expiry := Expiry.InitialExpiry(i.proposal, i.sourceExpiry, i.now, realm.lifetime, realm.policy);
      if expiry.Err? { return Err(ExpiryError(expiry.error)); }
      var checkpoint := Checkpoint(0, i.derived.value, i.challenge, Some(i.lineageId), Some(expiry.value));
      var signer := SignerFor(realm, ring);
      if signer.Err? { return Err(signer.error); }
      if !i.signs { return Err(ServerError); }
      var pca := Pca(Some(signer.value.kid), checkpoint);
      var token := Token(IssuerOf(realm), i.subject, i.now, expiry.value, i.lineageId, pca);
      log := log + [Signed(signer.value.key, pca, None)];
      var record := Record("pic.exchange.initialized", Some(i.lineageId), Some(checkpoint.position));
      var recorded := WriteRecord(record, i.sinkOk);
      if !recorded { return Err(ServerError); }
      log := log + [Released(token, i.now, |log| - 2)];
      r := Ok(token);
    }

    method Advance(a: AdvanceRequest) returns (r: Result<Token, Error>)
      modifies this`log
      ensures log == old(log) + AdvanceEvents(realm, ring, old(log), a)
      ensures r.Ok? <==> VerdictOf(realm, ring, a).Advanced? && a.sinkOk
      ensures r.Err? ==> r.error == AdvanceError(VerdictOf(realm, ring, a), a.sinkOk)
      ensures r.Ok? ==> |log| > 0 && log[|log| - 1] == Released(r.value, a.now, |old(log)|)
      ensures r.Ok? <==>
        (exists jwk :: CanSign(realm, ring, jwk)) && WellPresented(a) && Settleable(ring.value, a) && a.sinkOk
      ensures r.Ok? ==>
        && ring.value.active.Some? && a.candidate.predecessor.payload.expiresAt == Some(r.value.exp)
        && log[|old(log)|].Signed? && log[|old(log)|].key == ring.value.active.value.key
        && log[|old(log)|].pca == r.value.checkpoint && log[|old(log)|].parent.Some?
        && r.value.iss == (if realm.issuer.Some? then realm.issuer.value else realm.mountPath)
        && r.value.sub == None && r.value.iat == a.now && a.candidate.predecessor.payload.lineageId == Some(r.value.jti)
        && r.value.checkpoint.kid == Some(ring.value.active.value.kid)
        && r.value.checkpoint.payload
           == Checkpoint(a.candidate.predecessor.payload.position + 1, a.authority, a.candidate.nextChallenge,
                         Some(r.value.jti), Some(r.value.exp))
    {
      hide Evidence.FullValidation, Bound, IsCurrentCheckpoint, Conformance.Reason, WellPresented, Settleable,
           Preflight, Settles;
      VerdictExactly(realm, ring, a);
      var signer := SignerFor(realm, ring);
      if signer.Err? { return Err(signer.error); }
      var evidence := new Evidence.SdJwtProfileValidator(a.setting);
      var metadata := PreflightCandidate(evidence, a);
      if metadata.Err? {
        var recorded := RecordAdvancementRejected(None, None, a.sinkOk);
        return Err(if recorded then metadata.error else ServerError);
      }
      var Metadata(lineage, expiresAt, position) := metadata.value;
      if lineage.None? {
        var recorded := RecordAdvancementRejected(None, Some(position), a.sinkOk);
        return Err(if recorded then InvalidGrant else ServerError);
      }
      if expiresAt <= a.now {
        var recorded := RecordAdvancementRejected(lineage, Some(position), a.sinkOk);
        return Err(if recorded then InvalidGrant else ServerError);
      }
      var settled := Settle(evidence, ring.value, a);
      if settled.None? {
        var recorded := RecordAdvancementRejected(lineage, Some(position), a.sinkOk);
        return Err(if recorded then InvalidGrant else ServerError);
      }
      var pca := Pca(Some(signer.value.kid), settled.value);
      var token := Token(IssuerOf(realm), None, a.now, expiresAt, lineage.value, pca);
      log := log + [Signed(signer.value.key, pca, Some(FindSigned(log, a.candidate.signers, a.candidate.predecessor)))];
      var record := Record("pic.exchange.advanced", settled.value.lineageId, Some(settled.value.position));
      var recorded := WriteRecord(record, a.sinkOk);
      if !recorded { return Err(ServerError); }
      log := log + [Released(token, a.now, |log| - 2)];
      r := Ok(token);
    }

    method PreflightCandidate(evidence: Evidence.SdJwtProfileValidator, a: AdvanceRequest)
      returns (r: Result<Metadata, Error>)
      requires evidence.Valid() && evidence.setting == a.setting && evidence.accepted == None
      modifies evidence
      ensures evidence.Valid() && r == Preflight(a) && (r.Ok? <==> WellPresented(a))
      ensures r.Ok? ==>
        && evidence.accepted.Some? && evidence.accepted.value.evidence == a.candidate.evidence
        && Evidence.FullValidation(a.setting, a.candidate.evidence).Ok?
      ensures r.Ok? ==>
        && a.candidate.Decoded? && r.value.lineageId == a.candidate.predecessor.payload.lineageId
        && a.candidate.predecessor.payload.expiresAt == Some(r.value.expiresAt)
    {
      hide Evidence.FullValidation, WellPresented;
      PreflightExactly(a);
      if a.candidate.Undecodable? { return Err(InvalidGrant); }
      if a.candidate.porType != "sd-jwt" { return Err(InvalidGrant); }
      var processed := evidence.ValidateAndRemember(a.candidate.evidence);
      if processed.Err? { return Err(InvalidGrant); }
      r := Bound(a.candidate, processed.value, a.algorithms);
    }

    /** The protocol crate's settlement procedure, as far as this realm's hooks decide it: policy
        reads the claims of whatever the validator last accepted. */
    method Settle(evidence: Evidence.SdJwtProfileValidator, current: Ring, a: AdvanceRequest)
      returns (r: Option<Checkpoint>)
      requires evidence.Valid() && evidence.setting == a.setting && a.candidate.Decoded?
      modifies evidence
      ensures r == if Settles(current, a) then Some(Successor(a.candidate, a.authority)) else None
    {
      hide Evidence.FullValidation;
      if !IsCurrentCheckpoint(current, a.candidate.predecessor, a.candidate.signers) { return None; }
      var key := evidence.Validate(a.candidate.evidence);
      if key.Err? { return None; }
      var claims := if evidence.accepted.Some? then Some(evidence.accepted.value.profile.claims) else None;
      var mismatch := Conformance.Reason(claims, a.candidate.predecessor.payload.authority.contract);
      if mismatch.Some? || !a.protocolOk { return None; }
      r := Some(Successor(a.candidate, a.authority));
    }
  }
}
