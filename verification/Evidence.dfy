// Executor-profile evidence: the whole validation of an SD-JWT presentation, and the memo that lets
// one settlement validate the same presentation twice for the price of one.

module Evidence {
  import opened Basics
  import opened Texts
  import SdJwt

  datatype Attester = Attester(id: string, issuer: string, proofTypes: seq<string>)

  /** A workload verification key built from a JWK. */
  datatype Verifier = Verifier(jwk: Json)

  /** Library procedures beyond those of SdJwt: UTF-8, key parsing, the JOSE algorithm a key can
      produce, and whether a key verifies a signature over an input. */
  datatype Libraries = Libraries(
    sd: SdJwt.Primitives,
    utf8: seq<byte> -> Option<string>,
    publicKey: Json -> Option<Verifier>,
    algorithm: Json -> Option<string>,
    verifies: (Json, string, seq<byte>) -> bool)

  /** What one realm brings to a validation: its attesters, their key sets, and the time. */
  datatype Setting = Setting(lib: Libraries, attesters: seq<Attester>, keysFor: string -> Option<seq<Json>>, now: int)

  /** Who vouched for the workload, and every claim the presentation made. */
  datatype Profile = Profile(attesterId: string, issuer: string, claims: map<string, Json>)

  datatype Validated = Validated(verifier: Verifier, profile: Profile, jwk: Json)

  datatype Reject = TooLarge | NotUtf8 | BadPresentation(sd: SdJwt.Reject) | NotCompactJws | SegmentNotJson
                  | NoIssuer | UntrustedIssuer | WrongProofType | NoAlgorithm | AlgorithmNone | BadSignatureEncoding
                  | KeysUnavailable | NoKeys | NoMatchingKey | SignatureInvalid | UnsupportedDigest
                  | NoExpiry | Expired | NotYetValid | IssuedInFuture | NoBoundKey | UnusableKey

  const MAX_EVIDENCE_BYTES: nat := 65_536
  const CLOCK_SKEW_SECONDS: int := 60

  // --- The full validation ---------------------------------------------------------------------

  function DecodeJson(lib: Libraries, segment: string): Option<Json> {
    var bytes := lib.sd.decode(segment);
    if bytes.None? then None else lib.sd.parse(bytes.value)
  }

  function FindAttester(attesters: seq<Attester>, issuer: string): (r: Option<Attester>)
    ensures r.Some? ==> r.value in attesters && r.value.issuer == issuer
    ensures r.None? ==> forall a :: a in attesters ==> a.issuer != issuer
  {
    if attesters == [] then None
    else if attesters[0].issuer == issuer then Some(attesters[0])
    else FindAttester(attesters[1..], issuer)
  }

  function TextMember(v: Json, name: string): Option<string> {
    var member := v.Get(name);
    if member.None? then None else member.value.AsStr()
  }

  function IntMember(v: Json, name: string): Option<int> {
    var member := v.Get(name);
    if member.None? || member.value.AsI64().None? then None else Some(member.value.AsI64().value as int)
  }

  /** The published keys a header's `kid` leaves in play; without one, all of them. */
  function Selected(keys: seq<Json>, kid: Option<string>): seq<Json> {
    if keys == [] then []
    else (if kid.None? || TextMember(keys[0], "kid") == kid then [keys[0]] else []) + Selected(keys[1..], kid)
  }

  function VerifySignature(s: Setting, parts: seq<string>, header: Json, attester: Attester): Option<Reject>
    requires |parts| == 3
  {
    var algorithm := TextMember(header, "alg");
    if algorithm.None? then Some(NoAlgorithm)
    else if algorithm.value == "none" then Some(AlgorithmNone)
    else
      var signature := s.lib.sd.decode(parts[2]);
      if signature.None? then Some(BadSignatureEncoding)
      else
        var keys := s.keysFor(attester.id);
        if keys.None? then Some(KeysUnavailable)
        else if keys.value == [] then Some(NoKeys)
        else
          var selected := Selected(keys.value, TextMember(header, "kid"));
          if selected == [] then Some(NoMatchingKey)
          else if exists k :: k in selected && s.lib.algorithm(k) == algorithm
                    && s.lib.verifies(k, parts[0] + ['.'] + parts[1], signature.value)
          then None
          else Some(SignatureInvalid)
  }

  function ValidityClaims(payload: Json, now: int): Option<Reject> {
    var exp, nbf, iat := IntMember(payload, "exp"), IntMember(payload, "nbf"), IntMember(payload, "iat");
    if exp.None? then Some(NoExpiry)
    else if now - CLOCK_SKEW_SECONDS >= exp.value then Some(Expired)
    else if nbf.Some? && now + CLOCK_SKEW_SECONDS < nbf.value then Some(NotYetValid)
    else if iat.Some? && now + CLOCK_SKEW_SECONDS < iat.value then Some(IssuedInFuture)
    else None
  }

  /** Everything after the JWT is known to be authentic. */
  function Interpreted(s: Setting, payload: Json, disclosures: seq<string>, attester: Attester)
    : Result<Validated, Reject>
  {
    var digest := TextMember(payload, "_sd_alg");
    if digest.Some? && digest.value != "sha-256" then Err(UnsupportedDigest)
    else
      var validity := ValidityClaims(payload, s.now);
      if validity.Some? then Err(validity.value)
      else
        var claims := SdJwt.Processed(s.lib.sd, payload, disclosures);
        if claims.Err? then Err(BadPresentation(claims.error))
        else
          var cnf := payload.Get("cnf");
          if cnf.None? || cnf.value.Get("jwk").None? then Err(NoBoundKey)
          else
            var jwk := cnf.value.Get("jwk").value;
            var key := s.lib.publicKey(jwk);
            if key.None? then Err(UnusableKey)
            else Ok(Validated(key.value, Profile(attester.id, attester.issuer, claims.value), jwk))
  }

  function FullValidation(s: Setting, evidence: seq<byte>): Result<Validated, Reject> {
    if |evidence| > MAX_EVIDENCE_BYTES then Err(TooLarge)
    else
      var text := s.lib.utf8(evidence);
      if text.None? then Err(NotUtf8)
      else
        var split := SdJwt.SplitPresentation(text.value);
        if split.Err? then Err(BadPresentation(split.error))
        else
          var (jwt, disclosures) := split.value;
          var parts := Split(jwt, '.');
          if |parts| != 3 then Err(NotCompactJws)
          else
            var header, payload := DecodeJson(s.lib, parts[0]), DecodeJson(s.lib, parts[1]);
            if header.None? || payload.None? then Err(SegmentNotJson)
            else
              var issuer := TextMember(payload.value, "iss");
              if issuer.None? then Err(NoIssuer)
              else
                var attester := FindAttester(s.attesters, issuer.value);
                if attester.None? then Err(UntrustedIssuer)
                else if "sd-jwt" !in attester.value.proofTypes then Err(WrongProofType)
                else
                  var signature := VerifySignature(s, parts, header.value, attester.value);
                  if signature.Some? then Err(signature.value)
                  else Interpreted(s, payload.value, disclosures, attester.value)
  }

  // --- What acceptance means -------------------------------------------------------------------

  /** Everything an acceptance rests on. */
  datatype Basis = Basis(jwt: string, disclosures: seq<string>, header: Json, payload: Json, signature: seq<byte>,
                         algorithm: string, issuer: string, key: Json, expiry: int)

  /** The issuer's signature: by a key the attester publishes, that the header does not rule out, for
      the one algorithm that key can produce. */
  ghost predicate SignedBy(s: Setting, attester: Attester, b: Basis, input: string) {
    && TextMember(b.header, "alg") == Some(b.algorithm) && b.algorithm != "none"
    && s.lib.algorithm(b.key) == Some(b.algorithm)
    && s.keysFor(attester.id).Some? && b.key in s.keysFor(attester.id).value
    && (TextMember(b.header, "kid").Some? ==> TextMember(b.key, "kid") == TextMember(b.header, "kid"))
    && s.lib.verifies(b.key, input, b.signature)
  }

  /** The time is within the credential's window, give or take a minute. */
  ghost predicate Timely(s: Setting, payload: Json, expiry: int) {
    && IntMember(payload, "exp") == Some(expiry) && s.now < expiry + 60
    && (IntMember(payload, "nbf").Some? ==> IntMember(payload, "nbf").value <= s.now + 60)
    && (IntMember(payload, "iat").Some? ==> IntMember(payload, "iat").value <= s.now + 60)
  }

  /** The bytes carry this JWT and these disclosures, in this encoding. */
  ghost predicate Carries(s: Setting, evidence: seq<byte>, b: Basis) {
    && |evidence| <= 65_536 && s.lib.utf8(evidence).Some?
    && SdJwt.SplitPresentation(s.lib.utf8(evidence).value) == Ok((b.jwt, b.disclosures))
    && var parts := Split(b.jwt, '.');
       && |parts| == 3
       && DecodeJson(s.lib, parts[0]) == Some(b.header) && DecodeJson(s.lib, parts[1]) == Some(b.payload)
       && s.lib.sd.decode(parts[2]) == Some(b.signature)
  }

  ghost predicate Supports(s: Setting, evidence: seq<byte>, v: Validated, b: Basis) {
    && Carries(s, evidence, b)
    && TextMember(b.payload, "iss") == Some(b.issuer)
    && var attester := FindAttester(s.attesters, b.issuer);
       && attester.Some? && "sd-jwt" in attester.value.proofTypes
       && SignedBy(s, attester.value, b, Split(b.jwt, '.')[0] + ['.'] + Split(b.jwt, '.')[1])
       && (TextMember(b.payload, "_sd_alg").Some? ==> TextMember(b.payload, "_sd_alg") == Some("sha-256"))
       && Timely(s, b.payload, b.expiry)
       && SdJwt.Processed(s.lib.sd, b.payload, b.disclosures) == Ok(v.profile.claims)
       && b.payload.Get("cnf").Some? && b.payload.Get("cnf").value.Get("jwk") == Some(v.jwk)
       && s.lib.publicKey(v.jwk) == Some(v.verifier)
       && v.profile.attesterId == attester.value.id && v.profile.issuer == b.issuer
  }

  lemma {:induction false} SelectedExactly(keys: seq<Json>, kid: Option<string>, k: Json)
    ensures k in Selected(keys, kid) <==> k in keys && (kid.Some? ==> TextMember(k, "kid") == kid)
  {
    hide TextMember;
    if keys != [] {
      SelectedExactly(keys[1..], kid, k);
      assert k in keys <==> k == keys[0] || k in keys[1..];
    }
  }

  lemma SignatureExactly(s: Setting, parts: seq<string>, attester: Attester, b: Basis)
    requires |parts| == 3 && s.lib.sd.decode(parts[2]) == Some(b.signature)
    requires SignedBy(s, attester, b, parts[0] + ['.'] + parts[1])
    ensures VerifySignature(s, parts, b.header, attester) == None
  {
    hide TextMember, Selected;
    SelectedExactly(s.keysFor(attester.id).value, TextMember(b.header, "kid"), b.key);
  }

  /** A presentation is accepted, with a given key and profile, exactly when there is a basis for it:
      whichever order the checks are made in, none can be skipped and none more is needed. */
  lemma AcceptedExactly(s: Setting, evidence: seq<byte>, v: Validated)
    ensures FullValidation(s, evidence) == Ok(v) <==> exists b :: Supports(s, evidence, v, b)
  {
    hide SdJwt.Processed, SdJwt.SplitPresentation, Split, TextMember, IntMember, FindAttester, DecodeJson;
    if FullValidation(s, evidence) == Ok(v) {
      var b := BasisOf(s, evidence, v);
    }
    if b :| Supports(s, evidence, v, b) {
      SupportSuffices(s, evidence, v, b);
    }
  }

  lemma BasisOf(s: Setting, evidence: seq<byte>, v: Validated) returns (b: Basis)
    requires FullValidation(s, evidence) == Ok(v)
    ensures Supports(s, evidence, v, b)
  {
    hide SdJwt.Processed, SdJwt.SplitPresentation, Split, TextMember, IntMember, DecodeJson, Selected;
    var (jwt, disclosures) := SdJwt.SplitPresentation(s.lib.utf8(evidence).value).value;
    var parts := Split(jwt, '.');
    var header, payload := DecodeJson(s.lib, parts[0]).value, DecodeJson(s.lib, parts[1]).value;
    var issuer := TextMember(payload, "iss").value;
    var attester := FindAttester(s.attesters, issuer).value;
    var algorithm := TextMember(header, "alg").value;
    var signature := s.lib.sd.decode(parts[2]).value;
    var kid := TextMember(header, "kid");
    var key :| key in Selected(s.keysFor(attester.id).value, kid) && s.lib.algorithm(key) == Some(algorithm)
               && s.lib.verifies(key, parts[0] + ['.'] + parts[1], signature);
    SelectedExactly(s.keysFor(attester.id).value, kid, key);
    b := Basis(jwt, disclosures, header, payload, signature, algorithm, issuer, key, IntMember(payload, "exp").value);
  }

  lemma SupportSuffices(s: Setting, evidence: seq<byte>, v: Validated, b: Basis)
    requires Supports(s, evidence, v, b)
    ensures FullValidation(s, evidence) == Ok(v)
  {
    hide SdJwt.Processed, SdJwt.SplitPresentation, Split, TextMember, IntMember, DecodeJson, VerifySignature, SignedBy;
    SignatureExactly(s, Split(b.jwt, '.'), FindAttester(s.attesters, b.issuer).value, b);
  }

  /** An accepted presentation yields the key its own JWK denotes. */
  lemma AcceptedKey(s: Setting, evidence: seq<byte>)
    requires FullValidation(s, evidence).Ok?
    ensures s.lib.publicKey(FullValidation(s, evidence).value.jwk) == Some(FullValidation(s, evidence).value.verifier)
  {
    hide FullValidation, Carries, SignedBy, Timely, SdJwt.Processed;
    var b := BasisOf(s, evidence, FullValidation(s, evidence).value);
  }

  // --- The memo --------------------------------------------------------------------------------

  /** The presentation last accepted: its exact bytes, its key, and what it disclosed. */
  datatype Accepted = Accepted(evidence: seq<byte>, jwk: Json, profile: Profile)

  /** A call across one of the two boundaries, and what each may answer. */
  datatype Call = Validate(evidence: seq<byte>) | ValidateAndRemember(evidence: seq<byte>)

  datatype Reply = Key(key: Result<Verifier, Reject>) | Disclosed(profile: Result<Profile, Reject>)

  /** What the call answers with no memo at all. */
  function Uncached(s: Setting, c: Call): Reply {
    var full := FullValidation(s, c.evidence);
    if c.Validate? then Key(if full.Ok? then Ok(full.value.verifier) else Err(full.error))
    else Disclosed(if full.Ok? then Ok(full.value.profile) else Err(full.error))
  }

  /** The memo after a call: an acceptance replaces what was there, a rejection leaves it. */
  function Remembered(s: Setting, memo: Option<Accepted>, c: Call): Option<Accepted> {
    var full := FullValidation(s, c.evidence);
    if full.Ok? then Some(Accepted(c.evidence, full.value.jwk, full.value.profile)) else memo
  }

  class SdJwtProfileValidator {
    const setting: Setting
    var accepted: Option<Accepted>

    /** What the memo holds is what full validation answers for those bytes. */
    ghost predicate Valid()
      reads this
    {
      Consistent(setting, accepted)
    }

    constructor (setting: Setting)
      ensures Valid() && this.setting == setting && accepted == None
    {
      this.setting, accepted := setting, None;
    }

    method Validate(evidence: seq<byte>) returns (r: Result<Verifier, Reject>)
      requires Valid()
      modifies this`accepted
      ensures Valid() && accepted == Remembered(setting, old(accepted), Call.Validate(evidence))
      ensures Key(r) == Uncached(setting, Call.Validate(evidence))
    {
      if accepted.Some? && accepted.value.evidence == evidence {
        AcceptedKey(setting, evidence);
        var rebuilt := setting.lib.publicKey(accepted.value.jwk);
        return if rebuilt.Some? then Ok(rebuilt.value) else Err(UnusableKey);
      }
      var full := FullValidation(setting, evidence);
      if full.Err? { return Err(full.error); }
      accepted := Some(Accepted(evidence, full.value.jwk, full.value.profile));
      r := Ok(full.value.verifier);
    }

    method ValidateAndRemember(evidence: seq<byte>) returns (r: Result<Profile, Reject>)
      requires Valid()
      modifies this`accepted
      ensures Valid() && accepted == Remembered(setting, old(accepted), Call.ValidateAndRemember(evidence))
      ensures Disclosed(r) == Uncached(setting, Call.ValidateAndRemember(evidence))
    {
      if accepted.Some? && accepted.value.evidence == evidence {
        return Ok(accepted.value.profile);
      }
      var full := FullValidation(setting, evidence);
      if full.Err? { return Err(full.error); }
      accepted := Some(Accepted(evidence, full.value.jwk, full.value.profile));
      r := Ok(full.value.profile);
    }
  }

  ghost predicate Consistent(s: Setting, memo: Option<Accepted>) {
    memo.Some? ==>
      var full := FullValidation(s, memo.value.evidence);
      full.Ok? && full.value.jwk == memo.value.jwk && full.value.profile == memo.value.profile
  }

  // --- Over any sequence of calls --------------------------------------------------------------

  /** What the memo answers to a call, reusing what it holds for the same bytes. */
  function Answered(s: Setting, memo: Option<Accepted>, c: Call): Reply {
    if memo.Some? && memo.value.evidence == c.evidence then
      var rebuilt := s.lib.publicKey(memo.value.jwk);
      if c.Validate? then Key(if rebuilt.Some? then Ok(rebuilt.value) else Err(UnusableKey))
      else Disclosed(Ok(memo.value.profile))
    else Uncached(s, c)
  }

  /** The memo as the calls themselves leave it: a hit changes nothing. */
  function MemoAfter(s: Setting, calls: seq<Call>): Option<Accepted> {
    if calls == [] then None
    else
      var memo, c := MemoAfter(s, calls[..|calls| - 1]), calls[|calls| - 1];
      if memo.Some? && memo.value.evidence == c.evidence then memo else Remembered(s, memo, c)
  }

  lemma {:induction false} MemoConsistent(s: Setting, calls: seq<Call>)
    ensures Consistent(s, MemoAfter(s, calls))
  {
    if calls != [] {
      hide FullValidation;
      MemoConsistent(s, calls[..|calls| - 1]);
    }
  }

  /** However validations and preflights interleave, on whatever evidence, with the key source
      unchanged: every answer is the one full validation would give. */
  lemma MemoRefinesFullValidation(s: Setting, calls: seq<Call>, i: nat)
    requires i < |calls|
    ensures Answered(s, MemoAfter(s, calls[..i]), calls[i]) == Uncached(s, calls[i])
  {
    hide FullValidation;
    MemoConsistent(s, calls[..i]);
    var memo := MemoAfter(s, calls[..i]);
    if memo.Some? && memo.value.evidence == calls[i].evidence {
      AcceptedKey(s, calls[i].evidence);
    }
  }

  /** After any calls the memo is the latest accepted presentation, and nothing else. */
  lemma {:induction false} MemoHoldsLatest(s: Setting, calls: seq<Call>)
    ensures MemoAfter(s, calls).None? <==> forall i :: 0 <= i < |calls| ==> FullValidation(s, calls[i].evidence).Err?
    ensures MemoAfter(s, calls).Some? ==> exists i ::
      && 0 <= i < |calls| && FullValidation(s, calls[i].evidence).Ok?
      && MemoAfter(s, calls).value.evidence == calls[i].evidence
      && MemoAfter(s, calls).value.profile == FullValidation(s, calls[i].evidence).value.profile
      && forall j :: i < j < |calls| ==> FullValidation(s, calls[j].evidence).Err?
  {
    hide FullValidation;
    if calls != [] {
      var before, c := calls[..|calls| - 1], calls[|calls| - 1];
      MemoHoldsLatest(s, before);
      MemoConsistent(s, before);
      assert forall i :: 0 <= i < |before| ==> before[i] == calls[i];
      if FullValidation(s, c.evidence).Ok? {
        assert calls[|before|] == c;
      } else if MemoAfter(s, before).Some? {
        var i :| && 0 <= i < |before| && FullValidation(s, before[i].evidence).Ok?
                 && MemoAfter(s, before).value.evidence == before[i].evidence
                 && MemoAfter(s, before).value.profile == FullValidation(s, before[i].evidence).value.profile
                 && forall j :: i < j < |before| ==> FullValidation(s, before[j].evidence).Err?;
        assert calls[i] == before[i];
      }
    }
  }

  /** In one settlement: the preflight accepted `evidence`, and settlement validates nothing else.
      What policy then reads is what that presentation disclosed. */
  lemma SettlementReadsItsOwnClaims(s: Setting, calls: seq<Call>, evidence: seq<byte>)
    requires calls != [] && FullValidation(s, evidence).Ok?
    requires forall i :: 0 <= i < |calls| ==> calls[i].evidence == evidence
    ensures MemoAfter(s, calls).Some?
    ensures MemoAfter(s, calls).value.profile == FullValidation(s, evidence).value.profile
  {
    hide FullValidation;
    MemoHoldsLatest(s, calls);
    assert calls[0].evidence == evidence;
  }
}
