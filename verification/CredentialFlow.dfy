// End to end: a credential the trust lab issues, presented by its holder, validated by a realm.

module CredentialFlow {
  import opened Basics
  import opened Texts
  import SdJwt
  import Base64Url
  import opened Evidence

  /** A compact JWS over a header and a payload, as the lab assembles it. */
  function SigningInput(p: SdJwt.Primitives, header: Json, payload: Json): string {
    Base64Url.Encode(p.write(header)) + ['.'] + Base64Url.Encode(p.write(payload))
  }

  function CompactJws(p: SdJwt.Primitives, header: Json, payload: Json, signature: seq<byte>): string {
    SigningInput(p, header, payload) + ['.'] + Base64Url.Encode(signature)
  }

  function LabHeader(keyId: string): Json {
    Obj(map["alg" := Str("EdDSA"), "kid" := Str(keyId), "typ" := Str("vc+sd-jwt")])
  }

  lemma JwsSplits(p: SdJwt.Primitives, header: Json, payload: Json, signature: seq<byte>)
    requires p.write(header) != [] && p.write(payload) != [] && signature != []
    ensures Split(CompactJws(p, header, payload, signature), '.')
         == [Base64Url.Encode(p.write(header)), Base64Url.Encode(p.write(payload)), Base64Url.Encode(signature)]
    ensures SdJwt.Plain(CompactJws(p, header, payload, signature))
  {
    hide Split, Base64Url.Encode;
    var a, b, c := Base64Url.Encode(p.write(header)), Base64Url.Encode(p.write(payload)), Base64Url.Encode(signature);
    SdJwt.EncodedIsPlain(p.write(header));
    SdJwt.EncodedIsPlain(p.write(payload));
    SdJwt.EncodedIsPlain(signature);
    JoinThree(a, b, c, '.');
    SplitJoin([a, b, c], '.');
  }

  /** The realm trusts the issuer and publishes, under the lab's key id, a key that verifies the JWS. */
  ghost predicate Trusts(s: Setting, attester: Attester, keyId: string, input: string, signature: seq<byte>) {
    && FindAttester(s.attesters, attester.issuer) == Some(attester) && "sd-jwt" in attester.proofTypes
    && s.keysFor(attester.id).Some?
    && exists k :: k in s.keysFor(attester.id).value && TextMember(k, "kid") == Some(keyId)
         && s.lib.algorithm(k) == Some("EdDSA") && s.lib.verifies(k, input, signature)
  }

  lemma SignatureVerifies(s: Setting, attester: Attester, keyId: string, parts: seq<string>, signature: seq<byte>)
    requires |parts| == 3 && s.lib.sd.decode(parts[2]) == Some(signature)
    requires Trusts(s, attester, keyId, parts[0] + ['.'] + parts[1], signature)
    ensures VerifySignature(s, parts, LabHeader(keyId), attester) == None
  {
    hide Selected;
    var input := parts[0] + ['.'] + parts[1];
    var keys := s.keysFor(attester.id).value;
    var k :| k in keys && TextMember(k, "kid") == Some(keyId)
             && s.lib.algorithm(k) == Some("EdDSA") && s.lib.verifies(k, input, signature);
    SelectedExactly(keys, Some(keyId), k);
  }

  /** A credential as the lab issues it. */
  datatype Issue = Issue(claims: seq<(string, string)>, salts: seq<seq<byte>>, issuedAt: i64, expiresAt: i64,
                         jwk: Json, keyId: string, signature: seq<byte>)

  function PayloadOf(p: SdJwt.Primitives, attester: Attester, c: Issue): Json
    requires |c.salts| == |c.claims|
  {
    var issued := SdJwt.IssuedFor(p, c.claims, c.salts);
    SdJwt.CredentialPayload(attester.issuer, c.issuedAt as int, c.expiresAt as int, c.jwk, issued)
  }

  /** The holder chose well: disclosures by index, none reserved, none already disclosed. */
  ghost predicate Choice(p: SdJwt.Primitives, c: Issue, chosen: seq<nat>)
    requires |c.salts| == |c.claims|
  {
    && SdJwt.Chooses(SdJwt.IssuedFor(p, c.claims, c.salts), chosen) && |chosen| <= SdJwt.MAX_DISCLOSURES
    && forall i :: 0 <= i < |chosen| ==> SdJwt.MayDisclose(c.claims[chosen[i]].0)
  }

  ghost predicate WellIssued(s: Setting, attester: Attester, c: Issue) {
    && |c.salts| == |c.claims| && SdJwt.DistinctNames(c.claims) && SdJwt.Faithful(s.lib.sd, c.claims, c.salts)
    && SdJwt.ReadsBack(s.lib.sd, LabHeader(c.keyId)) && SdJwt.ReadsBack(s.lib.sd, PayloadOf(s.lib.sd, attester, c))
    && SdJwt.CollisionFree(SdJwt.IssuedFor(s.lib.sd, c.claims, c.salts)) && c.signature != []
    && c.issuedAt as int - CLOCK_SKEW_SECONDS <= s.now < c.expiresAt as int + CLOCK_SKEW_SECONDS
    && s.lib.publicKey(c.jwk).Some?
    && var input := SigningInput(s.lib.sd, LabHeader(c.keyId), PayloadOf(s.lib.sd, attester, c));
       Trusts(s, attester, c.keyId, input, c.signature)
  }

  /** Exactly the four claims always disclosed and the chosen ones, with the values they were issued with. */
  ghost predicate Discloses(claims: map<string, Json>, attester: Attester, c: Issue, chosen: seq<nat>)
    requires forall i :: 0 <= i < |chosen| ==> chosen[i] < |c.claims|
  {
    && |claims| == 4 + |chosen|
    && claims.Keys >= SdJwt.ALWAYS_DISCLOSED
    && claims["iss"] == Str(attester.issuer) && claims["cnf"] == Obj(map["jwk" := c.jwk])
    && claims["iat"] == Int(c.issuedAt as int) && claims["exp"] == Int(c.expiresAt as int)
    && forall i :: 0 <= i < |chosen| ==>
         c.claims[chosen[i]].0 in claims && claims[c.claims[chosen[i]].0] == Str(c.claims[chosen[i]].1)
  }

  lemma PayloadInterprets(s: Setting, attester: Attester, c: Issue, chosen: seq<nat>)
    requires WellIssued(s, attester, c) && Choice(s.lib.sd, c, chosen)
    ensures var issued := SdJwt.IssuedFor(s.lib.sd, c.claims, c.salts);
      var r := Interpreted(s, PayloadOf(s.lib.sd, attester, c), SdJwt.Chosen(issued, chosen), attester);
      && r.Ok? && r.value.jwk == c.jwk && s.lib.publicKey(c.jwk) == Some(r.value.verifier)
      && r.value.profile.attesterId == attester.id && r.value.profile.issuer == attester.issuer
      && Discloses(r.value.profile.claims, attester, c, chosen)
  {
    hide SdJwt.Processed, SdJwt.Disclosure, SdJwt.Reserved, SdJwt.Faithful, SdJwt.CollisionFree, SdJwt.DistinctNames,
         Trusts, Discloses, PayloadOf, SdJwt.IssuedFor, SdJwt.ReadsBack, SdJwt.Chosen;
    ClaimsDisclosed(s, attester, c, chosen);
    PayloadMembers(s.lib.sd, attester, c);
    assert Obj(map["jwk" := c.jwk]).Get("jwk") == Some(c.jwk);
  }

  lemma ClaimsDisclosed(s: Setting, attester: Attester, c: Issue, chosen: seq<nat>)
    requires WellIssued(s, attester, c) && Choice(s.lib.sd, c, chosen)
    ensures var issued := SdJwt.IssuedFor(s.lib.sd, c.claims, c.salts);
      var r := SdJwt.Processed(s.lib.sd, PayloadOf(s.lib.sd, attester, c), SdJwt.Chosen(issued, chosen));
      r.Ok? && Discloses(r.value, attester, c, chosen)
  {
    hide SdJwt.Processed, SdJwt.Disclosure, SdJwt.Reserved, SdJwt.Faithful, SdJwt.CollisionFree, SdJwt.DistinctNames,
         Trusts, SdJwt.CredentialPayload, SdJwt.IssuedFor, SdJwt.Base, SdJwt.Committed, SdJwt.ReadsBack;
    var p, issuedAt, expiresAt := s.lib.sd, c.issuedAt as int, c.expiresAt as int;
    SdJwt.CredentialRoundTrip(p, c.claims, c.salts, chosen, attester.issuer, issuedAt, expiresAt, c.jwk);
    SdJwt.CommitmentsOf(attester.issuer, issuedAt, expiresAt, c.jwk, SdJwt.IssuedFor(p, c.claims, c.salts));
  }

  lemma PayloadMembers(p: SdJwt.Primitives, attester: Attester, c: Issue)
    requires |c.salts| == |c.claims|
    ensures var payload := PayloadOf(p, attester, c);
      && payload.Get("_sd_alg") == Some(Str("sha-256")) && payload.Get("nbf") == None
      && payload.Get("exp") == Some(Int(c.expiresAt as int)) && payload.Get("iat") == Some(Int(c.issuedAt as int))
      && payload.Get("cnf") == Some(Obj(map["jwk" := c.jwk]))
  {
    hide SdJwt.IssuedFor;
  }

  /** The evidence is a credential the lab issued, presented with the chosen disclosures. */
  ghost predicate Presents(s: Setting, attester: Attester, c: Issue, chosen: seq<nat>, evidence: seq<byte>) {
    && WellIssued(s, attester, c) && Choice(s.lib.sd, c, chosen)
    && var jwt := CompactJws(s.lib.sd, LabHeader(c.keyId), PayloadOf(s.lib.sd, attester, c), c.signature);
       var ds := SdJwt.Chosen(SdJwt.IssuedFor(s.lib.sd, c.claims, c.salts), chosen);
       |evidence| <= MAX_EVIDENCE_BYTES && s.lib.utf8(evidence) == Some(SdJwt.Presented(jwt, ds))
  }

  /** Any credential the lab issues, presented with any admissible choice of disclosures while it is
      valid, is accepted by a realm that trusts the lab: the bound key is the one it was issued for,
      and the claims are the four always disclosed and exactly the chosen ones. */
  lemma CredentialAccepted(s: Setting, attester: Attester, c: Issue, chosen: seq<nat>, evidence: seq<byte>)
    requires Presents(s, attester, c, chosen, evidence)
    ensures var r := FullValidation(s, evidence);
      && r.Ok? && r.value.jwk == c.jwk && s.lib.publicKey(c.jwk) == Some(r.value.verifier)
      && r.value.profile.attesterId == attester.id && r.value.profile.issuer == attester.issuer
      && Discloses(r.value.profile.claims, attester, c, chosen)
  {
    hide Interpreted, VerifySignature, SdJwt.Disclosure, SdJwt.CredentialPayload, Split, SdJwt.SplitPresentation,
         SdJwt.Presented, SdJwt.Reserved, SdJwt.CollisionFree, SdJwt.DistinctNames, Base64Url.Encode, Discloses;
    var p := s.lib.sd;
    var header, payload := LabHeader(c.keyId), PayloadOf(p, attester, c);
    var issued := SdJwt.IssuedFor(p, c.claims, c.salts);
    var ds := SdJwt.Chosen(issued, chosen);
    var jwt := CompactJws(p, header, payload, c.signature);
    JwsSplits(p, header, payload, c.signature);
    forall i | 0 <= i < |ds| ensures SdJwt.Plain(ds[i]) {
      var k := chosen[i];
      SdJwt.DisclosureOpens(p, c.salts[k], c.claims[k].0, c.claims[k].1);
    }
    SdJwt.PresentationSplits(jwt, ds);
    var parts := Split(jwt, '.');
    assert DecodeJson(s.lib, parts[0]) == Some(header) && DecodeJson(s.lib, parts[1]) == Some(payload);
    PayloadIssuer(p, attester, c);
    SignatureVerifies(s, attester, c.keyId, parts, c.signature);
    PayloadInterprets(s, attester, c, chosen);
  }

  lemma PayloadIssuer(p: SdJwt.Primitives, attester: Attester, c: Issue)
    requires |c.salts| == |c.claims|
    ensures TextMember(PayloadOf(p, attester, c), "iss") == Some(attester.issuer)
  {
    assert PayloadOf(p, attester, c).Get("iss") == Some(Str(attester.issuer));
  }

  // --- There are such credentials --------------------------------------------------------------

  /** Libraries that write the three documents of one credential each as one byte. */
  function Tiny(header: Json, payload: Json, document: Json): SdJwt.Primitives {
    SdJwt.Primitives(
      disclosure => disclosure,
      text => Base64Url.Decode(text),
      bytes => if bytes == [1] then Some(header) else if bytes == [2] then Some(payload)
               else if bytes == [3] then Some(document) else None,
      value => if value == header then [1] else if value == payload then [2] else [3])
  }

  lemma TinyReads(header: Json, payload: Json, document: Json)
    requires header != payload && header != document && payload != document
    ensures var p := Tiny(header, payload, document);
      SdJwt.Decodes(p) && SdJwt.ReadsBack(p, header) && SdJwt.ReadsBack(p, payload) && SdJwt.ReadsBack(p, document)
  {
    var p := Tiny(header, payload, document);
    forall x ensures p.decode(Base64Url.Encode(x)) == Some(x) {
      Base64Url.RoundTrip(x);
    }
  }

  const LAB := Attester("lab", "https://lab", ["sd-jwt"])
  const CREDENTIAL := Issue([("role", "reader")], [[]], 0, 100, Null, "k", [0])
  const PUBLISHED := Obj(map["kid" := Str("k")])

  function TinyPayload(): Json {
    var d := Base64Url.Encode([3]);
    SdJwt.CredentialPayload("https://lab", 0, 100, Null, [SdJwt.Issued("role", "reader", d, d)])
  }

  function TinyLibraries(): SdJwt.Primitives {
    Tiny(LabHeader("k"), TinyPayload(), SdJwt.Document([], "role", "reader"))
  }

  lemma TinyIssues()
    ensures var p, d := TinyLibraries(), Base64Url.Encode([3]);
      && SdJwt.IssuedFor(p, CREDENTIAL.claims, CREDENTIAL.salts) == [SdJwt.Issued("role", "reader", d, d)]
      && PayloadOf(p, LAB, CREDENTIAL) == TinyPayload()
      && SdJwt.ReadsBack(p, LabHeader("k")) && SdJwt.ReadsBack(p, TinyPayload())
      && SdJwt.Faithful(p, CREDENTIAL.claims, CREDENTIAL.salts)
  {
    hide SdJwt.Decodes, SdJwt.ReadsBack, Base64Url.Encode, Base64Url.Decode;
    var document := SdJwt.Document([], "role", "reader");
    Differ(LabHeader("k"), TinyPayload());
    TinyReads(LabHeader("k"), TinyPayload(), document);
    assert TinyLibraries().write(document) == [3];
  }

  lemma Differ(header: Json, payload: Json)
    requires header.Obj? && payload.Obj? && "alg" in header.members && "alg" !in payload.members
    ensures header != payload
  {
  }

  lemma TinyTrusts(s: Setting, input: string, signature: seq<byte>)
    requires s.attesters == [LAB] && s.keysFor("lab") == Some([PUBLISHED])
    requires s.lib.algorithm(PUBLISHED) == Some("EdDSA") && s.lib.verifies(PUBLISHED, input, signature)
    ensures Trusts(s, LAB, "k", input, signature)
  {
    assert PUBLISHED in s.keysFor(LAB.id).value && TextMember(PUBLISHED, "kid") == Some("k");
  }

  lemma TinyChoice(p: SdJwt.Primitives)
    ensures Choice(p, CREDENTIAL, [0])
  {
    assert "role"[0] != "_sd"[0];
  }

  /** What is asked of a credential and of the libraries can be met. */
  lemma SomeCredentialPresents()
    ensures exists s: Setting, attester, c, chosen, evidence :: Presents(s, attester, c, chosen, evidence)
  {
    hide SdJwt.Faithful, SdJwt.ReadsBack, SdJwt.Presented, Base64Url.Encode, Tiny, TinyPayload, TinyLibraries,
         SdJwt.IssuedFor, PayloadOf, LabHeader, Trusts, SdJwt.Reserved;
    var p := TinyLibraries();
    TinyIssues();
    var jwt := CompactJws(p, LabHeader("k"), TinyPayload(), [0]);
    var issued := SdJwt.IssuedFor(p, CREDENTIAL.claims, CREDENTIAL.salts);
    var text := SdJwt.Presented(jwt, SdJwt.Chosen(issued, [0]));
    var lib := Libraries(p, _ => Some(text), jwk => Some(Verifier(jwk)), _ => Some("EdDSA"), (_, _, _) => true);
    var s := Setting(lib, [LAB], _ => Some([PUBLISHED]), 50);
    assert Trusts(s, LAB, "k", SigningInput(p, LabHeader("k"), TinyPayload()), [0]) by {
      TinyTrusts(s, SigningInput(p, LabHeader("k"), TinyPayload()), [0]);
    }
    assert WellIssued(s, LAB, CREDENTIAL);
    assert Choice(p, CREDENTIAL, [0]) by { TinyChoice(p); }
    assert Presents(s, LAB, CREDENTIAL, [0], []);
  }
}
