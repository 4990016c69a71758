// Selective disclosure (sections 4.2.1 and 7.1 of RFC 9901): the lab issues and presents, the realm
// splits and processes.

module SdJwt {
  import opened Basics
  import opened Texts
  import opened Ordering
  import Base64Url

  /** Library procedures: the base64url of a SHA-256, strict base64url decoding, JSON in and out. */
  datatype Primitives = Primitives(
    digest: string -> string,
    decode: string -> Option<seq<byte>>,
    parse: seq<byte> -> Option<Json>,
    write: Json -> seq<byte>)

  datatype Reject = NoTerminator | NoJwt | TooManyDisclosures
                  | NotCommitted | DigestTwice | NotBase64 | NotAnArray | NotAProperty | NameNotText
                  | ReservedName | WouldOverwrite

  const MAX_DISCLOSURES: nat := 128

  // --- Splitting a presentation ----------------------------------------------------------------

  function SplitPresentation(presentation: string): Result<(string, seq<string>), Reject> {
    if presentation == "" || presentation[|presentation| - 1] != '~' then Err(NoTerminator)
    else
      var segments := Split(presentation, '~');
      if segments[0] == "" then Err(NoJwt)
      else
        var disclosures := NonEmpty(segments[1..]);
        if |disclosures| > MAX_DISCLOSURES then Err(TooManyDisclosures) else Ok((segments[0], disclosures))
  }

  // --- Processing disclosures ------------------------------------------------------------------

  /** The digests the credential commits to. */
  function Committed(payload: Json): set<string> {
    var sd := payload.Get("_sd");
    if sd.Some? && sd.value.Arr? then set item | item in sd.value.items && item.Str? :: item.text else {}
  }

  /** Everything except the selective-disclosure machinery is always disclosed. */
  function Base(payload: Json): map<string, Json> {
    if payload.Obj? then payload.members - {"_sd", "_sd_alg"} else map[]
  }

  predicate Reserved(name: string) {
    "_sd" <= name || name == "..."
  }

  /** The claim a disclosure carries: `[salt, name, value]` with a name that may be disclosed. */
  function Opened(p: Primitives, disclosure: string): Result<(string, Json), Reject> {
    var bytes := p.decode(disclosure);
    if bytes.None? then Err(NotBase64)
    else
      var parts := p.parse(bytes.value);
      if parts.None? || !parts.value.Arr? then Err(NotAnArray)
      else if |parts.value.items| != 3 then Err(NotAProperty)
      else
        var name := parts.value.items[1].AsStr();
        if name.None? then Err(NameNotText)
        else if Reserved(name.value) then Err(ReservedName)
        else Ok((name.value, parts.value.items[2]))
  }

  /** One disclosure after another, into the claims found so far. */
  function Collected(p: Primitives, committed: set<string>, disclosures: seq<string>,
                     claims: map<string, Json>, used: set<string>): Result<map<string, Json>, Reject>
    decreases |disclosures|
  {
    if disclosures == [] then Ok(claims)
    else
      var computed := p.digest(disclosures[0]);
      if computed !in committed then Err(NotCommitted)
      else if computed in used then Err(DigestTwice)
      else
        var claim := Opened(p, disclosures[0]);
        if claim.Err? then Err(claim.error)
        else if claim.value.0 in claims then Err(WouldOverwrite)
        else Collected(p, committed, disclosures[1..], claims[claim.value.0 := claim.value.1], used + {computed})
  }

  function Processed(p: Primitives, payload: Json, disclosures: seq<string>): Result<map<string, Json>, Reject> {
    Collected(p, Committed(payload), disclosures, Base(payload), {})
  }

  method ProcessDisclosures(p: Primitives, payload: Json, disclosures: seq<string>)
    returns (r: Result<map<string, Json>, Reject>)
    ensures r == Processed(p, payload, disclosures)
  {
    var committed := Committed(payload);
    var claims := Base(payload);
    var used: set<string> := {};
    var i := 0;
    assert disclosures[0..] == disclosures;
    while i < |disclosures|
      invariant 0 <= i <= |disclosures|
      invariant Processed(p, payload, disclosures) == Collected(p, committed, disclosures[i..], claims, used)
    {
      assert disclosures[i..][1..] == disclosures[i + 1..];
      var disclosure := disclosures[i];
      var computed := p.digest(disclosure);
      if computed !in committed { return Err(NotCommitted); }
      if computed in used { return Err(DigestTwice); }
      used := used + {computed};
      var claim := Opened(p, disclosure);
      if claim.Err? { return Err(claim.error); }
      var (name, value) := claim.value;
      if name in claims { return Err(WouldOverwrite); }
      claims := claims[name := value];
      i := i + 1;
    }
    r := Ok(claims);
  }

  // --- Exactly which presentations are accepted, and as what -----------------------------------

  /** A set of disclosures that may be presented together against `committed` over `base`. */
  ghost predicate Presentable(p: Primitives, committed: set<string>, base: map<string, Json>, ds: set<string>) {
    && (forall d :: d in ds ==> p.digest(d) in committed && Opened(p, d).Ok? && Opened(p, d).value.0 !in base)
    && (forall d, d' :: d in ds && d' in ds && d != d' ==>
          p.digest(d) != p.digest(d') && Opened(p, d).value.0 != Opened(p, d').value.0)
  }

  /** `claims` is `base` and exactly the claims of `ds`, none overwriting another. */
  ghost predicate Discloses(p: Primitives, base: map<string, Json>, ds: set<string>, claims: map<string, Json>)
    requires forall d :: d in ds ==> Opened(p, d).Ok?
  {
    && (forall k :: k in base ==> k in claims && claims[k] == base[k])
    && (forall d :: d in ds ==> Opened(p, d).value.0 in claims && claims[Opened(p, d).value.0] == Opened(p, d).value.1)
    && (forall k :: k in claims ==> k in base || exists d :: d in ds && Opened(p, d).value.0 == k)
  }

  ghost predicate DigestsUnused(p: Primitives, used: set<string>, ds: set<string>) {
    forall d :: d in ds ==> p.digest(d) !in used
  }

  lemma {:induction false} CollectedExactly(p: Primitives, committed: set<string>, disclosures: seq<string>,
                                            claims: map<string, Json>, used: set<string>)
    ensures var r, ds := Collected(p, committed, disclosures, claims, used), Elements(disclosures);
      && (r.Ok? <==> Distinct(disclosures) && Presentable(p, committed, claims, ds) && DigestsUnused(p, used, ds))
      && (r.Ok? ==> Discloses(p, claims, ds, r.value) && |r.value| == |claims| + |disclosures|)
    decreases |disclosures|
  {
    hide Opened, Presentable, Discloses, DigestsUnused, Distinct, Elements;
    if disclosures == [] {
      NothingDisclosed(p, committed, claims, used);
    } else {
      var d, rest := disclosures[0], disclosures[1..];
      if p.digest(d) in committed && p.digest(d) !in used && Opened(p, d).Ok? && Opened(p, d).value.0 !in claims {
        var (name, value) := Opened(p, d).value;
        CollectedExactly(p, committed, rest, claims[name := value], used + {p.digest(d)});
        CollectedStep(p, committed, disclosures, claims, used);
        if Collected(p, committed, disclosures, claims, used).Ok? {
          DisclosesStep(p, committed, disclosures, claims, Collected(p, committed, disclosures, claims, used).value);
        }
      } else {
        FirstFails(p, committed, disclosures, claims, used);
      }
    }
  }

  lemma NothingDisclosed(p: Primitives, committed: set<string>, claims: map<string, Json>, used: set<string>)
    ensures var none: seq<string> := [];
      && Distinct(none) && Presentable(p, committed, claims, Elements(none)) && DigestsUnused(p, used, Elements(none))
      && Discloses(p, claims, Elements(none), claims)
  {
  }

  lemma FirstFails(p: Primitives, committed: set<string>, disclosures: seq<string>,
                   claims: map<string, Json>, used: set<string>)
    requires disclosures != []
    requires var d := disclosures[0];
      p.digest(d) !in committed || p.digest(d) in used || Opened(p, d).Err? || Opened(p, d).value.0 in claims
    ensures !(Presentable(p, committed, claims, Elements(disclosures)) && DigestsUnused(p, used, Elements(disclosures)))
  {
    hide Opened;
    assert disclosures[0] in Elements(disclosures);
  }

  lemma DisclosesStep(p: Primitives, committed: set<string>, disclosures: seq<string>,
                      claims: map<string, Json>, result: map<string, Json>)
    requires disclosures != [] && Presentable(p, committed, claims, Elements(disclosures))
    requires var d, rest := disclosures[0], disclosures[1..];
      && Opened(p, d).Ok?
      && Presentable(p, committed, claims[Opened(p, d).value.0 := Opened(p, d).value.1], Elements(rest))
      && Discloses(p, claims[Opened(p, d).value.0 := Opened(p, d).value.1], Elements(rest), result)
    ensures Discloses(p, claims, Elements(disclosures), result)
  {
    hide Opened;
    var d, rest := disclosures[0], disclosures[1..];
    assert disclosures == [d] + rest;
    assert Elements(disclosures) == {d} + Elements(rest);
    assert d in Elements(disclosures);
  }

  lemma DistinctCons(s: seq<string>)
    requires s != []
    ensures Distinct(s) <==> Distinct(s[1..]) && s[0] !in s[1..]
  {
    var rest := s[1..];
    assert forall i :: 0 <= i < |rest| ==> rest[i] == s[i + 1];
    if Distinct(rest) && s[0] !in rest {
      assert forall i :: 0 < i < |s| ==> s[i] == rest[i - 1] && s[i] in rest;
    }
  }

  lemma CollectedStep(p: Primitives, committed: set<string>, disclosures: seq<string>,
                      claims: map<string, Json>, used: set<string>)
    requires disclosures != []
    requires var d := disclosures[0];
      p.digest(d) in committed && p.digest(d) !in used && Opened(p, d).Ok? && Opened(p, d).value.0 !in claims
    ensures var d, rest := disclosures[0], disclosures[1..];
      var claims' := claims[Opened(p, d).value.0 := Opened(p, d).value.1];
      var all, some, used' := Elements(disclosures), Elements(rest), used + {p.digest(d)};
      Distinct(disclosures) && Presentable(p, committed, claims, all) && DigestsUnused(p, used, all)
      <==> Distinct(rest) && Presentable(p, committed, claims', some) && DigestsUnused(p, used', some)
  {
    hide Opened, Distinct;
    var d, rest := disclosures[0], disclosures[1..];
    var name := Opened(p, d).value.0;
    var all, some := Elements(disclosures), Elements(rest);
    assert disclosures == [d] + rest && all == {d} + some;
    DistinctCons(disclosures);
    assert d in all;
  }

  /** A presentation is accepted exactly when its disclosures are distinct, committed, well formed,
      and name each claim once and no claim already there; the claims are then the always-disclosed
      ones plus exactly those, one per disclosure. */
  lemma ProcessedExactly(p: Primitives, payload: Json, disclosures: seq<string>)
    ensures var r, ds := Processed(p, payload, disclosures), Elements(disclosures);
      && (r.Ok? <==> Distinct(disclosures) && Presentable(p, Committed(payload), Base(payload), ds))
      && (r.Ok? ==> Discloses(p, Base(payload), ds, r.value) && |r.value| == |Base(payload)| + |disclosures|)
  {
    CollectedExactly(p, Committed(payload), disclosures, Base(payload), {});
  }

  /** Any selection from an accepted list, in any order, is accepted and discloses a part of the
      claims; a reordering discloses the same claims. */
  lemma SelectionAccepted(p: Primitives, payload: Json, disclosures: seq<string>, selected: seq<string>)
    requires Processed(p, payload, disclosures).Ok? && multiset(selected) <= multiset(disclosures)
    ensures Processed(p, payload, selected).Ok?
    ensures forall k :: k in Processed(p, payload, selected).value ==>
      k in Processed(p, payload, disclosures).value
      && Processed(p, payload, selected).value[k] == Processed(p, payload, disclosures).value[k]
    ensures multiset(selected) == multiset(disclosures) ==>
      Processed(p, payload, selected) == Processed(p, payload, disclosures)
  {
    hide Processed, Opened, Base, Committed, Presentable, Discloses, Elements;
    ProcessedExactly(p, payload, disclosures);
    SelectionDistinct(disclosures, selected);
    PresentableSubset(p, Committed(payload), Base(payload), Elements(disclosures), Elements(selected));
    ProcessedExactly(p, payload, selected);
    var whole, part := Processed(p, payload, disclosures).value, Processed(p, payload, selected).value;
    DisclosesMore(p, Committed(payload), Base(payload), Elements(selected), Elements(disclosures), part, whole);
    if multiset(selected) == multiset(disclosures) {
      SelectionDistinct(selected, disclosures);
      DisclosesMore(p, Committed(payload), Base(payload), Elements(disclosures), Elements(selected), whole, part);
      assert whole == part;
    }
  }

  lemma PresentableSubset(p: Primitives, committed: set<string>, base: map<string, Json>,
                          ds: set<string>, some: set<string>)
    requires Presentable(p, committed, base, ds) && some <= ds
    ensures Presentable(p, committed, base, some)
  {
    hide Opened;
  }

  lemma DisclosesMore(p: Primitives, committed: set<string>, base: map<string, Json>,
                      some: set<string>, all: set<string>, less: map<string, Json>, more: map<string, Json>)
    requires some <= all && Presentable(p, committed, base, all) && Presentable(p, committed, base, some)
    requires Discloses(p, base, some, less) && Discloses(p, base, all, more)
    ensures forall k :: k in less ==> k in more && less[k] == more[k]
  {
    hide Opened;
  }

  lemma SelectionDistinct(whole: seq<string>, part: seq<string>)
    requires Distinct(whole) && multiset(part) <= multiset(whole)
    ensures Distinct(part) && Elements(part) <= Elements(whole)
  {
    forall i, j | 0 <= i < j < |part| ensures part[i] != part[j] {
      OnlyOnce(whole, part[i]);
      if part[i] == part[j] { TwicePresent(part, i, j); }
    }
    forall d | d in part ensures d in whole {
      assert d in multiset(part);
    }
  }

  // --- Issuing and presenting ------------------------------------------------------------------

  datatype Issued = Issued(claim: string, value: string, disclosure: string, digest: string)

  /** What a disclosure says: its salt, a name and a value. */
  function Document(salt: seq<byte>, name: string, value: string): Json {
    Arr([Str(Base64Url.Encode(salt)), Str(name), Str(value)])
  }

  function Disclosure(p: Primitives, salt: seq<byte>, name: string, value: string): string {
    Base64Url.Encode(p.write(Document(salt, name, value)))
  }

  /** One disclosure per claim, with its own salt; the claims are a map listed by name. */
  method IssueDisclosures(p: Primitives, claims: seq<(string, string)>, salts: seq<seq<byte>>)
    returns (issued: seq<Issued>)
    requires |salts| == |claims|
    ensures issued == IssuedFor(p, claims, salts)
  {
    issued := [];
    for i := 0 to |claims|
      invariant issued == IssuedFor(p, claims[..i], salts[..i])
    {
      var (name, value) := claims[i];
      var disclosure := Disclosure(p, salts[i], name, value);
      issued := issued + [Issued(name, value, disclosure, p.digest(disclosure))];
      assert claims[..i + 1][..i] == claims[..i] && salts[..i + 1][..i] == salts[..i];
    }
    assert claims[..|claims|] == claims && salts[..|salts|] == salts;
  }

  function IssuedFor(p: Primitives, claims: seq<(string, string)>, salts: seq<seq<byte>>): (r: seq<Issued>)
    requires |salts| == |claims|
    ensures |r| == |claims|
    ensures forall i :: 0 <= i < |r| ==>
      && r[i].claim == claims[i].0 && r[i].value == claims[i].1
      && r[i].disclosure == Disclosure(p, salts[i], claims[i].0, claims[i].1)
      && r[i].digest == p.digest(r[i].disclosure)
  {
    seq(|claims|, i requires 0 <= i < |claims| =>
      var d := Disclosure(p, salts[i], claims[i].0, claims[i].1);
      Issued(claims[i].0, claims[i].1, d, p.digest(d)))
  }

  function DigestsOf(issued: seq<Issued>): (r: seq<string>)
    ensures |r| == |issued| && forall i :: 0 <= i < |r| ==> r[i] == issued[i].digest
  {
    seq(|issued|, i requires 0 <= i < |issued| => issued[i].digest)
  }

  function AsStrings(texts: seq<string>): (r: seq<Json>)
    ensures |r| == |texts| && forall i :: 0 <= i < |r| ==> r[i] == Str(texts[i])
  {
    seq(|texts|, i requires 0 <= i < |texts| => Str(texts[i]))
  }

  /** The payload the lab signs: the commitments are sorted, so their order says nothing. */
  function CredentialPayload(issuer: string, issuedAt: int, expiresAt: int, jwk: Json, issued: seq<Issued>): Json {
    Obj(map[
      "iss" := Str(issuer), "iat" := Int(issuedAt), "exp" := Int(expiresAt),
      "_sd_alg" := Str("sha-256"), "_sd" := Arr(AsStrings(SortBy(StringLe, DigestsOf(issued)))),
      "cnf" := Obj(map["jwk" := jwk])])
  }

  function Presented(jwt: string, disclosures: seq<string>): string {
    if disclosures == [] then jwt + ['~']
    else Presented(jwt, disclosures[..|disclosures| - 1]) + disclosures[|disclosures| - 1] + ['~']
  }

  method Present(jwt: string, disclosures: seq<string>) returns (presentation: string)
    ensures presentation == Presented(jwt, disclosures)
  {
    presentation := jwt;
    for i := 0 to |disclosures|
      invariant presentation + ['~'] == Presented(jwt, disclosures[..i])
    {
      assert disclosures[..i + 1][..i] == disclosures[..i];
      presentation := presentation + ['~'];
      presentation := presentation + disclosures[i];
    }
    assert disclosures[..|disclosures|] == disclosures;
    presentation := presentation + ['~'];
  }

  // --- The round trip --------------------------------------------------------------------------

  /** The base64url library inverts the encoding. */
  ghost predicate Decodes(p: Primitives) {
    forall x :: p.decode(Base64Url.Encode(x)) == Some(x)
  }

  /** The JSON library reads back a document it wrote, and writes something for it. */
  ghost predicate ReadsBack(p: Primitives, v: Json) {
    p.parse(p.write(v)) == Some(v) && p.write(v) != []
  }

  /** What is asked of the libraries, of the documents written and no others. */
  ghost predicate Faithful(p: Primitives, claims: seq<(string, string)>, salts: seq<seq<byte>>)
    requires |salts| == |claims|
  {
    Decodes(p) && forall i :: 0 <= i < |claims| ==> ReadsBack(p, Document(salts[i], claims[i].0, claims[i].1))
  }

  ghost predicate Plain(s: string) {
    s != "" && '~' !in s
  }

  lemma {:induction false} PresentedIsJoin(jwt: string, disclosures: seq<string>)
    ensures Presented(jwt, disclosures) == Join([jwt] + disclosures + [""], '~')
  {
    if disclosures == [] {
      assert [jwt] + [] + [""] == [jwt, ""] && [jwt, ""][1..] == [""];
      assert jwt + ['~'] + "" == jwt + ['~'];
    } else {
      var front, last := disclosures[..|disclosures| - 1], disclosures[|disclosures| - 1];
      PresentedIsJoin(jwt, front);
      assert [jwt] + disclosures == ([jwt] + front) + [last];
      JoinExtend([jwt] + front, last);
    }
  }

  lemma {:induction false} JoinExtend(parts: seq<string>, last: string)
    ensures Join(parts + [last] + [""], '~') == Join(parts + [""], '~') + last + ['~']
  {
    if parts == [] {
      assert parts + [last] + [""] == [last, ""] && [last, ""][1..] == [""] && parts + [""] == [""];
      assert last + ['~'] + "" == "" + last + ['~'];
    } else {
      JoinExtend(parts[1..], last);
      assert (parts + [last] + [""])[1..] == parts[1..] + [last] + [""];
      assert (parts + [""])[1..] == parts[1..] + [""];
      var a, b := parts[0] + ['~'], Join(parts[1..] + [""], '~');
      assert a + (b + last + ['~']) == a + b + last + ['~'];
    }
  }

  lemma {:induction false} NonEmptyOf(disclosures: seq<string>)
    requires forall i :: 0 <= i < |disclosures| ==> disclosures[i] != ""
    ensures NonEmpty(disclosures + [""]) == disclosures
  {
    if disclosures == [] {
      assert disclosures + [""] == [""] && [""][1..] == [];
    } else {
      assert (disclosures + [""])[1..] == disclosures[1..] + [""];
      NonEmptyOf(disclosures[1..]);
    }
  }

  /** What is presented splits back into the same JWT and the same disclosures, in order. */
  lemma PresentationSplits(jwt: string, disclosures: seq<string>)
    requires Plain(jwt) && forall i :: 0 <= i < |disclosures| ==> Plain(disclosures[i])
    ensures SplitPresentation(Presented(jwt, disclosures)) ==
      if |disclosures| > MAX_DISCLOSURES then Err(TooManyDisclosures) else Ok((jwt, disclosures))
  {
    hide Split, Join, NonEmpty, Presented;
    var parts := [jwt] + disclosures + [""];
    PresentedIsJoin(jwt, disclosures);
    PartsPlain(jwt, disclosures);
    SplitJoin(parts, '~');
    assert parts[1..] == disclosures + [""] && parts[0] == jwt;
    NonEmptyOf(disclosures);
    PresentedEnds(jwt, disclosures);
  }

  lemma PresentedEnds(jwt: string, disclosures: seq<string>)
    ensures Presented(jwt, disclosures) != "" && Presented(jwt, disclosures)[|Presented(jwt, disclosures)| - 1] == '~'
  {
  }

  lemma PartsPlain(jwt: string, disclosures: seq<string>)
    requires Plain(jwt) && forall i :: 0 <= i < |disclosures| ==> Plain(disclosures[i])
    ensures forall q :: q in [jwt] + disclosures + [""] ==> '~' !in q
  {
    var parts := [jwt] + disclosures + [""];
    forall q | q in parts ensures '~' !in q {
      var i :| 0 <= i < |parts| && parts[i] == q;
      if 0 < i <= |disclosures| { assert q == disclosures[i - 1]; }
    }
  }

  lemma EncodedIsPlain(bytes: seq<byte>)
    requires bytes != []
    ensures Plain(Base64Url.Encode(bytes)) && '.' !in Base64Url.Encode(bytes)
  {
    Base64Url.EncodeShape(bytes);
    var s := Base64Url.Encode(bytes);
    assert Base64Url.Position('~').None? && Base64Url.Position('.').None?;
    assert |s| > 0;
  }

  /** What opening an honest disclosure gives. */
  function Opening(name: string, value: string): Result<(string, Json), Reject> {
    if Reserved(name) then Err(ReservedName) else Ok((name, Str(value)))
  }

  lemma DisclosureOpens(p: Primitives, salt: seq<byte>, name: string, value: string)
    requires Decodes(p) && ReadsBack(p, Document(salt, name, value))
    ensures Plain(Disclosure(p, salt, name, value))
    ensures Opened(p, Disclosure(p, salt, name, value)) == Opening(name, value)
  {
    EncodedIsPlain(p.write(Document(salt, name, value)));
  }

  /** Different claims give different disclosures, whatever the salts. */
  lemma DisclosuresDiffer(p: Primitives, salt: seq<byte>, name: string, value: string,
                          salt': seq<byte>, name': string, value': string)
    requires Decodes(p) && name != name'
    requires ReadsBack(p, Document(salt, name, value)) && ReadsBack(p, Document(salt', name', value'))
    ensures Disclosure(p, salt, name, value) != Disclosure(p, salt', name', value')
  {
    var a, b := Document(salt, name, value), Document(salt', name', value');
    assert a.items[1] != b.items[1];
    assert p.decode(Disclosure(p, salt, name, value)) == Some(p.write(a));
    assert p.decode(Disclosure(p, salt', name', value')) == Some(p.write(b));
    assert p.parse(p.write(a)) != p.parse(p.write(b));
  }

  /** `chosen` picks distinct issued disclosures by index, in any order. */
  ghost predicate Chooses(issued: seq<Issued>, chosen: seq<nat>) {
    Distinct(chosen) && forall i :: 0 <= i < |chosen| ==> chosen[i] < |issued|
  }

  function Chosen(issued: seq<Issued>, chosen: seq<nat>): (r: seq<string>)
    requires forall i :: 0 <= i < |chosen| ==> chosen[i] < |issued|
    ensures |r| == |chosen| && forall i :: 0 <= i < |r| ==> r[i] == issued[chosen[i]].disclosure
  {
    seq(|chosen|, i requires 0 <= i < |chosen| => issued[chosen[i]].disclosure)
  }

  /** No two issued disclosures share a digest. */
  ghost predicate CollisionFree(issued: seq<Issued>) {
    forall i, j :: 0 <= i < j < |issued| ==> issued[i].digest != issued[j].digest
  }

  ghost predicate DistinctNames(claims: seq<(string, string)>) {
    forall i, j :: 0 <= i < j < |claims| ==> claims[i].0 != claims[j].0
  }

  lemma CommitmentsOf(issuer: string, issuedAt: int, expiresAt: int, jwk: Json, issued: seq<Issued>)
    ensures Committed(CredentialPayload(issuer, issuedAt, expiresAt, jwk, issued)) == Elements(DigestsOf(issued))
    ensures Base(CredentialPayload(issuer, issuedAt, expiresAt, jwk, issued)) ==
      map["iss" := Str(issuer), "iat" := Int(issuedAt), "exp" := Int(expiresAt), "cnf" := Obj(map["jwk" := jwk])]
  {
    hide SortBy, StringLe, Sorted, TotalOrder, DigestsOf;
    var digests := DigestsOf(issued);
    var sorted := SortBy(StringLe, digests);
    StringsOrdered();
    SortBySorted(StringLe, digests);
    var items := AsStrings(sorted);
    var payload := CredentialPayload(issuer, issuedAt, expiresAt, jwk, issued);
    assert payload.Get("_sd") == Some(Arr(items));
    forall d ensures d in Committed(payload) <==> d in Elements(digests) {
      assert d in digests <==> d in multiset(digests);
      assert d in sorted <==> d in multiset(sorted);
      if d in sorted {
        var i :| 0 <= i < |sorted| && sorted[i] == d;
        assert items[i] in items;
      }
    }
  }

  const ALWAYS_DISCLOSED: set<string> := {"iss", "iat", "exp", "cnf"}

  /** A name that may be disclosed beside the claims that always are. */
  predicate MayDisclose(name: string) { !Reserved(name) && name !in ALWAYS_DISCLOSED }

  /** Issuer, holder and verifier agree: of any claims, any chosen disclosures are accepted exactly
      when no chosen name is reserved or always disclosed, and then yield the always-disclosed claims
      and exactly the chosen ones. */
  lemma CredentialRoundTrip(p: Primitives, claims: seq<(string, string)>, salts: seq<seq<byte>>, chosen: seq<nat>,
                            issuer: string, issuedAt: int, expiresAt: int, jwk: Json)
    requires |salts| == |claims| && Faithful(p, claims, salts) && DistinctNames(claims)
    requires CollisionFree(IssuedFor(p, claims, salts)) && Chooses(IssuedFor(p, claims, salts), chosen)
    ensures var issued := IssuedFor(p, claims, salts);
      var payload := CredentialPayload(issuer, issuedAt, expiresAt, jwk, issued);
      var r := Processed(p, payload, Chosen(issued, chosen));
      && (r.Ok? <==> forall i :: 0 <= i < |chosen| ==> MayDisclose(claims[chosen[i]].0))
      && (r.Ok? ==>
           && |r.value| == 4 + |chosen|
           && (forall k :: k in Base(payload) ==> k in r.value && r.value[k] == Base(payload)[k])
           && (forall i :: 0 <= i < |chosen| ==>
                 claims[chosen[i]].0 in r.value && r.value[claims[chosen[i]].0] == Str(claims[chosen[i]].1)))
  {
    hide Processed, Opened, Base, Committed, Disclosure, Document, ReadsBack, Decodes, CredentialPayload, Reserved,
         Presentable, Discloses;
    var issued := IssuedFor(p, claims, salts);
    var payload := CredentialPayload(issuer, issuedAt, expiresAt, jwk, issued);
    var ds := Chosen(issued, chosen);
    CommitmentsOf(issuer, issuedAt, expiresAt, jwk, issued);
    ProcessedExactly(p, payload, ds);
    forall i | 0 <= i < |issued|
      ensures Opened(p, issued[i].disclosure) == Opening(claims[i].0, claims[i].1)
      ensures issued[i].digest in Committed(payload)
    {
      DisclosureOpens(p, salts[i], claims[i].0, claims[i].1);
      assert DigestsOf(issued)[i] in DigestsOf(issued);
    }
    ChosenDistinct(p, claims, salts, chosen);
    assert Base(payload).Keys == ALWAYS_DISCLOSED;
    assert |Base(payload)| == |Base(payload).Keys| == 4;
    ChosenPresentable(p, claims, salts, chosen, payload);
    if Processed(p, payload, ds).Ok? {
      ChosenDisclosed(p, claims, salts, chosen, payload, Processed(p, payload, ds).value);
    }
  }

  lemma ChosenDisclosed(p: Primitives, claims: seq<(string, string)>, salts: seq<seq<byte>>, chosen: seq<nat>,
                        payload: Json, all: map<string, Json>)
    requires |salts| == |claims| && Chooses(IssuedFor(p, claims, salts), chosen)
    requires forall i :: 0 <= i < |claims| && !Reserved(claims[i].0) ==>
      Opened(p, IssuedFor(p, claims, salts)[i].disclosure) == Ok((claims[i].0, Str(claims[i].1)))
    requires forall i :: 0 <= i < |chosen| ==> !Reserved(claims[chosen[i]].0)
    requires var ds := Elements(Chosen(IssuedFor(p, claims, salts), chosen));
      (forall d :: d in ds ==> Opened(p, d).Ok?) && Discloses(p, Base(payload), ds, all)
    ensures forall k :: k in Base(payload) ==> k in all && all[k] == Base(payload)[k]
    ensures forall i :: 0 <= i < |chosen| ==>
      claims[chosen[i]].0 in all && all[claims[chosen[i]].0] == Str(claims[chosen[i]].1)
  {
    hide Opened, Base, Disclosure, Reserved;
    var issued := IssuedFor(p, claims, salts);
    var ds := Chosen(issued, chosen);
    forall i | 0 <= i < |chosen|
      ensures claims[chosen[i]].0 in all && all[claims[chosen[i]].0] == Str(claims[chosen[i]].1)
    {
      assert ds[i] in Elements(ds) && ds[i] == issued[chosen[i]].disclosure;
    }
  }

  lemma ChosenDistinct(p: Primitives, claims: seq<(string, string)>, salts: seq<seq<byte>>, chosen: seq<nat>)
    requires |salts| == |claims| && Faithful(p, claims, salts) && DistinctNames(claims)
    requires Chooses(IssuedFor(p, claims, salts), chosen)
    ensures Distinct(Chosen(IssuedFor(p, claims, salts), chosen))
  {
    hide Disclosure, Document, ReadsBack, Decodes;
    var ds := Chosen(IssuedFor(p, claims, salts), chosen);
    forall i, j | 0 <= i < j < |ds| ensures ds[i] != ds[j] {
      var a, b := chosen[i], chosen[j];
      DisclosuresDiffer(p, salts[a], claims[a].0, claims[a].1, salts[b], claims[b].0, claims[b].1);
    }
  }

  lemma ChosenPresentable(p: Primitives, claims: seq<(string, string)>, salts: seq<seq<byte>>, chosen: seq<nat>,
                          payload: Json)
    requires |salts| == |claims| && DistinctNames(claims)
    requires var issued := IssuedFor(p, claims, salts);
      && CollisionFree(issued) && Chooses(issued, chosen)
      && (forall i :: 0 <= i < |issued| ==>
            Opened(p, issued[i].disclosure) == Opening(claims[i].0, claims[i].1)
            && issued[i].digest in Committed(payload))
    requires Base(payload).Keys == ALWAYS_DISCLOSED
    ensures var ds := Elements(Chosen(IssuedFor(p, claims, salts), chosen));
      Presentable(p, Committed(payload), Base(payload), ds) <==>
      forall i :: 0 <= i < |chosen| ==> MayDisclose(claims[chosen[i]].0)
  {
    hide Opened, Base, Committed, Disclosure, Reserved, IssuedFor, Chosen, Elements;
    var issued := IssuedFor(p, claims, salts);
    var list := Chosen(issued, chosen);
    var ds := Elements(list);
    if forall i :: 0 <= i < |chosen| ==> MayDisclose(claims[chosen[i]].0) {
      forall d | d in ds
        ensures p.digest(d) in Committed(payload) && Opened(p, d).Ok? && Opened(p, d).value.0 !in Base(payload)
      {
        var i :| 0 <= i < |list| && list[i] == d;
        assert Opened(p, issued[chosen[i]].disclosure).Ok?;
      }
      forall d, d' | d in ds && d' in ds && d != d'
        ensures p.digest(d) != p.digest(d') && Opened(p, d).value.0 != Opened(p, d').value.0
      {
        var i :| 0 <= i < |list| && list[i] == d;
        var j :| 0 <= j < |list| && list[j] == d';
        var a, b := chosen[i], chosen[j];
        assert a != b;
        assert issued[a].digest != issued[b].digest;
        assert claims[a].0 != claims[b].0;
      }
    } else {
      var i :| 0 <= i < |chosen| && !MayDisclose(claims[chosen[i]].0);
      assert list[i] in ds && list[i] == issued[chosen[i]].disclosure;
    }
  }

  // --- The same in terms of the texts and documents themselves ---------------------------------

  /** A presentation is the JWT and what follows it, each piece ended by `~`. */
  ghost predicate PresentedAs(text: string, jwt: string, pieces: seq<string>) {
    && pieces != [] && pieces[|pieces| - 1] == "" && '~' !in jwt && (forall piece :: piece in pieces ==> '~' !in piece)
    && text == Join([jwt] + pieces, '~')
  }

  /** A presentation splits into a JWT and disclosures exactly when it is that JWT and pieces, each ended by
      `~`, the JWT is there, and the disclosures are the pieces that hold anything, at most 128. A text
      that does not end in `~` is refused as such. */
  lemma SplitExactly(text: string, jwt: string, disclosures: seq<string>)
    ensures SplitPresentation(text) == Ok((jwt, disclosures)) <==>
      && jwt != "" && |disclosures| <= 128
      && exists pieces :: PresentedAs(text, jwt, pieces) && disclosures == NonEmpty(pieces)
    ensures text == "" || text[|text| - 1] != '~' ==> SplitPresentation(text) == Err(NoTerminator)
  {
    hide Split, NonEmpty, Join;
    if pieces :| PresentedAs(text, jwt, pieces) && disclosures == NonEmpty(pieces) {
      PiecesSplit(text, jwt, pieces);
    }
    if SplitPresentation(text) == Ok((jwt, disclosures)) {
      var pieces := Split(text, '~')[1..];
      SplitPieces(text);
      assert PresentedAs(text, jwt, pieces);
    }
  }

  lemma PiecesSplit(text: string, jwt: string, pieces: seq<string>)
    requires PresentedAs(text, jwt, pieces)
    ensures Split(text, '~') == [jwt] + pieces && text != "" && text[|text| - 1] == '~'
  {
    hide Split, Join;
    var all := [jwt] + pieces;
    forall piece | piece in all ensures '~' !in piece { assert piece == jwt || piece in pieces; }
    SplitJoin(all, '~');
    JoinEnds(all);
  }

  lemma {:induction false} JoinEnds(parts: seq<string>)
    requires |parts| >= 2 && parts[|parts| - 1] == ""
    ensures Join(parts, '~') != "" && Join(parts, '~')[|Join(parts, '~')| - 1] == '~'
  {
    var rest := parts[1..];
    if |parts| == 2 {
      assert rest == [""] && Join(rest, '~') == "";
    } else {
      JoinEnds(rest);
    }
  }

  lemma SplitPieces(text: string)
    requires text != "" && text[|text| - 1] == '~'
    ensures var parts := Split(text, '~');
      |parts| >= 2 && parts[|parts| - 1] == "" && '~' !in parts[0] && PresentedAs(text, parts[0], parts[1..])
  {
    hide Split, Join;
    var parts := Split(text, '~');
    JoinSplit(text, '~');
    assert parts[0] in parts;
    LastPiece(text, parts);
    assert [parts[0]] + parts[1..] == parts;
    forall piece | piece in parts[1..] ensures '~' !in piece { assert piece in parts; }
  }

  lemma {:induction false} LastPiece(text: string, parts: seq<string>)
    requires parts != [] && text == Join(parts, '~') && text != "" && text[|text| - 1] == '~'
    requires forall piece :: piece in parts ==> '~' !in piece
    ensures |parts| >= 2 && parts[|parts| - 1] == ""
    decreases |parts|
  {
    assert parts[0] in parts;
    if |parts| == 1 {
      assert false;
    } else {
      var rest := parts[1..];
      assert forall piece :: piece in rest ==> piece in parts;
      if Join(rest, '~') == "" {
        EmptyJoin(rest);
      } else {
        LastPiece(Join(rest, '~'), rest);
      }
    }
  }

  lemma EmptyJoin(parts: seq<string>)
    requires parts != [] && Join(parts, '~') == ""
    ensures parts == [""]
  {
  }

  /** A disclosure opens to a claim exactly when it decodes to a list of three, the second of which is a name
      that does not begin with `_sd` and is not `...`. */
  lemma OpensExactly(p: Primitives, disclosure: string, name: string, value: Json)
    ensures Opened(p, disclosure) == Ok((name, value)) <==>
      && p.decode(disclosure).Some?
      && (exists salt :: p.parse(p.decode(disclosure).value) == Some(Arr([salt, Str(name), value])))
      && !(|name| >= 3 && name[..3] == "_sd") && name != "..."
  {
    if Opened(p, disclosure) == Ok((name, value)) {
      var items := p.parse(p.decode(disclosure).value).value.items;
      assert items == [items[0], Str(name), value];
    }
  }

  /** What is committed are the texts listed under `_sd`; what is always disclosed, every member but the two
      of the machinery. */
  lemma PayloadSays(payload: Json, text: string)
    ensures text in Committed(payload) <==>
      && payload.Obj? && "_sd" in payload.members && payload.members["_sd"].Arr?
      && Str(text) in payload.members["_sd"].items
    ensures text in Base(payload) <==> payload.Obj? && text in payload.members && text != "_sd" && text != "_sd_alg"
    ensures text in Base(payload) ==> Base(payload)[text] == payload.members[text]
  {
  }

  /** Accepted claims agree with the payload on every member but those two; every other claim is one that a
      presented disclosure, whose digest the payload lists, opens to. */
  lemma AcceptedClaims(p: Primitives, payload: Json, disclosures: seq<string>, name: string)
    requires Processed(p, payload, disclosures).Ok? && payload.Obj?
    ensures var claims := Processed(p, payload, disclosures).value;
      && (name in payload.members && name != "_sd" && name != "_sd_alg" ==>
            name in claims && claims[name] == payload.members[name])
      && (name in claims && name !in payload.members ==>
            exists d :: d in disclosures && Opened(p, d) == Ok((name, claims[name]))
                        && "_sd" in payload.members && payload.members["_sd"].Arr?
                        && Str(p.digest(d)) in payload.members["_sd"].items)
  {
    hide Processed, Opened, Base, Committed;
    ProcessedExactly(p, payload, disclosures);
    PayloadSays(payload, name);
    var claims := Processed(p, payload, disclosures).value;
    if name in claims && name !in payload.members {
      var d :| d in Elements(disclosures) && Opened(p, d).value.0 == name;
      PayloadSays(payload, p.digest(d));
      assert Opened(p, d) == Ok((name, claims[name]));
    }
  }

  /** A disclosure carries its salt: the same claim salted differently is a different disclosure. */
  lemma SaltsDiffer(p: Primitives, salt: seq<byte>, salt': seq<byte>, name: string, value: string)
    requires Decodes(p) && ReadsBack(p, Document(salt, name, value)) && ReadsBack(p, Document(salt', name, value))
    requires salt != salt'
    ensures Disclosure(p, salt, name, value) != Disclosure(p, salt', name, value)
  {
    var a, b := Document(salt, name, value), Document(salt', name, value);
    assert p.decode(Base64Url.Encode(salt)) != p.decode(Base64Url.Encode(salt'));
    assert a.items[0] != b.items[0];
    assert p.decode(Disclosure(p, salt, name, value)) == Some(p.write(a));
    assert p.decode(Disclosure(p, salt', name, value)) == Some(p.write(b));
    assert p.parse(p.write(a)) != p.parse(p.write(b));
  }
}
