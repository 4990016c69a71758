# PIC-X: a verified model of the continuity engine and what it stands on

PIC-X turns an access token into a *PIC Token*: a realm-signed checkpoint that workloads advance, hop by hop, under
an authority and an expiry fixed when the lineage began. This project models, in Dafny, the parts of the repository
whose correctness spans more than one function, and proves what every run of them keeps.

* **The token endpoint** (`Exchange`, `Lineage`, `Expiry`, `Duration`, `Conformance`, `Authority`, `Template`, `Form`):
  initial exchanges, advances of arbitrary candidates, rejections, failing audit sinks and changes of the key ring as
  one state machine, with the audit log and the released tokens in its history.
* **Executor-profile evidence** (`SdJwt`, `Evidence`, `CredentialFlow`): issuing, presenting and validating an SD-JWT
  (sections 4.2.1 and 7.1 of RFC 9901), and the memo that lets one settlement validate a presentation twice.
* **Key rotation** (`KeyRing`, `KeyRotation`, `KeyTurns`, `KeyHalves`, `TrustWindow`): the directory key ring, over
  every run of passes that succeed or fail at any file operation, with key sets fetched and signatures made in between,
  and how long the token endpoint trusts what the ring signed.
* **The audit trail** (`AuditTrail`, `AuditSink`, `AuditRuns`, `Civil`, `DayFiles`): the hash chain over daily files, its
  seals, its verifier, the sink that writes it through failures, stops, crashes and new processes, and the calendar its
  file names come from.
* **Components that must agree with a history** (`KeyCache`, `Metrics`, `Witness`, `Host`): stale-serving key caches,
  the metrics registry, the pseudonym witness file and the server host's lifecycle.
* **Codecs** (`Der`, `Base64Url`, `Cbor`, `CborItems`, `CborReads`, with `BigEndian`): DER `RSAPublicKey` (sections 8.1.3 and 8.3 of
  ITU-T X.690, appendix A.1.1 of RFC 8017), base64url (section 5 of RFC 4648) and CBOR (section 3 of RFC 8949).

`Basics`, `Texts` and `Ordering` hold what several of these share. What changes in place in the repository is a class
or a loop here, proved against a function of its inputs or of its history; the lemmas are about those functions.
Cryptography, regular expressions, JSON text and UTF-8 are parameters: functions about which a lemma assumes only what
it states. `dafny verify dfyconfig.toml` checks everything.

## Where the code and its documentation differ

The model follows the code. Each of these is a lemma, with the exact condition beside it.

* The comment on the longest requested lifetime (crates/pic-x-realm/src/exchange.rs:55-57) says the realm's configured
  lifetime still caps it. It does not: `Expiry.RealmLifetimeIsNoCap`; `Expiry.InitialExactly` says what is granted.
* A configured lifetime of 2^63 seconds or more wraps to a negative number. Nothing unsafe follows, but every exchange
  without another source of expiry is refused: `Expiry.WrappedLifetime`, reachable by `Duration.WrappingLifetimeConfigurable`.
* The CBOR field sizes are documented to add up to the length of the input. They do exactly when the input is one
  well-formed map and nothing else: `CborReads.WeightsExactly`. A string cut short makes them exceed it
  (`CborItems.TruncatedStringOverweighs`), and what follows the map is what they leave over (`CborReads.WeightsWithin`).
* Changing a ring's algorithm is meant to put a key of the new kind in use at once. A waiting successor of the old kind
  takes over again when it comes due: `KeyTurns.MigrationUndone`; exactly then, by `KeyTurns.MigrationExactly`.
* A trail is meant to verify for as long as it is kept. A record that expires at the turn of a day makes what follows
  fail (`AuditSink.RecordVerifiesExactly`); what a new process finds after expiring old days verifies exactly when no
  record expired or all did (`AuditRuns.PrepareExactly`, and `AuditRuns.ExpiredStart` at an input). A flush that fails
  after its line was written (`AuditSink.FailedFlushBreaks`) and a process that ends after creating its day's file and
  before writing to it (`AuditSink.RestartExactly`) break it too. `AuditRuns.RunExactly` puts the conditions together.
* A lineage is meant to last until its expiry. The ring that signed it vouches for it only for its verification
  retention, and a requested expiry may lie beyond that: `TrustWindow.TrustExactly`, `TrustWindow.RequestedYearCutShort`.
* A witness file that ends in a carriage return changes meaning when a line is appended: `Witness.DanglingWitnessChanges`;
  otherwise, and only then, reading after appending is the old list and one entry, by `Witness.ReadAfterAppend`.
* A service that fails to start leaves the ones before it running (`Host.FirstStaysUp`): everything that came up is told
  to stop exactly when the run reaches shutdown or nothing came up (`Host.AllStoppedExactly`). A final record that fails
  leaves every audit sink unreleased, and nothing else does: `Host.SinksReleasedExactly`.

* A private half is meant to be deleted once its key is done. One whose key could not be recorded in the ring, because
  creating it failed after the file was written, is never deleted: `KeyHalves.FailedCreationStays`.

## Model

| member | source | states |
|---|---|---|
| `Lineage.EveryReleasedToken` | crates/pic-x-realm/src/exchange.rs:242-384 | In every run, every released token carries its root's lineage id and absolute expiry, stands at the number of advances it took, leaves strictly before that expiry and right after a successful record of its lineage and position |
| `Lineage.StepKeepsSound` | crates/pic-x-realm/src/exchange.rs:306-441 | Every initial exchange, advance of any candidate and change of the ring keeps the invariant: signatures continue their parents, tokens follow their records |
| `Lineage.RunIsSound` | crates/pic-x-realm/src/exchange.rs:203-441 | The invariant holds after every step of every run |
| `Lineage.RootFixes` | crates/pic-x-realm/src/exchange.rs:743-781 | Any signature's lineage id and expiry are those of the initial exchange it descends from, its position the length of the descent |
| `Lineage.RootGranted` | crates/pic-x-realm/src/exchange.rs:242-260 | In every run a signature with no parent carries the lineage id and the expiry some initial request was granted, made before it |
| `Lineage.EveryTokenWasGranted` | crates/pic-x-realm/src/exchange.rs:242-384 | In every run the expiry of every released token is the one the initial exchange that drew its lineage id was granted |
| `Lineage.OneAttemptPerAdvance` | crates/pic-x-realm/src/exchange.rs:322-443 | An advance past signer construction makes exactly one audit attempt, `advanced` if it settled and `rejected` if not; a token leaves if and only if it settled and the attempt succeeded |
| `Lineage.RejectedSays` | crates/pic-x-realm/src/exchange.rs:322-411 | The record of a rejection names nothing of a candidate that did not reach settlement, and otherwise the predecessor's lineage and the proposed position |
| `Lineage.InitialRecordsWhatItIssues` | crates/pic-x-realm/src/exchange.rs:279-304 | An initial exchange attempts a record exactly when it issued, and releases exactly when that record was written |
| `Lineage.SettledAdvance` | crates/pic-x-realm/src/exchange.rs:352-384 | A settled advance met every contract entry with the claims of its own evidence, each claim being the text asked for or a list that holds it, moved the challenge, and came from an unexpired checkpoint the realm signed with a key it still publishes |
| `Lineage.WithdrawnCheckpointNotAdvanced` | crates/pic-x-realm/src/checkpoints.rs:47-66 | Once every key that signed a checkpoint is withdrawn, no candidate built on it advances |
| `Lineage.SiblingsShareTheirLineage` | crates/pic-x-realm/src/exchange.rs:732-741 | Sibling branches of one checkpoint share its root, depth, lineage id and expiry |
| `Exchange.TokenEndpoint.ExchangeInitial` | crates/pic-x-realm/src/exchange.rs:203-304 | Appends exactly the events of an initial exchange; a token leaves if and only if it issued and its record was written, and says the realm, the subject, the time, the lineage id and a first checkpoint with the derived authority, signed by the active key |
| `Exchange.TokenEndpoint.Advance` | crates/pic-x-realm/src/exchange.rs:306-443 | A token leaves if and only if a signer exists, the candidate is well presented and settleable, and the record was written; it carries the next position, the settled authority and challenge, and the predecessor's lineage and expiry; a failing sink hides every other error |
| `Exchange.TokenEndpoint.PreflightCandidate` | crates/pic-x-realm/src/exchange.rs:628-781 | Passes exactly the well-presented candidates, and leaves the validator remembering their evidence |
| `Exchange.TokenEndpoint.Settle` | crates/pic-x-realm/src/exchange.rs:352-384 | Succeeds exactly when checkpoint trust, evidence, contract and the protocol's own checks hold; the checkpoint is one position on, with lineage and expiry carried over |
| `Exchange.VerdictExactly` | crates/pic-x-realm/src/exchange.rs:306-424 | Which verdict a request gets, on its own fields: unready without ring, algorithm or active key; advanced if and only if well presented (evidence, bound key, its JOSE and COSE algorithms, one key id, a new challenge, the predecessor's jti and exp) and settleable (unexpired lineage, a published key that verifies, every contract entry, the protocol's checks); otherwise rejected with what is known |
| `Exchange.PreflightExactly` | crates/pic-x-realm/src/exchange.rs:628-781 | The preflight passes exactly the well-presented candidates, with the predecessor's lineage and expiry and the proposed position |
| `Exchange.AdvancedSays` | crates/pic-x-realm/src/exchange.rs:346-384 | An advance is signed by the active key, one position on, with the settled authority, the next challenge, and lineage and expiry carried over |
| `Exchange.IssuedExactly` | crates/pic-x-realm/src/exchange.rs:225-277 | An initial request is issued a given checkpoint if and only if authority was derived, the expiry granted, a signer exists and signing succeeds; the checkpoint is the first, with that authority, challenge, lineage and expiry; a refused expiry is an invalid grant only when it would already be over |
| `Expiry.InitialExactly` | crates/pic-x-realm/src/exchange.rs:1186-1262 | An expiry is granted if and only if it is the one the proposal, source expiry, policy and lifetime ask for, stated without machine arithmetic; nothing overflows |
| `Expiry.AcceptedIsFuture` | crates/pic-x-realm/src/exchange.rs:1186-1262 | Every accepted expiry is in the future, wrapped lifetimes included; a requested one is at most a year ahead |
| `Expiry.RefusedExactly` | crates/pic-x-realm/src/exchange.rs:1186-1262 | Which refusal each malformed, late or excessive request gets |
| `Expiry.WrappedLifetime` | crates/pic-x-realm/src/exchange.rs:1186-1215 | With a lifetime of 2^63 seconds or more only a live source expiry is granted |
| `Expiry.RealmLifetimeIsNoCap` | crates/pic-x-realm/src/exchange.rs:55-57 | A realm whose lifetime is one second grants a requested year |
| `Duration.DurationRoundTrip` | crates/pic-x-core/src/config.rs:2069-2104 | Every number in every unit reads back as that many seconds, refused exactly when zero or too large |
| `Duration.DurationUnits` | crates/pic-x-core/src/config.rs:2070-2088 | Seconds, minutes, hours and days, in either letter case |
| `Duration.WrappingLifetimeConfigurable` | crates/pic-x-core/src/config.rs:2069-2104 | The largest 64-bit lifetime can be configured |
| `Conformance.CheckExactly` | crates/pic-x-realm/src/conformance.rs:52-99 | Conformance holds if and only if every entry is met: the claim is the text, or a list one of whose items is; of `name:member`, the claim before the first colon and the member after it. A refusal names the first entry that is not |
| `Conformance.EntryExactly` | crates/pic-x-realm/src/conformance.rs:58-94 | One entry passes if and only if it is met; otherwise it is missing when the claim is not disclosed or the key names none, and contradicted when it is |
| `Conformance.ContractOrderFree` | crates/pic-x-realm/src/conformance.rs:52-99 | However the contract is indexed, the outcome is the same |
| `Conformance.MoreDisclosedStillConforms` | crates/pic-x-realm/src/conformance.rs:52-137 | Disclosing more never breaks conformance |
| `Authority.ValidateRules` | crates/pic-x-core/src/config.rs:1241-1293 | A profile passes if and only if it has rules, rejects unmatched scopes, and its rules are complete with distinct names and priorities |
| `Authority.MapInvariants` | crates/pic-x-realm/src/exchange.rs:964-1014 | The loop computes the mapping the next rows are about |
| `Authority.MatchScope` | crates/pic-x-realm/src/exchange.rs:981-1000 | The first matching rule in the order given |
| `Authority.MappedExactly` | crates/pic-x-realm/src/exchange.rs:964-1014 | With distinct priorities, mapping succeeds exactly when every pattern compiles, every scope maps and something is granted; an invariant is granted if and only if the four templates of some scope's winner render to its four fields; which refusal each failure gets |
| `Authority.WinnerUnique` | crates/pic-x-core/src/config.rs:1261-1267 | Distinct priorities leave one highest-priority match per scope |
| `Authority.MappingOrderFree` | crates/pic-x-realm/src/exchange.rs:964-1014 | Any permutation of the rules and any reordering or duplication of the scopes gives the same verdict and the same set |
| `Authority.EqualPrioritiesDependOnOrder` | crates/pic-x-core/src/config.rs:1261-1267 | Without the distinctness check two orders of the same rules grant different invariants |
| `Template.RenderTemplate` | crates/pic-x-realm/src/exchange.rs:1051-1083 | The scanning loop computes the expansion the next rows are about |
| `Template.RenderOfWritten` | crates/pic-x-realm/src/exchange.rs:1051-1083 | Any written list of literals and placeholders renders to the concatenation of its values, captures never rescanned, or is refused for an unknown name |
| `Template.EveryTemplate` | crates/pic-x-realm/src/exchange.rs:1051-1083 | Every terminated template is the writing of such a list |
| `Template.UnterminatedRefused` | crates/pic-x-realm/src/exchange.rs:1051-1083 | A placeholder that is never closed is refused, whatever the captures |
| `Template.RendersExactly` | crates/pic-x-realm/src/exchange.rs:1051-1083 | Rendering succeeds if and only if the template is terminated and every name is known, and yields its meaning |
| `Template.PlaceholdersStand` | crates/pic-x-realm/src/exchange.rs:1067-1077 | `${raw}` stands for the scope, `${name}` for that capture, and an unknown name is refused |
| `Form.PercentDecode` | crates/pic-x-realm/src/exchange.rs:1120-1163 | The index loop decodes as the specification does and never reads out of bounds |
| `Form.ParseForm` | crates/pic-x-realm/src/exchange.rs:1101-1118 | The insertion loop computes the form the next rows are about |
| `Form.SpellingDecodes` | crates/pic-x-realm/src/exchange.rs:1120-1163 | A text decodes to some bytes, with no separator that would end it, exactly when it spells them byte by byte, raw, as `+` or escaped in either case |
| `Form.FormExactly` | crates/pic-x-realm/src/exchange.rs:1101-1118 | A body is accepted if and only if it is UTF-8, every pair decodes and no two keys decode equal; the form is exactly its pairs |
| `Form.FormRoundTrip` | crates/pic-x-realm/src/exchange.rs:1101-1163 | A body parses to a map if and only if its segments spell the entries of that map, each once, in some order and any spelling, a bare `=` inside a value and a key without `=` included |
| `Form.PairExactly` | crates/pic-x-realm/src/exchange.rs:1106-1112 | A segment decodes to a pair if and only if it spells it, split at its first `=` |
| `Form.WrittenSegments` | crates/pic-x-realm/src/exchange.rs:1101-1118 | Pieces joined by `&` are the segments of the body, but for the empty ones |
| `Form.WrittenPair` | crates/pic-x-realm/src/exchange.rs:1107-1109 | A key and a value spelled with `=` between them spell their pair; so does a key alone when the value is empty |
| `Form.HexDigits` | crates/pic-x-realm/src/exchange.rs:1154-1163 | The sixteen digits in both cases, and nothing else |
| `Form.EscapesRead` | crates/pic-x-realm/src/exchange.rs:1127-1147 | `%` and two digits are the byte they write; `+` is a space |
| `Form.SeparatorsRead` | crates/pic-x-realm/src/exchange.rs:1107-1108 | `&` ends a segment and the first `=` its key |
| `SdJwt.ProcessDisclosures` | crates/pic-x-realm/src/por.rs:392-446 | The loop computes the claims the next rows are about |
| `SdJwt.ProcessedExactly` | crates/pic-x-realm/src/por.rs:392-446 | Accepted if and only if the disclosures are distinct, committed, open, and collide with nothing; the claims are the base and exactly theirs, none overwritten, and counted |
| `SdJwt.SelectionAccepted` | crates/pic-x-realm/src/por.rs:392-446 | Any selection of an accepted list is accepted with a sub-map, any permutation with the same map |
| `SdJwt.IssueDisclosures` | trust-lab/src/main.rs:764-788 | The loop issues one salted disclosure and its digest per claim |
| `SdJwt.Present` | trust-lab/src/main.rs:681-686 | The loop writes the JWT and each disclosure, each followed by `~` |
| `SdJwt.PresentationSplits` | crates/pic-x-realm/src/por.rs:269-291 | What a holder presents splits back into the same JWT and disclosures, refused only when there are too many |
| `SdJwt.SplitExactly` | crates/pic-x-realm/src/por.rs:269-291 | A text splits into a JWT and disclosures if and only if it is that JWT and pieces each ended by `~`, the disclosures being those that hold anything, at most 128; a text not ending in `~` is refused |
| `SdJwt.OpensExactly` | crates/pic-x-realm/src/por.rs:421-440 | A disclosure opens to a claim if and only if it decodes to a list of three with that name and value, the name neither beginning with `_sd` nor `...` |
| `SdJwt.AcceptedClaims` | crates/pic-x-realm/src/por.rs:392-446 | Accepted claims agree with the payload on every member but `_sd` and `_sd_alg`; every other one is what a presented disclosure listed under `_sd` opens to |
| `SdJwt.SaltsDiffer` | trust-lab/src/main.rs:764-788 | The same claim salted differently is a different disclosure |
| `SdJwt.CredentialRoundTrip` | trust-lab/src/main.rs:652-686 | For every claim list and choice, processing succeeds if and only if no chosen name is reserved or always disclosed, and yields exactly the four base claims and the chosen ones |
| `CredentialFlow.CredentialAccepted` | trust-lab/src/main.rs:618-700 | Any credential the lab issues, presented with any admissible choice while valid, passes the realm's whole validation: the verifier and key are the bound ones, the claims the four always disclosed and exactly the chosen ones, with their values |
| `CredentialFlow.SomeCredentialPresents` | trust-lab/src/main.rs:618-700 | There are libraries, a realm and a credential that meet everything the row above asks |
| `CredentialFlow.JwsSplits` | trust-lab/src/main.rs:790-808 | A compact JWS splits back into its three segments |
| `CredentialFlow.SignatureVerifies` | crates/pic-x-realm/src/por.rs:307-370 | A key published under the header's id and verifying the signature is found and accepted |
| `CredentialFlow.PayloadInterprets` | crates/pic-x-realm/src/por.rs:195-263 | The lab's payload passes the digest, validity, disclosure and key checks |
| `Evidence.SdJwtProfileValidator.Validate` | crates/pic-x-realm/src/por.rs:116-141 | Answers as the uncached procedure does, whatever was remembered |
| `Evidence.SdJwtProfileValidator.ValidateAndRemember` | crates/pic-x-realm/src/por.rs:160-178 | Answers as the uncached procedure does and remembers an acceptance |
| `Evidence.MemoRefinesFullValidation` | crates/pic-x-realm/src/por.rs:115-178 | After any sequence of calls on any evidence, every answer equals full validation |
| `Evidence.MemoHoldsLatest` | crates/pic-x-realm/src/por.rs:143-158 | The memo is the latest accepted evidence, and empty only if none was accepted |
| `Evidence.SettlementReadsItsOwnClaims` | crates/pic-x-realm/src/exchange.rs:352-384 | Within one settlement the remembered claims are those of the transition being settled |
| `Evidence.AcceptedExactly` | crates/pic-x-realm/src/por.rs:195-263 | A presentation is accepted with a given key and profile if and only if a basis exists: carried bytes, trusted issuer, a published key not ruled out by the header verifying for its one algorithm, a time within the window, claims and bound key |
| `Evidence.AcceptedKey` | crates/pic-x-realm/src/por.rs:479-500 | The verifier answered is the one built from the remembered `cnf.jwk` |
| `KeyRing.DirectoryKeyManager.Maintain` | crates/pic-x-std/src/keys.rs:473-621 | A pass, with any file operation failing anywhere, leaves the ring file whole, old or new, and the private halves and report of the staged specification |
| `KeyRing.DirectoryKeyManager.ForgetAll` | crates/pic-x-std/src/keys.rs:599-604 | Private halves are removed in order up to the first that cannot be |
| `KeyRing.StopActive` | crates/pic-x-std/src/keys.rs:529-535 | Every active key retires now, and is counted |
| `KeyRing.FindDue` | crates/pic-x-std/src/keys.rs:517-523 | The first of the earliest-created keys whose publication window has passed |
| `KeyRing.TakeTurns` | crates/pic-x-std/src/keys.rs:516-542 | The loop hands over to every due key, oldest first, and terminates |
| `KeyRing.Sentence` | crates/pic-x-std/src/keys.rs:573-597 | Which keys are archived and which forgotten |
| `KeyRing.CarryOut` | crates/pic-x-std/src/keys.rs:606-614 | Archiving and forgetting by name touch exactly the sentenced keys |
| `KeyRing.PassKeepsShape` | crates/pic-x-std/src/keys.rs:473-621 | After every pass exactly one key signs and at most one waits; the report balances the keys that came, went and changed state |
| `KeyRing.GrownEvolves` | crates/pic-x-std/src/keys.rs:483-565 | Within a pass a key keeps its identity, only moves forward, signs only once due, and keeps the instant it stopped |
| `KeyRotation.RotationInvisible` | crates/pic-x-std/src/keys.rs:10-22 | In every run, a key not created to sign at once signs only after a whole publication window, and each signature verifies against every key set fetched from less than that window before it until the verification retention after it |
| `KeyRotation.OneKeySigns` | crates/pic-x-core/src/keys.rs:55-59 | In every run at most one key is active, and exactly one once the ring holds any |
| `KeyRotation.Outlives` | crates/pic-x-std/src/keys.rs:567-614 | No pass drops a key before its signatures need no longer verify |
| `KeyTurns.NothingToWrite` | crates/pic-x-std/src/keys.rs:616-620 | Skipping the write on an empty report loses nothing |
| `KeyTurns.MigrationExactly` | crates/pic-x-std/src/keys.rs:490-542 | After a pass the signing key is of the configured kind if and only if no waiting key of another kind was due |
| `KeyTurns.MigrationUndone` | crates/pic-x-std/src/keys.rs:490-542 | A concrete ring on which the old kind takes over again |
| `KeyTurns.LastTurn` | crates/pic-x-std/src/keys.rs:512-542 | Due keys take over oldest first: of all that are due, the one created last is left signing |
| `KeyTurns.NeverAgain` | crates/pic-x-std/src/keys.rs:512-542 | A key that stopped signing never signs again |
| `KeyTurns.NoKeyOverstays` | crates/pic-x-std/src/keys.rs:544-565 | A pass `publish_ahead` or less before a key has signed for `rotate_every`, and another a publication window later, leave a different key signing |
| `KeyTurns.SuccessorExactly` | crates/pic-x-std/src/keys.rs:544-565 | A successor is published if and only if none waits and the signing key has signed for all of `rotate_every` but `publish_ahead` |
| `KeyTurns.ForgottenInTime` | crates/pic-x-std/src/keys.rs:567-614 | After two passes no stopped key remains whose signatures needed no longer verify at the first |
| `TrustWindow.TrustedInTheWindow` | crates/pic-x-realm/src/checkpoints.rs:47-66 | In every run of the ring, a checkpoint it signed is trusted by the token endpoint for the whole verification retention |
| `TrustWindow.TrustedExactly` | crates/pic-x-realm/src/checkpoints.rs:47-66 | A checkpoint whose header names its key is the realm's if and only if that key is on the ring |
| `TrustWindow.TrustExactly` | crates/pic-x-std/src/keys.rs:175-182 | No run of the ring cuts a lineage short if and only if its expiry is within the verification retention of the signature |
| `TrustWindow.RequestedYearCutShort` | crates/pic-x-realm/src/exchange.rs:55-57 | A requested year can be cut short on any ring that vouches for less |
| `KeyHalves.AlwaysAbleToSign` | crates/pic-x-std/src/keys.rs:567-618 | In every run that retains private halves at all, whatever fails, a ring with keys has its active key's private half |
| `KeyHalves.PrivateHalvesGone` | crates/pic-x-std/src/keys.rs:567-604 | After a successful pass no key retired for the retention has a private half |
| `KeyHalves.PrivateHalvesKept` | crates/pic-x-std/src/keys.rs:170-174 | In every run a retired key keeps its private half until it has been retired for the retention |
| `KeyHalves.PassSucceedsExactly` | crates/pic-x-std/src/keys.rs:473-621 | A pass succeeds if and only if every creation, removal and write it needs does |
| `KeyHalves.FailedCreationStays` | crates/pic-x-std/src/keys.rs:341-381 | A failed creation leaves the ring as it was and its file if that was written; no pass ever removes such a file |
| `KeyHalves.PassFiles` | crates/pic-x-std/src/keys.rs:599-604 | A pass removes no private half but the sentenced ones and adds none but its own new keys', succeeded or not |
| `AuditTrail.Verify` | crates/pic-x-std/src/audit/file.rs:593-697 | A trail is accepted if and only if every record is linked and every seal holds; the count and head are the trail's |
| `AuditTrail.VerifyFile` | crates/pic-x-std/src/audit/file.rs:617-672 | One day's records extend what was verified, or the trail is refusable |
| `AuditTrail.PointsExactly` | crates/pic-x-std/src/audit/file.rs:700-724 | Every seal beside a day on disk is read, unless a later day's attests to the same point |
| `AuditTrail.HeadAttests` | crates/pic-x-std/src/audit/file.rs:21-23 | Two verified trails that agree on one digest agree on every record up to it, or exhibit two bodies with one digest |
| `AuditTrail.SealAttests` | crates/pic-x-std/src/audit/file.rs:136-155 | Whatever is done to the files, a trail that verifies beside a given seal holds the records it covers, or a collision |
| `AuditTrail.EditCaught` | crates/pic-x-std/src/audit/file.rs:587-592 | An edited record other than the last verifies only through a collision |
| `AuditTrail.RemovalCaught` | crates/pic-x-std/src/audit/file.rs:587-592 | A removed record is caught by the chain if and only if it was not the last |
| `AuditTrail.ReorderCaught` | crates/pic-x-std/src/audit/file.rs:11-12 | The same records verify in one order only |
| `AuditTrail.TruncationCaught` | crates/pic-x-std/src/audit/file.rs:675-689 | A truncated trail is still a chain; its seals refuse it if and only if one attests past the cut |
| `AuditTrail.SuffixChained` | crates/pic-x-std/src/audit/file.rs:609-611 | A trail that lost its first records verifies if and only if none was lost or none is left |
| `AuditSink.FileAuditSink.RecordEvent` | crates/pic-x-std/src/audit/file.rs:455-533 | Sealing, rolling over, expiring and appending leave exactly the specified directory and cursor, in every failure case; a call that answers Ok leaves a last record of its day with its own time and content, its own digest, and the number and predecessor of the trail's end |
| `AuditSink.FileAuditSink.Expire` | crates/pic-x-std/src/audit/file.rs:250-288 | The loop over directory entries, in any order, removes exactly the days past the retention, each with its seal, and counts them |
| `AuditSink.RecordVerifiesExactly` | crates/pic-x-std/src/audit/file.rs:487-533 | From a sink in step, the next record leaves a verifiable trail if and only if no record expired and none is on a later day |
| `AuditSink.NextRecordVerifies` | crates/pic-x-std/src/audit/file.rs:495-531 | From any state, it does exactly when what is left of the trail verifies and the cursor is at its end |
| `AuditSink.RestartExactly` | crates/pic-x-std/src/audit/file.rs:392-417 | A new process is in step with a directory if and only if its latest day holds a record or no day does |
| `AuditSink.FailedFlushBreaks` | crates/pic-x-std/src/audit/file.rs:521-531 | A flush that fails after the write makes the next record break the trail |
| `AuditRuns.PrepareExactly` | crates/pic-x-std/src/audit/file.rs:234-247 | What a new process finds verifies if and only if no record expired before it, or all did |
| `AuditRuns.ExpiredStart` | crates/pic-x-std/src/audit/file.rs:234-288 | Retention of five days, records on days 0 and 1, a process on day 6: the trail no longer verifies |
| `AuditRuns.CallExactly` | crates/pic-x-std/src/audit/file.rs:455-533 | From a sound sink, any call with any failure leaves a sound one if and only if its day could not be opened, or no record expired and the line was not written, or was written and flushed with none on a later day |
| `AuditRuns.StartExactly` | crates/pic-x-std/src/audit/file.rs:234-247 | A new process is sound if and only if it finds no record and no seal of one, or none expired and the latest day holds one |
| `AuditRuns.StepExactly` | crates/pic-x-std/src/audit/file.rs:234-567 | A step from a sound sink leads to a sound one if and only if it is steady, and what the trail then says, record by record |
| `AuditRuns.RunExactly` | crates/pic-x-std/src/audit/file.rs:234-567 | The runs through sound states are exactly the runs of steady steps |
| `AuditRuns.SteadyRunVerifies` | crates/pic-x-std/src/audit/file.rs:234-567 | Every steady run of calls, failures, stops, crashes and new processes leaves a trail that verifies with all its seals and says, in order, exactly the times and contents of the calls reported written since it last began |
| `AuditRuns.ClosingSeals` | crates/pic-x-std/src/audit/file.rs:469-567 | When a day closes, by the turn of the day or an orderly stop, its seal attests to every record of the trail so far |
| `Civil.DateRoundTrip` | crates/pic-x-std/src/audit/civil.rs:61-110 | Every day number is recovered from its date |
| `Civil.DaysRoundTrip` | crates/pic-x-std/src/audit/civil.rs:61-110 | Every Gregorian date is recovered from its day number |
| `Civil.DateIsDate` | crates/pic-x-std/src/audit/civil.rs:61-90 | Every day number gives a date of the calendar |
| `Civil.NextDayFollows` | crates/pic-x-std/src/audit/civil.rs:61-90 | The closed form counts calendar days: the next number is the next date by the Gregorian rules |
| `Civil.Epoch` | crates/pic-x-std/src/audit/civil.rs:17-18 | Day zero is 1 January 1970 |
| `DayFiles.IsoRoundTrip` | crates/pic-x-std/src/audit/civil.rs:33-49 | A date reads back from its text exactly when its year is from zero to the largest 64-bit one |
| `DayFiles.FileRoundTrip` | crates/pic-x-std/src/audit/file.rs:727-731 | A day's file name is recognised as that day's, so days and files correspond |
| `DayFiles.SecondDay` | crates/pic-x-std/src/audit/file.rs:437-440 | Day one is kept in `audit-1970-01-02.jsonl` |
| `KeyCache.StaleServingCache.Refresh` | crates/pic-x-realm/src/attester_keys.rs:105-143 | A pass over the sources adds exactly its successes and failures to the history the cache reflects |
| `KeyCache.StaleServingCache.KeysForAttester` | crates/pic-x-realm/src/attester_keys.rs:146-178 | The answer is the one the history determines; an unknown attester is refused |
| `KeyCache.StaleServingCache.KeysForProfile` | crates/pic-x-realm/src/idp_keys.rs:78-101 | The answer is the one the history determines |
| `KeyCache.StaleServingCache.IsReady` | crates/pic-x-realm/src/attester_keys.rs:96-102 | Ready if and only if every source has once been fetched |
| `KeyCache.Filtered` | crates/pic-x-realm/src/attester_keys.rs:181-203 | Exactly the keys usable to verify signatures are kept |
| `KeyCache.EventExactly` | crates/pic-x-realm/src/attester_keys.rs:181-203 | A refresh succeeds if and only if it was answered with an object that lists `keys`, and holds those that may verify a signature |
| `KeyCache.UsableExactly` | crates/pic-x-realm/src/attester_keys.rs:186-200 | A key is passed over if and only if it has a `d`, or a `use` other than `sig` |
| `KeyCache.FilteredInOrder` | crates/pic-x-realm/src/attester_keys.rs:186-200 | Keys are kept or passed over part by part, in order |
| `KeyCache.FilteredOne` | crates/pic-x-realm/src/attester_keys.rs:186-200 | One key is kept exactly when it is usable |
| `KeyCache.AnswerExactly` | crates/pic-x-realm/src/attester_keys.rs:146-178 | The latest successful set while no failure followed or the first since is within the stale window, an error otherwise |
| `KeyCache.FailuresNeverProlong` | crates/pic-x-realm/src/attester_keys.rs:120-140 | Failures never extend service nor change what is served |
| `KeyCache.SourcesIndependent` | crates/pic-x-realm/src/idp_keys.rs:104-143 | A source's entry depends on its own history alone |
| `KeyCache.PublishedSetReplaces` | crates/pic-x-realm/src/attester_keys.rs:105-119 | A published set, even an empty one, replaces the old at once |
| `Metrics.Registry.Record` | crates/pic-x-std/src/metrics.rs:104-148 | The registry reflects its whole history; overflow is remembered exactly when a new series met the ceiling |
| `Metrics.Registry.Snapshot` | crates/pic-x-std/src/metrics.rs:150-178 | One sample per held series, in order, each its reading |
| `Metrics.Apply` | crates/pic-x-std/src/metrics.rs:192-219 | The bucket loop applies one measurement |
| `Metrics.KeyedOrderFree` | crates/pic-x-std/src/metrics.rs:92-101 | Two label lists name one series if and only if they hold the same labels, in any order |
| `Metrics.Ledger` | crates/pic-x-std/src/metrics.rs:104-148 | After any history every held series is the fold of its own measurements, series never exceed the ceiling, and one is missing only when full |
| `Metrics.FullStaysFull` | crates/pic-x-std/src/metrics.rs:104-148 | Once full, no series comes or goes |
| `Metrics.CounterReads` | crates/pic-x-std/src/metrics.rs:192-219 | A counter is the sum of its non-negative measurements |
| `Metrics.GaugeReads` | crates/pic-x-std/src/metrics.rs:192-219 | A gauge is its last measurement |
| `Metrics.HistogramReads` | crates/pic-x-std/src/metrics.rs:192-219 | A histogram counts, sums, and for each boundary counts the measurements up to it |
| `Metrics.CountsCumulative` | crates/pic-x-std/src/metrics.rs:221-235 | Counts grow with their boundary and never exceed the total |
| `Metrics.HistogramSeries` | crates/pic-x-std/src/metrics.rs:150-235 | The same of any series of any history, as a snapshot reads it |
| `Metrics.SingleSeries` | crates/pic-x-std/src/metrics.rs:150-235 | A scraped counter or gauge reads the sum of its own non-negative measurements, or the last, under its own metric and labels |
| `Metrics.KeyOfExactly` | crates/pic-x-std/src/metrics.rs:92-120 | Two measurements are of one series if and only if metric name and labels agree |
| `Metrics.AtMostTenThousand` | crates/pic-x-std/src/metrics.rs:104-148 | Ten thousand series at most |
| `Witness.WitnessFile.CheckAt` | crates/pic-x-server/src/witness.rs:74-102 | A start leaves the file and verdict of the specification, whatever the file operations do |
| `Witness.WitnessFile.Append` | crates/pic-x-server/src/witness.rs:121-141 | The file gains one line, starting on a line of its own |
| `Witness.ReadAfterAppend` | crates/pic-x-server/src/witness.rs:104-141 | Reading after appending is the old list and one entry if and only if no carriage return dangled at the end |
| `Witness.RecordedAfterAppend` | crates/pic-x-server/src/witness.rs:104-141 | What was first recorded for a version stays, but for that carriage return |
| `Witness.StartKeeps` | crates/pic-x-server/src/witness.rs:74-102 | No start changes a recorded witness |
| `Witness.SuccessRecords` | crates/pic-x-server/src/witness.rs:74-102 | A successful start leaves its witness recorded |
| `Witness.StartsExactly` | crates/pic-x-server/src/witness.rs:74-102 | A start goes on if and only if the file reads and records this witness, or records none and takes the line |
| `Witness.LineWritten` | crates/pic-x-server/src/witness.rs:121-141 | The line written: version, tab, witness, on a line of its own |
| `Witness.RecordedForGood` | crates/pic-x-server/src/witness.rs:74-141 | Over any sequence of starts a recorded witness never changes |
| `Witness.SameVersionSameKey` | crates/pic-x-server/src/witness.rs:74-141 | All successful starts under one key version have one witness, whatever the file held first |
| `Witness.DanglingWitnessChanges` | crates/pic-x-server/src/witness.rs:104-141 | A concrete file whose recorded witness an append changes |
| `Host.ServerHost.StartServices` | crates/pic-x-server/src/host.rs:88-113 | Services start in order up to the first that fails or cannot be recorded, which is the error |
| `Host.ServerHost.StopServices` | crates/pic-x-server/src/host.rs:115-151 | Every stop is attempted in reverse; what did not finish is listed |
| `Host.ServerHost.Run` | crates/pic-x-server/src/host.rs:159-258 | The effects are the specified trace; with the final record written the run is Ok if and only if every release was, and names what was not |
| `Host.ServerHost.PutAway` | crates/pic-x-server/src/host.rs:186-257 | The shutdown half of the same |
| `Host.ServerHost.ReleaseRealms` | crates/pic-x-server/src/host.rs:214-234 | Every realm's sink is released in order; what did not finish is listed |
| `Host.StopsReverseStarts` | crates/pic-x-server/src/host.rs:115-151 | A run that reaches shutdown stops each started service exactly once, in reverse start order, whatever each stop does |
| `Host.ShutdownOrder` | crates/pic-x-server/src/host.rs:186-257 | Readiness is cleared before any stop, storage goes after the last, the system sink is last after the final record; without that record no sink is released |
| `Host.FailedStartReleasesNothing` | crates/pic-x-server/src/host.rs:88-113 | A run that does not reach shutdown releases nothing at all |
| `Host.AllStoppedExactly` | crates/pic-x-server/src/host.rs:88-151 | Every service that came up is told to stop if and only if the run reaches shutdown or the first service did not come up |
| `Host.FirstStaysUp` | crates/pic-x-server/src/host.rs:88-113 | Two services, the second of which fails to start: the first stays up |
| `Host.SinksReleasedExactly` | crates/pic-x-server/src/host.rs:207-248 | The system's and every realm's audit sink are released if and only if the run reaches shutdown and its final record is written |
| `Host.UnfinishedExactly` | crates/pic-x-server/src/host.rs:115-257 | The names reported are exactly those of the services, store, realms and sink that did not finish |
| `Host.EveryTurnRecorded` | crates/pic-x-server/src/host.rs:88-151 | A service that came up has its start recorded, and one that stopped its stop |
| `Der.DerRsaPublicKey` | crates/pic-x-realm/src/por.rs:569-578 | The pushes build the DER of the two integers, whatever their leading zeroes |
| `Der.DerInteger` | crates/pic-x-realm/src/por.rs:580-600 | The pushes build the minimal, positive INTEGER of a byte string's value |
| `Der.DerLength` | crates/pic-x-realm/src/por.rs:602-618 | The pushes build the minimal length octets |
| `Der.RsaRoundTrip` | crates/pic-x-realm/src/por.rs:569-618 | A strict reader recovers the two integers if and only if both are positive |
| `Der.RsaInjective` | crates/pic-x-realm/src/por.rs:569-618 | Two keys share an encoding if and only if they share both integers |
| `Der.SameKeySameIntegers` | crates/pic-x-realm/src/por.rs:569-618 | Two pairs of byte strings share an encoding if and only if they agree after their leading zeroes |
| `Der.RsaCanonical` | crates/pic-x-realm/src/por.rs:569-618 | Every document the strict reader accepts is the encoding of what it reads |
| `Der.IdentifierOctets` | crates/pic-x-realm/src/por.rs:569-600 | The key begins with 0x30 and each integer with 0x02 |
| `Der.SmallKey` | crates/pic-x-realm/src/por.rs:569-618 | Modulus 128 and exponent 3, octet by octet |
| `Base64Url.B64Url` | trust-lab/src/main.rs:909-931 | The chunk loop computes the encoding |
| `Base64Url.B64UrlDecode` | trust-lab/src/main.rs:933-954 | The accumulator loop computes the decoding, 32-bit shifts included |
| `Base64Url.RoundTripFrom` | trust-lab/src/main.rs:909-954 | Every byte string decodes back from its encoding, whatever the accumulator held and dropped |
| `Base64Url.RoundTrip` | trust-lab/src/main.rs:909-954 | Decoding undoes encoding, at any length |
| `Base64Url.EncodeShape` | trust-lab/src/main.rs:909-931 | The text is of the alphabet, unpadded, and as long as six bits a character make it |
| `Base64Url.AlphabetIs` | trust-lab/src/main.rs:909-931 | The alphabet: `A` to `Z`, `a` to `z`, `0` to `9`, `-`, `_` |
| `Base64Url.GroupReads` | trust-lab/src/main.rs:909-931 | Whole and partial groups, first bits first |
| `Cbor.CborHead` | trust-lab/scripts/pic-x-demo.py:1031-1055 | A head consumes at least its initial byte, within the input |
| `Cbor.CborValue` | trust-lab/scripts/pic-x-demo.py:1058-1088 | The recursive procedure terminates on every input and decodes as the specification does |
| `Cbor.CborArray` | trust-lab/scripts/pic-x-demo.py:1070-1075 | The array loop collects its items |
| `Cbor.CborMap` | trust-lab/scripts/pic-x-demo.py:1076-1082 | The map loop collects its pairs into the one dictionary that holds each key with the value of its last pair |
| `Cbor.DictExactly` | trust-lab/scripts/pic-x-demo.py:1076-1082 | A key is in the dictionary if and only if some pair's key stands for it, with the value of the last such pair; integers and texts stand for themselves, booleans for 0 and 1, anything else for its text |
| `Cbor.DictUnique` | trust-lab/scripts/pic-x-demo.py:1076-1082 | There is one such dictionary |
| `Cbor.CborMapFields` | trust-lab/scripts/pic-x-demo.py:1091-1109 | The loop lists a map's fields with their sizes |
| `Cbor.ExtractFieldBytes` | trust-lab/scripts/pic-x-demo.py:1350-1363 | The loop finds the bytes of a named field |
| `Cbor.CoseSign1Parts` | trust-lab/scripts/pic-x-demo.py:1112-1128 | The four parts are those the decoder reads, and with their framing weigh as far as it stops |
| `CborItems.ItemDecodes` | trust-lab/scripts/pic-x-demo.py:1058-1088 | Every well-formed item, in any head width and amid any bytes, decodes to its value, a map to the dictionary of its pairs, and ends at its own last byte |
| `CborItems.ItemsDecode` | trust-lab/scripts/pic-x-demo.py:1058-1088 | So do any number of consecutive items |
| `CborItems.MapWeighs` | trust-lab/scripts/pic-x-demo.py:1091-1109 | A well-formed map's header and fields weigh its full length, whatever follows |
| `CborItems.FieldsEnd` | trust-lab/scripts/pic-x-demo.py:1091-1109 | On any input, fields are listed exactly when their items decode, and weigh as far as they do |
| `CborItems.WeightsBalance` | trust-lab/scripts/pic-x-demo.py:1091-1109 | On any input the header and fields weigh as far as the decoder stops; the next rows say on which bytes that is the end |
| `CborItems.TruncatedStringOverweighs` | trust-lab/scripts/pic-x-demo.py:1091-1109 | A concrete input whose fields weigh more than it does |
| `CborItems.ExtractsExactly` | trust-lab/scripts/pic-x-demo.py:1350-1363 | The bytes returned are exactly the encoding of the first field of that name, and decode to it |
| `CborItems.Sign1Weighs` | trust-lab/scripts/pic-x-demo.py:1112-1128 | A COSE_Sign1, tagged or not, is framed, read and weighed to its last byte |
| `CborReads.ItemRead` | trust-lab/scripts/pic-x-demo.py:1058-1088 | Whatever the decoder accepts within its input is a well-formed item standing there byte for byte, and denotes what was read |
| `CborReads.ItemsRead` | trust-lab/scripts/pic-x-demo.py:1058-1088 | So is any number of values read in a row |
| `CborReads.WeightsWithin` | trust-lab/scripts/pic-x-demo.py:1091-1109 | The weights are within the input if and only if it begins with a well-formed map, and what they leave over is what follows it |
| `CborReads.WeightsExactly` | trust-lab/scripts/pic-x-demo.py:1091-1096 | The weights add up to the length of the input if and only if it is a well-formed map and nothing else |

## Left out

- Evidence.AcceptedExactly: does not say for which of several reasons a presentation is rejected; the code makes its checks in the order modelled, and the reason is a message.
- The `pic` crate (settlement internals, attenuation, COSE, JWK parsing) is not part of this model: settlement is a step that needs the realm's hooks to hold, adds one to the position and carries lineage and expiry over, and what else it checks is one input of a request.
- Signatures and digests are ideal: a signature under a published key exists only over what the realm signed, and collision-freedom is assumed of the issued set, or a collision is exhibited instead.
- Regular expressions, JSON text, UTF-8, key parsing and SHA-256 are parameters. Of JSON text it is asked that the documents of the credential at hand read back as written, and of no others.
- Selecting and validating the source access token, scope claims and identity context are one input of an initial request: they would only add easy members.
- The clock is an input. The endpoint refuses a clock before 1970, key-ring runs assume one that neither goes back nor reaches its last second, and the caches' is monotonic.
- Locks and lock poisoning: every component is entered by one caller at a time.
- Floating point: metric values are reals beside a not-finite case, and counts do not wrap at 2^64.
- Lengths are those memory can hold: the DER builders take inputs of fewer than 2^63 bytes in all.
- Python's dictionary order, and its recursion limit on deeply nested CBOR.
- Key-ring runs begin on an empty directory with one policy and any sequence of algorithms; private halves are only added and removed by the ring, and its cache of parsed keys is the directory. `KeyHalves` takes a positive retention, which the lifecycle check at crates/pic-x-core/src/config.rs:961-981 guarantees.
- Two processes maintaining one ring, which crates/pic-x-std/src/keys.rs:29-35 leaves open.
- Audit lines that do not parse, blank lines, seal signatures, the list of seals a verification returns, file permissions, a removal that fails while days expire, and file names that spell one day in two ways; a directory is a map from days to records, which `DayFiles.FileRoundTrip` justifies for the names the sink writes.
- A write of the witness file that stops half way.
- HTTP, TLS, routes, gRPC, signals, command line, logging, and most of the configuration: input and output, or easy members.
- PIC-X's own base64url in crates/pic-x-std/src/keys/encoding.rs is the same algorithm as the lab's; only the lab's is modelled.
