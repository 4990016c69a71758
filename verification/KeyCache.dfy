// The key sets a realm holds for its attesters and identity providers: refreshed in the background,
// served from memory, and served stale for a bounded time after refreshes begin to fail.

module KeyCache {
  import opened Basics

  /** A monotonic clock reading. */
  type Instant = nat

  datatype Entry = Entry(keys: seq<Json>, fetchedAt: Instant, failedSince: Option<Instant>)

  datatype Unavailable = NotConfigured | NeverFetched | StaleTooLong

  // --- Reading a published key set -------------------------------------------------------------

  /** A key that may verify a signature: not published for another use, and with no private part. */
  predicate Usable(jwk: Json) {
    var usage := jwk.Get("use");
    && (usage.Some? && usage.value.AsStr().Some? ==> usage.value.AsStr().value == "sig")
    && jwk.Get("d").None?
  }

  function Filtered(keys: seq<Json>): (r: seq<Json>)
    ensures forall k :: k in r <==> k in keys && Usable(k)
    ensures |r| <= |keys|
  {
    if keys == [] then [] else (if Usable(keys[0]) then [keys[0]] else []) + Filtered(keys[1..])
  }

  /** The usable keys of a JWKS document, or nothing when it has no `keys` array. */
  function ParseKeySet(document: Json): Option<seq<Json>> {
    var keys := document.Get("keys");
    if keys.Some? && keys.value.Arr? then Some(Filtered(keys.value.items)) else None
  }

  // --- The cache -------------------------------------------------------------------------------

  /** One source's refresh: the key set it published, or a failure. */
  datatype Event =
    | Fetched(source: string, at: Instant, keys: seq<Json>)
    | Failed(source: string, at: Instant)

  type Entries = map<string, Entry>

  function Stored(entries: Entries, e: Event): Entries {
    if e.Fetched? then entries[e.source := Entry(e.keys, e.at, None)]
    else if e.source in entries && entries[e.source].failedSince.None? then
      entries[e.source := entries[e.source].(failedSince := Some(e.at))]
    else entries
  }

  function AllStored(history: seq<Event>): Entries {
    if history == [] then map[] else Stored(AllStored(history[..|history| - 1]), history[|history| - 1])
  }

  lemma StoredPush(history: seq<Event>, e: Event)
    ensures AllStored(history + [e]) == Stored(AllStored(history), e)
  {
    assert (history + [e])[..|history|] == history;
  }

  /** What a read answers from memory. */
  function Answer(entries: Entries, source: string, staleFor: nat, now: Instant): Result<seq<Json>, Unavailable> {
    if source !in entries then Err(NeverFetched)
    else
      var entry := entries[source];
      if entry.failedSince.Some? && now - entry.failedSince.value > staleFor then Err(StaleTooLong)
      else Ok(entry.keys)
  }

  /** What one fetch of a source turned up: a document, or a network or parse failure. */
  function EventOf(source: string, document: Option<Json>, at: Instant): Event {
    if document.Some? && ParseKeySet(document.value).Some?
    then Fetched(source, at, ParseKeySet(document.value).value)
    else Failed(source, at)
  }

  /** The events of one refresh pass over every configured source. */
  function Pass(sources: seq<string>, documents: seq<Option<Json>>, times: seq<Instant>): (r: seq<Event>)
    requires |documents| == |times| == |sources|
    ensures |r| == |sources|
  {
    seq(|sources|, i requires 0 <= i < |sources| => EventOf(sources[i], documents[i], times[i]))
  }

  /** The attester cache and the identity-provider cache; they differ only in what a read of an
      unconfigured source says. */
  class StaleServingCache {
    const sources: seq<string>
    const staleFor: nat
    var entries: Entries
    ghost var history: seq<Event>

    ghost predicate Valid()
      reads this
    {
      entries == AllStored(history)
    }

    constructor (sources: seq<string>, staleFor: nat)
      ensures Valid() && history == [] && this.sources == sources && this.staleFor == staleFor
    {
      this.sources, this.staleFor := sources, staleFor;
      entries, history := map[], [];
    }

    /** `documents[i]` is what fetching source `i` gave, and `times[i]` the clock when it was handled. */
    method Refresh(documents: seq<Option<Json>>, times: seq<Instant>)
      requires Valid() && |documents| == |times| == |sources|
      modifies this
      ensures Valid() && history == old(history) + Pass(sources, documents, times)
    {
      hide AllStored, ParseKeySet;
      ghost var pass := Pass(sources, documents, times);
      var i := 0;
      while i < |sources|
        invariant 0 <= i <= |sources|
        invariant history == old(history) + pass[..i]
        invariant Valid()
      {
        var id := sources[i];
        var keys := if documents[i].Some? then ParseKeySet(documents[i].value) else None;
        ghost var held := entries;
        if keys.Some? {
          entries := entries[id := Entry(keys.value, times[i], None)];
        } else if id in entries && entries[id].failedSince.None? {
          entries := entries[id := entries[id].(failedSince := Some(times[i]))];
        }
        assert entries == Stored(held, pass[i]);
        StoredPush(history, pass[i]);
        history := history + [pass[i]];
        assert pass[..i + 1] == pass[..i] + [pass[i]];
        i := i + 1;
      }
      assert pass[..i] == pass;
    }

    method KeysForAttester(id: string, now: Instant) returns (r: Result<seq<Json>, Unavailable>)
      requires Valid()
      ensures r == if id in sources then Answer(AllStored(history), id, staleFor, now) else Err(NotConfigured)
    {
      if id !in sources { return Err(NotConfigured); }
      r := KeysForProfile(id, now);
    }

    method KeysForProfile(id: string, now: Instant) returns (r: Result<seq<Json>, Unavailable>)
      requires Valid()
      ensures r == Answer(AllStored(history), id, staleFor, now)
    {
      if id !in entries { return Err(NeverFetched); }
      var entry := entries[id];
      if entry.failedSince.Some? {
        var failureAge := now - entry.failedSince.value;
        if failureAge > staleFor { return Err(StaleTooLong); }
      }
      r := Ok(entry.keys);
    }

    method IsReady() returns (ready: bool)
      requires Valid()
      ensures ready <==>
        forall id :: id in sources ==> exists i :: IsSuccess(history, id, i)
    {
      ready := forall id | id in sources :: id in entries;
      forall id | id in sources
        ensures id in entries <==> exists i :: IsSuccess(history, id, i)
      {
        EntryExactly(history, id);
        if id in entries {
          var i :| Reflects(history, id, entries[id], i);
          assert IsSuccess(history, id, i);
        }
      }
    }
  }

  // --- The memory is the history, read backwards -----------------------------------------------

  ghost predicate IsSuccess(h: seq<Event>, id: string, i: int) {
    0 <= i < |h| && h[i].Fetched? && h[i].source == id
  }

  ghost predicate IsFailure(h: seq<Event>, id: string, i: int) {
    0 <= i < |h| && h[i].Failed? && h[i].source == id
  }

  ghost predicate LatestSuccess(h: seq<Event>, id: string, i: int) {
    IsSuccess(h, id, i) && forall j :: i < j < |h| ==> !IsSuccess(h, id, j)
  }

  ghost predicate FirstFailureSince(h: seq<Event>, id: string, i: int, j: int) {
    i < j && IsFailure(h, id, j) && forall k :: i < k < j ==> !IsFailure(h, id, k)
  }

  ghost predicate NoFailureSince(h: seq<Event>, id: string, i: int) {
    forall j :: i < j < |h| ==> !IsFailure(h, id, j)
  }

  /** The entry is the latest success and the first failure after it. */
  ghost predicate Reflects(h: seq<Event>, id: string, entry: Entry, i: int) {
    && LatestSuccess(h, id, i) && entry.keys == h[i].keys && entry.fetchedAt == h[i].at
    && (entry.failedSince.None? ==> NoFailureSince(h, id, i))
    && (entry.failedSince.Some? ==> exists j :: FirstFailureSince(h, id, i, j) && h[j].at == entry.failedSince.value)
  }

  lemma {:induction false} EntryExactly(h: seq<Event>, id: string)
    ensures id !in AllStored(h) ==> forall i :: !IsSuccess(h, id, i)
    ensures id in AllStored(h) ==> exists i :: Reflects(h, id, AllStored(h)[id], i)
  {
    if h != [] {
      var before, e := h[..|h| - 1], h[|h| - 1];
      EntryExactly(before, id);
      forall i | 0 <= i < |before|
        ensures IsSuccess(h, id, i) == IsSuccess(before, id, i) && IsFailure(h, id, i) == IsFailure(before, id, i)
      {
        assert before[i] == h[i];
      }
      var was, now := AllStored(before), AllStored(h);
      if e.source == id && e.Fetched? {
        assert Reflects(h, id, now[id], |before|);
      } else if id in was {
        var i :| Reflects(before, id, was[id], i);
        assert LatestSuccess(h, id, i);
        if was[id].failedSince.Some? {
          var j :| FirstFailureSince(before, id, i, j) && before[j].at == was[id].failedSince.value;
          assert FirstFailureSince(h, id, i, j);
        } else if e.source == id {
          assert FirstFailureSince(h, id, i, |before|);
        }
        assert Reflects(h, id, now[id], i);
      } else {
        forall i ensures !IsSuccess(h, id, i) {
          assert 0 <= i < |before| ==> !IsSuccess(before, id, i);
        }
      }
    }
  }

  /** The answer over every interleaving: exactly the latest published set, from the moment it was
      fetched until refreshes have been failing for longer than the stale window. */
  lemma AnswerExactly(h: seq<Event>, id: string, staleFor: nat, now: Instant)
    ensures (forall i :: !IsSuccess(h, id, i)) ==> Answer(AllStored(h), id, staleFor, now) == Err(NeverFetched)
    ensures forall i :: LatestSuccess(h, id, i) && NoFailureSince(h, id, i) ==>
      Answer(AllStored(h), id, staleFor, now) == Ok(h[i].keys)
    ensures forall i, j :: LatestSuccess(h, id, i) && FirstFailureSince(h, id, i, j) ==>
      Answer(AllStored(h), id, staleFor, now) == if now - h[j].at <= staleFor then Ok(h[i].keys) else Err(StaleTooLong)
  {
    EntryExactly(h, id);
    if id in AllStored(h) {
      var i0 :| Reflects(h, id, AllStored(h)[id], i0);
      assert IsSuccess(h, id, i0);
      forall i | LatestSuccess(h, id, i) ensures i == i0 {
        assert !(i < i0) && !(i0 < i);
      }
      if AllStored(h)[id].failedSince.Some? {
        var j0 :| FirstFailureSince(h, id, i0, j0) && h[j0].at == AllStored(h)[id].failedSince.value;
        forall j | FirstFailureSince(h, id, i0, j) ensures j == j0 {
          assert !(j < j0) && !(j0 < j);
        }
        assert !NoFailureSince(h, id, i0);
      } else {
        forall j ensures !FirstFailureSince(h, id, i0, j) {
        }
      }
    }
  }

  // --- Consequences ----------------------------------------------------------------------------

  ghost predicate AllFailures(fs: seq<Event>) {
    forall i :: 0 <= i < |fs| ==> fs[i].Failed?
  }

  lemma {:induction false} StoredConcat(a: seq<Event>, b: seq<Event>)
    ensures AllStored(a + b) == StoredFrom(AllStored(a), b)
  {
    if b == [] {
      assert a + b == a;
    } else {
      assert (a + b)[..|a + b| - 1] == a + b[..|b| - 1];
      StoredConcat(a, b[..|b| - 1]);
    }
  }

  function StoredFrom(entries: Entries, events: seq<Event>): Entries {
    if events == [] then entries else Stored(StoredFrom(entries, events[..|events| - 1]), events[|events| - 1])
  }

  lemma {:induction false} FailuresOnlyMark(entries: Entries, fs: seq<Event>, id: string)
    requires AllFailures(fs)
    ensures id in StoredFrom(entries, fs) <==> id in entries
    ensures id in entries ==>
      && StoredFrom(entries, fs)[id].keys == entries[id].keys
      && (entries[id].failedSince.Some? ==> StoredFrom(entries, fs)[id].failedSince == entries[id].failedSince)
  {
    if fs != [] {
      FailuresOnlyMark(entries, fs[..|fs| - 1], id);
    }
  }

  /** However many refreshes fail, service is never prolonged: what is still answered was answered
      before them, and a source past its window stays refused until it answers again. */
  lemma FailuresNeverProlong(h: seq<Event>, fs: seq<Event>, id: string, staleFor: nat, now: Instant, later: Instant)
    requires AllFailures(fs) && now <= later
    ensures Answer(AllStored(h + fs), id, staleFor, later).Ok? ==>
      Answer(AllStored(h), id, staleFor, now) == Answer(AllStored(h + fs), id, staleFor, later)
  {
    StoredConcat(h, fs);
    FailuresOnlyMark(AllStored(h), fs, id);
  }

  /** The events of one source. */
  function Only(h: seq<Event>, id: string): seq<Event> {
    if h == [] then []
    else Only(h[..|h| - 1], id) + if h[|h| - 1].source == id then [h[|h| - 1]] else []
  }

  /** A source is served from its own events alone, whatever happens to the others. */
  lemma {:induction false} SourcesIndependent(h: seq<Event>, id: string)
    ensures id in AllStored(h) <==> id in AllStored(Only(h, id))
    ensures id in AllStored(h) ==> AllStored(h)[id] == AllStored(Only(h, id))[id]
  {
    if h != [] {
      var before, e := h[..|h| - 1], h[|h| - 1];
      SourcesIndependent(before, id);
      if e.source == id {
        assert Only(h, id)[..|Only(h, id)| - 1] == Only(before, id);
      } else {
        assert Only(h, id) == Only(before, id);
      }
    }
  }

  /** A published removal is authoritative: after a fetch the answer is that set, even when empty. */
  lemma PublishedSetReplaces(h: seq<Event>, id: string, at: Instant, keys: seq<Json>, staleFor: nat, now: Instant)
    ensures Answer(AllStored(h + [Fetched(id, at, keys)]), id, staleFor, now) == Ok(keys)
  {
    var h' := h + [Fetched(id, at, keys)];
    assert h'[..|h'| - 1] == h;
  }

  // --- A published document in its own terms ---------------------------------------------------

  /** A key is passed over when it says it is for something else than signatures, or carries a private part. */
  lemma UsableExactly(jwk: Json)
    ensures Usable(jwk) <==>
      && !(jwk.Obj? && "d" in jwk.members)
      && !(jwk.Obj? && "use" in jwk.members && jwk.members["use"].Str? && jwk.members["use"].text != "sig")
  {
  }

  /** Keys are kept or passed over one by one, in the order published. */
  lemma {:induction false} FilteredInOrder(a: seq<Json>, b: seq<Json>)
    ensures Filtered(a + b) == Filtered(a) + Filtered(b)
  {
    hide Usable;
    if a == [] {
      assert a + b == b;
    } else {
      var first := if Usable(a[0]) then [a[0]] else [];
      assert (a + b)[1..] == a[1..] + b && (a + b)[0] == a[0];
      FilteredInOrder(a[1..], b);
      assert Filtered(a + b) == first + (Filtered(a[1..]) + Filtered(b));
      assert Filtered(a) == first + Filtered(a[1..]);
    }
  }

  lemma FilteredOne(k: Json)
    ensures Filtered([k]) == if Usable(k) then [k] else []
  {
    hide Usable;
    assert [k][1..] == [];
    assert [k] + [] == [k];
  }

  /** A refresh of a source succeeds exactly when it was answered with an object that lists `keys`, and then
      holds those of them that may verify a signature; anything else is a failure. */
  lemma EventExactly(source: string, document: Option<Json>, at: Instant)
    ensures EventOf(source, document, at) ==
      if document.Some? && document.value.Obj? && "keys" in document.value.members
         && document.value.members["keys"].Arr?
      then Fetched(source, at, Filtered(document.value.members["keys"].items))
      else Failed(source, at)
  {
  }
}
