// The absolute expiry of a new lineage: what the proposal asks for, or what realm and source allow.

module Expiry {
  import opened Basics

  datatype Policy = Later | Pic | OAuth

  datatype Refusal = NotBase64 | NotJson | NotAFutureDate | DateTooFar | NotPositive | LifetimeTooLong
                   | LifetimeOverflows | NotInFuture

  const MAX_REQUESTED_LIFETIME: i64 := 31_536_000

  /** What base64url and JSON decoding make of the encoded proposal. */
  datatype Proposal = NotBase64Url | NotJsonText | Document(json: Json)

  function CheckedAdd(a: i64, b: i64): Option<i64> {
    var sum := a as int + b as int;
    if -I64_MAX - 1 <= sum <= I64_MAX then Some(sum as i64) else None
  }

  /** `as i64` on an unsigned 64-bit number of seconds: the top half wraps below zero. */
  function CastI64(seconds: u64): i64 {
    if seconds <= I64_MAX then seconds as i64 else (seconds - U64) as i64
  }

  /** What the proposal itself asks for. The clock is not before the epoch. */
  function ProposalExpiry(proposal: Proposal, now: i64): Result<Option<i64>, Refusal>
    requires now >= 0
  {
    if proposal.NotBase64Url? then Err(NotBase64)
    else if proposal.NotJsonText? then Err(NotJson)
    else
      var at := proposal.json.Get("tokenExpiresAt");
      if at.Some? then
        var expiresAt := at.value.AsI64();
        if expiresAt.None? || expiresAt.value <= now then Err(NotAFutureDate)
        else if expiresAt.value - now > MAX_REQUESTED_LIFETIME then Err(DateTooFar)
        else Ok(Some(expiresAt.value))
      else
        var lifetime := proposal.json.Get("tokenLifetimeSeconds");
        if lifetime.None? then Ok(None)
        else
          var seconds := lifetime.value.AsI64();
          if seconds.None? || seconds.value <= 0 then Err(NotPositive)
          else if seconds.value > MAX_REQUESTED_LIFETIME then Err(LifetimeTooLong)
          else
            var sum := CheckedAdd(now, seconds.value);
            if sum.None? then Err(LifetimeOverflows) else Ok(Some(sum.value))
  }

  function InitialExpiry(proposal: Proposal, source: Option<i64>, now: i64, lifetime: u64, policy: Policy)
    : Result<i64, Refusal>
    requires now >= 0
  {
    var asked := ProposalExpiry(proposal, now);
    if asked.Err? then Err(asked.error)
    else if asked.value.Some? then Ok(asked.value.value)
    else
      var default_ := CheckedAdd(now, CastI64(lifetime));
      if default_.None? then Err(LifetimeOverflows)
      else
        var expiry :=
          if source.None? then default_.value
          else match policy
            case Later => if source.value > default_.value then source.value else default_.value
            case Pic => default_.value
            case OAuth => source.value;
        if expiry <= now then Err(NotInFuture) else Ok(expiry)
  }

  // --- Exactly when, and as what, in unbounded integers ----------------------------------------

  /** The number a member of the proposal document denotes, when it fits 64 signed bits. */
  ghost function Asked(proposal: Proposal, member: string): Option<Option<int>> {
    if proposal.Document? && proposal.json.Get(member).Some? then
      var n := proposal.json.Get(member).value.AsI64();
      Some(if n.None? then None else Some(n.value as int))
    else None
  }

  /** A lifetime the realm can use: one that neither wraps nor runs past the last instant. */
  predicate UsableLifetime(now: int, lifetime: u64) {
    lifetime > 0 && now + lifetime <= I64_MAX
  }

  /** What a realm's policy grants without a request: the source's expiry, the realm's lifetime, or
      the later of the two. A lifetime that wraps counts as already over, except that one that
      merely runs past the last instant refuses outright. */
  ghost predicate PolicyGrants(source: Option<int>, now: int, lifetime: u64, policy: Policy, e: int) {
    && e > now
    && (lifetime <= I64_MAX ==> now + lifetime <= I64_MAX)
    && (if source.None? || policy.Pic? then UsableLifetime(now, lifetime) && e == now + lifetime
        else if policy.OAuth? then e == source.value
        else if UsableLifetime(now, lifetime) && now + lifetime >= source.value then e == now + lifetime
        else e == source.value)
  }

  ghost predicate Grants(proposal: Proposal, source: Option<int>, now: int, lifetime: u64, policy: Policy, e: int) {
    && proposal.Document?
    && var at, seconds := Asked(proposal, "tokenExpiresAt"), Asked(proposal, "tokenLifetimeSeconds");
       if at.Some? then at.value == Some(e) && now < e <= now + MAX_REQUESTED_LIFETIME as int
       else if seconds.Some? then
         seconds.value == Some(e - now) && now < e <= now + MAX_REQUESTED_LIFETIME as int && e <= I64_MAX
       else PolicyGrants(source, now, lifetime, policy, e)
  }

  /** The computation over 64-bit integers agrees with its statement over unbounded ones, for every
      proposal, source, policy, clock and lifetime. */
  lemma InitialExactly(proposal: Proposal, source: Option<i64>, now: i64, lifetime: u64, policy: Policy, e: i64)
    requires now >= 0
    ensures InitialExpiry(proposal, source, now, lifetime, policy) == Ok(e) <==>
      Grants(proposal, if source.None? then None else Some(source.value as int), now as int, lifetime, policy, e as int)
  {
  }

  /** An accepted expiry is in the future, and one the proposal asked for at most a year ahead. */
  lemma AcceptedIsFuture(proposal: Proposal, source: Option<i64>, now: i64, lifetime: u64, policy: Policy)
    requires now >= 0 && InitialExpiry(proposal, source, now, lifetime, policy).Ok?
    ensures InitialExpiry(proposal, source, now, lifetime, policy).value > now
    ensures Asked(proposal, "tokenExpiresAt").Some? || Asked(proposal, "tokenLifetimeSeconds").Some? ==>
      InitialExpiry(proposal, source, now, lifetime, policy).value - now <= 31_536_000
  {
    var e := InitialExpiry(proposal, source, now, lifetime, policy).value;
    InitialExactly(proposal, source, now, lifetime, policy, e);
  }

  /** A lifetime of 2^63 seconds or more wraps: without a request, only the source's own expiry can
      be granted, and only where the policy lets it. */
  lemma WrappedLifetime(proposal: Proposal, source: Option<i64>, now: i64, lifetime: u64, policy: Policy)
    requires now >= 0 && lifetime > I64_MAX
    requires proposal.Document?
    requires Asked(proposal, "tokenExpiresAt").None? && Asked(proposal, "tokenLifetimeSeconds").None?
    ensures InitialExpiry(proposal, source, now, lifetime, policy) ==
      if source.Some? && !policy.Pic? && source.value > now then Ok(source.value) else Err(NotInFuture)
  {
  }

  /** The realm's lifetime does not cap what a proposal asks for. */
  lemma RealmLifetimeIsNoCap(now: i64, policy: Policy)
    requires 0 <= now <= 1_000_000_000_000
    ensures InitialExpiry(Document(Obj(map["tokenLifetimeSeconds" := Int(31_536_000)])), None, now, 1, policy)
         == Ok(now + 31_536_000)
  {
  }

  /** Why a request is refused: a proposal that does not decode, a member that asks for something it may not,
      or, when it asks for nothing, an expiry that would already be over or would not fit. */
  lemma RefusedExactly(proposal: Proposal, source: Option<i64>, now: i64, lifetime: u64, policy: Policy)
    requires now >= 0 && InitialExpiry(proposal, source, now, lifetime, policy).Err?
    ensures var e := InitialExpiry(proposal, source, now, lifetime, policy).error;
      var at, seconds := Asked(proposal, "tokenExpiresAt"), Asked(proposal, "tokenLifetimeSeconds");
      && (e == NotBase64 <==> proposal.NotBase64Url?) && (e == NotJson <==> proposal.NotJsonText?)
      && (e == NotAFutureDate <==> at.Some? && (at.value.None? || at.value.value <= now as int))
      && (e == DateTooFar <==> at.Some? && at.value.Some? && at.value.value > now as int + 31_536_000)
      && (e == NotPositive <==> at.None? && seconds.Some? && (seconds.value.None? || seconds.value.value <= 0))
      && (e == LifetimeTooLong <==>
            at.None? && seconds.Some? && seconds.value.Some? && seconds.value.value > 31_536_000)
      && (e == NotInFuture ==> proposal.Document? && at.None? && seconds.None?)
  {
  }
}
