// Mapping scopes to authority invariants: rules by descending priority, first match wins.

module Authority {
  import opened Basics
  import opened Texts
  import opened Template

  datatype Emit = Emit(scope: string, operation: string, resourceType: string, resourceId: string)

  datatype Rule = Rule(name: string, priority: int, pattern: string, emit: Emit)

  datatype Invariant = Invariant(scope: string, operation: string, resourceType: string, resourceId: string)

  datatype Profile = Profile(rules: seq<Rule>, onUnmatchedScope: string)

  const REJECT: string := "reject"

  /** The regex library: which patterns compile, and the named captures of a match. */
  datatype Regex = Regex(compiles: string -> bool, captures: (string, string) -> Option<Captures>)

  datatype Refusal = BadPattern | BadTemplate | UnmatchedScope | NoAuthority

  // --- Configuration check ---------------------------------------------------------------------

  ghost predicate RuleComplete(r: Rule) {
    && !IsBlank(r.name) && !IsBlank(r.pattern) && !IsBlank(r.emit.scope) && !IsBlank(r.emit.operation)
    && !IsBlank(r.emit.resourceType) && !IsBlank(r.emit.resourceId)
  }

  ghost predicate DistinctPriorities(rules: seq<Rule>) {
    forall i, j :: 0 <= i < j < |rules| ==> rules[i].priority != rules[j].priority
  }

  ghost predicate DistinctNames(rules: seq<Rule>) {
    forall i, j :: 0 <= i < j < |rules| ==> rules[i].name != rules[j].name
  }

  method ValidateRules(profile: Profile) returns (ok: bool)
    ensures ok <==>
      && profile.rules != [] && profile.onUnmatchedScope == REJECT
      && (forall i :: 0 <= i < |profile.rules| ==> RuleComplete(profile.rules[i]))
      && DistinctNames(profile.rules) && DistinctPriorities(profile.rules)
  {
    hide IsBlank;
    var rules := profile.rules;
    if rules == [] { return false; }
    var priorities: set<int> := {};
    var names: set<string> := {};
    var i := 0;
    while i < |rules|
      invariant 0 <= i <= |rules|
      invariant forall n :: n in names <==> exists k :: 0 <= k < i && rules[k].name == n
      invariant forall p :: p in priorities <==> exists k :: 0 <= k < i && rules[k].priority == p
      invariant forall k :: 0 <= k < i ==> RuleComplete(rules[k])
      invariant DistinctNames(rules[..i]) && DistinctPriorities(rules[..i])
    {
      var rule := rules[i];
      if IsBlank(rule.name) { return false; }
      if rule.name in names { return false; }
      names := names + {rule.name};
      if rule.priority in priorities { return false; }
      priorities := priorities + {rule.priority};
      if IsBlank(rule.pattern) { return false; }
      if IsBlank(rule.emit.scope) || IsBlank(rule.emit.operation)
         || IsBlank(rule.emit.resourceType) || IsBlank(rule.emit.resourceId) { return false; }
      assert rules[..i + 1] == rules[..i] + [rule];
      i := i + 1;
    }
    assert rules[..i] == rules;
    ok := profile.onUnmatchedScope == REJECT;
  }

  // --- The mapping -----------------------------------------------------------------------------

  /** The stable sort by descending priority. */
  function ByPriority(rules: seq<Rule>): seq<Rule> {
    if rules == [] then [] else Insert(rules[0], ByPriority(rules[1..]))
  }

  function Insert(r: Rule, sorted: seq<Rule>): seq<Rule> {
    if sorted == [] || r.priority >= sorted[0].priority then [r] + sorted
    else [sorted[0]] + Insert(r, sorted[1..])
  }

  function FirstMatch(re: Regex, rules: seq<Rule>, scope: string): Option<Rule> {
    if rules == [] then None
    else if re.captures(rules[0].pattern, scope).Some? then Some(rules[0])
    else FirstMatch(re, rules[1..], scope)
  }

  function Expand(re: Regex, rule: Rule, scope: string): Option<Invariant>
    requires re.captures(rule.pattern, scope).Some?
  {
    var c := re.captures(rule.pattern, scope).value;
    var s, o := Rendered(rule.emit.scope, scope, c), Rendered(rule.emit.operation, scope, c);
    var t, i := Rendered(rule.emit.resourceType, scope, c), Rendered(rule.emit.resourceId, scope, c);
    if s.Ok? && o.Ok? && t.Ok? && i.Ok? then Some(Invariant(s.value, o.value, t.value, i.value)) else None
  }

  predicate Compiled(re: Regex, rules: seq<Rule>) {
    forall r :: r in rules ==> re.compiles(r.pattern)
  }

  /** The rule a scope is mapped by: it matches, and no matching rule has a higher priority. */
  ghost predicate Winner(re: Regex, rules: seq<Rule>, scope: string, r: Rule) {
    && r in rules && re.captures(r.pattern, scope).Some?
    && forall r' :: r' in rules && re.captures(r'.pattern, scope).Some? ==> r'.priority <= r.priority
  }

  /** The four templates of a rule render, with the captures of this scope, to the four fields. */
  ghost predicate Renders(re: Regex, r: Rule, scope: string, inv: Invariant) {
    && re.captures(r.pattern, scope).Some?
    && var c := re.captures(r.pattern, scope).value;
       && Rendered(r.emit.scope, scope, c) == Ok(inv.scope)
       && Rendered(r.emit.operation, scope, c) == Ok(inv.operation)
       && Rendered(r.emit.resourceType, scope, c) == Ok(inv.resourceType)
       && Rendered(r.emit.resourceId, scope, c) == Ok(inv.resourceId)
  }

  lemma ExpandExactly(re: Regex, r: Rule, scope: string)
    requires re.captures(r.pattern, scope).Some?
    ensures forall inv :: Expand(re, r, scope) == Some(inv) <==> Renders(re, r, scope, inv)
  {
    hide Rendered;
  }

  /** A scope is mapped without error: its winner's templates render, or it has none and that is allowed. */
  ghost predicate ScopeMaps(re: Regex, profile: Profile, scope: string) {
    && (forall r :: Winner(re, profile.rules, scope, r) ==> exists inv :: Renders(re, r, scope, inv))
    && (profile.onUnmatchedScope == REJECT ==> exists r :: Winner(re, profile.rules, scope, r))
  }

  /** `inv` is what some scope's winner renders. */
  ghost predicate Granted(re: Regex, rules: seq<Rule>, scopes: seq<string>, inv: Invariant) {
    exists scope, r :: scope in scopes && Winner(re, rules, scope, r) && Renders(re, r, scope, inv)
  }

  /** Scope by scope, through rules already sorted. */
  function Collected(re: Regex, sorted: seq<Rule>, policy: string, scopes: seq<string>, found: set<Invariant>)
    : Result<set<Invariant>, Refusal>
    decreases |scopes|
  {
    if scopes == [] then Ok(found)
    else
      var matched := FirstMatch(re, sorted, scopes[0]);
      if matched.Some? then
        FirstMatchMatches(re, sorted, scopes[0]);
        var expanded := Expand(re, matched.value, scopes[0]);
        if expanded.None? then Err(BadTemplate)
        else Collected(re, sorted, policy, scopes[1..], found + {expanded.value})
      else if policy == REJECT then Err(UnmatchedScope)
      else Collected(re, sorted, policy, scopes[1..], found)
  }

  /** The set the source returns as a sorted list without repetition. */
  function Mapped(re: Regex, profile: Profile, scopes: seq<string>): Result<set<Invariant>, Refusal> {
    if !Compiled(re, profile.rules) then Err(BadPattern)
    else
      var r := Collected(re, ByPriority(profile.rules), profile.onUnmatchedScope, scopes, {});
      if r.Ok? && r.value == {} then Err(NoAuthority) else r
  }

  lemma FirstMatchMatches(re: Regex, rules: seq<Rule>, scope: string)
    ensures FirstMatch(re, rules, scope).Some? ==>
      re.captures(FirstMatch(re, rules, scope).value.pattern, scope).Some?
  {
  }

  method MapInvariants(re: Regex, profile: Profile, scopes: seq<string>) returns (r: Result<set<Invariant>, Refusal>)
    ensures r == Mapped(re, profile, scopes)
  {
    var rules: seq<Rule> := [];
    var k := 0;
    while k < |profile.rules|
      invariant 0 <= k <= |profile.rules|
      invariant rules == profile.rules[..k]
      invariant Compiled(re, rules)
    {
      if !re.compiles(profile.rules[k].pattern) {
        assert profile.rules[k] in profile.rules;
        return Err(BadPattern);
      }
      rules := rules + [profile.rules[k]];
      k := k + 1;
    }
    assert rules == profile.rules;
    rules := ByPriority(rules);

    var invariants: set<Invariant> := {};
    var i := 0;
    assert scopes[0..] == scopes;
    while i < |scopes|
      invariant 0 <= i <= |scopes|
      invariant Collected(re, rules, profile.onUnmatchedScope, scopes, {})
             == Collected(re, rules, profile.onUnmatchedScope, scopes[i..], invariants)
    {
      var scope := scopes[i];
      assert scopes[i..][1..] == scopes[i + 1..];
      var matched := MatchScope(re, rules, scope);
      if matched.Some? {
        FirstMatchMatches(re, rules, scope);
        var expanded := Expand(re, matched.value, scope);
        if expanded.None? { return Err(BadTemplate); }
        invariants := invariants + {expanded.value};
      } else if profile.onUnmatchedScope == REJECT {
        return Err(UnmatchedScope);
      }
      i := i + 1;
    }
    if invariants == {} { return Err(NoAuthority); }
    r := Ok(invariants);
  }

  /** The inner loop over the sorted rules, stopping at the first match. */
  method MatchScope(re: Regex, rules: seq<Rule>, scope: string) returns (r: Option<Rule>)
    ensures r == FirstMatch(re, rules, scope)
  {
    var i := 0;
    while i < |rules|
      invariant 0 <= i <= |rules|
      invariant FirstMatch(re, rules, scope) == FirstMatch(re, rules[i..], scope)
    {
      assert rules[i..][1..] == rules[i + 1..];
      if re.captures(rules[i].pattern, scope).Some? { return Some(rules[i]); }
      i := i + 1;
    }
    r := None;
  }

  // --- Why the first match is the winner -------------------------------------------------------

  ghost predicate Descending(rules: seq<Rule>) {
    forall i, j :: 0 <= i < j < |rules| ==> rules[i].priority >= rules[j].priority
  }

  lemma {:induction false} InsertSorted(r: Rule, sorted: seq<Rule>)
    requires Descending(sorted)
    ensures Descending(Insert(r, sorted))
    ensures forall x :: x in Insert(r, sorted) <==> x == r || x in sorted
  {
    if !(sorted == [] || r.priority >= sorted[0].priority) {
      var first, others := sorted[0], sorted[1..];
      assert sorted == [first] + others;
      assert forall x :: x in others ==> x.priority <= first.priority;
      InsertSorted(r, others);
      var rest := Insert(r, others);
      forall i | 0 <= i < |rest| ensures rest[i].priority <= first.priority {
        assert rest[i] in rest;
      }
    }
  }

  lemma {:induction false} ByPrioritySorted(rules: seq<Rule>)
    ensures Descending(ByPriority(rules))
    ensures forall x :: x in ByPriority(rules) <==> x in rules
  {
    if rules != [] {
      ByPrioritySorted(rules[1..]);
      InsertSorted(rules[0], ByPriority(rules[1..]));
      assert rules == [rules[0]] + rules[1..];
    }
  }

  lemma {:induction false} FirstMatchFirst(re: Regex, rules: seq<Rule>, scope: string)
    requires Descending(rules)
    ensures FirstMatch(re, rules, scope).Some? ==> Winner(re, rules, scope, FirstMatch(re, rules, scope).value)
    ensures FirstMatch(re, rules, scope).None? ==> forall r :: r in rules ==> re.captures(r.pattern, scope).None?
  {
    if rules != [] {
      assert rules == [rules[0]] + rules[1..];
      FirstMatchFirst(re, rules[1..], scope);
    }
  }

  lemma FirstMatchWins(re: Regex, rules: seq<Rule>, scope: string)
    ensures FirstMatch(re, ByPriority(rules), scope).Some? ==>
      Winner(re, rules, scope, FirstMatch(re, ByPriority(rules), scope).value)
    ensures FirstMatch(re, ByPriority(rules), scope).None? ==> forall r :: !Winner(re, rules, scope, r)
  {
    ByPrioritySorted(rules);
    FirstMatchFirst(re, ByPriority(rules), scope);
  }

  /** Distinct priorities leave no room for two winners. */
  lemma WinnerUnique(re: Regex, rules: seq<Rule>, scope: string, r: Rule)
    requires DistinctPriorities(rules) && Winner(re, rules, scope, r)
    ensures forall r' :: Winner(re, rules, scope, r') ==> r' == r
  {
    forall r' | Winner(re, rules, scope, r') ensures r' == r {
      var i :| 0 <= i < |rules| && rules[i] == r;
      var j :| 0 <= j < |rules| && rules[j] == r';
    }
  }

  lemma {:induction false} CollectedExactly(re: Regex, profile: Profile, scopes: seq<string>, found: set<Invariant>)
    requires DistinctPriorities(profile.rules)
    ensures var r := Collected(re, ByPriority(profile.rules), profile.onUnmatchedScope, scopes, found);
      && (r.Ok? <==> forall scope :: scope in scopes ==> ScopeMaps(re, profile, scope))
      && (r.Ok? ==> forall inv :: inv in r.value <==> inv in found || Granted(re, profile.rules, scopes, inv))
    decreases |scopes|
  {
    hide Expand, Renders;
    if scopes != [] {
      var scope, rest := scopes[0], scopes[1..];
      assert scopes == [scope] + rest;
      assert scope in scopes;
      var rules := profile.rules;
      FirstMatchWins(re, rules, scope);
      var matched := FirstMatch(re, ByPriority(rules), scope);
      if matched.Some? {
        WinnerUnique(re, rules, scope, matched.value);
        ExpandExactly(re, matched.value, scope);
        if Expand(re, matched.value, scope).Some? {
          CollectedExactly(re, profile, rest, found + {Expand(re, matched.value, scope).value});
        }
      } else if profile.onUnmatchedScope != REJECT {
        CollectedExactly(re, profile, rest, found);
      }
      GrantedMore(re, rules, scope, rest, matched);
    }
  }

  /** The first scope that does not map is refused for what it lacks: a rule, or a template that renders. */
  ghost predicate RefusedAt(re: Regex, profile: Profile, scopes: seq<string>, i: nat, refusal: Refusal) {
    && i < |scopes| && !ScopeMaps(re, profile, scopes[i])
    && (forall j :: 0 <= j < i ==> ScopeMaps(re, profile, scopes[j]))
    && (refusal == UnmatchedScope <==> forall r :: !Winner(re, profile.rules, scopes[i], r))
    && (refusal == BadTemplate <==> exists r :: Winner(re, profile.rules, scopes[i], r))
  }

  lemma {:induction false} CollectedRefuses(re: Regex, profile: Profile, scopes: seq<string>, found: set<Invariant>)
    returns (i: nat)
    requires DistinctPriorities(profile.rules)
    requires Collected(re, ByPriority(profile.rules), profile.onUnmatchedScope, scopes, found).Err?
    ensures RefusedAt(re, profile, scopes, i,
                      Collected(re, ByPriority(profile.rules), profile.onUnmatchedScope, scopes, found).error)
    decreases |scopes|
  {
    hide Expand, Renders, Winner;
    var scope, rest := scopes[0], scopes[1..];
    FirstMatchWins(re, profile.rules, scope);
    var matched := FirstMatch(re, ByPriority(profile.rules), scope);
    if matched.Some? {
      WinnerUnique(re, profile.rules, scope, matched.value);
      ExpandExactly(re, matched.value, scope);
    }
    if matched.Some? && Expand(re, matched.value, scope).None? {
      i := 0;
    } else if matched.None? && profile.onUnmatchedScope == REJECT {
      i := 0;
    } else {
      var more := if matched.Some? then {Expand(re, matched.value, scope).value} else {};
      assert found + {} == found;
      var k := CollectedRefuses(re, profile, rest, found + more);
      i := k + 1;
      assert forall j :: 0 < j < |scopes| ==> scopes[j] == rest[j - 1];
    }
  }

  lemma GrantedMore(re: Regex, rules: seq<Rule>, scope: string, rest: seq<string>, w: Option<Rule>)
    requires w.Some? ==> Winner(re, rules, scope, w.value) && forall r :: Winner(re, rules, scope, r) ==> r == w.value
    requires w.None? ==> forall r :: !Winner(re, rules, scope, r)
    ensures forall inv :: Granted(re, rules, [scope] + rest, inv) <==>
      Granted(re, rules, rest, inv) || (w.Some? && Renders(re, w.value, scope, inv))
  {
    hide Renders;
    forall inv
      ensures Granted(re, rules, [scope] + rest, inv) <==>
        Granted(re, rules, rest, inv) || (w.Some? && Renders(re, w.value, scope, inv))
    {
      if Granted(re, rules, rest, inv) {
        var s, r :| s in rest && Winner(re, rules, s, r) && Renders(re, r, s, inv);
        assert s in [scope] + rest;
      }
      if w.Some? && Renders(re, w.value, scope, inv) {
        assert scope in [scope] + rest;
      }
    }
  }

  /** With distinct priorities: accepted exactly when every pattern compiles, every scope maps and
      something is granted; the set is then exactly the expansions of each scope's one winner. */
  lemma MappedExactly(re: Regex, profile: Profile, scopes: seq<string>)
    requires DistinctPriorities(profile.rules)
    ensures Mapped(re, profile, scopes).Ok? <==>
      && Compiled(re, profile.rules)
      && (forall scope :: scope in scopes ==> ScopeMaps(re, profile, scope))
      && (exists inv :: Granted(re, profile.rules, scopes, inv))
    ensures Mapped(re, profile, scopes).Ok? ==>
      forall inv :: inv in Mapped(re, profile, scopes).value <==> Granted(re, profile.rules, scopes, inv)
    ensures Mapped(re, profile, scopes) == Err(BadPattern) <==> !Compiled(re, profile.rules)
    ensures Mapped(re, profile, scopes) == Err(NoAuthority) <==>
      && Compiled(re, profile.rules)
      && (forall scope :: scope in scopes ==> ScopeMaps(re, profile, scope))
      && (forall inv :: !Granted(re, profile.rules, scopes, inv))
    ensures Compiled(re, profile.rules) && (exists scope :: scope in scopes && !ScopeMaps(re, profile, scope)) ==>
      && Mapped(re, profile, scopes).Err?
      && exists i :: RefusedAt(re, profile, scopes, i, Mapped(re, profile, scopes).error)
  {
    CollectedExactly(re, profile, scopes, {});
    var r := Collected(re, ByPriority(profile.rules), profile.onUnmatchedScope, scopes, {});
    if r.Ok? && r.value != {} {
      var inv :| inv in r.value;
      assert Granted(re, profile.rules, scopes, inv);
    }
    if r.Err? {
      var i := CollectedRefuses(re, profile, scopes, {});
    }
  }

  // --- Order does not matter -------------------------------------------------------------------

  lemma SameWinners(re: Regex, rules: seq<Rule>, rules': seq<Rule>)
    requires multiset(rules) == multiset(rules')
    ensures forall scope, r :: Winner(re, rules, scope, r) <==> Winner(re, rules', scope, r)
    ensures Compiled(re, rules) <==> Compiled(re, rules')
  {
    assert forall r :: r in rules <==> r in multiset(rules);
    assert forall r :: r in rules' <==> r in multiset(rules');
  }

  /** Same rules in any order and same scopes in any order or multiplicity: same verdict, same set. */
  lemma MappingOrderFree(re: Regex, profile: Profile, scopes: seq<string>, profile': Profile, scopes': seq<string>)
    requires DistinctPriorities(profile.rules)
    requires multiset(profile.rules) == multiset(profile'.rules)
    requires profile.onUnmatchedScope == profile'.onUnmatchedScope
    requires Elements(scopes) == Elements(scopes')
    ensures Mapped(re, profile, scopes).Ok? <==> Mapped(re, profile', scopes').Ok?
    ensures Mapped(re, profile, scopes).Ok? ==> Mapped(re, profile, scopes).value == Mapped(re, profile', scopes').value
  {
    hide Mapped, Renders, DistinctPriorities, Winner, Compiled;
    PrioritiesOrderFree(profile.rules, profile'.rules);
    MappedExactly(re, profile, scopes);
    MappedExactly(re, profile', scopes');
    SameWinners(re, profile.rules, profile'.rules);
    assert forall s :: s in scopes <==> s in scopes' by {
      assert forall s :: s in scopes <==> s in Elements(scopes);
      assert forall s :: s in scopes' <==> s in Elements(scopes');
    }
    forall inv ensures Granted(re, profile.rules, scopes, inv) <==> Granted(re, profile'.rules, scopes', inv) {
    }
  }

  lemma PrioritiesOrderFree(rules: seq<Rule>, rules': seq<Rule>)
    requires multiset(rules) == multiset(rules') && DistinctPriorities(rules)
    ensures DistinctPriorities(rules')
  {
    forall i, j | 0 <= i < j < |rules'| ensures rules'[i].priority != rules'[j].priority {
      var a, b := rules'[i], rules'[j];
      if a == b {
        TwicePresent(rules', i, j);
        AllDifferent(rules);
        OnlyOnce(rules, a);
      } else {
        assert a in multiset(rules') && b in multiset(rules');
        var k :| 0 <= k < |rules| && rules[k] == a;
        var l :| 0 <= l < |rules| && rules[l] == b;
      }
    }
  }

  lemma AllDifferent(rules: seq<Rule>)
    requires DistinctPriorities(rules)
    ensures Distinct(rules)
  {
  }

  /** Without the configuration check the order decides: two matching rules of equal priority. */
  lemma EqualPrioritiesDependOnOrder()
    ensures exists re: Regex, a: Rule, b: Rule ::
      var ab, ba := Mapped(re, Profile([a, b], REJECT), ["s"]), Mapped(re, Profile([b, a], REJECT), ["s"]);
      ab.Ok? && ba.Ok? && ab.value != ba.value
  {
    var re := Regex((p: string) => true, (p: string, s: string) => Some(map[]));
    var a := Rule("a", 1, "x", Emit("a", "a", "a", "a"));
    var b := Rule("b", 1, "x", Emit("b", "b", "b", "b"));
    TwoRules(re, a, b, "s");
    TwoRules(re, b, a, "s");
    assert Rendered("a", "s", map[]) == Ok("a") && Rendered("b", "s", map[]) == Ok("b");
    OneScope(re, Profile([a, b], REJECT), a);
    OneScope(re, Profile([b, a], REJECT), b);
    assert Invariant("a", "a", "a", "a") in Mapped(re, Profile([a, b], REJECT), ["s"]).value;
    assert Invariant("a", "a", "a", "a") !in Mapped(re, Profile([b, a], REJECT), ["s"]).value;
  }

  lemma OneScope(re: Regex, profile: Profile, r: Rule)
    requires Compiled(re, profile.rules) && FirstMatch(re, ByPriority(profile.rules), "s") == Some(r)
    requires re.captures(r.pattern, "s").Some? && Expand(re, r, "s").Some?
    ensures Mapped(re, profile, ["s"]) == Ok({Expand(re, r, "s").value})
  {
    hide Expand, ByPriority, FirstMatch;
    assert ["s"][1..] == [];
    var inv := Expand(re, r, "s").value;
    assert {} + {inv} == {inv};
    assert inv in {inv};
  }

  lemma TwoRules(re: Regex, a: Rule, b: Rule, scope: string)
    requires a.priority == b.priority && re.captures(a.pattern, scope).Some?
    ensures FirstMatch(re, ByPriority([a, b]), scope) == Some(a)
  {
    var tail := [a, b][1..];
    assert tail == [b] && tail[1..] == [];
    assert ByPriority(tail) == Insert(b, ByPriority(tail[1..])) == [b];
    assert ByPriority([a, b]) == [a] + [b];
  }
}
