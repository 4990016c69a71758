// Execution-contract conformance: what the presentation disclosed against what the checkpoint demands.

module Conformance {
  import opened Basics
  import opened Texts

  /** A denormalized contract entry: `key = text`, or `name:member` present. */
  datatype TupleValue = Text(required: string) | Membership(present: bool)

  type Contract = seq<(string, TupleValue)>

  datatype Mismatch = Missing(key: string, required: string) | Contradicts(key: string, required: string) | SaysNothing

  /** A disclosed value carries a text: as itself, or as a member of a list. */
  predicate Carries(disclosed: Json, text: string) {
    match disclosed
    case Str(value) => value == text
    case Arr(items) => Str(text) in items
    case _ => false
  }

  /** The claim an entry is about and the text it must carry; nothing for a malformed membership. */
  function Demand(key: string, value: TupleValue): Option<(string, string)> {
    match value
    case Text(required) => Some((key, required))
    case Membership(_) => SplitOnce(key, ':')
  }

  function CheckEntry(claims: map<string, Json>, key: string, value: TupleValue): Option<Mismatch> {
    var demand := Demand(key, value);
    if demand.None? then Some(Missing(key, "membership"))
    else
      var (name, required) := demand.value;
      if name !in claims then Some(Missing(name, required))
      else if !Carries(claims[name], required) then Some(Contradicts(name, required))
      else None
  }

  function Check(claims: map<string, Json>, contract: Contract): Option<Mismatch> {
    if contract == [] then None
    else
      var first := CheckEntry(claims, contract[0].0, contract[0].1);
      if first.Some? then first else Check(claims, contract[1..])
  }

  /** The outcome for one settlement: nothing accepted proves nothing. */
  function Reason(accepted: Option<map<string, Json>>, contract: Contract): Option<Mismatch> {
    if accepted.None? then Some(SaysNothing) else Check(accepted.value, contract)
  }

  // --- What the contract asks, in its own terms ------------------------------------------------

  /** A claim is the text, or a list one of whose items is. */
  ghost predicate Says(claims: map<string, Json>, name: string, text: string) {
    name in claims && (claims[name] == Str(text) || ListsText(claims[name], text))
  }

  ghost predicate ListsText(value: Json, text: string) {
    value.Arr? && exists i :: 0 <= i < |value.items| && value.items[i] == Str(text)
  }

  /** A membership key names a claim before its first colon, and a member after it. */
  ghost predicate Names(key: string, name: string, member: string) {
    key == name + ":" + member && ':' !in name
  }

  /** An entry is met: the claim says the text; or the claim before the colon says the member after it. */
  ghost predicate Meets(claims: map<string, Json>, entry: (string, TupleValue)) {
    if entry.1.Text? then Says(claims, entry.0, entry.1.required)
    else exists name, member :: Names(entry.0, name, member) && Says(claims, name, member)
  }

  lemma CarriesExactly(claims: map<string, Json>, name: string, text: string)
    ensures Says(claims, name, text) <==> name in claims && Carries(claims[name], text)
  {
    if name in claims && claims[name].Arr? && Str(text) in claims[name].items {
      var items := claims[name].items;
      var i :| 0 <= i < |items| && items[i] == Str(text);
    }
  }

  lemma SplitExactly(key: string, name: string, member: string)
    ensures Names(key, name, member) <==> SplitOnce(key, ':') == Some((name, member))
  {
    if Names(key, name, member) {
      SplitOnceConcat(name, ':', member);
      assert key == name + [':'] + member;
    }
    if SplitOnce(key, ':') == Some((name, member)) {
      var k := IndexOf(key, ':');
      assert key == key[..k] + ":" + key[k + 1..];
    }
  }

  /** An entry passes exactly when it is met. Otherwise the answer names the claim and what it lacks:
      missing when the claim is not disclosed, or the key names none; contradicted when it is. */
  lemma EntryExactly(claims: map<string, Json>, key: string, value: TupleValue)
    ensures CheckEntry(claims, key, value).None? <==> Meets(claims, (key, value))
    ensures value.Text? && !Meets(claims, (key, value)) ==>
      CheckEntry(claims, key, value)
      == Some(if key in claims then Contradicts(key, value.required) else Missing(key, value.required))
    ensures value.Membership? && ':' !in key ==> CheckEntry(claims, key, value) == Some(Missing(key, "membership"))
    ensures forall name, member :: value.Membership? && Names(key, name, member) && !Meets(claims, (key, value)) ==>
      CheckEntry(claims, key, value)
      == Some(if name in claims then Contradicts(name, member) else Missing(name, member))
  {
    hide Carries, Says, SplitOnce, Names;
    if value.Text? {
      CarriesExactly(claims, key, value.required);
    } else {
      NoColon(key);
      forall name, member
        ensures Names(key, name, member) <==> SplitOnce(key, ':') == Some((name, member))
        ensures Says(claims, name, member) <==> name in claims && Carries(claims[name], member)
      {
        SplitExactly(key, name, member);
        CarriesExactly(claims, name, member);
      }
      if SplitOnce(key, ':').Some? {
        var (name, member) := SplitOnce(key, ':').value;
        assert Names(key, name, member);
      }
    }
  }

  lemma NoColon(key: string)
    ensures ':' !in key <==> SplitOnce(key, ':') == None
  {
  }

  /** Conformance holds exactly when every entry is met, whatever order they are indexed in; a
      refusal is the first entry that is not. */
  lemma {:induction false} CheckExactly(claims: map<string, Json>, contract: Contract)
    ensures Check(claims, contract).None? <==> forall i :: 0 <= i < |contract| ==> Meets(claims, contract[i])
    ensures Check(claims, contract).Some? ==> exists i ::
      && 0 <= i < |contract| && CheckEntry(claims, contract[i].0, contract[i].1) == Check(claims, contract)
      && forall j :: 0 <= j < i ==> Meets(claims, contract[j])
  {
    hide Meets;
    if contract != [] {
      var entry, rest := contract[0], contract[1..];
      EntryExactly(claims, entry.0, entry.1);
      CheckExactly(claims, rest);
      if CheckEntry(claims, entry.0, entry.1).None? {
        assert forall i :: 0 < i < |contract| ==> contract[i] == rest[i - 1];
        assert forall i :: 0 <= i < |rest| ==> rest[i] == contract[i + 1];
        if Check(claims, rest).Some? {
          var i :| && 0 <= i < |rest| && CheckEntry(claims, rest[i].0, rest[i].1) == Check(claims, rest)
                   && forall j :: 0 <= j < i ==> Meets(claims, rest[j]);
          assert contract[i + 1] == rest[i];
        }
      }
    }
  }

  lemma ContractOrderFree(claims: map<string, Json>, contract: Contract, contract': Contract)
    requires multiset(contract) == multiset(contract')
    ensures Check(claims, contract).None? <==> Check(claims, contract').None?
  {
    hide Meets;
    CheckExactly(claims, contract);
    CheckExactly(claims, contract');
    if Check(claims, contract).None? { MetByAll(claims, contract, contract'); }
    if Check(claims, contract').None? { MetByAll(claims, contract', contract); }
  }

  lemma MetByAll(claims: map<string, Json>, contract: Contract, contract': Contract)
    requires multiset(contract) == multiset(contract')
    requires forall i :: 0 <= i < |contract| ==> Meets(claims, contract[i])
    ensures forall j :: 0 <= j < |contract'| ==> Meets(claims, contract'[j])
  {
    hide Meets;
    forall j | 0 <= j < |contract'| ensures Meets(claims, contract'[j]) {
      assert contract'[j] in multiset(contract);
      assert contract'[j] in contract;
    }
  }

  /** Disclosing more never breaks conformance, as long as nothing already disclosed changes. */
  lemma MoreDisclosedStillConforms(claims: map<string, Json>, more: map<string, Json>, contract: Contract)
    requires Check(claims, contract).None? && forall k :: k in claims ==> k in more && more[k] == claims[k]
    ensures Check(more, contract).None?
  {
    CheckExactly(claims, contract);
    CheckExactly(more, contract);
  }
}
