// Expansion of an authority template: `${raw}` is the whole scope, `${name}` a named capture.

module Template {
  import opened Basics
  import opened Texts

  type Captures = map<string, string>

  datatype Error = Unterminated | MissingCapture

  /** Index of the first `${`, or the length when there is none. */
  function FindOpening(s: string): (k: nat)
    ensures k == |s| || k + 1 < |s|
    ensures k + 1 < |s| ==> s[k] == '$' && s[k + 1] == '{'
    ensures forall i :: 0 <= i < k && i + 1 < |s| ==> !(s[i] == '$' && s[i + 1] == '{')
  {
    if |s| < 2 then |s|
    else if s[0] == '$' && s[1] == '{' then 0
    else 1 + FindOpening(s[1..])
  }

  /** What a placeholder stands for. */
  function Lookup(name: string, raw: string, captures: Captures): Option<string> {
    if name == "raw" then Some(raw)
    else if name in captures then Some(captures[name])
    else None
  }

  /** How a template continues: no placeholder, one that is never closed, or one in full. */
  datatype Cut = Plain | Open(lead: string) | Placeholder(lead: string, name: string, rest: string)

  function NextCut(s: string): (c: Cut)
    ensures c.Placeholder? ==> |c.rest| < |s|
  {
    var start := FindOpening(s);
    if start == |s| then Plain
    else
      var after := s[start + 2..];
      var end := IndexOf(after, '}');
      if end == |after| then Open(s[..start]) else Placeholder(s[..start], after[..end], after[end + 1..])
  }

  /** The expansion of what is left of a template. */
  function Rendered(rest: string, raw: string, captures: Captures): Result<string, Error>
    decreases |rest|
  {
    var cut := NextCut(rest);
    if cut.Plain? then Ok(rest)
    else if cut.Open? then Err(Unterminated)
    else
      var value := Lookup(cut.name, raw, captures);
      if value.None? then Err(MissingCapture)
      else Before(cut.lead + value.value, Rendered(cut.rest, raw, captures))
  }

  function Before(front: string, rest: Result<string, Error>): Result<string, Error> {
    if rest.Err? then rest else Ok(front + rest.value)
  }

  lemma BeforeBefore(a: string, b: string, rest: Result<string, Error>)
    ensures Before(a, Before(b, rest)) == Before(a + b, rest)
  {
    if rest.Ok? { assert a + (b + rest.value) == a + b + rest.value; }
  }

  lemma RenderedNext(rendered: string, rest: string, raw: string, captures: Captures,
                     lead: string, name: string, more: string)
    requires NextCut(rest) == Placeholder(lead, name, more) && Lookup(name, raw, captures).Some?
    ensures Before(rendered, Rendered(rest, raw, captures))
         == Before(rendered + lead + Lookup(name, raw, captures).value, Rendered(more, raw, captures))
  {
    hide NextCut, Lookup, Before;
    var value := Lookup(name, raw, captures).value;
    BeforeBefore(rendered, lead + value, Rendered(more, raw, captures));
    assert rendered + (lead + value) == rendered + lead + value;
  }

  method RenderTemplate(template: string, raw: string, captures: Captures) returns (r: Result<string, Error>)
    ensures r == Rendered(template, raw, captures)
  {
    hide Rendered, FindOpening, IndexOf;
    var rendered, rest := "", template;
    BeforeNothing(Rendered(template, raw, captures));
    while FindOpening(rest) < |rest|
      invariant Rendered(template, raw, captures) == Before(rendered, Rendered(rest, raw, captures))
      decreases |rest|
    {
      RenderedStops(rest, raw, captures);
      var start := FindOpening(rest);
      ghost var before := rendered;
      rendered := rendered + rest[..start];
      var after := rest[start + 2..];
      var end := IndexOf(after, '}');
      if end == |after| { return Err(Unterminated); }
      var name := after[..end];
      if name == "raw" {
        rendered := rendered + raw;
      } else {
        if name !in captures { return Err(MissingCapture); }
        rendered := rendered + captures[name];
      }
      RenderedNext(before, rest, raw, captures, rest[..start], name, after[end + 1..]);
      rest := after[end + 1..];
    }
    RenderedStops(rest, raw, captures);
    r := Ok(rendered + rest);
  }

  lemma BeforeNothing(r: Result<string, Error>)
    ensures Before("", r) == r
  {
    if r.Ok? { assert "" + r.value == r.value; }
  }

  lemma RenderedStops(rest: string, raw: string, captures: Captures)
    ensures NextCut(rest).Plain? ==> Rendered(rest, raw, captures) == Ok(rest)
    ensures NextCut(rest).Open? ==> Rendered(rest, raw, captures) == Err(Unterminated)
    ensures NextCut(rest).Placeholder? && Lookup(NextCut(rest).name, raw, captures).None? ==>
      Rendered(rest, raw, captures) == Err(MissingCapture)
  {
  }

  // --- Templates as lists of segments ----------------------------------------------------------

  datatype Segment = Literal(text: string) | Hole(name: string)

  function Written(segments: seq<Segment>): string {
    if segments == [] then ""
    else if segments[0].Literal? then segments[0].text + Written(segments[1..])
    else Opened("", Closed(segments[0].name, Written(segments[1..])))
  }

  /** Literal text, then an opening, then what follows it. */
  function Opened(lead: string, after: string): string {
    lead + "${" + after
  }

  /** A name, its closing brace, then what follows it. */
  function Closed(name: string, rest: string): string {
    name + ['}'] + rest
  }

  lemma OpenedSlices(lead: string, after: string)
    ensures |Opened(lead, after)| == |lead| + 2 + |after|
    ensures Opened(lead, after)[..|lead|] == lead && Opened(lead, after)[|lead| + 2..] == after
    ensures Opened(lead, after)[|lead|] == '$' && Opened(lead, after)[|lead| + 1] == '{'
  {
  }

  lemma ClosedSlices(name: string, rest: string)
    ensures |Closed(name, rest)| == |name| + 1 + |rest|
    ensures Closed(name, rest)[..|name|] == name && Closed(name, rest)[|name| + 1..] == rest
  {
  }

  /** Text before an opening moves in and out of the lead. */
  lemma OpenedLead(text: string, after: string)
    ensures text + Opened("", after) == Opened(text, after)
  {
  }

  /** Literals hold no opening and never touch; names hold no closing brace. */
  ghost predicate Normal(segments: seq<Segment>) {
    && (forall i :: 0 <= i < |segments| ==>
         if segments[i].Literal? then segments[i].text != "" && FindOpening(segments[i].text) == |segments[i].text|
         else '}' !in segments[i].name)
    && (forall i :: 0 <= i < |segments| - 1 ==> segments[i].Literal? ==> segments[i + 1].Hole?)
  }

  ghost predicate AllKnown(segments: seq<Segment>, raw: string, captures: Captures) {
    forall i :: 0 <= i < |segments| ==> segments[i].Hole? ==> Lookup(segments[i].name, raw, captures).Some?
  }

  /** The concatenation of what the segments stand for. */
  ghost function Meaning(segments: seq<Segment>, raw: string, captures: Captures): string
    requires AllKnown(segments, raw, captures)
  {
    if segments == [] then ""
    else
      (if segments[0].Literal? then segments[0].text else Lookup(segments[0].name, raw, captures).value)
      + Meaning(segments[1..], raw, captures)
  }

  lemma NormalTail(segments: seq<Segment>)
    requires segments != [] && Normal(segments)
    ensures Normal(segments[1..])
  {
    var rest := segments[1..];
    assert forall i :: 0 <= i < |rest| ==> rest[i] == segments[i + 1];
  }

  /** A list of segments is cut where its first hole is written. */
  lemma CutOfWritten(text: string, name: string, rest: string)
    requires FindOpening(text) == |text| && '}' !in name
    ensures NextCut(Opened(text, Closed(name, rest))) == Placeholder(text, name, rest)
  {
    var after := Closed(name, rest);
    OpeningAfterLiteral(text, after);
    OpenedSlices(text, after);
    IndexOfConcat(name, '}', rest);
    ClosedSlices(name, rest);
  }

  lemma OpeningAfterLiteral(text: string, after: string)
    requires FindOpening(text) == |text|
    ensures FindOpening(Opened(text, after)) == |text|
  {
    var s := Opened(text, after);
    OpenedSlices(text, after);
    assert forall i :: 0 <= i < |text| ==> s[i] == text[i];
    assert forall i :: 0 <= i && i + 1 < |text| ==> !(s[i] == '$' && s[i + 1] == '{');
  }

  /** One hole after literal text, rendered. */
  lemma HoleStep(text: string, name: string, rest: string, raw: string, captures: Captures)
    requires FindOpening(text) == |text| && '}' !in name
    ensures Rendered(Opened(text, Closed(name, rest)), raw, captures) ==
      if Lookup(name, raw, captures).None? then Err(MissingCapture)
      else Before(text + Lookup(name, raw, captures).value, Rendered(rest, raw, captures))
  {
    hide NextCut, Opened, Closed;
    CutOfWritten(text, name, rest);
  }

  /** Rendering a written template is the concatenation of its segments' values: a hole's value is
      copied, never scanned. A single unknown name refuses the whole template. */
  lemma {:induction false} RenderOfWritten(segments: seq<Segment>, raw: string, captures: Captures)
    requires Normal(segments)
    ensures Rendered(Written(segments), raw, captures) ==
      if AllKnown(segments, raw, captures) then Ok(Meaning(segments, raw, captures)) else Err(MissingCapture)
    decreases |segments|
  {
    if segments == [] {
    } else if segments[0].Hole? {
      HoleFirst(segments, raw, captures);
      NormalTail(segments);
      RenderOfWritten(segments[1..], raw, captures);
      KnownSplit(segments, raw, captures);
    } else if |segments| == 1 {
      assert segments[1..] == [];
      assert Written(segments) == segments[0].text + "" == segments[0].text;
      assert AllKnown(segments[1..], raw, captures);
      assert Meaning(segments, raw, captures) == segments[0].text + "" == segments[0].text;
    } else {
      var tail := segments[1..];
      NormalTail(segments);
      NormalTail(tail);
      assert tail[0] == segments[1];
      LiteralThenHole(segments, raw, captures);
      RenderOfWritten(tail[1..], raw, captures);
      KnownSplit(segments, raw, captures);
      KnownSplit(tail, raw, captures);
    }
  }

  lemma KnownSplit(segments: seq<Segment>, raw: string, captures: Captures)
    requires segments != []
    ensures AllKnown(segments, raw, captures) <==>
      AllKnown(segments[1..], raw, captures) && (segments[0].Hole? ==> Lookup(segments[0].name, raw, captures).Some?)
  {
    var rest := segments[1..];
    assert forall i :: 0 <= i < |rest| ==> rest[i] == segments[i + 1];
    assert forall i :: 0 < i < |segments| ==> segments[i] == rest[i - 1];
  }

  lemma HoleFirst(segments: seq<Segment>, raw: string, captures: Captures)
    requires segments != [] && segments[0].Hole? && '}' !in segments[0].name
    ensures Rendered(Written(segments), raw, captures) ==
      if Lookup(segments[0].name, raw, captures).None? then Err(MissingCapture)
      else Before(Lookup(segments[0].name, raw, captures).value, Rendered(Written(segments[1..]), raw, captures))
  {
    hide Rendered, Opened, Closed;
    var name, rest := segments[0].name, Written(segments[1..]);
    HoleStep("", name, rest, raw, captures);
    var found := Lookup(name, raw, captures);
    assert found.Some? ==> "" + found.value == found.value;
  }

  lemma LiteralThenHole(segments: seq<Segment>, raw: string, captures: Captures)
    requires |segments| >= 2 && Normal(segments) && segments[0].Literal?
    ensures segments[1..][1..] == segments[2..]
    ensures Rendered(Written(segments), raw, captures) ==
      if Lookup(segments[1].name, raw, captures).None? then Err(MissingCapture)
      else
        var rest := Rendered(Written(segments[2..]), raw, captures);
        Before(segments[0].text, Before(Lookup(segments[1].name, raw, captures).value, rest))
  {
    hide Rendered, Opened, Closed;
    var text, name, rest := segments[0].text, segments[1].name, Written(segments[2..]);
    assert segments[1..][1..] == segments[2..];
    HoleStep(text, name, rest, raw, captures);
    OpenedLead(text, Closed(name, rest));
    if Lookup(name, raw, captures).Some? {
      BeforeBefore(text, Lookup(name, raw, captures).value, Rendered(rest, raw, captures));
    }
  }

  // --- Every template is one of these, or is unterminated --------------------------------------

  /** The segments of a template, and whether its last opening is never closed. */
  function Parsed(rest: string): (seq<Segment>, bool)
    decreases |rest|
  {
    var cut := NextCut(rest);
    if cut.Plain? then (LiteralOf(rest), false)
    else if cut.Open? then (LiteralOf(cut.lead), true)
    else
      var (more, open) := Parsed(cut.rest);
      (LiteralOf(cut.lead) + [Hole(cut.name)] + more, open)
  }

  function LiteralOf(text: string): seq<Segment> {
    if text == "" then [] else [Literal(text)]
  }

  /** A template with an opening that is never closed is refused, whatever the captures. */
  lemma {:induction false} UnterminatedRefused(rest: string, raw: string, captures: Captures)
    requires Parsed(rest).1
    ensures Rendered(rest, raw, captures).Err?
    decreases |rest|
  {
    hide NextCut;
    if NextCut(rest).Placeholder? {
      UnterminatedRefused(NextCut(rest).rest, raw, captures);
    }
  }

  /** What a cut says about the text it cuts. */
  lemma CutShape(s: string)
    ensures NextCut(s).Plain? ==> FindOpening(s) == |s|
    ensures !NextCut(s).Plain? ==> FindOpening(NextCut(s).lead) == |NextCut(s).lead|
    ensures NextCut(s).Placeholder? ==>
      '}' !in NextCut(s).name && s == Opened(NextCut(s).lead, Closed(NextCut(s).name, NextCut(s).rest))
  {
    hide FindOpening, IndexOf, Opened, Closed;
    var start := FindOpening(s);
    if start < |s| {
      var after := s[start + 2..];
      LeadShape(s);
      var end := IndexOf(after, '}');
      if end < |after| {
        ClosedAt(after, end);
      }
    }
  }

  lemma NoOpening(s: string)
    requires forall i :: 0 <= i && i + 1 < |s| ==> !(s[i] == '$' && s[i + 1] == '{')
    ensures FindOpening(s) == |s|
  {
    hide FindOpening;
  }

  lemma LeadShape(s: string)
    requires FindOpening(s) < |s|
    ensures var start := FindOpening(s);
      FindOpening(s[..start]) == start && s == Opened(s[..start], s[start + 2..])
  {
    hide FindOpening;
    var start := FindOpening(s);
    var lead := s[..start];
    forall i | 0 <= i && i + 1 < |lead| ensures !(lead[i] == '$' && lead[i + 1] == '{') {
      assert lead[i] == s[i] && lead[i + 1] == s[i + 1];
    }
    NoOpening(lead);
    assert s[start..start + 2] == "${";
    assert s == lead + s[start..start + 2] + s[start + 2..];
  }

  lemma ClosedAt(s: string, end: nat)
    requires end < |s| && s[end] == '}'
    ensures s == Closed(s[..end], s[end + 1..])
  {
  }

  lemma WrittenLead(lead: string, segments: seq<Segment>)
    ensures Written(LiteralOf(lead) + segments) == lead + Written(segments)
  {
    if lead == "" {
      assert LiteralOf(lead) + segments == segments;
    } else {
      assert (LiteralOf(lead) + segments)[1..] == segments;
    }
  }

  /** Every terminated template is the writing of a normal list of segments. */
  lemma {:induction false} EveryTemplate(rest: string)
    requires !Parsed(rest).1
    ensures Normal(Parsed(rest).0) && Written(Parsed(rest).0) == rest
    decreases |rest|
  {
    hide NextCut, Opened, Closed;
    var cut := NextCut(rest);
    CutShape(rest);
    if cut.Plain? {
      WrittenLead(rest, []);
      assert LiteralOf(rest) + [] == LiteralOf(rest);
    } else {
      EveryTemplate(cut.rest);
      var more := [Hole(cut.name)] + Parsed(cut.rest).0;
      assert LiteralOf(cut.lead) + [Hole(cut.name)] + Parsed(cut.rest).0 == LiteralOf(cut.lead) + more;
      WrittenLead(cut.lead, more);
      assert more[1..] == Parsed(cut.rest).0;
      OpenedLead(cut.lead, Closed(cut.name, cut.rest));
    }
  }

  /** A template renders exactly when it is terminated and names only known captures. */
  lemma RendersExactly(template: string, raw: string, captures: Captures)
    ensures Rendered(template, raw, captures).Ok? <==>
      !Parsed(template).1 && AllKnown(Parsed(template).0, raw, captures)
    ensures Rendered(template, raw, captures).Ok? ==>
      Rendered(template, raw, captures).value == Meaning(Parsed(template).0, raw, captures)
  {
    if Parsed(template).1 {
      UnterminatedRefused(template, raw, captures);
    } else {
      EveryTemplate(template);
      RenderOfWritten(Parsed(template).0, raw, captures);
    }
  }

  // --- What a placeholder stands for -----------------------------------------------------------

  /** `${raw}` stands for the whole scope, and `${name}` for that capture, or for nothing. */
  lemma PlaceholdersStand(name: string, raw: string, captures: Captures)
    requires '}' !in name
    ensures name == "raw" ==> Rendered("${" + name + "}", raw, captures) == Ok(raw)
    ensures name != "raw" && name in captures ==> Rendered("${" + name + "}", raw, captures) == Ok(captures[name])
    ensures name != "raw" && name !in captures ==> Rendered("${" + name + "}", raw, captures) == Err(MissingCapture)
  {
    hide Rendered, NextCut, FindOpening, IndexOf;
    var segments := [Hole(name)];
    assert segments[1..] == [];
    assert Written([]) == "";
    assert Written(segments) == "${" + name + "}";
    RenderOfWritten(segments, raw, captures);
    OneHole(name, raw, captures);
  }

  lemma OneHole(name: string, raw: string, captures: Captures)
    ensures AllKnown([Hole(name)], raw, captures) <==> name == "raw" || name in captures
    ensures AllKnown([Hole(name)], raw, captures) ==>
      Meaning([Hole(name)], raw, captures) == if name == "raw" then raw else captures[name]
  {
    var segments := [Hole(name)];
    assert segments[1..] == [] && segments[0] == Hole(name);
    var found := Lookup(name, raw, captures);
    assert found.Some? ==> found.value + "" == found.value;
  }
}
