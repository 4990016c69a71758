// Form decoding at the token endpoint (percent escapes: section 2.1 of RFC 3986). A Rust string is
// its UTF-8 bytes, so everything here is on bytes; `utf8` says which byte strings are valid UTF-8.

module Form {
  import opened Basics
  import opened Texts

  type Utf8 = seq<byte> -> bool

  datatype Error = BodyNotUtf8 | IncompleteEscape | NonHexEscape | ValueNotUtf8 | DuplicateParameter

  const AMP: byte := 0x26
  const EQ: byte := 0x3D
  const PERCENT: byte := 0x25
  const PLUS: byte := 0x2B
  const SPACE: byte := 0x20

  // --- Percent decoding ------------------------------------------------------------------------

  function FromHex(b: byte): (r: Option<nat>)
    ensures r.Some? ==> r.value < 16
  {
    if 0x30 <= b <= 0x39 then Some(b - 0x30)
    else if 0x61 <= b <= 0x66 then Some(b - 0x61 + 10)
    else if 0x41 <= b <= 0x46 then Some(b - 0x41 + 10)
    else None
  }

  /** The bytes a form value stands for, before the UTF-8 check. */
  function Unescape(value: seq<byte>): Result<seq<byte>, Error>
    decreases |value|
  {
    if value == [] then Ok([])
    else if value[0] == PLUS then Push(SPACE, Unescape(value[1..]))
    else if value[0] == PERCENT then
      if |value| <= 2 then Err(IncompleteEscape)
      else
        var high, low := FromHex(value[1]), FromHex(value[2]);
        if high.None? || low.None? then Err(NonHexEscape)
        else Push(high.value * 16 + low.value, Unescape(value[3..]))
    else Push(value[0], Unescape(value[1..]))
  }

  function Push(b: byte, rest: Result<seq<byte>, Error>): Result<seq<byte>, Error> {
    if rest.Err? then rest else Ok([b] + rest.value)
  }

  function Decoded(utf8: Utf8, value: seq<byte>): Result<seq<byte>, Error> {
    var bytes := Unescape(value);
    if bytes.Err? then bytes else if utf8(bytes.value) then bytes else Err(ValueNotUtf8)
  }

  function After(front: seq<byte>, rest: Result<seq<byte>, Error>): Result<seq<byte>, Error> {
    if rest.Err? then rest else Ok(front + rest.value)
  }

  lemma AfterPush(front: seq<byte>, b: byte, rest: Result<seq<byte>, Error>)
    ensures After(front, Push(b, rest)) == After(front + [b], rest)
  {
    if rest.Ok? { assert front + ([b] + rest.value) == front + [b] + rest.value; }
  }

  method PercentDecode(utf8: Utf8, value: seq<byte>) returns (r: Result<seq<byte>, Error>)
    ensures r == Decoded(utf8, value)
  {
    var decoded: seq<byte> := [];
    var index := 0;
    assert value[0..] == value;
    assert Unescape(value).Ok? ==> [] + Unescape(value).value == Unescape(value).value;
    while index < |value|
      invariant 0 <= index <= |value|
      invariant Unescape(value) == After(decoded, Unescape(value[index..]))
    {
      assert value[index..][1..] == value[index + 1..];
      if value[index] == PLUS {
        AfterPush(decoded, SPACE, Unescape(value[index + 1..]));
        decoded := decoded + [SPACE];
        index := index + 1;
      } else if value[index] == PERCENT {
        if index + 2 >= |value| { return Err(IncompleteEscape); }
        assert value[index..][1] == value[index + 1] && value[index..][2] == value[index + 2];
        assert value[index..][3..] == value[index + 3..];
        var high := FromHex(value[index + 1]);
        if high.None? { return Err(NonHexEscape); }
        var low := FromHex(value[index + 2]);
        if low.None? { return Err(NonHexEscape); }
        AfterPush(decoded, high.value * 16 + low.value, Unescape(value[index + 3..]));
        decoded := decoded + [high.value * 16 + low.value];
        index := index + 3;
      } else {
        AfterPush(decoded, value[index], Unescape(value[index + 1..]));
        decoded := decoded + [value[index]];
        index := index + 1;
      }
    }
    assert decoded + [] == decoded;
    if utf8(decoded) { return Ok(decoded); }
    return Err(ValueNotUtf8);
  }

  // --- Parsing a body --------------------------------------------------------------------------

  type Pair = (seq<byte>, seq<byte>)

  /** The raw key and value of one segment; without `=` the value is empty. */
  function RawPair(segment: seq<byte>): Pair {
    var split := SplitOnce(segment, EQ);
    if split.None? then (segment, []) else split.value
  }

  function DecodedPair(utf8: Utf8, segment: seq<byte>): Result<Pair, Error> {
    var key := Decoded(utf8, RawPair(segment).0);
    if key.Err? then Err(key.error)
    else
      var value := Decoded(utf8, RawPair(segment).1);
      if value.Err? then Err(value.error) else Ok((key.value, value.value))
  }

  function Segments(body: seq<byte>): seq<seq<byte>> {
    NonEmpty(Split(body, AMP))
  }

  /** Segments in order, each inserted into the form; a key met twice refuses the body. */
  function Collect(utf8: Utf8, segments: seq<seq<byte>>, form: map<seq<byte>, seq<byte>>)
    : Result<map<seq<byte>, seq<byte>>, Error>
    decreases |segments|
  {
    if segments == [] then Ok(form)
    else
      var pair := DecodedPair(utf8, segments[0]);
      if pair.Err? then Err(pair.error)
      else if pair.value.0 in form then Err(DuplicateParameter)
      else Collect(utf8, segments[1..], form[pair.value.0 := pair.value.1])
  }

  function Parsed(utf8: Utf8, body: seq<byte>): Result<map<seq<byte>, seq<byte>>, Error> {
    if utf8(body) then Collect(utf8, Segments(body), map[]) else Err(BodyNotUtf8)
  }

  method ParseForm(utf8: Utf8, body: seq<byte>) returns (r: Result<map<seq<byte>, seq<byte>>, Error>)
    ensures r == Parsed(utf8, body)
  {
    if !utf8(body) { return Err(BodyNotUtf8); }
    var form: map<seq<byte>, seq<byte>> := map[];
    var segments := Segments(body);
    var i := 0;
    while i < |segments|
      invariant 0 <= i <= |segments|
      invariant Parsed(utf8, body) == Collect(utf8, segments[i..], form)
    {
      assert segments[i..][1..] == segments[i + 1..];
      var (rawKey, rawValue) := RawPair(segments[i]);
      var key := PercentDecode(utf8, rawKey);
      if key.Err? { return Err(key.error); }
      var value := PercentDecode(utf8, rawValue);
      if value.Err? { return Err(value.error); }
      var present := key.value in form;
      form := form[key.value := value.value];
      if present { return Err(DuplicateParameter); }
      i := i + 1;
    }
    r := Ok(form);
  }

  // --- Exactly which bodies are accepted, and as what ------------------------------------------

  ghost predicate AllDecode(utf8: Utf8, segments: seq<seq<byte>>) {
    forall i :: 0 <= i < |segments| ==> DecodedPair(utf8, segments[i]).Ok?
  }

  ghost predicate KeysDistinct(utf8: Utf8, segments: seq<seq<byte>>)
    requires AllDecode(utf8, segments)
  {
    forall i, j :: 0 <= i < j < |segments| ==>
      DecodedPair(utf8, segments[i]).value.0 != DecodedPair(utf8, segments[j]).value.0
  }

  ghost predicate KeysNew(utf8: Utf8, segments: seq<seq<byte>>, form: map<seq<byte>, seq<byte>>)
    requires AllDecode(utf8, segments)
  {
    forall i :: 0 <= i < |segments| ==> DecodedPair(utf8, segments[i]).value.0 !in form
  }

  /** `form` holds `start` and exactly the segments' pairs. */
  ghost predicate Holds(utf8: Utf8, segments: seq<seq<byte>>, start: map<seq<byte>, seq<byte>>,
                        form: map<seq<byte>, seq<byte>>)
    requires AllDecode(utf8, segments)
  {
    && (forall k :: k in start ==> k in form && form[k] == start[k])
    && (forall i :: 0 <= i < |segments| ==>
         var (k, v) := DecodedPair(utf8, segments[i]).value; k in form && form[k] == v)
    && (forall k :: k in form ==>
         k in start || exists i :: 0 <= i < |segments| && DecodedPair(utf8, segments[i]).value.0 == k)
  }

  lemma {:induction false} CollectExactly(utf8: Utf8, segments: seq<seq<byte>>, form: map<seq<byte>, seq<byte>>)
    ensures Collect(utf8, segments, form).Ok? <==>
      AllDecode(utf8, segments) && KeysDistinct(utf8, segments) && KeysNew(utf8, segments, form)
    ensures Collect(utf8, segments, form).Ok? ==> Holds(utf8, segments, form, Collect(utf8, segments, form).value)
    decreases |segments|
  {
    hide DecodedPair, KeysDistinct, Holds;
    if segments == [] {
      NothingHeld(utf8, form);
    } else if DecodedPair(utf8, segments[0]).Ok? {
      var (k, v) := DecodedPair(utf8, segments[0]).value;
      var rest := segments[1..];
      assert forall i :: 0 < i < |segments| ==> segments[i] == rest[i - 1];
      assert AllDecode(utf8, segments) <==> AllDecode(utf8, rest) by {
        assert forall i :: 0 <= i < |rest| ==> rest[i] == segments[i + 1];
      }
      if k !in form {
        CollectExactly(utf8, rest, form[k := v]);
        if AllDecode(utf8, rest) {
          KeysSplit(utf8, segments, form, k, v);
          if Collect(utf8, segments, form).Ok? {
            HeldFirst(utf8, segments, form, k, v, Collect(utf8, segments, form).value);
          }
        }
      }
    }
  }

  lemma NothingHeld(utf8: Utf8, form: map<seq<byte>, seq<byte>>)
    ensures KeysDistinct(utf8, []) && Holds(utf8, [], form, form)
  {
  }

  lemma HeldFirst(utf8: Utf8, segments: seq<seq<byte>>, form: map<seq<byte>, seq<byte>>, k: seq<byte>, v: seq<byte>,
                  all: map<seq<byte>, seq<byte>>)
    requires segments != [] && AllDecode(utf8, segments) && AllDecode(utf8, segments[1..])
    requires DecodedPair(utf8, segments[0]) == Ok((k, v)) && k !in form && Holds(utf8, segments[1..], form[k := v], all)
    ensures Holds(utf8, segments, form, all)
  {
    hide DecodedPair;
    var rest := segments[1..];
    assert forall i :: 0 <= i < |rest| ==> rest[i] == segments[i + 1];
    assert forall i :: 0 < i < |segments| ==> segments[i] == rest[i - 1];
    forall key | key in all && key !in form
      ensures exists i :: 0 <= i < |segments| && DecodedPair(utf8, segments[i]).value.0 == key
    {
      if key == k {
        assert DecodedPair(utf8, segments[0]).value.0 == key;
      } else {
        var i :| 0 <= i < |rest| && DecodedPair(utf8, rest[i]).value.0 == key;
        assert segments[i + 1] == rest[i];
      }
    }
  }

  lemma KeysSplit(utf8: Utf8, segments: seq<seq<byte>>, form: map<seq<byte>, seq<byte>>, k: seq<byte>, v: seq<byte>)
    requires segments != [] && AllDecode(utf8, segments) && AllDecode(utf8, segments[1..])
    requires DecodedPair(utf8, segments[0]) == Ok((k, v)) && k !in form
    ensures KeysDistinct(utf8, segments) && KeysNew(utf8, segments, form)
       <==> KeysDistinct(utf8, segments[1..]) && KeysNew(utf8, segments[1..], form[k := v])
  {
    var rest := segments[1..];
    assert forall i :: 0 <= i < |rest| ==> rest[i] == segments[i + 1];
    assert forall i :: 0 < i < |segments| ==> segments[i] == rest[i - 1];
  }

  /** A body is accepted exactly when it is UTF-8, every pair decodes, and no two keys decode equal;
      the form is then exactly those pairs. */
  lemma FormExactly(utf8: Utf8, body: seq<byte>)
    ensures Parsed(utf8, body).Ok? <==>
      utf8(body) && AllDecode(utf8, Segments(body)) && KeysDistinct(utf8, Segments(body))
    ensures Parsed(utf8, body).Ok? ==> Holds(utf8, Segments(body), map[], Parsed(utf8, body).value)
  {
    CollectExactly(utf8, Segments(body), map[]);
  }

  // --- Round trip ------------------------------------------------------------------------------

  /** `e` is one of the ways to spell `raw` in a form: each byte literally where that is unambiguous, a
      space as `+`, or any byte as an escape in either letter case. Only a key must hide its `=`. */
  ghost predicate Spells(e: seq<byte>, raw: seq<byte>, inKey: bool)
    decreases |raw|
  {
    if raw == [] then e == []
    else
      || (e != [] && e[0] == raw[0] && Literal(raw[0], inKey) && Spells(e[1..], raw[1..], inKey))
      || (e != [] && e[0] == PLUS && raw[0] == SPACE && Spells(e[1..], raw[1..], inKey))
      || (|e| >= 3 && e[0] == PERCENT && FromHex(e[1]).Some? && FromHex(e[2]).Some?
          && FromHex(e[1]).value * 16 + FromHex(e[2]).value == raw[0] && Spells(e[3..], raw[1..], inKey))
  }

  /** A byte that may stand for itself. */
  predicate Literal(b: byte, inKey: bool) {
    b != AMP && b != PERCENT && b != PLUS && (inKey ==> b != EQ)
  }

  /** The bytes that end a key, or a value, wherever they stand. */
  predicate Unbroken(e: seq<byte>, inKey: bool) {
    AMP !in e && (inKey ==> EQ !in e)
  }

  /** Decoding inverts every spelling, and everything it accepts is a spelling of its result. */
  lemma {:induction false} SpellingDecodes(e: seq<byte>, raw: seq<byte>, inKey: bool)
    ensures Spells(e, raw, inKey) <==> Unescape(e) == Ok(raw) && Unbroken(e, inKey)
    decreases |e|
  {
    hide Unbroken;
    if e == [] {
      NothingBroken(inKey);
    } else {
      var step := if e[0] == PERCENT then 3 else 1;
      if |e| >= step && raw != [] {
        SpellingDecodes(e[step..], raw[1..], inKey);
        Separated(e, step, inKey);
        assert raw == [raw[0]] + raw[1..];
        if Unescape(e).Ok? {
          assert Unescape(e).value[1..] == Unescape(e[step..]).value;
        }
      }
    }
  }

  lemma NothingBroken(inKey: bool)
    ensures Unbroken([], inKey)
  {
  }

  lemma Separated(e: seq<byte>, step: nat, inKey: bool)
    requires (step == 1 && |e| >= 1) || (step == 3 && |e| >= 3)
    ensures Unbroken(e, inKey) <==> Unbroken(e[..step], inKey) && Unbroken(e[step..], inKey)
    ensures step == 1 ==> (Unbroken(e[..step], inKey) <==> e[0] != AMP && (inKey ==> e[0] != EQ))
    ensures step == 3 && e[0] == PERCENT && FromHex(e[1]).Some? && FromHex(e[2]).Some? ==> Unbroken(e[..step], inKey)
  {
    assert e == e[..step] + e[step..];
  }

  /** A segment spells a pair: the key, `=` and the value; or the key alone, when the value is empty. */
  ghost predicate SpellsPair(segment: seq<byte>, k: seq<byte>, v: seq<byte>) {
    var (rawKey, rawValue) := RawPair(segment);
    segment != [] && Spells(rawKey, k, true) && Spells(rawValue, v, false)
  }

  lemma PairExactly(utf8: Utf8, segment: seq<byte>, k: seq<byte>, v: seq<byte>)
    requires segment != [] && AMP !in segment
    ensures DecodedPair(utf8, segment) == Ok((k, v)) <==> SpellsPair(segment, k, v) && utf8(k) && utf8(v)
  {
    hide Unescape, Spells;
    RawUnbroken(segment);
    SpellingDecodes(RawPair(segment).0, k, true);
    SpellingDecodes(RawPair(segment).1, v, false);
  }

  lemma RawUnbroken(segment: seq<byte>)
    requires AMP !in segment
    ensures Unbroken(RawPair(segment).0, true) && Unbroken(RawPair(segment).1, false)
  {
    var i := IndexOf(segment, EQ);
    if i < |segment| {
      assert segment == segment[..i] + [EQ] + segment[i + 1..];
    }
  }

  /** A key and a value written with `=` between them spell their pair; so does a key alone. */
  lemma WrittenPair(ek: seq<byte>, ev: seq<byte>, k: seq<byte>, v: seq<byte>)
    requires Spells(ek, k, true) && Spells(ev, v, false)
    ensures SpellsPair(ek + [EQ] + ev, k, v)
    ensures ek != [] && v == [] ==> SpellsPair(ek, k, v)
  {
    hide Spells, Unescape;
    SpellingDecodes(ek, k, true);
    SplitOnceConcat(ek, EQ, ev);
    assert v == [] ==> ev == [] by { if v == [] { OnlyNothing(ev); } }
    assert SplitOnce(ek, EQ) == None;
  }

  lemma OnlyNothing(e: seq<byte>)
    requires Spells(e, [], false)
    ensures e == []
  {
  }

  lemma {:induction false} SegmentsWhole(parts: seq<seq<byte>>)
    ensures forall part :: part in NonEmpty(parts) <==> part in parts && part != []
  {
    if parts != [] {
      SegmentsWhole(parts[1..]);
    }
  }

  lemma SegmentsUnbroken(body: seq<byte>)
    ensures forall segment :: segment in Segments(body) ==> segment != [] && AMP !in segment
  {
    hide Split, NonEmpty;
    SegmentsWhole(Split(body, AMP));
    JoinSplit(body, AMP);
  }

  /** The segments spell the entries of `m`, each once, listed in `order`. */
  ghost predicate SpellsMap(utf8: Utf8, segments: seq<seq<byte>>, m: map<seq<byte>, seq<byte>>, order: seq<seq<byte>>) {
    && Distinct(order) && Elements(order) == m.Keys && |segments| == |order|
    && forall i :: 0 <= i < |order| ==>
      order[i] in m && utf8(order[i]) && utf8(m[order[i]]) && SpellsPair(segments[i], order[i], m[order[i]])
  }

  /** A body parses to a map exactly when its segments spell the entries of that map, each once, in some
      order, each string in any spelling. */
  lemma FormRoundTrip(utf8: Utf8, body: seq<byte>, m: map<seq<byte>, seq<byte>>)
    requires utf8(body)
    ensures Parsed(utf8, body) == Ok(m) <==> exists order :: SpellsMap(utf8, Segments(body), m, order)
  {
    hide SpellsMap, Parsed, Segments;
    if order :| SpellsMap(utf8, Segments(body), m, order) {
      SpelledParses(utf8, body, m, order);
    }
    if Parsed(utf8, body) == Ok(m) {
      var order := ParsedSpells(utf8, body, m);
    }
  }

  lemma SpelledParses(utf8: Utf8, body: seq<byte>, m: map<seq<byte>, seq<byte>>, order: seq<seq<byte>>)
    requires utf8(body) && SpellsMap(utf8, Segments(body), m, order)
    ensures Parsed(utf8, body) == Ok(m)
  {
    hide SpellsPair, Decoded, DecodedPair, Parsed, Segments;
    var segments := Segments(body);
    SegmentsUnbroken(body);
    forall i | 0 <= i < |order| ensures DecodedPair(utf8, segments[i]) == Ok((order[i], m[order[i]])) {
      assert segments[i] in segments;
      PairExactly(utf8, segments[i], order[i], m[order[i]]);
    }
    FormExactly(utf8, body);
    var form := Parsed(utf8, body).value;
    forall k ensures k in m <==> k in form {
      assert k in m <==> k in order;
    }
    forall k | k in m ensures form[k] == m[k] {
      var i :| 0 <= i < |order| && order[i] == k;
      assert DecodedPair(utf8, segments[i]) == Ok((k, m[k]));
    }
    assert form == m;
  }

  lemma ParsedSpells(utf8: Utf8, body: seq<byte>, m: map<seq<byte>, seq<byte>>) returns (order: seq<seq<byte>>)
    requires Parsed(utf8, body) == Ok(m)
    ensures SpellsMap(utf8, Segments(body), m, order)
  {
    hide SpellsPair, Decoded, DecodedPair, Parsed, Segments;
    var segments := Segments(body);
    SegmentsUnbroken(body);
    FormExactly(utf8, body);
    order := seq(|segments|, i requires 0 <= i < |segments| => DecodedPair(utf8, segments[i]).value.0);
    forall i | 0 <= i < |order|
      ensures order[i] in m && utf8(order[i]) && utf8(m[order[i]]) && SpellsPair(segments[i], order[i], m[order[i]])
    {
      assert segments[i] in segments;
      var (k, v) := DecodedPair(utf8, segments[i]).value;
      PairExactly(utf8, segments[i], k, v);
    }
    forall k ensures k in order <==> k in m {
      if k in m {
        var i :| 0 <= i < |segments| && DecodedPair(utf8, segments[i]).value.0 == k;
        assert order[i] == k;
      }
    }
  }

  /** Pieces written one after the other with `&` between them are the segments of the body, but for
      the empty ones. */
  lemma WrittenSegments(pieces: seq<seq<byte>>)
    requires pieces != [] && forall piece :: piece in pieces ==> AMP !in piece
    ensures Segments(Join(pieces, AMP)) == NonEmpty(pieces)
  {
    SplitJoin(pieces, AMP);
  }

  // --- The characters themselves ---------------------------------------------------------------

  /** The sixteen digits, in both letter cases, and nothing else. */
  lemma HexDigits(n: nat)
    ensures n < 10 ==> FromHex(0x30 + n) == Some(n)
    ensures 10 <= n < 16 ==> FromHex(0x41 + (n - 10)) == Some(n) && FromHex(0x61 + (n - 10)) == Some(n)
    ensures forall b: byte :: FromHex(b).Some? ==> 0x30 <= b <= 0x39 || 0x41 <= b <= 0x46 || 0x61 <= b <= 0x66
  {
  }

  /** `%` and two digits stand for the byte they write; `+` stands for a space. */
  lemma EscapesRead(high: byte, low: byte, h: nat, l: nat)
    requires FromHex(high) == Some(h) && FromHex(low) == Some(l)
    ensures Unescape([0x25, high, low]) == Ok([16 * h + l]) && Unescape([0x2B]) == Ok([0x20])
  {
    var escape: seq<byte> := [0x25, high, low];
    var plus: seq<byte> := [0x2B];
    var none: seq<byte> := [];
    assert escape[3..] == none && plus[1..] == none && Unescape(none) == Ok(none);
    var b, space: byte := 16 * h + l, 0x20;
    assert [b] + none == [b] && [space] + none == [space];
  }

  /** `&` ends a segment, and the first `=` of a segment ends its key. */
  lemma SeparatorsRead(a: seq<byte>, b: seq<byte>)
    ensures a != [] && b != [] && 0x26 !in a && 0x26 !in b ==> Segments(a + [0x26] + b) == [a, b]
    ensures 0x3D !in a ==> RawPair(a + [0x3D] + b) == (a, b)
  {
    if a != [] && b != [] && 0x26 !in a && 0x26 !in b {
      SplitFirst(a, AMP, b);
      assert [a, b][1..] == [b] && [b][1..] == [];
      assert NonEmpty([b]) == [b] + NonEmpty([]);
    }
    if 0x3D !in a {
      SplitOnceConcat(a, EQ, b);
    }
  }
}
