// The CBOR reader of the demo client (section 3 of RFC 8949), with the Python semantics it relies
// on: indexing past the end raises, slicing past the end silently shortens.

module Cbor {
  import opened Basics
  import opened BigEndian

  datatype Error = IndexError | UnsupportedInfo | BadUtf8 | NotAMap | NotCoseSign1 | NoSuchMember

  /** What the reader hands back. Dictionary keys compare as Python's do, so `True` is the key 1. */
  datatype Value =
    | VInt(n: int)
    | VBytes(bytes: seq<byte>)
    | VText(text: string)
    | VList(items: seq<Value>)
    | VDict(entries: map<Key, Value>)
    | VBool(flag: bool)
    | VNone

  datatype Key = KInt(n: int) | KText(text: string)

  /** The two Python built-ins the reader calls: UTF-8 decoding and `str`. */
  datatype Python = Python(decodeUtf8: seq<byte> -> Option<string>, str: Value -> string)

  function Min(a: nat, b: nat): nat { if a < b then a else b }

  /** `data[from : to]`. */
  function Slice(data: seq<byte>, from: nat, to: nat): seq<byte>
    requires from <= to
  {
    data[Min(from, |data|)..Min(to, |data|)]
  }

  // --- Reading one head ------------------------------------------------------------------------

  datatype Head = Head(major: nat, minor: nat, argument: nat, next: nat)

  function CborHead(data: seq<byte>, offset: nat): (r: Result<Head, Error>)
    ensures r.Ok? ==> offset < |data| && offset < r.value.next && r.value.major < 8
  {
    if offset >= |data| then Err(IndexError)
    else
      var major, minor := data[offset] / 32, data[offset] % 32;
      var at := offset + 1;
      if minor < 24 then Ok(Head(major, minor, minor, at))
      else if minor == 24 then
        if at >= |data| then Err(IndexError) else Ok(Head(major, minor, data[at], at + 1))
      else if minor == 25 then Ok(Head(major, minor, BigEndian.Value(Slice(data, at, at + 2)), at + 2))
      else if minor == 26 then Ok(Head(major, minor, BigEndian.Value(Slice(data, at, at + 4)), at + 4))
      else if minor == 27 then Ok(Head(major, minor, BigEndian.Value(Slice(data, at, at + 8)), at + 8))
      else Err(UnsupportedInfo)
  }

  // --- Reading values: the specification -------------------------------------------------------

  function Remaining(data: seq<byte>, offset: nat): nat {
    if offset < |data| then |data| - offset else 0
  }

  function DictKey(p: Python, v: Value): Key {
    match v
    case VInt(n) => KInt(n)
    case VText(s) => KText(s)
    case VBool(b) => KInt(if b then 1 else 0)
    case _ => KText(p.str(v))
  }

  /** Which dictionary key a value stands for: an integer and a text for themselves, a boolean for the
      integer it equals, anything else for its text. */
  ghost predicate StandsFor(p: Python, v: Value, k: Key) {
    && (v.VInt? ==> k == KInt(v.n))
    && (v.VText? ==> k == KText(v.text))
    && (v.VBool? && v.flag ==> k == KInt(1))
    && (v.VBool? && !v.flag ==> k == KInt(0))
    && (!v.VInt? && !v.VText? && !v.VBool? ==> k == KText(p.str(v)))
  }

  /** The last pair whose key stands for `k`. */
  ghost predicate LastPair(p: Python, flat: seq<Value>, k: Key, i: int) {
    && 0 <= i && 2 * i + 1 < |flat| && StandsFor(p, flat[2 * i], k)
    && forall j :: i < j && 2 * j + 1 < |flat| ==> !StandsFor(p, flat[2 * j], k)
  }

  /** `m` holds exactly the keys of the pairs, each with the value of the last pair of that key. */
  ghost predicate IsDict(p: Python, flat: seq<Value>, m: map<Key, Value>) {
    && (forall k, i :: LastPair(p, flat, k, i) ==> k in m && m[k] == flat[2 * i + 1])
    && (forall k :: k in m ==> exists i :: LastPair(p, flat, k, i))
  }

  /** The dictionary built from alternating keys and values; a repeated key keeps its last value. */
  function Dict(p: Python, flat: seq<Value>): map<Key, Value> {
    if |flat| < 2 then map[]
    else Dict(p, flat[..|flat| - 2])[DictKey(p, flat[|flat| - 2]) := flat[|flat| - 1]]
  }

  lemma {:induction false} DictExactly(p: Python, flat: seq<Value>)
    requires |flat| % 2 == 0
    ensures IsDict(p, flat, Dict(p, flat))
    decreases |flat|
  {
    if flat != [] {
      var n := |flat| - 2;
      var front, m := flat[..n], Dict(p, flat);
      DictExactly(p, front);
      KeyStands(p, flat[n]);
      forall k, i | LastPair(p, flat, k, i) ensures k in m && m[k] == flat[2 * i + 1] {
        if 2 * i < n {
          assert !StandsFor(p, flat[2 * (n / 2)], k);
          assert LastPair(p, front, k, i) by { EarlierPair(p, flat, k, i); }
        }
      }
      forall k | k in m ensures exists i :: LastPair(p, flat, k, i) {
        if StandsFor(p, flat[n], k) {
          assert LastPair(p, flat, k, n / 2);
        } else {
          var i :| LastPair(p, front, k, i);
          LaterPair(p, flat, k, i);
        }
      }
    }
  }

  lemma EarlierPair(p: Python, flat: seq<Value>, k: Key, i: int)
    requires |flat| >= 2 && |flat| % 2 == 0 && LastPair(p, flat, k, i) && 2 * i < |flat| - 2
    ensures LastPair(p, flat[..|flat| - 2], k, i)
  {
    hide StandsFor;
    var front := flat[..|flat| - 2];
    forall j | i < j && 2 * j + 1 < |front| ensures !StandsFor(p, front[2 * j], k) {
      assert front[2 * j] == flat[2 * j];
    }
  }

  lemma LaterPair(p: Python, flat: seq<Value>, k: Key, i: int)
    requires |flat| >= 2 && |flat| % 2 == 0
    requires LastPair(p, flat[..|flat| - 2], k, i) && !StandsFor(p, flat[|flat| - 2], k)
    ensures LastPair(p, flat, k, i)
  {
    hide StandsFor;
    var front := flat[..|flat| - 2];
    forall j | i < j && 2 * j + 1 < |flat| ensures !StandsFor(p, flat[2 * j], k) {
      if 2 * j + 1 < |front| { assert front[2 * j] == flat[2 * j]; } else { assert 2 * j == |flat| - 2; }
    }
  }

  lemma KeyStands(p: Python, v: Value)
    ensures forall k :: StandsFor(p, v, k) <==> k == DictKey(p, v)
  {
  }

  /** There is one such dictionary. */
  lemma DictUnique(p: Python, flat: seq<Value>, m: map<Key, Value>, m': map<Key, Value>)
    requires IsDict(p, flat, m) && IsDict(p, flat, m')
    ensures m == m'
  {
    hide LastPair;
    forall k | k in m ensures k in m' && m'[k] == m[k] { var i :| LastPair(p, flat, k, i); }
    forall k | k in m' ensures k in m { var i :| LastPair(p, flat, k, i); }
  }

  function AsList(r: Result<(seq<Value>, nat), Error>): Result<(Value, nat), Error> {
    match r
    case Err(e) => Err(e)
    case Ok((items, end)) => Ok((VList(items), end))
  }

  function AsDict(p: Python, r: Result<(seq<Value>, nat), Error>): Result<(Value, nat), Error> {
    match r
    case Err(e) => Err(e)
    case Ok((flat, end)) => Ok((VDict(Dict(p, flat)), end))
  }

  /** One value and the offset just past it. Every value consumes at least its initial byte. */
  function Decode(p: Python, data: seq<byte>, offset: nat): (r: Result<(Value, nat), Error>)
    ensures r.Ok? ==> offset < |data| && offset < r.value.1
    decreases Remaining(data, offset), 0, 0
  {
    match CborHead(data, offset)
    case Err(e) => Err(e)
    case Ok(Head(major, minor, argument, at)) =>
      if major == 0 then Ok((VInt(argument), at))
      else if major == 1 then Ok((VInt(-1 - argument), at))
      else if major == 2 then Ok((VBytes(Slice(data, at, at + argument)), at + argument))
      else if major == 3 then
        var text := p.decodeUtf8(Slice(data, at, at + argument));
        if text.None? then Err(BadUtf8) else Ok((VText(text.value), at + argument))
      else if major == 4 then
        AsList(DecodeItems(p, data, at, argument))
      else if major == 5 then
        AsDict(p, DecodeItems(p, data, at, 2 * argument))
      else if major == 6 then Decode(p, data, at)
      else if minor == 20 then Ok((VBool(false), at))
      else if minor == 21 then Ok((VBool(true), at))
      else if minor == 22 then Ok((VNone, at))
      else Ok((VInt(argument), at))
  }

  /** `count` consecutive values. */
  function DecodeItems(p: Python, data: seq<byte>, offset: nat, count: nat): (r: Result<(seq<Value>, nat), Error>)
    ensures r.Ok? ==> |r.value.0| == count && offset <= r.value.1
    decreases Remaining(data, offset), 1, count
  {
    if count == 0 then Ok(([], offset))
    else
      match Decode(p, data, offset)
      case Err(e) => Err(e)
      case Ok((first, next)) => Prepend([first], DecodeItems(p, data, next, count - 1))
  }

  function Prepend(front: seq<Value>, r: Result<(seq<Value>, nat), Error>): Result<(seq<Value>, nat), Error> {
    match r
    case Err(e) => Err(e)
    case Ok((rest, end)) => Ok((front + rest, end))
  }

  lemma PrependEmpty(r: Result<(seq<Value>, nat), Error>)
    ensures Prepend([], r) == r
  {
    if r.Ok? { assert [] + r.value.0 == r.value.0; }
  }

  lemma PrependMore(front: seq<Value>, v: Value, r: Result<(seq<Value>, nat), Error>)
    ensures Prepend(front, Prepend([v], r)) == Prepend(front + [v], r)
  {
    if r.Ok? { assert front + ([v] + r.value.0) == front + [v] + r.value.0; }
  }

  // --- Reading values: the procedure -----------------------------------------------------------

  method CborValue(p: Python, data: seq<byte>, start: nat) returns (r: Result<(Value, nat), Error>)
    ensures r == Decode(p, data, start)
    decreases Remaining(data, start), 0
  {
    var head := CborHead(data, start);
    if head.Err? { return Err(head.error); }
    var Head(major, minor, argument, offset) := head.value;
    if major == 0 || major == 1 {
      return Ok((VInt(if major == 0 then argument else -1 - argument), offset));
    }
    if major == 2 || major == 3 {
      var raw := Slice(data, offset, offset + argument);
      if major == 2 { return Ok((VBytes(raw), offset + argument)); }
      var text := p.decodeUtf8(raw);
      if text.None? { return Err(BadUtf8); }
      return Ok((VText(text.value), offset + argument));
    }
    if major == 4 {
      r := CborArray(p, data, offset, argument);
      return;
    }
    if major == 5 {
      r := CborMap(p, data, offset, argument);
      return;
    }
    if major == 6 {
      r := CborValue(p, data, offset);
      return;
    }
    if minor == 20 { return Ok((VBool(false), offset)); }
    if minor == 21 { return Ok((VBool(true), offset)); }
    if minor == 22 { return Ok((VNone, offset)); }
    return Ok((VInt(argument), offset));
  }

  method CborArray(p: Python, data: seq<byte>, start: nat, argument: nat) returns (r: Result<(Value, nat), Error>)
    ensures r == AsList(DecodeItems(p, data, start, argument))
    decreases Remaining(data, start), 1
  {
    var offset, items := start, [];
    PrependEmpty(DecodeItems(p, data, start, argument));
    for i := 0 to argument
      invariant start <= offset
      invariant DecodeItems(p, data, start, argument)
             == Prepend(items, DecodeItems(p, data, offset, argument - i))
    {
      var item := CborValue(p, data, offset);
      if item.Err? { return Err(item.error); }
      PrependMore(items, item.value.0, DecodeItems(p, data, item.value.1, argument - i - 1));
      items := items + [item.value.0];
      offset := item.value.1;
    }
    assert items + [] == items;
    r := Ok((VList(items), offset));
  }

  method CborMap(p: Python, data: seq<byte>, start: nat, argument: nat) returns (r: Result<(Value, nat), Error>)
    ensures r == AsDict(p, DecodeItems(p, data, start, 2 * argument))
    ensures r.Ok? ==>
      && DecodeItems(p, data, start, 2 * argument).Ok? && r.value.0.VDict?
      && IsDict(p, DecodeItems(p, data, start, 2 * argument).value.0, r.value.0.entries)
    decreases Remaining(data, start), 1
  {
    hide Decode, DecodeItems, DictKey, IsDict, Dict, Prepend;
    var offset := start;
    var entries: map<Key, Value> := map[];
    ghost var flat: seq<Value> := [];
    ghost var all := DecodeItems(p, data, start, 2 * argument);
    PrependEmpty(all);
    NoPairs(p);
    for i := 0 to argument
      invariant start <= offset
      invariant all == Prepend(flat, DecodeItems(p, data, offset, 2 * (argument - i)))
      invariant entries == Dict(p, flat)
    {
      PairRead(p, data, offset, flat, 2 * (argument - i));
      var key := CborValue(p, data, offset);
      if key.Err? { return Err(key.error); }
      var value := CborValue(p, data, key.value.1);
      if value.Err? { return Err(value.error); }
      entries := entries[DictKey(p, key.value.0) := value.value.0];
      flat := flat + [key.value.0] + [value.value.0];
      offset := value.value.1;
    }
    NoneLeft(p, data, offset, flat);
    DictExactly(p, flat);
    r := Ok((VDict(entries), offset));
  }

  lemma NoPairs(p: Python)
    ensures Dict(p, []) == map[]
  {
  }

  lemma NoneLeft(p: Python, data: seq<byte>, offset: nat, flat: seq<Value>)
    ensures Prepend(flat, DecodeItems(p, data, offset, 0)) == Ok((flat, offset))
  {
    assert flat + [] == flat;
  }

  /** Reading one more pair of a map. */
  lemma PairRead(p: Python, data: seq<byte>, offset: nat, flat: seq<Value>, left: nat)
    requires left >= 2
    ensures var all, key := Prepend(flat, DecodeItems(p, data, offset, left)), Decode(p, data, offset);
      && (key.Err? ==> all == Err(key.error))
      && (key.Ok? ==>
            var value := Decode(p, data, key.value.1);
            && (value.Err? ==> all == Err(value.error))
            && (value.Ok? ==>
                  var longer := flat + [key.value.0] + [value.value.0];
                  && all == Prepend(longer, DecodeItems(p, data, value.value.1, left - 2))
                  && Dict(p, longer) == Dict(p, flat)[DictKey(p, key.value.0) := value.value.0]))
  {
    hide Decode, DictKey;
    var key := Decode(p, data, offset);
    if key.Ok? {
      PrependMore(flat, key.value.0, DecodeItems(p, data, key.value.1, left - 1));
      var value := Decode(p, data, key.value.1);
      if value.Ok? {
        PrependMore(flat + [key.value.0], value.value.0, DecodeItems(p, data, value.value.1, left - 2));
        var longer := flat + [key.value.0] + [value.value.0];
        assert longer[..|longer| - 2] == flat;
      }
    }
  }

  // --- Weighing a map --------------------------------------------------------------------------

  datatype Field = Field(key: string, value: Value, size: nat)

  /** `count` map entries from `offset` on, each with its encoded size. */
  function Fields(p: Python, data: seq<byte>, offset: nat, count: nat): Result<(seq<Field>, nat), Error>
    decreases count
  {
    if count == 0 then Ok(([], offset))
    else
      match DecodeItems(p, data, offset, 2)
      case Err(e) => Err(e)
      case Ok((kv, next)) =>
        AppendFields([Field(p.str(kv[0]), kv[1], next - offset)], Fields(p, data, next, count - 1))
  }

  function AppendFields(front: seq<Field>, r: Result<(seq<Field>, nat), Error>): Result<(seq<Field>, nat), Error> {
    match r
    case Err(e) => Err(e)
    case Ok((rest, end)) => Ok((front + rest, end))
  }

  function SizeOf(fields: seq<Field>): nat {
    if fields == [] then 0 else fields[0].size + SizeOf(fields[1..])
  }

  /** Every entry of the map at the start of `data`, and the size of the map's head. */
  function MapFields(p: Python, data: seq<byte>): Result<(seq<Field>, nat), Error> {
    var head := CborHead(data, 0);
    if head.Err? then Err(head.error)
    else if head.value.major != 5 then Err(NotAMap)
    else
      var fields := Fields(p, data, head.value.next, head.value.argument);
      if fields.Err? then Err(fields.error) else Ok((fields.value.0, head.value.next))
  }

  method CborMapFields(p: Python, data: seq<byte>) returns (r: Result<(seq<Field>, nat), Error>)
    ensures r == MapFields(p, data)
  {
    var head := CborHead(data, 0);
    if head.Err? { return Err(head.error); }
    var Head(major, _, count, header) := head.value;
    if major != 5 { return Err(NotAMap); }
    var offset, fields := header, [];
    AppendNoFields(Fields(p, data, header, count));
    for i := 0 to count
      invariant Fields(p, data, header, count) == AppendFields(fields, Fields(p, data, offset, count - i))
    {
      var start := offset;
      PairDecodes(p, data, start);
      var key := CborValue(p, data, offset);
      if key.Err? { return Err(key.error); }
      var value := CborValue(p, data, key.value.1);
      if value.Err? { return Err(value.error); }
      offset := value.value.1;
      var field := Field(p.str(key.value.0), value.value.0, offset - start);
      AppendOneField(fields, field, Fields(p, data, offset, count - i - 1));
      fields := fields + [field];
    }
    assert fields + [] == fields;
    r := Ok((fields, header));
  }

  lemma AppendNoFields(r: Result<(seq<Field>, nat), Error>)
    ensures AppendFields([], r) == r
  {
    if r.Ok? { assert [] + r.value.0 == r.value.0; }
  }

  lemma AppendOneField(front: seq<Field>, f: Field, r: Result<(seq<Field>, nat), Error>)
    ensures AppendFields(front, AppendFields([f], r)) == AppendFields(front + [f], r)
  {
    if r.Ok? { assert front + ([f] + r.value.0) == front + [f] + r.value.0; }
  }

  /** Two consecutive values, read one after the other. */
  lemma PairDecodes(p: Python, data: seq<byte>, offset: nat)
    ensures DecodeItems(p, data, offset, 2) == DecodePair(p, data, offset)
  {
    if Decode(p, data, offset).Ok? {
      var (k, next) := Decode(p, data, offset).value;
      if Decode(p, data, next).Ok? {
        var (v, end) := Decode(p, data, next).value;
        assert DecodeItems(p, data, next, 1) == Prepend([v], DecodeItems(p, data, end, 0));
        assert [k] + ([v] + []) == [k, v];
      }
    }
  }

  function DecodePair(p: Python, data: seq<byte>, offset: nat): Result<(seq<Value>, nat), Error> {
    var key := Decode(p, data, offset);
    if key.Err? then Err(key.error)
    else
      var value := Decode(p, data, key.value.1);
      if value.Err? then Err(value.error) else Ok(([key.value.0, value.value.0], value.value.1))
  }

  /** The first entry whose key is the text `name`: the slice its value was read from. */
  function FieldBytes(p: Python, data: seq<byte>, offset: nat, count: nat, name: string): Result<seq<byte>, Error>
    decreases count
  {
    if count == 0 then Err(NoSuchMember)
    else
      match Decode(p, data, offset)
      case Err(e) => Err(e)
      case Ok((key, start)) =>
        match Decode(p, data, start)
        case Err(e) => Err(e)
        case Ok((_, end)) =>
          if key == VText(name) then Ok(Slice(data, start, end))
          else FieldBytes(p, data, end, count - 1, name)
  }

  /** The encoded value of the member `name` of the map at the start of `data`. */
  function MemberBytes(p: Python, data: seq<byte>, name: string): Result<seq<byte>, Error> {
    var head := CborHead(data, 0);
    if head.Err? then Err(head.error)
    else if head.value.major != 5 then Err(NotAMap)
    else FieldBytes(p, data, head.value.next, head.value.argument, name)
  }

  method ExtractFieldBytes(p: Python, data: seq<byte>, name: string) returns (r: Result<seq<byte>, Error>)
    ensures r == MemberBytes(p, data, name)
  {
    var head := CborHead(data, 0);
    if head.Err? { return Err(head.error); }
    var Head(major, _, count, header) := head.value;
    if major != 5 { return Err(NotAMap); }
    var offset := header;
    for i := 0 to count
      invariant FieldBytes(p, data, header, count, name) == FieldBytes(p, data, offset, count - i, name)
    {
      var key := CborValue(p, data, offset);
      if key.Err? { return Err(key.error); }
      var start := key.value.1;
      var value := CborValue(p, data, start);
      if value.Err? { return Err(value.error); }
      offset := value.value.1;
      if key.value.0 == VText(name) {
        return Ok(Slice(data, start, offset));
      }
    }
    r := Err(NoSuchMember);
  }

  // --- Splitting a COSE_Sign1 ------------------------------------------------------------------

  datatype Part = Part(value: Value, size: nat)

  method CoseSign1Parts(p: Python, data: seq<byte>) returns (r: Result<(seq<Part>, nat), Error>)
    ensures r.Ok? ==> Sign1Framing(data).Ok? && r.value.1 == Sign1Framing(data).value
    ensures r.Err? <==> Sign1Framing(data).Err? || DecodeItems(p, data, Sign1Framing(data).value, 4).Err?
    ensures r.Ok? ==> Values(r.value.0) == DecodeItems(p, data, r.value.1, 4).value.0
    ensures r.Ok? ==> r.value.1 + PartsSize(r.value.0) == DecodeItems(p, data, r.value.1, 4).value.1
  {
    var head := CborHead(data, 0);
    if head.Err? { return Err(head.error); }
    var Head(major, _, argument, offset) := head.value;
    if major == 6 {
      head := CborHead(data, offset);
      if head.Err? { return Err(head.error); }
      major, argument, offset := head.value.major, head.value.argument, head.value.next;
    }
    if major != 4 || argument != 4 { return Err(NotCoseSign1); }
    var framing := offset;
    var parts: seq<Part> := [];
    PrependEmpty(DecodeItems(p, data, framing, 4));
    for i := 0 to 4
      invariant |parts| == i
      invariant framing + PartsSize(parts) == offset
      invariant DecodeItems(p, data, framing, 4) == Prepend(Values(parts), DecodeItems(p, data, offset, 4 - i))
    {
      var item := CborValue(p, data, offset);
      if item.Err? { return Err(item.error); }
      PrependMore(Values(parts), item.value.0, DecodeItems(p, data, item.value.1, 4 - i - 1));
      var part := Part(item.value.0, item.value.1 - offset);
      assert (parts + [part])[..|parts|] == parts;
      assert Values(parts + [part]) == Values(parts) + [part.value];
      parts := parts + [part];
      offset := item.value.1;
    }
    assert Values(parts) + [] == Values(parts);
    r := Ok((parts, framing));
  }

  function Values(parts: seq<Part>): (vs: seq<Value>)
    ensures |vs| == |parts|
  {
    seq(|parts|, i requires 0 <= i < |parts| => parts[i].value)
  }

  function PartsSize(parts: seq<Part>): nat {
    if parts == [] then 0 else PartsSize(parts[..|parts| - 1]) + parts[|parts| - 1].size
  }

  /** Where the four elements begin: after the array head, and after the tag when there is one. */
  function Sign1Framing(data: seq<byte>): Result<nat, Error> {
    match CborHead(data, 0)
    case Err(e) => Err(e)
    case Ok(outer) =>
      match (if outer.major == 6 then CborHead(data, outer.next) else Ok(outer))
      case Err(e) => Err(e)
      case Ok(inner) => if inner.major == 4 && inner.argument == 4 then Ok(inner.next) else Err(NotCoseSign1)
  }
}
