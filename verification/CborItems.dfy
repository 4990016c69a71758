// Well-formed definite-length CBOR items (section 3 of RFC 8949), in every head width an encoder may
// choose, and what the reader of Cbor.dfy makes of them.

module CborItems {
  import opened Basics
  import opened BigEndian
  import opened Cbor

  /** How many bytes follow the initial byte to carry the argument. */
  datatype Width = Inline | One | Two | Four | Eight {
    function Bytes(): nat {
      match this case Inline => 0 case One => 1 case Two => 2 case Four => 4 case Eight => 8
    }

    function Info(argument: nat): nat {
      match this case Inline => argument case One => 24 case Two => 25 case Four => 26 case Eight => 27
    }

    predicate Fits(argument: nat) {
      if Inline? then argument < 24 else argument < Pow256(Bytes())
    }
  }

  datatype Item =
    | Unsigned(w: Width, n: nat)
    | Negative(w: Width, n: nat)
    | Bytes(w: Width, raw: seq<byte>)
    | Text(w: Width, raw: seq<byte>)
    | Array(w: Width, items: seq<Item>)
    | Map(w: Width, flat: seq<Item>)
    | Tag(w: Width, n: nat, item: Item)
    | Special(w: Width, n: nat)

  /** Major type and argument of an item's head. A map counts pairs. */
  function Major(item: Item): nat {
    match item
    case Unsigned(_, _) => 0
    case Negative(_, _) => 1
    case Bytes(_, _) => 2
    case Text(_, _) => 3
    case Array(_, _) => 4
    case Map(_, _) => 5
    case Tag(_, _, _) => 6
    case Special(_, _) => 7
  }

  function Argument(item: Item): nat {
    match item
    case Unsigned(_, n) => n
    case Negative(_, n) => n
    case Bytes(_, raw) => |raw|
    case Text(_, raw) => |raw|
    case Array(_, items) => |items|
    case Map(_, flat) => |flat| / 2
    case Tag(_, n, _) => n
    case Special(_, n) => n
  }

  ghost predicate WellFormed(item: Item)
    decreases item, 0
  {
    && item.w.Fits(Argument(item))
    && match item
       case Array(_, items) => AllWellFormed(items)
       case Map(_, flat) => |flat| % 2 == 0 && AllWellFormed(flat)
       case Tag(_, _, inner) => WellFormed(inner)
       case _ => true
  }

  ghost predicate AllWellFormed(items: seq<Item>)
    decreases items, 1
  {
    items == [] || (WellFormed(items[0]) && AllWellFormed(items[1..]))
  }

  // --- Encoding --------------------------------------------------------------------------------

  function HeadBytes(major: nat, w: Width, argument: nat): (bs: seq<byte>)
    requires major < 8 && w.Fits(argument)
    ensures |bs| == 1 + w.Bytes()
  {
    [32 * major + w.Info(argument)] + WordBytes(argument, w.Bytes())
  }

  ghost function Encode(item: Item): (bs: seq<byte>)
    requires WellFormed(item)
    ensures bs != []
    decreases item, 0
  {
    HeadBytes(Major(item), item.w, Argument(item)) +
    match item
    case Bytes(_, raw) => raw
    case Text(_, raw) => raw
    case Array(_, items) => EncodeAll(items)
    case Map(_, flat) => EncodeAll(flat)
    case Tag(_, _, inner) => Encode(inner)
    case _ => []
  }

  ghost function EncodeAll(items: seq<Item>): seq<byte>
    requires AllWellFormed(items)
    decreases items, 1
  {
    if items == [] then [] else Encode(items[0]) + EncodeAll(items[1..])
  }

  // --- Meaning ---------------------------------------------------------------------------------

  /** The one dictionary that holds each key of the pairs with the value of its last pair. */
  ghost function Entries(p: Python, flat: seq<Value>): (m: map<Key, Value>)
    ensures |flat| % 2 == 0 ==> IsDict(p, flat, m)
  {
    if |flat| % 2 != 0 then map[]
    else
      DictExactly(p, flat);
      var m :| IsDict(p, flat, m);
      m
  }

  /** The value an item denotes; nothing when a text string in it is not UTF-8. */
  ghost function Denote(p: Python, item: Item): Option<Value>
    decreases item, 0
  {
    match item
    case Unsigned(_, n) => Some(VInt(n))
    case Negative(_, n) => Some(VInt(-1 - n))
    case Bytes(_, raw) => Some(VBytes(raw))
    case Text(_, raw) => (match p.decodeUtf8(raw) case None => None case Some(s) => Some(VText(s)))
    case Array(_, items) => (match DenoteAll(p, items) case None => None case Some(vs) => Some(VList(vs)))
    case Map(_, flat) => (match DenoteAll(p, flat) case None => None case Some(vs) => Some(VDict(Entries(p, vs))))
    case Tag(_, _, inner) => Denote(p, inner)
    case Special(w, n) =>
      if w.Inline? && n == 20 then Some(VBool(false))
      else if w.Inline? && n == 21 then Some(VBool(true))
      else if w.Inline? && n == 22 then Some(VNone)
      else Some(VInt(n))
  }

  ghost function DenoteAll(p: Python, items: seq<Item>): (r: Option<seq<Value>>)
    ensures r.Some? ==> |r.value| == |items|
    decreases items, 1
  {
    if items == [] then Some([])
    else match Denote(p, items[0])
      case None => None
      case Some(v) => match DenoteAll(p, items[1..])
        case None => None
        case Some(vs) => Some([v] + vs)
  }

  // --- The reader stops exactly at the end of an item ------------------------------------------

  /** `bs` stands in `data` at `offset`, whatever comes before and after it. */
  ghost predicate At(data: seq<byte>, offset: nat, bs: seq<byte>) {
    offset + |bs| <= |data| && data[offset..offset + |bs|] == bs
  }

  lemma AtSplit(data: seq<byte>, offset: nat, a: seq<byte>, b: seq<byte>)
    requires At(data, offset, a + b)
    ensures At(data, offset, a) && At(data, offset + |a|, b)
  {
    var both := data[offset..offset + |a + b|];
    assert a == both[..|a|] && b == both[|a|..];
    assert data[offset..offset + |a|] == both[..|a|];
    assert data[offset + |a|..offset + |a| + |b|] == both[|a|..];
  }

  lemma AtStart(bs: seq<byte>, trailing: seq<byte>)
    ensures At(bs + trailing, 0, bs)
  {
    assert (bs + trailing)[..|bs|] == bs;
  }

  lemma HeadDecodes(data: seq<byte>, offset: nat, major: nat, w: Width, argument: nat)
    requires major < 8 && w.Fits(argument) && At(data, offset, HeadBytes(major, w, argument))
    ensures CborHead(data, offset) == Ok(Head(major, w.Info(argument), argument, offset + 1 + w.Bytes()))
  {
    var initial := 32 * major + w.Info(argument);
    AtSplit(data, offset, [initial], WordBytes(argument, w.Bytes()));
    assert data[offset] == data[offset..offset + 1][0] == initial;
    DivModUnique(initial, 32, major, w.Info(argument));
    if w.One? {
      assert Pow256(1) == 256;
      assert data[offset + 1] == data[offset + 1..offset + 2][0] == WordBytes(argument, 1)[0];
    } else if !w.Inline? {
      ValueOfWord(argument, w.Bytes());
      assert Slice(data, offset + 1, offset + 1 + w.Bytes()) == WordBytes(argument, w.Bytes());
    }
  }

  /** The body that follows an item's head. */
  ghost function Body(item: Item): seq<byte>
    requires WellFormed(item)
  {
    match item
    case Bytes(_, raw) => raw
    case Text(_, raw) => raw
    case Array(_, items) => EncodeAll(items)
    case Map(_, flat) => EncodeAll(flat)
    case Tag(_, _, inner) => Encode(inner)
    case _ => []
  }

  /** Reading the head of an item in place leaves the reader at its body. */
  lemma HeadOf(data: seq<byte>, offset: nat, item: Item)
    requires WellFormed(item) && At(data, offset, Encode(item))
    ensures var at := offset + 1 + item.w.Bytes();
            CborHead(data, offset) == Ok(Head(Major(item), item.w.Info(Argument(item)), Argument(item), at))
            && At(data, at, Body(item)) && offset + |Encode(item)| == at + |Body(item)|
  {
    hide CborHead, At, EncodeAll, AllWellFormed, HeadBytes;
    var head := HeadBytes(Major(item), item.w, Argument(item));
    assert Encode(item) == head + Body(item);
    AtSplit(data, offset, head, Body(item));
    HeadDecodes(data, offset, Major(item), item.w, Argument(item));
  }

  /** The outcome an item asks for when its last byte is just before `end`. */
  ghost function Outcome(p: Python, item: Item, end: nat): Result<(Value, nat), Error> {
    match Denote(p, item) case None => Err(BadUtf8) case Some(v) => Ok((v, end))
  }

  /** Every well-formed item, in place, decodes to its value and ends at its own last byte. */
  lemma {:induction false} ItemDecodes(p: Python, data: seq<byte>, offset: nat, item: Item)
    requires WellFormed(item) && At(data, offset, Encode(item))
    ensures Decode(p, data, offset) == Outcome(p, item, offset + |Encode(item)|)
    decreases item, 0
  {
    hide Decode, DecodeItems, EncodeAll, DenoteAll, AllWellFormed, CborHead, At, Encode;
    HeadOf(data, offset, item);
    var at := offset + 1 + item.w.Bytes();
    match item
    case Array(_, items) =>
      ItemsDecode(p, data, at, items);
      ContainerDecodes(p, data, offset, DenoteAll(p, items), at + |EncodeAll(items)|);
    case Map(_, flat) =>
      ItemsDecode(p, data, at, flat);
      ContainerDecodes(p, data, offset, DenoteAll(p, flat), at + |EncodeAll(flat)|);
      if DenoteAll(p, flat).Some? {
        var vs := DenoteAll(p, flat).value;
        DictExactly(p, vs);
        DictUnique(p, vs, Dict(p, vs), Entries(p, vs));
      }
    case Tag(_, _, inner) =>
      ItemDecodes(p, data, at, inner);
      TagDecodes(p, data, offset);
    case _ => LeafDecodes(p, data, offset, item);
  }

  /** A tagged item reads as the item. */
  lemma TagDecodes(p: Python, data: seq<byte>, offset: nat)
    requires CborHead(data, offset).Ok? && CborHead(data, offset).value.major == 6
    ensures Decode(p, data, offset) == Decode(p, data, CborHead(data, offset).value.next)
  {
  }

  /** An array or map reads as its elements do. */
  lemma ContainerDecodes(p: Python, data: seq<byte>, offset: nat, vs: Option<seq<Value>>, end: nat)
    requires CborHead(data, offset).Ok? && CborHead(data, offset).value.major in {4, 5}
    requires var Head(major, _, n, at) := CborHead(data, offset).value;
             DecodeItems(p, data, at, if major == 4 then n else 2 * n) == OutcomeAll(vs, end)
    ensures Decode(p, data, offset) ==
      if CborHead(data, offset).value.major == 4 then AsList(OutcomeAll(vs, end)) else AsDict(p, OutcomeAll(vs, end))
  {
  }

  lemma LeafDecodes(p: Python, data: seq<byte>, offset: nat, item: Item)
    requires WellFormed(item) && At(data, offset, Encode(item))
    requires !item.Array? && !item.Map? && !item.Tag?
    ensures Decode(p, data, offset) == Outcome(p, item, offset + |Encode(item)|)
  {
    hide CborHead, Encode, EncodeAll, DenoteAll, AllWellFormed, DecodeItems, HeadBytes;
    HeadOf(data, offset, item);
    var at := offset + 1 + item.w.Bytes();
    if item.Bytes? || item.Text? {
      assert Slice(data, at, at + |item.raw|) == item.raw;
    }
  }

  /** What `count` values in a row should read as. */
  ghost function OutcomeAll(vs: Option<seq<Value>>, end: nat): Result<(seq<Value>, nat), Error> {
    match vs case None => Err(BadUtf8) case Some(values) => Ok((values, end))
  }

  lemma ItemsStep(p: Python, data: seq<byte>, offset: nat, count: nat, v: Option<Value>, next: nat,
                  vs: Option<seq<Value>>, end: nat)
    requires count > 0
    requires Decode(p, data, offset) == if v.None? then Err(BadUtf8) else Ok((v.value, next))
    requires DecodeItems(p, data, next, count - 1) == OutcomeAll(vs, end)
    ensures DecodeItems(p, data, offset, count)
         == if v.None? || vs.None? then Err(BadUtf8) else Ok(([v.value] + vs.value, end))
  {
  }

  lemma {:induction false} ItemsDecode(p: Python, data: seq<byte>, offset: nat, items: seq<Item>)
    requires AllWellFormed(items)
    requires At(data, offset, EncodeAll(items))
    ensures DecodeItems(p, data, offset, |items|) == OutcomeAll(DenoteAll(p, items), offset + |EncodeAll(items)|)
    decreases items, 2
  {
    if items != [] {
      ItemsDecodeStep(p, data, offset, items);
    }
  }

  lemma ItemsDecodeStep(p: Python, data: seq<byte>, offset: nat, items: seq<Item>)
    requires items != [] && AllWellFormed(items)
    requires At(data, offset, EncodeAll(items))
    ensures DecodeItems(p, data, offset, |items|) == OutcomeAll(DenoteAll(p, items), offset + |EncodeAll(items)|)
    decreases items, 1
  {
    hide Decode, DecodeItems, WellFormed, Encode, Denote, At;
    var first, rest := items[0], items[1..];
    AtSplit(data, offset, Encode(first), EncodeAll(rest));
    var next := offset + |Encode(first)|;
    ItemDecodes(p, data, offset, first);
    ItemsDecode(p, data, next, rest);
    ItemsStep(p, data, offset, |items|, Denote(p, first), next, DenoteAll(p, rest), next + |EncodeAll(rest)|);
  }

  // --- Weighing maps and COSE_Sign1 structures -------------------------------------------------

  ghost predicate AllDenoted(p: Python, items: seq<Item>) {
    DenoteAll(p, items).Some?
  }

  /** The fields a map of these alternating keys and values should be weighed as. */
  ghost function ExpectedFields(p: Python, flat: seq<Item>): seq<Field>
    requires |flat| % 2 == 0 && AllWellFormed(flat) && AllDenoted(p, flat)
    decreases |flat|
  {
    if |flat| < 2 then []
    else
      SplitPair(p, flat);
      [ExpectedField(p, flat[0], flat[1])] + ExpectedFields(p, flat[2..])
  }

  ghost function ExpectedField(p: Python, key: Item, value: Item): Field
    requires WellFormed(key) && WellFormed(value) && Denote(p, key).Some? && Denote(p, value).Some?
  {
    Field(p.str(Denote(p, key).value), Denote(p, value).value, |Encode(key)| + |Encode(value)|)
  }

  lemma SplitPair(p: Python, flat: seq<Item>)
    requires |flat| >= 2 && AllWellFormed(flat)
    ensures WellFormed(flat[0]) && WellFormed(flat[1]) && AllWellFormed(flat[2..])
    ensures EncodeAll(flat) == Encode(flat[0]) + (Encode(flat[1]) + EncodeAll(flat[2..]))
    ensures AllDenoted(p, flat) ==>
      Denote(p, flat[0]).Some? && Denote(p, flat[1]).Some? && AllDenoted(p, flat[2..])
  {
    hide WellFormed, Encode, Denote;
    var tail, rest := flat[1..], flat[2..];
    assert tail[0] == flat[1] && tail[1..] == rest;
    assert AllWellFormed(tail) && AllWellFormed(rest);
    assert EncodeAll(tail) == Encode(flat[1]) + EncodeAll(rest);
    if AllDenoted(p, flat) {
      assert DenoteAll(p, tail).Some? && DenoteAll(p, rest).Some?;
    }
  }

  lemma PairAt(p: Python, data: seq<byte>, offset: nat, flat: seq<Item>)
    requires |flat| >= 2 && AllWellFormed(flat) && AllDenoted(p, flat) && At(data, offset, EncodeAll(flat))
    ensures WellFormed(flat[0]) && WellFormed(flat[1]) && AllWellFormed(flat[2..]) && AllDenoted(p, flat[2..])
    ensures Denote(p, flat[0]).Some? && Denote(p, flat[1]).Some?
    ensures var start := offset + |Encode(flat[0])|;
            var next := start + |Encode(flat[1])|;
            && Decode(p, data, offset) == Ok((Denote(p, flat[0]).value, start))
            && Decode(p, data, start) == Ok((Denote(p, flat[1]).value, next))
            && Slice(data, start, next) == Encode(flat[1])
            && At(data, next, EncodeAll(flat[2..]))
  {
    hide Decode, Encode, EncodeAll, Denote, DenoteAll, WellFormed, AllWellFormed, AllDenoted;
    SplitPair(p, flat);
    var start := offset + |Encode(flat[0])|;
    AtSplit(data, offset, Encode(flat[0]), Encode(flat[1]) + EncodeAll(flat[2..]));
    AtSplit(data, start, Encode(flat[1]), EncodeAll(flat[2..]));
    ItemDecodes(p, data, offset, flat[0]);
    ItemDecodes(p, data, start, flat[1]);
  }

  lemma {:induction false} FieldsOf(p: Python, data: seq<byte>, offset: nat, flat: seq<Item>)
    requires |flat| % 2 == 0 && AllWellFormed(flat) && AllDenoted(p, flat) && At(data, offset, EncodeAll(flat))
    ensures Fields(p, data, offset, |flat| / 2) == Ok((ExpectedFields(p, flat), offset + |EncodeAll(flat)|))
    ensures SizeOf(ExpectedFields(p, flat)) == |EncodeAll(flat)|
    decreases |flat|
  {
    hide Decode, Encode, Denote, DenoteAll, WellFormed, At, DecodeItems, AllWellFormed;
    if flat != [] {
      SplitPair(p, flat);
      PairAt(p, data, offset, flat);
      PairDecodes(p, data, offset);
      FieldsOf(p, data, offset + |Encode(flat[0])| + |Encode(flat[1])|, flat[2..]);
      assert |flat[2..]| / 2 == |flat| / 2 - 1;
    }
  }

  /** A well-formed map followed by anything: every field with its exact size, and the sizes with the
      head make up the map's own encoding, byte for byte. */
  lemma MapWeighs(p: Python, item: Item, trailing: seq<byte>)
    requires item.Map? && WellFormed(item) && AllDenoted(p, item.flat)
    ensures MapFields(p, Encode(item) + trailing) == Ok((ExpectedFields(p, item.flat), 1 + item.w.Bytes()))
    ensures 1 + item.w.Bytes() + SizeOf(ExpectedFields(p, item.flat)) == |Encode(item)|
  {
    var data := Encode(item) + trailing;
    HeadOf(data, 0, item);
    FieldsOf(p, data, 1 + item.w.Bytes(), item.flat);
  }

  /** Where the last field ends is where the map's value ends. */
  lemma {:induction false} FieldsEnd(p: Python, data: seq<byte>, offset: nat, count: nat)
    ensures Fields(p, data, offset, count).Ok? <==> DecodeItems(p, data, offset, 2 * count).Ok?
    ensures Fields(p, data, offset, count).Ok? ==>
      var (fields, end) := Fields(p, data, offset, count).value;
      offset + SizeOf(fields) == end == DecodeItems(p, data, offset, 2 * count).value.1
    decreases count
  {
    hide Decode;
    if count > 0 {
      PairDecodes(p, data, offset);
      TwoMore(p, data, offset, 2 * count);
      if DecodeItems(p, data, offset, 2).Ok? {
        FieldsEnd(p, data, DecodeItems(p, data, offset, 2).value.1, count - 1);
      }
    }
  }

  lemma TwoMore(p: Python, data: seq<byte>, offset: nat, count: nat)
    requires count >= 2
    ensures var two := DecodeItems(p, data, offset, 2);
            DecodeItems(p, data, offset, count) ==
            if two.Err? then Err(two.error) else Prepend(two.value.0, DecodeItems(p, data, two.value.1, count - 2))
  {
    hide Decode;
    PairDecodes(p, data, offset);
    var key := Decode(p, data, offset);
    if key.Ok? && Decode(p, data, key.value.1).Ok? {
      var value := Decode(p, data, key.value.1);
      var rest := DecodeItems(p, data, value.value.1, count - 2);
      assert DecodeItems(p, data, key.value.1, count - 1) == Prepend([value.value.0], rest);
      PrependMore([key.value.0], value.value.0, rest);
      assert [key.value.0] + [value.value.0] == [key.value.0, value.value.0];
    }
  }

  /** For any bytes at all: the weights add up to where the map ends, so they balance against the
      length of the buffer exactly when the map ends where the buffer does. */
  lemma WeightsBalance(p: Python, data: seq<byte>)
    requires MapFields(p, data).Ok?
    ensures Decode(p, data, 0).Ok?
    ensures var (fields, header) := MapFields(p, data).value;
            header + SizeOf(fields) == Decode(p, data, 0).value.1
  {
    var head := CborHead(data, 0).value;
    FieldsEnd(p, data, head.next, head.argument);
  }

  /** A byte string cut short still counts in full: the weights exceed the buffer. */
  lemma TruncatedStringOverweighs(p: Python)
    ensures var data: seq<byte> := [0xA1, 0x00, 0x45, 0x07];
            MapFields(p, data) == Ok(([Field(p.str(VInt(0)), VBytes([0x07]), 7)], 1)) && 1 + 7 > |data|
  {
    var data: seq<byte> := [0xA1, 0x00, 0x45, 0x07];
    assert Slice(data, 3, 8) == [0x07];
    assert Decode(p, data, 1) == Ok((VInt(0), 2));
    assert Decode(p, data, 2) == Ok((VBytes([0x07]), 8));
    PairDecodes(p, data, 1);
    var f := Field(p.str(VInt(0)), VBytes([0x07]), 7);
    assert Fields(p, data, 8, 0) == Ok(([], 8));
    assert [f] + [] == [f];
    assert Fields(p, data, 1, 1) == Ok(([f], 8));
    assert CborHead(data, 0) == Ok(Head(5, 1, 1, 1));
  }

  // --- Extracting one member -------------------------------------------------------------------

  /** The first pair whose key denotes the text `name`, counting pairs. */
  ghost function FirstPair(p: Python, flat: seq<Item>, name: string): (r: Option<nat>)
    ensures r.Some? ==> 2 * r.value + 1 < |flat| && Denote(p, flat[2 * r.value]) == Some(VText(name))
    ensures r.Some? ==> forall j :: 0 <= j < r.value ==> Denote(p, flat[2 * j]) != Some(VText(name))
    ensures r.None? ==> forall j :: 0 <= j && 2 * j + 1 < |flat| ==> Denote(p, flat[2 * j]) != Some(VText(name))
    decreases |flat|
  {
    if |flat| < 2 then None
    else if Denote(p, flat[0]) == Some(VText(name)) then Some(0)
    else
      var rest := FirstPair(p, flat[2..], name);
      assert forall j :: 0 < j && 2 * j < |flat| ==> flat[2 * j] == flat[2..][2 * (j - 1)];
      if rest.None? then None else Some(rest.value + 1)
  }

  lemma {:induction false} MemberOf(p: Python, data: seq<byte>, offset: nat, flat: seq<Item>, name: string)
    requires |flat| % 2 == 0 && AllWellFormed(flat) && AllDenoted(p, flat) && At(data, offset, EncodeAll(flat))
    ensures FirstPair(p, flat, name).Some? ==> WellFormed(flat[2 * FirstPair(p, flat, name).value + 1])
    ensures FieldBytes(p, data, offset, |flat| / 2, name) ==
      if FirstPair(p, flat, name).None? then Err(NoSuchMember)
      else Ok(Encode(flat[2 * FirstPair(p, flat, name).value + 1]))
    decreases |flat|
  {
    hide Decode, Encode, EncodeAll, Denote, DenoteAll, WellFormed, AllWellFormed, At, AllDenoted;
    if flat != [] {
      PairAt(p, data, offset, flat);
      MemberOf(p, data, offset + |Encode(flat[0])| + |Encode(flat[1])|, flat[2..], name);
      assert |flat[2..]| / 2 == |flat| / 2 - 1;
    }
  }

  /** Extraction from a well-formed map returns the exact encoding of the first matching member,
      which decodes on its own to that member's value. */
  lemma ExtractsExactly(p: Python, item: Item, trailing: seq<byte>, name: string)
    requires item.Map? && WellFormed(item) && AllDenoted(p, item.flat)
    ensures var k := FirstPair(p, item.flat, name);
            var r := MemberBytes(p, Encode(item) + trailing, name);
            if k.None? then r == Err(NoSuchMember)
            else
              && WellFormed(item.flat[2 * k.value + 1])
              && r == Ok(Encode(item.flat[2 * k.value + 1]))
              && Decode(p, r.value, 0) == Outcome(p, item.flat[2 * k.value + 1], |r.value|)
  {
    hide Decode, Encode, EncodeAll, Denote, DenoteAll, AllWellFormed, AllDenoted, FieldBytes, FirstPair;
    var data := Encode(item) + trailing;
    HeadOf(data, 0, item);
    MemberOf(p, data, 1 + item.w.Bytes(), item.flat, name);
    var k := FirstPair(p, item.flat, name);
    if k.Some? {
      var member := item.flat[2 * k.value + 1];
      assert At(Encode(member), 0, Encode(member));
      ItemDecodes(p, Encode(member), 0, member);
    }
  }

  /** A COSE_Sign1, tagged or not: the four elements are found and, with the framing, cover it. */
  lemma Sign1Weighs(p: Python, four: Item, tag: Option<(Width, nat)>, trailing: seq<byte>)
    requires four.Array? && |four.items| == 4 && WellFormed(four) && AllDenoted(p, four.items)
    requires tag.Some? ==> tag.value.0.Fits(tag.value.1)
    ensures var item := if tag.Some? then Tag(tag.value.0, tag.value.1, four) else four;
            var data := Encode(item) + trailing;
            && Sign1Framing(data).Ok?
            && DecodeItems(p, data, Sign1Framing(data).value, 4)
               == Ok((DenoteAll(p, four.items).value, |Encode(item)|))
  {
    hide Decode, EncodeAll, Denote, DenoteAll, AllWellFormed, DecodeItems, CborHead, Encode, At, HeadBytes;
    var item := if tag.Some? then Tag(tag.value.0, tag.value.1, four) else four;
    var data := Encode(item) + trailing;
    assert At(data, 0, Encode(item)) by { AtStart(Encode(item), trailing); }
    HeadOf(data, 0, item);
    var at := if tag.Some? then 1 + item.w.Bytes() else 0;
    HeadOf(data, at, four);
    ItemsDecode(p, data, at + 1 + four.w.Bytes(), four.items);
  }
}
