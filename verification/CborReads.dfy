// What the reader of Cbor.dfy accepts: whatever it reads within its input is a well-formed item there.

module CborReads {
  import opened Basics
  import opened BigEndian
  import opened Cbor
  import opened CborItems

  lemma AtJoin(data: seq<byte>, offset: nat, a: seq<byte>, b: seq<byte>)
    requires At(data, offset, a) && At(data, offset + |a|, b)
    ensures At(data, offset, a + b)
  {
    assert data[offset..offset + |a| + |b|] == data[offset..offset + |a|] + data[offset + |a|..offset + |a| + |b|];
  }

  function WidthOf(info: nat): Width {
    if info < 24 then Inline
    else if info == 24 then One
    else if info == 25 then Two
    else if info == 26 then Four
    else Eight
  }

  /** A head read within the input is the head of its own major type, width and argument. */
  lemma HeadRead(data: seq<byte>, offset: nat)
    requires CborHead(data, offset).Ok? && CborHead(data, offset).value.next <= |data|
    ensures var Head(major, minor, argument, next) := CborHead(data, offset).value;
            var w := WidthOf(minor);
            && w.Fits(argument) && w.Info(argument) == minor && next == offset + 1 + w.Bytes()
            && At(data, offset, HeadBytes(major, w, argument))
  {
    hide At, WordBytes, BigEndian.Value, Pow256;
    var Head(major, minor, argument, next) := CborHead(data, offset).value;
    var word := data[offset + 1..next];
    InitialByte(data[offset]);
    WordOfValue(word);
    if minor < 24 {
      NoWord(argument);
    } else if minor == 24 {
      OneByte(data[offset + 1]);
      assert word == [data[offset + 1]];
    } else {
      assert Slice(data, offset + 1, next) == word;
    }
    assert WordBytes(argument, WidthOf(minor).Bytes()) == word;
    HeadAt(data, offset, word, next);
  }

  lemma NoWord(n: nat)
    ensures WordBytes(n, 0) == []
  {
  }

  lemma InitialByte(b: byte)
    ensures b == 32 * (b / 32) + b % 32 && b / 32 < 8
  {
  }

  lemma OneByte(b: byte)
    ensures BigEndian.Value([b]) == b && Pow256(1) == 256
  {
    assert [b][..0] == [];
  }

  lemma HeadAt(data: seq<byte>, offset: nat, word: seq<byte>, next: nat)
    requires offset < next <= |data| && word == data[offset + 1..next]
    ensures At(data, offset, [data[offset]] + word)
  {
  }

  /** A leaf read within the input. */
  function LeafOf(data: seq<byte>, head: Head): Item
    requires head.major in {2, 3} ==> head.next + head.argument <= |data|
  {
    var Head(major, minor, argument, next) := head;
    var w := WidthOf(minor);
    if major == 0 then Unsigned(w, argument)
    else if major == 1 then Negative(w, argument)
    else if major == 2 then Bytes(w, data[next..next + argument])
    else if major == 3 then Text(w, data[next..next + argument])
    else Special(w, argument)
  }

  /** An item whose head and body stand one after the other stands there whole. */
  lemma Assembled(data: seq<byte>, offset: nat, item: Item)
    requires WellFormed(item) && At(data, offset, HeadBytes(Major(item), item.w, Argument(item)))
    requires At(data, offset + 1 + item.w.Bytes(), Body(item))
    ensures At(data, offset, Encode(item)) && |Encode(item)| == 1 + item.w.Bytes() + |Body(item)|
  {
    hide At;
    AtJoin(data, offset, HeadBytes(Major(item), item.w, Argument(item)), Body(item));
    assert Encode(item) == HeadBytes(Major(item), item.w, Argument(item)) + Body(item);
  }

  /** Whatever the reader accepts, ending within its input, is a well-formed item that stands there,
      byte for byte, and denotes what was read. */
  lemma {:induction false} ItemRead(p: Python, data: seq<byte>, offset: nat) returns (item: Item)
    requires Decode(p, data, offset).Ok? && Decode(p, data, offset).value.1 <= |data|
    ensures WellFormed(item) && At(data, offset, Encode(item)) && Major(item) == CborHead(data, offset).value.major
    ensures Decode(p, data, offset) == Ok((Decode(p, data, offset).value.0, offset + |Encode(item)|))
    ensures Denote(p, item) == Some(Decode(p, data, offset).value.0)
    decreases Remaining(data, offset), 0, 0
  {
    hide CborHead, At, Encode, EncodeAll, Denote, DenoteAll, HeadBytes, DecodeItems;
    var Head(major, minor, argument, next) := CborHead(data, offset).value;
    var w := WidthOf(minor);
    if major == 4 || major == 5 {
      HeadRead(data, offset);
      var items := ItemsRead(p, data, next, if major == 4 then argument else 2 * argument);
      item := if major == 4 then Array(w, items) else Map(w, items);
    } else if major == 6 {
      HeadRead(data, offset);
      var inner := ItemRead(p, data, next);
      item := Tag(w, argument, inner);
    } else {
      item := LeafOf(data, CborHead(data, offset).value);
      LeafRead(p, data, offset, item);
    }
    Assembled(data, offset, item);
    ItemDecodes(p, data, offset, item);
  }

  lemma LeafRead(p: Python, data: seq<byte>, offset: nat, item: Item)
    requires Decode(p, data, offset).Ok? && Decode(p, data, offset).value.1 <= |data|
    requires CborHead(data, offset).value.major in {0, 1, 2, 3, 7} && item == LeafOf(data, CborHead(data, offset).value)
    ensures WellFormed(item) && Major(item) == CborHead(data, offset).value.major
    ensures At(data, offset, HeadBytes(Major(item), item.w, Argument(item)))
    ensures At(data, offset + 1 + item.w.Bytes(), Body(item))
  {
    hide CborHead, At, Encode, EncodeAll, HeadBytes, DecodeItems;
    HeadRead(data, offset);
    LeafBody(data, CborHead(data, offset).value.next, item);
  }

  lemma LeafBody(data: seq<byte>, next: nat, item: Item)
    requires WellFormed(item) && next + |Body(item)| <= |data|
    requires Body(item) == data[next..next + |Body(item)|]
    ensures At(data, next, Body(item))
  {
  }

  lemma {:induction false} ItemsRead(p: Python, data: seq<byte>, offset: nat, count: nat) returns (items: seq<Item>)
    requires DecodeItems(p, data, offset, count).Ok? && DecodeItems(p, data, offset, count).value.1 <= |data|
    ensures |items| == count && AllWellFormed(items) && At(data, offset, EncodeAll(items))
    ensures DecodeItems(p, data, offset, count).value.1 == offset + |EncodeAll(items)|
    decreases Remaining(data, offset), 1, count
  {
    hide Decode, Encode, Denote, WellFormed;
    if count == 0 {
      items := [];
    } else {
      var next := Decode(p, data, offset).value.1;
      var first := ItemRead(p, data, offset);
      var rest := ItemsRead(p, data, next, count - 1);
      items := [first] + rest;
      assert items[1..] == rest;
      AtJoin(data, offset, Encode(first), EncodeAll(rest));
    }
  }

  // --- When the weights of a map balance -------------------------------------------------------

  /** The bytes are a well-formed map, with nothing missing, and then perhaps something more. */
  ghost predicate MapThen(data: seq<byte>, trailing: seq<byte>) {
    exists item: Item :: item.Map? && WellFormed(item) && data == Encode(item) + trailing
  }

  /** The header and the fields weigh at most the input exactly when it begins with a well-formed map,
      and then what they leave over is what follows it. */
  lemma WeightsWithin(p: Python, data: seq<byte>)
    requires MapFields(p, data).Ok?
    ensures var (fields, header) := MapFields(p, data).value;
      var weight := header + SizeOf(fields);
      && (weight <= |data| ==> MapThen(data, data[weight..]))
      && (forall trailing :: MapThen(data, trailing) ==> weight + |trailing| == |data|)
  {
    hide Decode, Encode, WellFormed, MapFields, At, Denote;
    WeightsBalance(p, data);
    var (fields, header) := MapFields(p, data).value;
    var weight := header + SizeOf(fields);
    if weight <= |data| {
      var item := ItemRead(p, data, 0);
      ItIsAMap(p, data, item);
      assert data == Encode(item) + data[weight..] by { AtWhole(data, Encode(item)); }
    }
    forall trailing | MapThen(data, trailing) ensures weight + |trailing| == |data| {
      var item: Item :| item.Map? && WellFormed(item) && data == Encode(item) + trailing;
      AtStart(Encode(item), trailing);
      ItemDecodes(p, data, 0, item);
    }
  }

  lemma ItIsAMap(p: Python, data: seq<byte>, item: Item)
    requires MapFields(p, data).Ok? && Major(item) == CborHead(data, 0).value.major
    ensures item.Map?
  {
  }

  lemma AtWhole(data: seq<byte>, bs: seq<byte>)
    requires At(data, 0, bs)
    ensures data == bs + data[|bs|..]
  {
  }

  /** The weights add up to the length of the input exactly when the input is a well-formed map and
      nothing else. */
  lemma WeightsExactly(p: Python, data: seq<byte>)
    requires MapFields(p, data).Ok?
    ensures var (fields, header) := MapFields(p, data).value;
      header + SizeOf(fields) == |data| <==> exists item: Item :: item.Map? && WellFormed(item) && data == Encode(item)
  {
    hide MapFields, Encode, WellFormed;
    WeightsWithin(p, data);
    var (fields, header) := MapFields(p, data).value;
    if header + SizeOf(fields) == |data| {
      assert data[|data|..] == [];
      var item: Item :| item.Map? && WellFormed(item) && data == Encode(item) + [];
      assert Encode(item) + [] == Encode(item);
    }
    if item: Item :| item.Map? && WellFormed(item) && data == Encode(item) {
      assert data == Encode(item) + [];
      assert MapThen(data, []);
    }
  }
}
