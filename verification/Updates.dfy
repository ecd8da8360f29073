/** The decoders of packed GUIDs and of update masks, and the encodings they undo. */
module Updates {
  import opened Octets
  import opened Options

  // ----- bits

  /** mask & (1 << k). */
  predicate Bit(mask: nat, k: nat) {
    if k == 0 then mask % 2 == 1 else Bit(mask / 2, k - 1)
  }

  /** int.bit_count. */
  function Ones(mask: nat): nat {
    if mask == 0 then 0 else mask % 2 + Ones(mask / 2)
  }

  /** The number whose bits are given, lowest first. */
  function MaskOf(bits: seq<bool>): nat {
    if |bits| == 0 then 0 else (if bits[0] then 1 else 0) + 2 * MaskOf(bits[1..])
  }

  function Count(bits: seq<bool>): nat {
    if |bits| == 0 then 0 else (if bits[0] then 1 else 0) + Count(bits[1..])
  }

  lemma HalfMask(bits: seq<bool>)
    requires |bits| > 0
    ensures MaskOf(bits) / 2 == MaskOf(bits[1..]) && (MaskOf(bits) % 2 == 1 <==> bits[0])
  {
    var half: nat := MaskOf(bits[1..]);
    assert MaskOf(bits) == 2 * half + if bits[0] then 1 else 0;
  }

  lemma BitOfHalf(mask: nat, half: nat, k: nat)
    requires k > 0 && mask / 2 == half
    ensures Bit(mask, k) <==> Bit(half, k - 1)
  {
  }

  lemma {:induction false} MaskBits(bits: seq<bool>, k: nat)
    requires k < |bits|
    ensures Bit(MaskOf(bits), k) <==> bits[k]
    decreases k
  {
    HalfMask(bits);
    if k > 0 {
      MaskBits(bits[1..], k - 1);
      BitOfHalf(MaskOf(bits), MaskOf(bits[1..]), k);
    }
  }

  lemma {:induction false} MaskSize(bits: seq<bool>)
    ensures MaskOf(bits) < Pow2(|bits|) && Ones(MaskOf(bits)) == Count(bits)
    decreases |bits|
  {
    if |bits| > 0 {
      MaskSize(bits[1..]);
      HalfMask(bits);
    }
  }

  lemma {:induction false} BytesOfBits(k: nat)
    ensures Pow2(8 * k) == Power256(k)
  {
    if k > 0 {
      BytesOfBits(k - 1);
      assert 8 * k == 8 + 8 * (k - 1);
      Pow2Sum(8, 8 * (k - 1));
      assert Pow2(8) == 256;
    }
  }

  // ----- packed GUIDs

  /** The eight bytes of a GUID: one from the body for every bit, zero for the others; None is a body that ends early. */
  function Unpack(mask: nat, index: nat, body: Bytes, offset: nat): Option<Bytes>
    requires index <= 8
    decreases 8 - index
  {
    if index == 8 then Some([])
    else if Bit(mask, index) && offset >= |body| then None
    else
      var rest := Unpack(mask, index + 1, body, if Bit(mask, index) then offset + 1 else offset);
      if rest.None? then None else Some([if Bit(mask, index) then body[offset] else 0] + rest.value)
  }

  function PackedGuid(body: Bytes, offset: nat): Option<nat> {
    if offset >= |body| then None
    else
      var raw := Unpack(body[offset], 0, body, offset + 1);
      if raw.None? then None else Some(Little(raw.value))
  }

  function NonZeroBits(raw: Bytes): (bits: seq<bool>)
    ensures |bits| == |raw| && forall i | 0 <= i < |bits| :: bits[i] <==> raw[i] != 0
  {
    seq(|raw|, i requires 0 <= i < |raw| => raw[i] != 0)
  }

  function NonZero(raw: Bytes): Bytes {
    if |raw| == 0 then [] else (if raw[0] != 0 then [raw[0]] else []) + NonZero(raw[1..])
  }

  function Packed(raw: Bytes): Bytes
    requires |raw| == 8
  {
    MaskSize(NonZeroBits(raw));
    assert Pow2(8) == 256;
    [MaskOf(NonZeroBits(raw))] + NonZero(raw)
  }

  /** The bytes after the opcode of a spell cast. */
  function Cast(spell: nat, target: nat): Bytes {
    if target == 0 then LittleBytes(spell, 4) + LittleBytes(0, 2)
    else LittleBytes(spell, 4) + LittleBytes(2, 2) + Packed(LittleBytes(target, 8))
  }

  lemma {:induction false} NonZeroCount(raw: Bytes)
    ensures |NonZero(raw)| == Count(NonZeroBits(raw))
    decreases |raw|
  {
    if |raw| > 0 {
      NonZeroCount(raw[1..]);
      assert NonZeroBits(raw)[1..] == NonZeroBits(raw[1..]);
    }
  }

  lemma {:induction false} UnpackNonZero(raw: Bytes, mask: nat, index: nat, body: Bytes, offset: nat)
    requires |raw| == 8 && index <= 8 && forall k: nat | k < 8 :: Bit(mask, k) <==> raw[k] != 0
    requires At(body, offset, NonZero(raw[index..]))
    ensures Unpack(mask, index, body, offset) == Some(raw[index..])
    decreases 8 - index
  {
    if index < 8 {
      var rest := raw[index..];
      assert rest[1..] == raw[index + 1..] && rest == [raw[index]] + raw[index + 1..];
      if raw[index] != 0 {
        AtFirst(body, offset, raw[index], NonZero(raw[index + 1..]));
        UnpackNonZero(raw, mask, index + 1, body, offset + 1);
      } else {
        assert NonZero(rest) == NonZero(raw[index + 1..]);
        UnpackNonZero(raw, mask, index + 1, body, offset);
      }
    }
  }

  /** Unpacking undoes packing, and the packed form takes one byte more than its mask has bits. */
  lemma PackedRoundTrip(raw: Bytes, body: Bytes, offset: nat)
    requires |raw| == 8 && At(body, offset, Packed(raw))
    ensures PackedGuid(body, offset) == Some(Little(raw))
    ensures |Packed(raw)| == 1 + Ones(body[offset])
  {
    var bits := NonZeroBits(raw);
    MaskSize(bits);
    assert Pow2(8) == 256;
    AtFirst(body, offset, MaskOf(bits), NonZero(raw));
    forall k: nat | k < 8 ensures Bit(MaskOf(bits), k) <==> raw[k] != 0 {
      MaskBits(bits, k);
    }
    assert raw[0..] == raw;
    UnpackNonZero(raw, MaskOf(bits), 0, body, offset + 1);
    NonZeroCount(raw);
  }

  /** A target that is not zero stands packed behind the first six bytes; without one the bytes end there. */
  lemma CastRoundTrip(spell: nat, target: nat)
    requires target < Power256(8)
    ensures target != 0 ==>
      PackedGuid(Cast(spell, target), 6) == Some(target) && |Cast(spell, target)| == 7 + Ones(Cast(spell, target)[6])
    ensures target == 0 ==> |Cast(spell, target)| == 6
  {
    if target != 0 {
      var cast, packed := Cast(spell, target), Packed(LittleBytes(target, 8));
      assert cast[6..] == packed;
      assert forall k | 0 <= k < |packed| :: cast[6 + k] == cast[6..][k];
      PackedRoundTrip(LittleBytes(target, 8), cast, 6);
      LittleRoundTrip(target, 8);
    }
  }

  // ----- update masks

  type Fields = map<nat, nat>

  /** The fields so far and the offset reached; Failed is a body that ends early. */
  datatype Reading = Failed | Reading(fields: Fields, next: nat)

  /** struct.unpack_from('<I', body, offset). */
  function Word(body: Bytes, offset: nat): nat
    requires offset + 4 <= |body|
  {
    Little(body[offset..offset + 4])
  }

  function ReadFields(mask: nat, index: nat, count: nat, body: Bytes, offset: nat, fields: Fields): Reading
    requires index <= count
    decreases count - index
  {
    if index == count then Reading(fields, offset)
    else if !Bit(mask, index) then ReadFields(mask, index + 1, count, body, offset, fields)
    else if offset + 4 > |body| then Failed
    else ReadFields(mask, index + 1, count, body, offset + 4, fields[index := Word(body, offset)])
  }

  /** The offset after the block in front of the mask words, for a create by type and flags; None where the source raises. */
  function BlockEnd(body: Bytes, offset: nat): Option<nat> {
    if offset + 1 >= |body| then None
    else if body[offset] == 1 || body[offset] == 2 then if body[offset + 1] == 0x10 then Some(offset + 6) else None
    else if body[offset] == 5 then if body[offset + 1] == 0x50 then Some(offset + 22) else None
    else if body[offset] != 4 || (body[offset + 1] != 0x70 && body[offset + 1] != 0x71) || offset + 6 > |body| then None
    else if Flat(Word(body, offset + 2)) then Some(offset + 58) else None
  }

  /** flags & ~0x13f == 0: only the six low bits and bit eight. */
  predicate Flat(flags: nat) { flags < 512 && (flags / 64) % 4 == 0 }

  datatype Packet = Packet(opcode: nat, body: Bytes)

  /** Whether the loop goes on to the next packet, reads this one, or raises. */
  datatype Choice = Skip | Read | Raise

  const ONE_BLOCK: Bytes := [1, 0, 0, 0, 0]

  function Chosen(p: Packet, guid: nat, create: bool): (choice: Choice)
    ensures choice.Read? ==> |p.body| > 6
  {
    if p.opcode != 0xa9 || Slice(p.body, 0, 5) != ONE_BLOCK then Skip
    else if |p.body| <= 5 then Raise
    else if (if create then p.body[5] != 2 && p.body[5] != 3 else p.body[5] != 0) then Skip
    else
      var packed := PackedGuid(p.body, 6);
      if packed.None? then Raise else if packed.value == guid then Read else Skip
  }

  /** The fields after one packet that was chosen; Failed also where the body does not end with the last value. */
  function ReadPacket(body: Bytes, create: bool, fields: Fields): Reading
    requires |body| > 6
  {
    var offset := 7 + Ones(body[6]);
    var start := if create then BlockEnd(body, offset) else Some(offset);
    if start.None? || start.value >= |body| then Failed
    else
      var words: nat := body[start.value];
      var mask := Little(Slice(body, start.value + 1, words * 4));
      var r := ReadFields(mask, 0, words * 32, body, start.value + 1 + words * 4, fields);
      if r.Failed? || r.next != |body| then Failed else r
  }

  function ValuesFrom(packets: seq<Packet>, guid: nat, create: bool, fields: Fields): Option<Fields> {
    if |packets| == 0 then Some(fields)
    else
      match Chosen(packets[0], guid, create)
      case Skip => ValuesFrom(packets[1..], guid, create, fields)
      case Raise => None
      case Read =>
        var r := ReadPacket(packets[0].body, create, fields);
        if r.Failed? then None else ValuesFrom(packets[1..], guid, create, r.fields)
  }

  // ----- the loops

  method ReadMask(mask: nat, count: nat, body: Bytes, start: nat, before: Fields) returns (r: Reading)
    ensures r == ReadFields(mask, 0, count, body, start, before)
  {
    var index: nat, offset: nat := 0, start;
    var fields: Fields := before;
    while index < count
      invariant index <= count
      invariant ReadFields(mask, 0, count, body, start, before) == ReadFields(mask, index, count, body, offset, fields)
    {
      if Bit(mask, index) {
        if offset + 4 > |body| {
          return Failed;
        }
        fields := fields[index := Word(body, offset)];
        offset := offset + 4;
      }
      index := index + 1;
    }
    r := Reading(fields, offset);
  }

  method ReadBody(body: Bytes, create: bool, before: Fields) returns (r: Reading)
    requires |body| > 6
    ensures r == ReadPacket(body, create, before)
  {
    var offset := 7 + Ones(body[6]);
    if create {
      var end := BlockEnd(body, offset);
      if end.None? {
        return Failed;
      }
      offset := end.value;
    }
    if offset >= |body| {
      return Failed;
    }
    var words: nat := body[offset];
    var mask := Little(Slice(body, offset + 1, words * 4));
    offset := offset + 1 + words * 4;
    r := ReadMask(mask, words * 32, body, offset, before);
    if r.Reading? && r.next != |body| {
      r := Failed;
    }
  }

  method Values(packets: seq<Packet>, guid: nat, create: bool) returns (r: Option<Fields>)
    ensures r == ValuesFrom(packets, guid, create, map[])
  {
    var fields: Fields := map[];
    for i := 0 to |packets|
      invariant ValuesFrom(packets, guid, create, map[]) == ValuesFrom(packets[i..], guid, create, fields)
    {
      assert packets[i..][1..] == packets[i + 1..];
      var choice := Chosen(packets[i], guid, create);
      if choice.Raise? {
        return None;
      }
      if choice.Read? {
        var read := ReadBody(packets[i].body, create, fields);
        if read.Failed? {
          return None;
        }
        fields := read.fields;
      }
    }
    r := Some(fields);
  }

  // ----- encoded updates

  function BitsOf(fields: Fields, count: nat): (bits: seq<bool>)
    ensures |bits| == count && forall k | 0 <= k < count :: bits[k] <==> k in fields
  {
    seq(count, k requires 0 <= k < count => k in fields)
  }

  /** The values from an index on, in the order of their indexes. */
  function EncodeValues(fields: Fields, index: nat, count: nat): Bytes
    requires index <= count
    decreases count - index
  {
    if index == count then []
    else (if index in fields then LittleBytes(fields[index], 4) else []) + EncodeValues(fields, index + 1, count)
  }

  /** A number of mask words, the mask, and the values. */
  function EncodeMask(fields: Fields, words: Byte): Bytes {
    [words] + LittleBytes(MaskOf(BitsOf(fields, 32 * words)), 4 * words) + EncodeValues(fields, 0, 32 * words)
  }

  /** Fields fit under the mask words, and values in four bytes. */
  predicate Fits(fields: Fields, words: Byte) {
    forall k | k in fields :: k < 32 * words && fields[k] < Power256(4)
  }

  function Overridden(before: Fields, fields: Fields, index: nat, count: nat): Fields
    requires index <= count
    decreases count - index
  {
    if index == count then before
    else Overridden(if index in fields then before[index := fields[index]] else before, fields, index + 1, count)
  }

  lemma {:induction false} OverriddenIs(before: Fields, fields: Fields, index: nat, count: nat)
    requires index <= count
    ensures forall k :: k in Overridden(before, fields, index, count) <==> k in before || (k in fields && index <= k < count)
    ensures forall k | k in Overridden(before, fields, index, count) ::
      Overridden(before, fields, index, count)[k] == if k in fields && index <= k < count then fields[k] else before[k]
    decreases count - index
  {
    if index < count {
      OverriddenIs(if index in fields then before[index := fields[index]] else before, fields, index + 1, count);
    }
  }

  lemma WordRoundTrip(body: Bytes, offset: nat, value: nat)
    requires value < Power256(4) && At(body, offset, LittleBytes(value, 4))
    ensures offset + 4 <= |body| && Word(body, offset) == value
  {
    assert body[offset..offset + 4] == LittleBytes(value, 4);
    LittleRoundTrip(value, 4);
  }

  lemma {:induction false} FieldsRoundTrip(fields: Fields, mask: nat, index: nat, count: nat, body: Bytes, offset: nat, before: Fields)
    requires index <= count
    requires forall k | k in fields :: fields[k] < Power256(4)
    requires forall k: nat | k < count :: Bit(mask, k) <==> k in fields
    requires At(body, offset, EncodeValues(fields, index, count))
    ensures ReadFields(mask, index, count, body, offset, before) ==
            Reading(Overridden(before, fields, index, count), offset + |EncodeValues(fields, index, count)|)
    decreases count - index
  {
    if index < count {
      if index in fields {
        AtParts(body, offset, LittleBytes(fields[index], 4), EncodeValues(fields, index + 1, count));
        WordRoundTrip(body, offset, fields[index]);
        FieldsRoundTrip(fields, mask, index + 1, count, body, offset + 4, before[index := fields[index]]);
      } else {
        assert EncodeValues(fields, index, count) == EncodeValues(fields, index + 1, count);
        FieldsRoundTrip(fields, mask, index + 1, count, body, offset, before);
      }
    }
  }

  lemma MaskRoundTrip(fields: Fields, words: Byte)
    ensures var mask := MaskOf(BitsOf(fields, 32 * words));
      && Little(LittleBytes(mask, 4 * words)) == mask
      && forall k: nat | k < 32 * words :: Bit(mask, k) <==> k in fields
  {
    var bits := BitsOf(fields, 32 * words);
    MaskSize(bits);
    BytesOfBits(4 * words);
    assert 8 * (4 * words) == 32 * words;
    LittleRoundTrip(MaskOf(bits), 4 * words);
    forall k: nat | k < 32 * words ensures Bit(MaskOf(bits), k) <==> k in fields {
      MaskBits(bits, k);
    }
  }

  /** What stands between the packed GUID and the mask words. */
  datatype Header =
    | Plain
    | ItemCreate(kind: Byte, objectType: Byte, rest: Bytes)
    | ObjectCreate(kind: Byte, rest: Bytes)
    | PlayerCreate(kind: Byte, self: Byte, flags: nat, rest: Bytes)

  datatype Update = Update(raw: Bytes, header: Header, words: Byte, fields: Fields)

  predicate HeaderOk(h: Header, create: bool) {
    create == !h.Plain? && (create ==> h.kind == 2 || h.kind == 3) &&
    match h
    case Plain => true
    case ItemCreate(_, objectType, rest) => (objectType == 1 || objectType == 2) && |rest| == 4
    case ObjectCreate(_, rest) => |rest| == 20
    case PlayerCreate(_, self, flags, rest) => (self == 0x70 || self == 0x71) && Flat(flags) && |rest| == 52
  }

  function KindOf(h: Header): Byte { if h.Plain? then 0 else h.kind }

  function EncodeHeader(h: Header): Bytes {
    match h
    case Plain => []
    case ItemCreate(_, objectType, rest) => [objectType, 0x10] + rest
    case ObjectCreate(_, rest) => [5, 0x50] + rest
    case PlayerCreate(_, self, flags, rest) => [4, self] + (LittleBytes(flags, 4) + rest)
  }

  predicate UpdateOk(u: Update, create: bool) {
    |u.raw| == 8 && HeaderOk(u.header, create) && Fits(u.fields, u.words)
  }

  function EncodeUpdate(u: Update): Bytes
    requires |u.raw| == 8
  {
    ONE_BLOCK + ([KindOf(u.header)] + (Packed(u.raw) + (EncodeHeader(u.header) + EncodeMask(u.fields, u.words))))
  }

  lemma HeaderRoundTrip(h: Header, body: Bytes, offset: nat)
    requires HeaderOk(h, true) && At(body, offset, EncodeHeader(h))
    ensures BlockEnd(body, offset) == Some(offset + |EncodeHeader(h)|)
  {
    var block := EncodeHeader(h);
    assert body[offset] == block[0] && body[offset + 1] == block[1];
    if h.PlayerCreate? {
      var rest := LittleBytes(h.flags, 4) + h.rest;
      AtParts(body, offset, [4, h.self], rest);
      AtParts(body, offset + 2, LittleBytes(h.flags, 4), h.rest);
      assert Power256(4) > 512;
      WordRoundTrip(body, offset + 2, h.flags);
    }
  }

  lemma MaskStands(words: Byte, mask: Bytes, values: Bytes, body: Bytes, start: nat)
    requires |mask| == 4 * words && At(body, start, [words] + mask + values)
    ensures start < |body| && body[start] == words
    ensures Slice(body, start + 1, words * 4) == mask && At(body, start + 1 + words * 4, values)
  {
    AtParts(body, start, [words] + mask, values);
    AtFirst(body, start, words, mask);
  }

  lemma AllOverridden(before: Fields, fields: Fields, words: Byte)
    requires Fits(fields, words)
    ensures Overridden(before, fields, 0, 32 * words) == before + fields
  {
    OverriddenIs(before, fields, 0, 32 * words);
  }

  lemma EncodedMask(fields: Fields, words: Byte, body: Bytes, start: nat, before: Fields)
    requires Fits(fields, words) && At(body, start, EncodeMask(fields, words))
    ensures start < |body| && body[start] == words
    ensures ReadFields(Little(Slice(body, start + 1, words * 4)), 0, words * 32, body, start + 1 + words * 4, before) ==
            Reading(before + fields, start + |EncodeMask(fields, words)|)
  {
    var number := MaskOf(BitsOf(fields, 32 * words));
    var mask, values := LittleBytes(number, 4 * words), EncodeValues(fields, 0, 32 * words);
    MaskStands(words, mask, values, body, start);
    MaskRoundTrip(fields, words);
    FieldsRoundTrip(fields, number, 0, 32 * words, body, start + 1 + words * 4, before);
    AllOverridden(before, fields, words);
  }

  lemma EncodedParts(body: Bytes, front: Bytes, kind: Byte, packed: Bytes, header: Bytes, mask: Bytes)
    requires |front| == 5 && body == front + ([kind] + (packed + (header + mask)))
    ensures Slice(body, 0, 5) == front && |body| == 6 + |packed| + |header| + |mask| && body[5] == kind
    ensures At(body, 6, packed) && At(body, 6 + |packed|, header) && At(body, 6 + |packed| + |header|, mask)
  {
    var inner := header + mask;
    var outer := packed + inner;
    assert At(body, 0, front + ([kind] + outer));
    AtParts(body, 0, front, [kind] + outer);
    AtFirst(body, 5, kind, outer);
    AtParts(body, 6, packed, inner);
    AtParts(body, 6 + |packed|, header, mask);
  }

  lemma ReadWhole(body: Bytes, create: bool, before: Fields, header: nat, mask: nat, words: nat, result: Fields)
    requires |body| > 6 && header == 7 + Ones(body[6]) && mask < |body| && body[mask] == words
    requires if create then BlockEnd(body, header) == Some(mask) else mask == header
    requires ReadFields(Little(Slice(body, mask + 1, words * 4)), 0, words * 32, body, mask + 1 + words * 4, before) ==
             Reading(result, |body|)
    ensures ReadPacket(body, create, before) == Reading(result, |body|)
  {
  }

  lemma ChosenIs(body: Bytes, guid: nat, create: bool, kind: Byte)
    requires Slice(body, 0, 5) == ONE_BLOCK && |body| > 6 && body[5] == kind && PackedGuid(body, 6) == Some(guid)
    requires if create then kind == 2 || kind == 3 else kind == 0
    ensures Chosen(Packet(0xa9, body), guid, create) == Read
  {
  }

  /** The facts about the parts of a body, put together. */
  lemma PartsAreRead(body: Bytes, guid: nat, kind: Byte, create: bool, before: Fields, fields: Fields, words: Byte,
                     header: nat, mask: nat)
    requires Slice(body, 0, 5) == ONE_BLOCK && |body| > 6 && body[5] == kind
    requires PackedGuid(body, 6) == Some(guid) && header == 7 + Ones(body[6])
    requires if create then kind == 2 || kind == 3 else kind == 0
    requires if create then BlockEnd(body, header) == Some(mask) else mask == header
    requires Fits(fields, words) && At(body, mask, EncodeMask(fields, words)) && mask + |EncodeMask(fields, words)| == |body|
    ensures Chosen(Packet(0xa9, body), guid, create) == Read
    ensures ReadPacket(body, create, before) == Reading(before + fields, |body|)
  {
    ChosenIs(body, guid, create, kind);
    EncodedMask(fields, words, body, mask, before);
    ReadWhole(body, create, before, header, mask, words, before + fields);
  }

  lemma HeaderStands(h: Header, create: bool, body: Bytes, offset: nat)
    requires HeaderOk(h, create) && At(body, offset, EncodeHeader(h))
    ensures if create then BlockEnd(body, offset) == Some(offset + |EncodeHeader(h)|) else |EncodeHeader(h)| == 0
    ensures if create then KindOf(h) == 2 || KindOf(h) == 3 else KindOf(h) == 0
  {
    if create {
      HeaderRoundTrip(h, body, offset);
    }
  }

  /** An encoded update is read by whoever waits for its GUID, to its last byte, and its fields override older ones. */
  lemma UpdateRoundTrip(u: Update, create: bool, before: Fields)
    requires UpdateOk(u, create)
    ensures Chosen(Packet(0xa9, EncodeUpdate(u)), Little(u.raw), create) == Read
    ensures |EncodeUpdate(u)| > 6
    ensures ReadPacket(EncodeUpdate(u), create, before) == Reading(before + u.fields, |EncodeUpdate(u)|)
  {
    var body, packed, header := EncodeUpdate(u), Packed(u.raw), EncodeHeader(u.header);
    EncodedParts(body, ONE_BLOCK, KindOf(u.header), packed, header, EncodeMask(u.fields, u.words));
    PackedRoundTrip(u.raw, body, 6);
    HeaderStands(u.header, create, body, 6 + |packed|);
    PartsAreRead(body, Little(u.raw), KindOf(u.header), create, before, u.fields, u.words,
                 6 + |packed|, 6 + |packed| + |header|);
  }

  /** A packet the client waits for, or one it passes over. */
  datatype Item = Mine(update: Update) | Other(packet: Packet)

  predicate ItemsOk(items: seq<Item>, guid: nat, create: bool) {
    forall i | 0 <= i < |items| ::
      match items[i]
      case Mine(update) => UpdateOk(update, create) && Little(update.raw) == guid
      case Other(packet) => Chosen(packet, guid, create) == Skip
  }

  function PacketOf(item: Item): Packet
    requires item.Mine? ==> |item.update.raw| == 8
  {
    if item.Mine? then Packet(0xa9, EncodeUpdate(item.update)) else item.packet
  }

  function PacketsOf(items: seq<Item>): seq<Packet>
    requires forall i | 0 <= i < |items| :: items[i].Mine? ==> |items[i].update.raw| == 8
  {
    if |items| == 0 then [] else [PacketOf(items[0])] + PacketsOf(items[1..])
  }

  /** All updates one over the other. */
  function Merged(items: seq<Item>, before: Fields): Fields {
    if |items| == 0 then before
    else Merged(items[1..], if items[0].Mine? then before + items[0].update.fields else before)
  }

  /** Decoding gives back the encoded fields, later updates overriding earlier ones, whatever other packets come between. */
  lemma {:induction false} ValuesRoundTrip(items: seq<Item>, guid: nat, create: bool, before: Fields)
    requires ItemsOk(items, guid, create)
    ensures ValuesFrom(PacketsOf(items), guid, create, before) == Some(Merged(items, before))
    decreases |items|
  {
    if |items| > 0 {
      var rest := if items[0].Mine? then before + items[0].update.fields else before;
      ValuesRoundTrip(items[1..], guid, create, rest);
      assert PacketsOf(items)[1..] == PacketsOf(items[1..]);
      if items[0].Mine? {
        UpdateRoundTrip(items[0].update, create, before);
      }
    }
  }
}
