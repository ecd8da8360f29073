/** Two walkers over WebAssembly binaries share this: LEB128 numbers, and the import lister. */
module Wasm {
  import opened Octets

  // ----- what a read gives; the first form is where the source raises

  /** A number and the offset after it. */
  datatype Number = Short | Number(value: nat, next: nat)

  datatype Text = NoText | Text(text: string, next: nat)
  datatype End = NoEnd | End(next: nat)
  datatype Pair = Pair(mod: string, field: string)
  datatype Entry = NoEntry | Entry(pair: Pair, next: nat)
  datatype Entries = NoEntries | Entries(pairs: seq<Pair>, next: nat)
  datatype Listing = Raises | Listing(pairs: seq<Pair>)

  // ----- numbers

  /** Short is the IndexError at the end of the data. */
  function Leb128(data: Bytes, offset: nat): (r: Number)
    ensures r.Number? ==> offset < r.next <= |data|
    decreases |data| - offset
  {
    if offset >= |data| then Short
    else if data[offset] < 128 then Number(data[offset], offset + 1)
    else
      var high := Leb128(data, offset + 1);
      if high.Short? then Short else Number(data[offset] % 128 + 128 * high.value, high.next)
  }

  /** A value whose higher bits are still to be read, at the given scale. */
  ghost predicate Above(whole: Number, value: int, scale: int, high: Number) {
    if high.Short? then whole.Short? else whole.Number? && whole.value == value + scale * high.value && whole.next == high.next
  }

  lemma OneMoreByte(whole: Number, data: Bytes, offset: nat, value: int, scale: int)
    requires offset < |data| && Above(whole, value, scale, Leb128(data, offset))
    ensures var next := value + (data[offset] % 128) * scale;
      if data[offset] < 128 then whole.Number? && whole.value == next && whole.next == offset + 1
      else Above(whole, next, scale * 128, Leb128(data, offset + 1))
  {
    var rest := Leb128(data, offset + 1);
    if data[offset] >= 128 && rest.Number? {
      var low := data[offset] % 128;
      assert value + scale * (low + 128 * rest.value) == (value + low * scale) + (scale * 128) * rest.value;
    }
  }

  lemma FreeBits(value: int, low: nat, shift: nat)
    requires 0 <= value < Pow2(shift) && low < 128
    ensures Pow2(shift + 7) == Pow2(shift) * 128
    ensures 0 <= value + low * Pow2(shift) < Pow2(shift + 7)
  {
    Pow2Sum(shift, 7);
    assert Pow2(7) == 128;
    assert 0 <= low * Pow2(shift) <= 127 * Pow2(shift);
  }

  /** The loop of the source. Bits from the shift up are still zero, so the or is a sum. */
  method ReadLeb128(data: Bytes, start: nat) returns (r: Number)
    ensures r == Leb128(data, start)
  {
    var value: int, shift, offset := 0, 0, start;
    while true
      invariant start <= offset
      invariant 0 <= value < Pow2(shift)
      invariant Above(Leb128(data, start), value, Pow2(shift), Leb128(data, offset))
      decreases |data| - offset
    {
      if offset >= |data| {
        return Short;
      }
      var byte := data[offset];
      OneMoreByte(Leb128(data, start), data, offset, value, Pow2(shift));
      FreeBits(value, byte % 128, shift);
      offset := offset + 1;
      value := value + (byte % 128) * Pow2(shift);
      shift := shift + 7;
      if byte < 128 {
        return Number(value, offset);
      }
    }
  }

  // ----- names and descriptors

  /** bytes.decode: the text of UTF-8 bytes, or the error. */
  datatype Decoded = Undecodable | Decoded(text: string)
  type Decoder = Bytes -> Decoded

  function NameAt(decode: Decoder, data: Bytes, offset: nat): Text {
    var length := Leb128(data, offset);
    if length.Short? then NoText
    else
      var decoded := decode(Slice(data, length.next, length.value));
      if decoded.Undecodable? then NoText else Text(decoded.text, length.next + length.value)
  }

  function LebEnd(data: Bytes, offset: nat): End {
    var number := Leb128(data, offset);
    if number.Short? then NoEnd else End(number.next)
  }

  /** After the flags and one number, or two when the low bit of the flags is set. */
  function LimitsEnd(data: Bytes, offset: nat): End {
    if offset >= |data| then NoEnd
    else
      var min := LebEnd(data, offset + 1);
      if min.End? && data[offset] % 2 == 1 then LebEnd(data, min.next) else min
  }

  /** The offset after a descriptor of the given kind; NoEnd is an unknown kind or the end of the data. */
  function SkipKind(data: Bytes, offset: nat, kind: int): End
    decreases if kind == 1 then 1 else 0
  {
    if kind == 0 then LebEnd(data, offset)
    else if kind == 1 then SkipKind(data, offset + 1, 2)
    else if kind == 2 then LimitsEnd(data, offset)
    else if kind == 3 then End(offset + 2)
    else if kind == 4 then LebEnd(data, offset + 1)
    else NoEnd
  }

  function SkipImportKind(data: Bytes, offset: nat): End {
    if offset >= |data| then NoEnd else SkipKind(data, offset + 1, data[offset])
  }

  function ImportEntry(decode: Decoder, data: Bytes, offset: nat): Entry {
    var mod := NameAt(decode, data, offset);
    if mod.NoText? then NoEntry
    else
      var field := NameAt(decode, data, mod.next);
      if field.NoText? then NoEntry
      else
        var end := SkipImportKind(data, field.next);
        if end.NoEnd? then NoEntry else Entry(Pair(mod.text, field.text), end.next)
  }

  // ----- sections

  const IMPORT_SECTION: Byte := 2

  /** Reads the import at an offset. */
  type ImportReader = nat -> Entry

  function Before(found: seq<Pair>, r: Entries): Entries {
    if r.NoEntries? then NoEntries else Entries(found + r.pairs, r.next)
  }

  function Repeat(read: ImportReader, offset: nat, count: nat): Entries
    decreases count
  {
    if count == 0 then Entries([], offset)
    else
      var entry := read(offset);
      if entry.NoEntry? then NoEntries else Before([entry.pair], Repeat(read, entry.next, count - 1))
  }

  function ImportSection(read: ImportReader, data: Bytes, start: nat): Listing {
    var count := Leb128(data, start);
    if count.Short? then Raises
    else
      var entries := Repeat(read, count.next, count.value);
      if entries.NoEntries? then Raises else Listing(entries.pairs)
  }

  /** The pairs of the section at an offset, and the offset of the next section. */
  function SectionAt(read: ImportReader, data: Bytes, offset: nat): Entries
    requires offset < |data|
  {
    var size := Leb128(data, offset + 1);
    if size.Short? then NoEntries
    else if data[offset] != IMPORT_SECTION then Entries([], size.next + size.value)
    else
      var section := ImportSection(read, data, size.next);
      if section.Raises? then NoEntries else Entries(section.pairs, size.next + size.value)
  }

  /** Reads the section at an offset. */
  type SectionReader = nat -> Entries

  function Then(found: seq<Pair>, r: Listing): Listing {
    if r.Raises? then Raises else Listing(found + r.pairs)
  }

  /** Sections one after the other up to the end; a section never ends before it starts. */
  function ImportSections(read: SectionReader, end: nat, offset: nat): Listing
    decreases end - offset
  {
    if offset >= end then Listing([])
    else
      var section := read(offset);
      if section.NoEntries? || section.next <= offset then Raises
      else Then(section.pairs, ImportSections(read, end, section.next))
  }

  function Importer(decode: Decoder, data: Bytes): ImportReader {
    (offset: nat) => ImportEntry(decode, data, offset)
  }

  function Sectioner(decode: Decoder, data: Bytes): SectionReader {
    (offset: nat) => if offset < |data| then SectionAt(Importer(decode, data), data, offset) else NoEntries
  }

  const MAGIC: Bytes := [0, 97, 115, 109]

  /** The (module, field) pairs of a binary. */
  function ImportsOf(decode: Decoder, data: Bytes): Listing {
    if Slice(data, 0, 4) != MAGIC then Raises else ImportSections(Sectioner(decode, data), |data|, 8)
  }

  // ----- the loops

  lemma BeforeTwice(a: seq<Pair>, b: seq<Pair>, r: Entries)
    ensures Before(a, Before(b, r)) == Before(a + b, r)
    ensures Before([], r) == r
  {
    if r.Entries? {
      assert a + (b + r.pairs) == (a + b) + r.pairs && [] + r.pairs == r.pairs;
    }
  }

  method Collect(read: ImportReader, start: nat, count: nat) returns (r: Entries)
    ensures r == Repeat(read, start, count)
  {
    var offset, found: seq<Pair> := start, [];
    BeforeTwice([], [], Repeat(read, start, count));
    for i := 0 to count
      invariant Repeat(read, start, count) == Before(found, Repeat(read, offset, count - i))
    {
      var entry := read(offset);
      if entry.NoEntry? {
        return NoEntries;
      }
      BeforeTwice(found, [entry.pair], Repeat(read, entry.next, count - i - 1));
      found := found + [entry.pair];
      offset := entry.next;
    }
    assert found + [] == found;
    r := Entries(found, offset);
  }

  method ReadSection(read: ImportReader, data: Bytes, offset: nat) returns (r: Entries)
    requires offset < |data|
    ensures r == SectionAt(read, data, offset)
  {
    var size := ReadLeb128(data, offset + 1);
    if size.Short? {
      return NoEntries;
    }
    if data[offset] == IMPORT_SECTION {
      var count := ReadLeb128(data, size.next);
      if count.Short? {
        return NoEntries;
      }
      var entries := Collect(read, count.next, count.value);
      return if entries.NoEntries? then NoEntries else Entries(entries.pairs, size.next + size.value);
    }
    r := Entries([], size.next + size.value);
  }

  lemma ThenTwice(a: seq<Pair>, b: seq<Pair>, r: Listing)
    ensures Then(a, Then(b, r)) == Then(a + b, r)
    ensures Then([], r) == r
  {
    if r.Listing? {
      assert a + (b + r.pairs) == (a + b) + r.pairs && [] + r.pairs == r.pairs;
    }
  }

  method Imports(decode: Decoder, data: Bytes) returns (r: Listing)
    ensures r == ImportsOf(decode, data)
  {
    if Slice(data, 0, 4) != MAGIC {
      return Raises;
    }
    var offset, found: seq<Pair> := 8, [];
    ghost var read := Sectioner(decode, data);
    ThenTwice([], [], ImportSections(read, |data|, offset));
    while offset < |data|
      invariant ImportSections(read, |data|, 8) == Then(found, ImportSections(read, |data|, offset))
    {
      var section := ReadSection(Importer(decode, data), data, offset);
      assert section == read(offset);
      if section.NoEntries? {
        return Raises;
      }
      ThenTwice(found, section.pairs, ImportSections(read, |data|, section.next));
      found := found + section.pairs;
      offset := section.next;
    }
    assert found + [] == found;
    r := Listing(found);
  }

  // ----- lossless encodings of a module

  type Digit = x: int | 0 <= x < 128

  /** A LEB128 number as its base 128 digits, lowest first; high zeros pad it. */
  type Leb = seq<Digit>

  function LebValue(leb: Leb): nat {
    if |leb| == 0 then 0 else leb[0] + 128 * LebValue(leb[1..])
  }

  function EncodeLeb(leb: Leb): (s: Bytes)
    ensures |s| == |leb|
  {
    if |leb| == 0 then []
    else
      var low: int := leb[0];
      if |leb| == 1 then [low] else [128 + low] + EncodeLeb(leb[1..])
  }

  /** The digits of a number, with some padding. */
  function DigitsOf(n: nat, padding: nat): (leb: Leb)
    ensures |leb| > 0 && LebValue(leb) == n
    decreases n + padding
  {
    if n < 128 && padding == 0 then [n]
    else
      var rest := DigitsOf(n / 128, if n < 128 then padding - 1 else padding);
      assert ([n % 128] + rest)[1..] == rest;
      [n % 128] + rest
  }

  /** Optional maximum, present exactly when the low bit of the flags is set. */
  datatype Limits = Limits(flags: Byte, min: Leb, max: Leb)

  /** A value type: one byte, or a reference that names its heap type. */
  datatype Type = Plain(code: Byte) | Reference(nullable: bool, heap: Leb)

  datatype Description =
    | Func(typeIndex: Leb)
    | TableImport(refType: Type, limits: Limits)
    | MemoryImport(limits: Limits)
    | GlobalImport(valType: Type, mutability: Byte)
    | TagImport(attribute: Byte, typeIndex: Leb)

  datatype Name = Name(length: Leb, bytes: Bytes)
  datatype Import = Import(mod: Name, field: Name, description: Description)

  datatype Section =
    | ImportsSection(size: Leb, count: Leb, imports: seq<Import>)
    | OtherSection(id: Byte, size: Leb, body: Bytes)

  datatype Module = Module(version: Bytes, sections: seq<Section>)

  function EncodeLimits(limits: Limits): Bytes {
    [limits.flags] + EncodeLeb(limits.min) + if limits.flags % 2 == 1 then EncodeLeb(limits.max) else []
  }

  function EncodeType(t: Type): Bytes {
    match t
    case Plain(code) => [code]
    case Reference(nullable, heap) => [if nullable then 0x63 else 0x64] + EncodeLeb(heap)
  }

  function EncodeDescription(d: Description): Bytes {
    match d
    case Func(typeIndex) => [0] + EncodeLeb(typeIndex)
    case TableImport(refType, limits) => [1] + (EncodeType(refType) + EncodeLimits(limits))
    case MemoryImport(limits) => [2] + EncodeLimits(limits)
    case GlobalImport(valType, mutability) => [3] + (EncodeType(valType) + [mutability])
    case TagImport(attribute, typeIndex) => [4, attribute] + EncodeLeb(typeIndex)
  }

  function EncodeName(name: Name): Bytes {
    EncodeLeb(name.length) + name.bytes
  }

  function EncodeImport(i: Import): Bytes {
    EncodeName(i.mod) + EncodeName(i.field) + EncodeDescription(i.description)
  }

  function EncodeImports(imports: seq<Import>): Bytes {
    if |imports| == 0 then [] else EncodeImport(imports[0]) + EncodeImports(imports[1..])
  }

  function SectionBody(section: Section): Bytes {
    match section
    case ImportsSection(_, count, imports) => EncodeLeb(count) + EncodeImports(imports)
    case OtherSection(_, _, body) => body
  }

  function SectionId(section: Section): Byte {
    if section.ImportsSection? then IMPORT_SECTION else section.id
  }

  function Frame(id: Byte, size: Leb, body: Bytes): Bytes {
    [id] + EncodeLeb(size) + body
  }

  function EncodeSection(section: Section): Bytes {
    Frame(SectionId(section), section.size, SectionBody(section))
  }

  function EncodeSections(sections: seq<Section>): Bytes {
    if |sections| == 0 then [] else EncodeSection(sections[0]) + EncodeSections(sections[1..])
  }

  function Encode(m: Module): Bytes {
    MAGIC + m.version + EncodeSections(m.sections)
  }

  // ----- what makes an encoding lossless

  predicate LebOk(leb: Leb) { |leb| > 0 }

  predicate LebIs(leb: Leb, n: nat) { |leb| > 0 && LebValue(leb) == n }

  predicate LimitsOk(limits: Limits) { LebOk(limits.min) && LebOk(limits.max) }

  predicate TypeOk(t: Type) { t.Reference? ==> LebOk(t.heap) }

  /** The flags that are in use are far below 128; with a plain type the others are read too. */
  predicate DescriptionOk(d: Description) {
    match d
    case Func(typeIndex) => LebOk(typeIndex)
    case TableImport(refType, limits) => LimitsOk(limits) && TypeOk(refType) && (refType.Reference? ==> limits.flags < 128)
    case MemoryImport(limits) => LimitsOk(limits)
    case GlobalImport(valType, _) => TypeOk(valType)
    case TagImport(_, typeIndex) => LebOk(typeIndex)
  }

  /** The descriptors that skipping gets right: the source takes every type for one byte, so of the references only some
      in tables without a maximum come out even. */
  predicate Skipped(d: Description) {
    match d
    case TableImport(Reference(_, heap), limits) => |heap| == 1 && heap[0] % 2 == 1 && limits.flags % 2 == 0
    case GlobalImport(Reference(_, _), _) => false
    case _ => true
  }

  predicate NameOk(decode: Decoder, name: Name) {
    LebIs(name.length, |name.bytes|) && decode(name.bytes).Decoded?
  }

  predicate ImportOk(decode: Decoder, i: Import) {
    NameOk(decode, i.mod) && NameOk(decode, i.field) && DescriptionOk(i.description)
  }

  /** Behind the last import of a section nothing is read. */
  predicate ImportsOk(decode: Decoder, imports: seq<Import>) {
    forall k | 0 <= k < |imports| :: ImportOk(decode, imports[k]) && (k < |imports| - 1 ==> Skipped(imports[k].description))
  }

  predicate SectionOk(decode: Decoder, section: Section) {
    && LebIs(section.size, |SectionBody(section)|)
    && match section
       case ImportsSection(_, count, imports) => LebIs(count, |imports|) && ImportsOk(decode, imports)
       case OtherSection(id, _, _) => id != IMPORT_SECTION
  }

  predicate SectionsOk(decode: Decoder, sections: seq<Section>) {
    |sections| == 0 || (SectionOk(decode, sections[0]) && SectionsOk(decode, sections[1..]))
  }

  predicate ModuleOk(decode: Decoder, m: Module) {
    |m.version| == 4 && SectionsOk(decode, m.sections)
  }

  // ----- what an encoding says

  function PairOf(decode: Decoder, i: Import): Pair
    requires ImportOk(decode, i)
  {
    Pair(decode(i.mod.bytes).text, decode(i.field.bytes).text)
  }

  function PairsOfImports(decode: Decoder, imports: seq<Import>): seq<Pair>
    requires ImportsOk(decode, imports)
  {
    if |imports| == 0 then []
    else [PairOf(decode, imports[0])] + PairsOfImports(decode, imports[1..])
  }

  function PairsOfSection(decode: Decoder, section: Section): seq<Pair>
    requires SectionOk(decode, section)
  {
    if section.ImportsSection? then PairsOfImports(decode, section.imports) else []
  }

  function PairsOf(decode: Decoder, sections: seq<Section>): seq<Pair>
    requires SectionsOk(decode, sections)
  {
    if |sections| == 0 then [] else PairsOfSection(decode, sections[0]) + PairsOf(decode, sections[1..])
  }

  // ----- decoding undoes encoding

  lemma {:induction false} LebRoundTrip(data: Bytes, offset: nat, leb: Leb)
    requires |leb| > 0 && At(data, offset, EncodeLeb(leb))
    ensures Leb128(data, offset) == Number(LebValue(leb), offset + |leb|)
    decreases |leb|
  {
    if |leb| == 1 {
      assert EncodeLeb(leb)[0] == leb[0];
    } else {
      var low: int := leb[0];
      AtFirst(data, offset, 128 + low, EncodeLeb(leb[1..]));
      LebRoundTrip(data, offset + 1, leb[1..]);
    }
  }

  lemma LimitsRoundTrip(data: Bytes, offset: nat, limits: Limits)
    requires LimitsOk(limits) && At(data, offset, EncodeLimits(limits))
    ensures LimitsEnd(data, offset) == End(offset + |EncodeLimits(limits)|)
  {
    var min, max := EncodeLeb(limits.min), if limits.flags % 2 == 1 then EncodeLeb(limits.max) else [];
    AtParts(data, offset, [limits.flags] + min, max);
    AtFirst(data, offset, limits.flags, min);
    LebRoundTrip(data, offset + 1, limits.min);
    if limits.flags % 2 == 1 {
      LebRoundTrip(data, offset + 1 + |limits.min|, limits.max);
    }
  }

  lemma {:induction false} HeapBytes(data: Bytes, offset: nat, heap: Leb)
    requires LebOk(heap) && At(data, offset, EncodeLeb(heap))
    ensures offset < |data| && data[offset] % 2 == heap[0] % 2
    ensures |heap| > 1 ==> LebEnd(data, offset + 1) == End(offset + |heap|)
  {
    if |heap| > 1 {
      var low: int := heap[0];
      var first: Byte := 128 + low;
      AtFirst(data, offset, first, EncodeLeb(heap[1..]));
      LebRoundTrip(data, offset + 1, heap[1..]);
      assert first % 2 == heap[0] % 2;
    } else {
      assert EncodeLeb(heap)[0] == heap[0];
    }
  }

  lemma LimitsBytes(data: Bytes, at: nat, limits: Limits)
    requires LimitsOk(limits) && limits.flags < 128 && At(data, at, EncodeLimits(limits))
    ensures LebEnd(data, at) == End(at + 1) && LebEnd(data, at + 1) == End(at + 1 + |limits.min|)
  {
    var max := if limits.flags % 2 == 1 then EncodeLeb(limits.max) else [];
    AtParts(data, at, [limits.flags] + EncodeLeb(limits.min), max);
    AtFirst(data, at, limits.flags, EncodeLeb(limits.min));
    LebRoundTrip(data, at + 1, limits.min);
  }

  /** In a table whose type is a reference, the flags are read out of the heap type and the bounds from the flags on. */
  lemma ReferenceTable(data: Bytes, offset: nat, heap: Leb, limits: Limits)
    requires LebOk(heap) && LimitsOk(limits) && limits.flags < 128
    requires At(data, offset, EncodeLeb(heap) + EncodeLimits(limits))
    ensures var at := offset + |heap|;
      LimitsEnd(data, offset) ==
      if |heap| > 1 then End(if heap[0] % 2 == 1 then at + 1 else at)
      else End(if heap[0] % 2 == 1 then at + 1 + |limits.min| else at + 1)
  {
    AtParts(data, offset, EncodeLeb(heap), EncodeLimits(limits));
    HeapBytes(data, offset, heap);
    LimitsBytes(data, offset + |heap|, limits);
  }

  lemma PlainTable(data: Bytes, offset: nat, code: Byte, limits: Limits)
    requires LimitsOk(limits) && At(data, offset, [1] + ([code] + EncodeLimits(limits)))
    ensures SkipImportKind(data, offset) == End(offset + 2 + |EncodeLimits(limits)|)
  {
    AtFirst(data, offset, 1, [code] + EncodeLimits(limits));
    AtFirst(data, offset + 1, code, EncodeLimits(limits));
    LimitsRoundTrip(data, offset + 2, limits);
  }

  lemma TableAt(data: Bytes, offset: nat, first: Byte, heap: Bytes, limits: Bytes)
    requires At(data, offset, [1] + (([first] + heap) + limits))
    ensures SkipImportKind(data, offset) == LimitsEnd(data, offset + 2) && At(data, offset + 2, heap + limits)
  {
    assert ([first] + heap) + limits == [first] + (heap + limits);
    AtFirst(data, offset, 1, [first] + (heap + limits));
    AtFirst(data, offset + 1, first, heap + limits);
  }

  lemma TableRoundTrip(data: Bytes, offset: nat, d: Description)
    requires d.TableImport? && DescriptionOk(d) && At(data, offset, EncodeDescription(d))
    ensures SkipImportKind(data, offset).End?
    ensures SkipImportKind(data, offset).next == offset + |EncodeDescription(d)| <==> Skipped(d)
  {
    match d.refType
    case Plain(code) =>
      PlainTable(data, offset, code, d.limits);
    case Reference(nullable, heap) =>
      TableAt(data, offset, if nullable then 0x63 else 0x64, EncodeLeb(heap), EncodeLimits(d.limits));
      ReferenceTable(data, offset + 2, heap, d.limits);
  }

  /** Skipping never fails on a descriptor, and consumes it and nothing else exactly when its types come out even. */
  lemma DescriptionRoundTrip(data: Bytes, offset: nat, d: Description)
    requires DescriptionOk(d) && At(data, offset, EncodeDescription(d))
    ensures SkipImportKind(data, offset).End?
    ensures SkipImportKind(data, offset).next == offset + |EncodeDescription(d)| <==> Skipped(d)
  {
    match d
    case Func(typeIndex) =>
      AtFirst(data, offset, 0, EncodeLeb(typeIndex));
      LebRoundTrip(data, offset + 1, typeIndex);
    case TableImport(_, _) =>
      TableRoundTrip(data, offset, d);
    case MemoryImport(limits) =>
      AtFirst(data, offset, 2, EncodeLimits(limits));
      LimitsRoundTrip(data, offset + 1, limits);
    case GlobalImport(valType, mutability) =>
      AtFirst(data, offset, 3, EncodeType(valType) + [mutability]);
    case TagImport(attribute, typeIndex) =>
      assert [4, attribute] + EncodeLeb(typeIndex) == [4] + ([attribute] + EncodeLeb(typeIndex));
      AtFirst(data, offset, 4, [attribute] + EncodeLeb(typeIndex));
      AtFirst(data, offset + 1, attribute, EncodeLeb(typeIndex));
      LebRoundTrip(data, offset + 2, typeIndex);
  }

  lemma NameRoundTrip(decode: Decoder, data: Bytes, offset: nat, name: Name)
    requires NameOk(decode, name) && At(data, offset, EncodeName(name))
    ensures NameAt(decode, data, offset) == Text(decode(name.bytes).text, offset + |EncodeName(name)|)
  {
    AtParts(data, offset, EncodeLeb(name.length), name.bytes);
    LebRoundTrip(data, offset, name.length);
    assert Slice(data, offset + |name.length|, |name.bytes|) == name.bytes;
  }

  lemma EntryIs(decode: Decoder, data: Bytes, offset: nat, mod: Text, field: Text, end: nat)
    requires mod.Text? && field.Text?
    requires NameAt(decode, data, offset) == mod && NameAt(decode, data, mod.next) == field
    requires SkipImportKind(data, field.next) == End(end)
    ensures ImportEntry(decode, data, offset) == Entry(Pair(mod.text, field.text), end)
  {
  }

  lemma NamesRoundTrip(decode: Decoder, data: Bytes, offset: nat, mod: Name, field: Name, description: Bytes)
    requires NameOk(decode, mod) && NameOk(decode, field)
    requires At(data, offset, EncodeName(mod) + EncodeName(field) + description)
    ensures var middle := offset + |EncodeName(mod)|; var behind := middle + |EncodeName(field)|;
      && NameAt(decode, data, offset) == Text(decode(mod.bytes).text, middle)
      && NameAt(decode, data, middle) == Text(decode(field.bytes).text, behind)
      && At(data, behind, description)
  {
    AtParts(data, offset, EncodeName(mod) + EncodeName(field), description);
    AtParts(data, offset, EncodeName(mod), EncodeName(field));
    NameRoundTrip(decode, data, offset, mod);
    NameRoundTrip(decode, data, offset + |EncodeName(mod)|, field);
  }

  lemma ImportRoundTrip(decode: Decoder, data: Bytes, offset: nat, i: Import)
    requires ImportOk(decode, i) && At(data, offset, EncodeImport(i))
    ensures ReadAs(decode, ImportEntry(decode, data, offset), offset, i)
  {
    var middle := offset + |EncodeName(i.mod)|;
    var behind := middle + |EncodeName(i.field)|;
    NamesRoundTrip(decode, data, offset, i.mod, i.field, EncodeDescription(i.description));
    DescriptionRoundTrip(data, behind, i.description);
    EntryIs(decode, data, offset, Text(decode(i.mod.bytes).text, middle), Text(decode(i.field.bytes).text, behind),
            SkipImportKind(data, behind).next);
  }

  /** An import is read as its pair, and up to its end if its descriptor is. */
  predicate ReadAs(decode: Decoder, entry: Entry, offset: nat, i: Import)
    requires ImportOk(decode, i)
  {
    && entry.Entry? && entry.pair == PairOf(decode, i)
    && (Skipped(i.description) ==> entry.next == offset + |EncodeImport(i)|)
  }

  /** The reader reads every encoded import. */
  ghost predicate Faithful(decode: Decoder, data: Bytes, read: ImportReader) {
    forall offset: nat, i: Import {:trigger At(data, offset, EncodeImport(i))} ::
      ImportOk(decode, i) && At(data, offset, EncodeImport(i)) ==> ReadAs(decode, read(offset), offset, i)
  }

  lemma ImporterIsFaithful(decode: Decoder, data: Bytes)
    ensures Faithful(decode, data, Importer(decode, data))
  {
    forall offset: nat, i: Import | ImportOk(decode, i) && At(data, offset, EncodeImport(i))
      ensures ReadAs(decode, Importer(decode, data)(offset), offset, i)
    {
      ImportRoundTrip(decode, data, offset, i);
    }
  }

  lemma RepeatOnce(read: ImportReader, offset: nat, count: nat, pair: Pair, next: nat, pairs: seq<Pair>, end: nat)
    requires count > 0 && read(offset) == Entry(pair, next) && Repeat(read, next, count - 1) == Entries(pairs, end)
    ensures Repeat(read, offset, count) == Entries([pair] + pairs, end)
  {
  }

  lemma {:induction false} ImportsAreRead(decode: Decoder, data: Bytes, read: ImportReader, offset: nat, imports: seq<Import>)
    requires Faithful(decode, data, read)
    requires ImportsOk(decode, imports) && At(data, offset, EncodeImports(imports))
    ensures Repeat(read, offset, |imports|).Entries? && Repeat(read, offset, |imports|).pairs == PairsOfImports(decode, imports)
    decreases |imports|
  {
    if |imports| > 0 {
      var entry := read(offset);
      AtParts(data, offset, EncodeImport(imports[0]), EncodeImports(imports[1..]));
      assert ReadAs(decode, entry, offset, imports[0]);
      if |imports| == 1 {
        RepeatOnce(read, offset, 1, entry.pair, entry.next, [], entry.next);
      } else {
        ImportsAreRead(decode, data, read, entry.next, imports[1..]);
        var rest := Repeat(read, entry.next, |imports| - 1);
        RepeatOnce(read, offset, |imports|, entry.pair, entry.next, rest.pairs, rest.next);
      }
    }
  }

  lemma CountedImports(read: ImportReader, data: Bytes, start: nat, first: nat, count: nat, pairs: seq<Pair>)
    requires Leb128(data, start) == Number(count, first)
    requires Repeat(read, first, count).Entries? && Repeat(read, first, count).pairs == pairs
    ensures ImportSection(read, data, start) == Listing(pairs)
  {
  }

  lemma FrameParts(data: Bytes, offset: nat, id: Byte, size: Leb, body: Bytes)
    requires LebIs(size, |body|) && At(data, offset, Frame(id, size, body))
    ensures |Frame(id, size, body)| == 1 + |size| + |body|
    ensures offset < |data| && data[offset] == id
    ensures Leb128(data, offset + 1) == Number(|body|, offset + 1 + |size|)
    ensures At(data, offset + 1 + |size|, body)
  {
    AtParts(data, offset, [id] + EncodeLeb(size), body);
    AtFirst(data, offset, id, EncodeLeb(size));
    LebRoundTrip(data, offset + 1, size);
  }

  lemma CountedBody(data: Bytes, offset: nat, size: Leb, count: Leb, entries: Bytes)
    requires |count| > 0 && LebIs(size, |EncodeLeb(count) + entries|)
    requires At(data, offset, Frame(IMPORT_SECTION, size, EncodeLeb(count) + entries))
    ensures var start := offset + 1 + |size|;
      Leb128(data, start) == Number(LebValue(count), start + |count|) && At(data, start + |count|, entries)
  {
    var start := offset + 1 + |size|;
    FrameParts(data, offset, IMPORT_SECTION, size, EncodeLeb(count) + entries);
    AtParts(data, start, EncodeLeb(count), entries);
    LebRoundTrip(data, start, count);
  }

  lemma FramedSection(read: ImportReader, data: Bytes, offset: nat, id: Byte, size: Leb, body: Bytes, pairs: seq<Pair>)
    requires LebIs(size, |body|) && At(data, offset, Frame(id, size, body))
    requires if id == IMPORT_SECTION then ImportSection(read, data, offset + 1 + |size|) == Listing(pairs) else pairs == []
    ensures offset < |data| && SectionAt(read, data, offset) == Entries(pairs, offset + |Frame(id, size, body)|)
  {
    FrameParts(data, offset, id, size, body);
  }

  /** Wherever the entries stand, the reader reads the pairs. */
  ghost predicate ReadsAll(read: ImportReader, data: Bytes, entries: Bytes, n: nat, pairs: seq<Pair>) {
    forall at: nat | At(data, at, entries) :: Repeat(read, at, n).Entries? && Repeat(read, at, n).pairs == pairs
  }

  lemma ImportsAreDecoded(data: Bytes, read: ImportReader, offset: nat, size: Leb, count: Leb, entries: Bytes, n: nat,
                          pairs: seq<Pair>)
    requires ReadsAll(read, data, entries, n, pairs) && LebIs(count, n) && LebIs(size, |EncodeLeb(count) + entries|)
    requires At(data, offset, Frame(IMPORT_SECTION, size, EncodeLeb(count) + entries))
    ensures ImportSection(read, data, offset + 1 + |size|) == Listing(pairs)
  {
    var start := offset + 1 + |size|;
    CountedBody(data, offset, size, count, entries);
    CountedImports(read, data, start, start + |count|, n, pairs);
  }

  lemma ImportsReadAll(decode: Decoder, data: Bytes, imports: seq<Import>)
    requires ImportsOk(decode, imports)
    ensures ReadsAll(Importer(decode, data), data, EncodeImports(imports), |imports|, PairsOfImports(decode, imports))
  {
    ImporterIsFaithful(decode, data);
    forall at: nat | At(data, at, EncodeImports(imports))
      ensures var r := Repeat(Importer(decode, data), at, |imports|); r.Entries? && r.pairs == PairsOfImports(decode, imports)
    {
      ImportsAreRead(decode, data, Importer(decode, data), at, imports);
    }
  }

  lemma ImportsAreListed(decode: Decoder, data: Bytes, offset: nat, size: Leb, count: Leb, imports: seq<Import>)
    requires ImportsOk(decode, imports) && LebIs(count, |imports|) && LebIs(size, |EncodeLeb(count) + EncodeImports(imports)|)
    requires At(data, offset, Frame(IMPORT_SECTION, size, EncodeLeb(count) + EncodeImports(imports)))
    ensures ImportSection(Importer(decode, data), data, offset + 1 + |size|) == Listing(PairsOfImports(decode, imports))
  {
    ImportsReadAll(decode, data, imports);
    ImportsAreDecoded(data, Importer(decode, data), offset, size, count, EncodeImports(imports), |imports|,
                      PairsOfImports(decode, imports));
  }

  lemma SectionerReads(decode: Decoder, data: Bytes, offset: nat, r: Entries)
    requires offset < |data| && SectionAt(Importer(decode, data), data, offset) == r
    ensures Sectioner(decode, data)(offset) == r
  {
  }

  lemma FrameIsRead(decode: Decoder, data: Bytes, offset: nat, id: Byte, size: Leb, body: Bytes, pairs: seq<Pair>)
    requires LebIs(size, |body|) && At(data, offset, Frame(id, size, body))
    requires if id == IMPORT_SECTION then ImportSection(Importer(decode, data), data, offset + 1 + |size|) == Listing(pairs)
      else pairs == []
    ensures Sectioner(decode, data)(offset) == Entries(pairs, offset + |Frame(id, size, body)|)
  {
    FramedSection(Importer(decode, data), data, offset, id, size, body, pairs);
    SectionerReads(decode, data, offset, Entries(pairs, offset + |Frame(id, size, body)|));
  }

  lemma ImportsFrame(decode: Decoder, data: Bytes, offset: nat, size: Leb, count: Leb, imports: seq<Import>)
    requires ImportsOk(decode, imports) && LebIs(count, |imports|) && LebIs(size, |EncodeLeb(count) + EncodeImports(imports)|)
    requires At(data, offset, Frame(IMPORT_SECTION, size, EncodeLeb(count) + EncodeImports(imports)))
    ensures Sectioner(decode, data)(offset) ==
      Entries(PairsOfImports(decode, imports), offset + |Frame(IMPORT_SECTION, size, EncodeLeb(count) + EncodeImports(imports))|)
  {
    ImportsAreListed(decode, data, offset, size, count, imports);
    FrameIsRead(decode, data, offset, IMPORT_SECTION, size, EncodeLeb(count) + EncodeImports(imports), PairsOfImports(decode, imports));
  }

  lemma SectionIsDecoded(decode: Decoder, data: Bytes, offset: nat, section: Section)
    requires SectionOk(decode, section) && At(data, offset, EncodeSection(section))
    ensures Sectioner(decode, data)(offset) == Entries(PairsOfSection(decode, section), offset + |EncodeSection(section)|)
  {
    match section
    case ImportsSection(size, count, imports) => ImportsFrame(decode, data, offset, size, count, imports);
    case OtherSection(id, size, body) => FrameIsRead(decode, data, offset, id, size, body, []);
  }

  lemma SectionOnce(read: SectionReader, end: nat, offset: nat, found: seq<Pair>, next: nat, pairs: seq<Pair>)
    requires offset < end && offset < next
    requires read(offset) == Entries(found, next) && ImportSections(read, end, next) == Listing(pairs)
    ensures ImportSections(read, end, offset) == Listing(found + pairs)
  {
  }

  lemma {:induction false} SectionsAreRead(decode: Decoder, data: Bytes, offset: nat, sections: seq<Section>)
    requires SectionsOk(decode, sections) && At(data, offset, EncodeSections(sections))
    requires offset + |EncodeSections(sections)| == |data|
    ensures ImportSections(Sectioner(decode, data), |data|, offset) == Listing(PairsOf(decode, sections))
    decreases |sections|
  {
    if |sections| > 0 {
      var next := offset + |EncodeSection(sections[0])|;
      AtParts(data, offset, EncodeSection(sections[0]), EncodeSections(sections[1..]));
      SectionIsDecoded(decode, data, offset, sections[0]);
      SectionsAreRead(decode, data, next, sections[1..]);
      SectionOnce(Sectioner(decode, data), |data|, offset, PairsOfSection(decode, sections[0]), next,
                  PairsOf(decode, sections[1..]));
    }
  }

  lemma EncodedSections(m: Module)
    requires |m.version| == 4
    ensures Slice(Encode(m), 0, 4) == MAGIC
    ensures |Encode(m)| == 8 + |EncodeSections(m.sections)| && At(Encode(m), 8, EncodeSections(m.sections))
  {
    var data := Encode(m);
    assert data[8..] == EncodeSections(m.sections);
    assert forall k | 0 <= k < |data| - 8 :: data[8 + k] == data[8..][k];
  }

  /** However a module is written, its imports are listed as they were, in order, if every descriptor in front of another
      import of its section is skipped right. */
  lemma ImportsOfEncoding(decode: Decoder, m: Module)
    requires ModuleOk(decode, m)
    ensures ImportsOf(decode, Encode(m)) == Listing(PairsOf(decode, m.sections))
  {
    var data := Encode(m);
    EncodedSections(m);
    SectionsAreRead(decode, data, 8, m.sections);
  }

  // ----- an import that is not listed

  const ENV: Bytes := [101, 110, 118]
  const FIELD: Bytes := [102]

  /** A global of type (ref func), and behind it a function imported from env. */
  function Hiding(): seq<Import> {
    [Import(Name([0], []), Name([0], []), GlobalImport(Reference(false, [0x70]), 0)),
     Import(Name([3], ENV), Name([1], FIELD), Func([0]))]
  }

  function HidingModule(): Module {
    Module([1, 0, 0, 0], [ImportsSection([15], [2], Hiding())])
  }

  /** The bytes that decide something. */
  ghost predicate Hides(b: Bytes) {
    && |b| == 25 && Slice(b, 0, 4) == MAGIC && b[8] == 2 && b[9] == 15 && b[10] == 2 && b[11] == 0 && b[12] == 0
    && b[13] == 3 && b[16] == 0 && b[17] == 3 && Slice(b, 18, 3) == ENV && b[21] == 1 && b[23] == 0 && b[24] == 0
  }

  lemma HidingImports()
    ensures EncodeImports(Hiding()) == [0, 0, 3, 0x64, 0x70, 0] + [3, 101, 110, 118, 1, 102, 0, 0]
  {
    var imports := Hiding();
    assert EncodeImport(imports[0]) == [0, 0, 3, 0x64, 0x70, 0];
    assert EncodeImport(imports[1]) == [3, 101, 110, 118, 1, 102, 0, 0];
    assert imports[1..] == [imports[1]] && imports[1..][1..] == [];
    assert EncodeImports(imports[1..]) == EncodeImport(imports[1]) + [];
  }

  lemma HidingSection()
    ensures EncodeSections(HidingModule().sections) ==
      [2, 15, 2] + ([0, 0, 3, 0x64, 0x70, 0] + [3, 101, 110, 118, 1, 102, 0, 0])
  {
    var sections := HidingModule().sections;
    HidingImports();
    assert EncodeSection(sections[0]) == [2, 15, 2] + ([0, 0, 3, 0x64, 0x70, 0] + [3, 101, 110, 118, 1, 102, 0, 0]);
    assert sections[1..] == [] && EncodeSections(sections) == EncodeSection(sections[0]) + [];
  }

  lemma HidingHides(b: Bytes, front: Bytes, first: Bytes, second: Bytes)
    requires front == [0, 97, 115, 109] + [1, 0, 0, 0] && first == [0, 0, 3, 0x64, 0x70, 0]
    requires second == [3, 101, 110, 118, 1, 102, 0, 0] && b == front + ([2, 15, 2] + (first + second))
    ensures Hides(b)
  {
    assert b[8..11] == [2, 15, 2] && b[11..17] == first && b[17..] == second;
    assert b[11] == first[0] && b[12] == first[1] && b[13] == first[2] && b[16] == first[5];
    assert b[17] == second[0] && b[21] == second[4] && b[23] == second[6] && b[24] == second[7];
    assert Slice(b, 18, 3) == second[1..4];
  }

  lemma HidingBytes()
    ensures Hides(Encode(HidingModule()))
  {
    HidingSection();
    HidingHides(Encode(HidingModule()), MAGIC + [1, 0, 0, 0], [0, 0, 3, 0x64, 0x70, 0], [3, 101, 110, 118, 1, 102, 0, 0]);
  }

  lemma HidingEntries(decode: Decoder, b: Bytes)
    requires Hides(b) && decode([]).Decoded? && decode(ENV).Decoded?
    ensures ImportEntry(decode, b, 11) == Entry(Pair(decode([]).text, decode([]).text), 16)
    ensures ImportEntry(decode, b, 16) == Entry(Pair(decode([]).text, decode(ENV).text), 25)
  {
    assert Slice(b, 12, 0) == [] && Slice(b, 13, 0) == [] && Slice(b, 17, 0) == [];
    assert Leb128(b, 11) == Number(0, 12) && Leb128(b, 12) == Number(0, 13) && Leb128(b, 16) == Number(0, 17);
    assert Leb128(b, 17) == Number(3, 18) && Leb128(b, 24) == Number(0, 25);
    assert SkipImportKind(b, 13) == End(16) && SkipImportKind(b, 21) == End(25);
  }

  /** They are listed as if the global ended one byte earlier: two imports, and none of them from env. */
  lemma EnvIsHidden(decode: Decoder)
    requires decode([]).Decoded? && decode(ENV).Decoded? && decode(FIELD).Decoded? && decode([]) != decode(ENV)
    ensures forall i | i in Hiding() :: ImportOk(decode, i)
    ensures PairOf(decode, Hiding()[1]) == Pair(decode(ENV).text, decode(FIELD).text)
    ensures var nothing := decode([]).text;
      ImportsOf(decode, Encode(HidingModule())) == Listing([Pair(nothing, nothing), Pair(nothing, decode(ENV).text)])
    ensures forall p | p in ImportsOf(decode, Encode(HidingModule())).pairs :: p.mod != decode(ENV).text
  {
    var b, nothing := Encode(HidingModule()), decode([]).text;
    var first, second := Pair(nothing, nothing), Pair(nothing, decode(ENV).text);
    var read, none: seq<Pair> := Importer(decode, b), [];
    HidingBytes();
    HidingEntries(decode, b);
    assert Leb128(b, 9) == Number(15, 10) && Leb128(b, 10) == Number(2, 11);
    RepeatOnce(read, 16, 1, second, 25, none, 25);
    assert [second] + none == [second] && [first] + [second] == [first, second];
    RepeatOnce(read, 11, 2, first, 16, [second], 25);
    assert SectionAt(read, b, 8) == Entries([first, second], 25);
    assert [first, second] + none == [first, second];
    SectionOnce(Sectioner(decode, b), 25, 8, [first, second], 25, none);
  }
}
