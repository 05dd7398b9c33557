/** Full and Delta section payload envelopes. */
module SectionCodec {
  import opened Wrappers
  import opened Blocks
  import opened Bytes
  import opened Keys
  import opened PaletteStorage

  const BLOCK_BYTES: nat := 4
  const DELTA_ENTRY_BYTES: nat := 6

  datatype SectionError =
    | DigestMismatch
    | EncodingMismatch
    | BaseRevisionOnFullEncoding
    | StaleSectionRevision
    | DeltaUsedForFirstDelivery
    | DeltaBaseRevisionMismatch
    | PaletteOverflow
    | DeadPaletteEntry
    | CellOffsetOutOfRange
    | SectionUnavailable
    | BadKey(rejection: KeyRejection)

  datatype DeltaEntry = DeltaEntry(offset: CellOffset, block: BlockId)

  /** The digest is given by the bytes it was taken over. */
  datatype Envelope = Envelope(
    sectionKey: string,
    sectionRevision: U64,
    encoding: Encoding,
    payloadLength: nat,
    digestOf: ByteString,
    baseRevision: Option<U64>,
    payload: ByteString)

  datatype Decoded<T> = Decoded(section: SectionId, revision: U64, content: T)

  // ---- block identities as little-endian words

  function Words(blocks: seq<BlockId>): (bytes: ByteString)
    ensures |bytes| == BLOCK_BYTES * |blocks|
  {
    if blocks == [] then [] else LittleEndian(4, blocks[0]) + Words(blocks[1..])
  }

  function ReadWord(bytes: ByteString): BlockId
    requires |bytes| == BLOCK_BYTES
  {
    BytesRoundTrip(bytes);
    RadixValues();
    FromLittleEndian(bytes)
  }

  function ReadWords(bytes: ByteString): (blocks: seq<BlockId>)
    requires |bytes| % BLOCK_BYTES == 0
    ensures |blocks| == |bytes| / BLOCK_BYTES
  {
    if bytes == [] then [] else [ReadWord(bytes[..4])] + ReadWords(bytes[4..])
  }

  lemma {:induction false} WordsRoundTrip(blocks: seq<BlockId>)
    ensures ReadWords(Words(blocks)) == blocks
  {
    if blocks != [] {
      hide LittleEndian;
      RadixValues();
      var bytes := Words(blocks);
      LittleEndianRoundTrip(4, blocks[0]);
      WordsRoundTrip(blocks[1..]);
      assert bytes[..4] == LittleEndian(4, blocks[0]) && bytes[4..] == Words(blocks[1..]);
    }
  }

  lemma {:induction false} ReadWordsRoundTrip(bytes: ByteString)
    requires |bytes| % BLOCK_BYTES == 0
    ensures Words(ReadWords(bytes)) == bytes
  {
    if bytes != [] {
      hide LittleEndian;
      hide FromLittleEndian;
      BytesRoundTrip(bytes[..4]);
      ReadWordsRoundTrip(bytes[4..]);
      assert bytes == bytes[..4] + bytes[4..];
    }
  }

  // ---- canonical payload bytes

  function StatePayload(s: StorageState): ByteString {
    match s
    case Uniform(block) => LittleEndian(4, block)
    case Palette(entries, slots) => LittleEndian(2, |entries|) + (Words(entries) + slots)
    case Raw(cells) => Words(cells)
  }

  /** Canonical full-payload bytes of a section's cells; no encoding tag. */
  function Payload(cells: Cells): ByteString {
    StatePayload(OptimalState(cells))
  }

  // ---- decoding full payloads

  function PaletteCount(payload: ByteString): nat
    requires |payload| >= 2
  {
    FromLittleEndian(payload[..2])
  }

  function TableEnd(count: nat): nat {
    2 + count * BLOCK_BYTES
  }

  /** The cells a palette payload spells, once its lengths fit. */
  function PaletteCells(entries: seq<BlockId>, indices: seq<Slot>): seq<BlockId>
    requires forall i :: 0 <= i < |indices| ==> indices[i] < |entries|
  {
    seq(|indices|, i requires 0 <= i < |indices| => entries[indices[i]])
  }

  function DecodePalette(payload: ByteString): Result<Cells, SectionError> {
    if |payload| < 2 then Err(EncodingMismatch) else
    var count := PaletteCount(payload);
    if count > PALETTE_CAPACITY then Err(PaletteOverflow)
    else if count < 2 || |payload| != TableEnd(count) + CELL_COUNT then Err(EncodingMismatch)
    else
      var entries := ReadWords(payload[2..TableEnd(count)]);
      var indices := payload[TableEnd(count)..];
      if !Unique(entries) || !AllBelow(indices, count) then Err(EncodingMismatch)
      else if !AllUsed(indices, count) then Err(DeadPaletteEntry)
      else
        var cells := PaletteCells(entries, indices);
        if EncodingOf(OptimalState(cells)) != PaletteEncoding then Err(EncodingMismatch) else Ok(cells)
  }

  predicate AllBelow(indices: seq<Slot>, count: nat) {
    forall i :: 0 <= i < |indices| ==> indices[i] < count
  }

  predicate AllUsed(indices: seq<Slot>, count: nat) {
    forall slot: Slot :: slot < count ==> slot in indices
  }

  function DecodeRaw(payload: ByteString): Result<Cells, SectionError> {
    if |payload| != CELL_COUNT * BLOCK_BYTES then Err(EncodingMismatch) else
    var cells := ReadWords(payload);
    if EncodingOf(OptimalState(cells)) != RawEncoding then Err(EncodingMismatch) else Ok(cells)
  }

  function DecodeUniform(payload: ByteString): Result<Cells, SectionError> {
    if |payload| != BLOCK_BYTES then Err(EncodingMismatch)
    else Ok(seq(CELL_COUNT, _ => ReadWord(payload)))
  }

  function DecodeFull(encoding: Encoding, payload: ByteString): Result<Cells, SectionError>
    requires encoding != DeltaEncoding
  {
    match encoding
    case UniformEncoding => DecodeUniform(payload)
    case PaletteEncoding => DecodePalette(payload)
    case RawEncoding => DecodeRaw(payload)
  }

  // ---- deltas

  function EntryBytes(e: DeltaEntry): ByteString {
    LittleEndian(2, e.offset) + LittleEndian(4, e.block)
  }

  function DeltaBytes(entries: seq<DeltaEntry>): (bytes: ByteString)
    ensures |bytes| == DELTA_ENTRY_BYTES * |entries|
  {
    if entries == [] then [] else EntryBytes(entries[0]) + DeltaBytes(entries[1..])
  }

  /** Entries written one after another; a later entry for the same cell wins. */
  function Applied(cells: Cells, entries: seq<DeltaEntry>): Cells
    decreases |entries|
  {
    if entries == [] then cells else Applied(cells[entries[0].offset := entries[0].block], entries[1..])
  }

  function ApplyBytes(cells: Cells, payload: ByteString): Result<Cells, SectionError>
    requires |payload| % DELTA_ENTRY_BYTES == 0
    decreases |payload|
  {
    if payload == [] then Ok(cells) else
    var offset := FromLittleEndian(payload[..2]);
    if offset >= SECTION_CELLS then Err(CellOffsetOutOfRange)
    else ApplyBytes(cells[offset := ReadWord(payload[2..6])], payload[6..])
  }

  function ApplyDelta(cells: Cells, payload: ByteString): Result<Cells, SectionError> {
    if |payload| % DELTA_ENTRY_BYTES != 0 then Err(EncodingMismatch) else ApplyBytes(cells, payload)
  }

  // ---- envelopes

  function Outgoing(id: SectionId, revision: U64, encoding: Encoding, base: Option<U64>, payload: ByteString)
    : Envelope
  {
    Envelope(SectionKey(id), revision, encoding, |payload|, payload, base, payload)
  }

  function EncodeFull(id: SectionId, revision: U64, cells: Cells): Envelope {
    Outgoing(id, revision, EncodingOf(OptimalState(cells)), None, Payload(cells))
  }

  function EncodeDelta(id: SectionId, revision: U64, base: U64, entries: seq<DeltaEntry>): Envelope {
    Outgoing(id, revision, DeltaEncoding, Some(base), DeltaBytes(entries))
  }

  /** A receiver's section: its cells and their revision. */
  datatype Held = Held(cells: Cells, revision: U64)

  function DecodeBody(e: Envelope, held: Option<Held>): Result<Cells, SectionError> {
    if e.encoding != DeltaEncoding then
      if e.baseRevision.Some? then Err(BaseRevisionOnFullEncoding)
      else if held.Some? && e.sectionRevision <= held.value.revision then Err(StaleSectionRevision)
      else DecodeFull(e.encoding, e.payload)
    else if held.None? then Err(DeltaUsedForFirstDelivery)
    else if e.baseRevision != Some(held.value.revision) then Err(DeltaBaseRevisionMismatch)
    else if e.sectionRevision <= held.value.revision then Err(DeltaBaseRevisionMismatch)
    else ApplyDelta(held.value.cells, e.payload)
  }

  /** Digest first, then length, key, and only then the body. */
  function Decode(e: Envelope, held: Option<Held>): Result<Decoded<Cells>, SectionError> {
    if e.payload != e.digestOf then Err(DigestMismatch) else
    :- Need(|e.payload| == e.payloadLength, EncodingMismatch);
    match ParseSection(e.sectionKey)
    case Err(rejection) => Err(BadKey(rejection))
    case Ok(id) =>
      var cells :- DecodeBody(e, held);
      Ok(Decoded(id, e.sectionRevision, cells))
  }

  // ---- payload bytes characterise content

  lemma PayloadLengths(cells: Cells)
    ensures match OptimalState(cells)
      case Uniform(_) => |Payload(cells)| == 4
      case Palette(entries, _) => |Payload(cells)| == TableEnd(|entries|) + CELL_COUNT
      case Raw(_) => |Payload(cells)| == CELL_COUNT * BLOCK_BYTES
  {
  }

  lemma PaletteParts(entries: seq<BlockId>, slots: seq<Slot>)
    requires ValidPalette(entries, slots)
    ensures var bytes := StatePayload(Palette(entries, slots));
      && |bytes| == TableEnd(|entries|) + CELL_COUNT
      && PaletteCount(bytes) == |entries|
      && ReadWords(bytes[2..TableEnd(|entries|)]) == entries
      && bytes[TableEnd(|entries|)..] == slots
  {
    hide Words;
    hide LittleEndian;
    hide ReadWords;
    RadixValues();
    LittleEndianRoundTrip(2, |entries|);
    WordsRoundTrip(entries);
    var bytes := StatePayload(Palette(entries, slots));
    assert bytes[..2] == LittleEndian(2, |entries|);
    assert bytes[2..TableEnd(|entries|)] == Words(entries);
    assert bytes[TableEnd(|entries|)..] == slots;
  }

  /** Two sections have equal canonical bytes exactly when they hold the same cells. */
  lemma PayloadCharacterisesContent(a: Cells, b: Cells)
    ensures Payload(a) == Payload(b) <==> a == b
  {
    if Payload(a) == Payload(b) {
      hide OptimalState;
      hide StatePayload;
      DecodeOwnPayload(a);
      DecodeOwnPayload(b);
      PayloadEncoding(a);
      PayloadEncoding(b);
    }
  }

  /** The three length ranges are disjoint, so the length alone tells the encoding. */
  lemma PayloadEncoding(cells: Cells)
    ensures EncodingOf(OptimalState(cells))
         == if |Payload(cells)| == 4 then UniformEncoding
            else if |Payload(cells)| == CELL_COUNT * BLOCK_BYTES then RawEncoding else PaletteEncoding
  {
    hide OptimalState;
    hide StatePayload;
    PayloadLengths(cells);
    assert ValidState(OptimalState(cells));
  }

  // ---- full payload round trip

  lemma DecodeOwnPayload(cells: Cells)
    ensures DecodeFull(EncodingOf(OptimalState(cells)), Payload(cells)) == Ok(cells)
  {
    hide OptimalState;
    var s := OptimalState(cells);
    assert ValidState(s) && Content(s) == cells;
    match s
    case Uniform(block) =>
      RadixValues();
      LittleEndianRoundTrip(4, block);
      assert cells == seq(CELL_COUNT, _ => block);
    case Raw(raw) =>
      WordsRoundTrip(raw);
      assert cells == raw;
    case Palette(entries, slots) =>
      PaletteParts(entries, slots);
      CanonicalUsesEverySlot(cells);
      assert PaletteCells(entries, slots) == cells;
  }

  /** Compaction leaves no dead palette entry. */
  lemma CanonicalUsesEverySlot(cells: Cells)
    requires OptimalState(cells).Palette?
    ensures AllUsed(OptimalState(cells).slots, |OptimalState(cells).entries|)
  {
    var entries, slots := OptimalState(cells).entries, OptimalState(cells).slots;
    forall slot: Slot | slot < |entries| ensures slot in slots {
      assert entries[slot] in Elems(cells);
      var i :| 0 <= i < CELL_COUNT && cells[i] == entries[slot];
      assert slots[i] == slot;
    }
  }

  /** What is encoded in full is decoded to the same section, revision and cells, with no or an older baseline. */
  lemma FullRoundTrip(id: SectionId, revision: U64, cells: Cells, held: Option<Held>)
    requires held.Some? ==> held.value.revision < revision
    ensures Decode(EncodeFull(id, revision, cells), held) == Ok(Decoded(id, revision, cells))
  {
    hide OptimalState;
    hide StatePayload;
    hide DecodeFull;
    hide ParseSection;
    hide SectionKey;
    DecodeOwnPayload(cells);
    ParseSectionIsExact(SectionKey(id), id);
    assert EncodingOf(OptimalState(cells)) != DeltaEncoding;
  }

  /** A full envelope is refused as stale exactly when the receiver is not at an older revision. */
  lemma FullIsStaleUnlessNewer(id: SectionId, revision: U64, cells: Cells, held: Option<Held>)
    ensures Decode(EncodeFull(id, revision, cells), held) == Err(StaleSectionRevision)
        <==> held.Some? && held.value.revision >= revision
  {
    hide OptimalState;
    hide StatePayload;
    hide DecodeFull;
    hide ParseSection;
    hide SectionKey;
    if held.Some? && held.value.revision >= revision {
      ParseSectionIsExact(SectionKey(id), id);
      NeverDelta(cells);
    } else {
      hide Decode;
      FullRoundTrip(id, revision, cells, held);
    }
  }

  lemma NeverDelta(cells: Cells)
    ensures EncodingOf(OptimalState(cells)) != DeltaEncoding
  {
    hide OptimalState;
  }

  /** A palette that passes the duplicate, range and liveness checks is re-classified as a palette. */
  lemma CheckedPaletteIsPalette(entries: seq<BlockId>, indices: seq<Slot>)
    requires 2 <= |entries| <= PALETTE_CAPACITY && |indices| == CELL_COUNT
    requires Unique(entries) && AllBelow(indices, |entries|) && AllUsed(indices, |entries|)
    ensures EncodingOf(OptimalState(PaletteCells(entries, indices))) == PaletteEncoding
  {
    hide OptimalState;
    var cells := PaletteCells(entries, indices);
    forall b | b in Elems(entries) ensures b in Elems(cells) {
      var slot: Slot :| slot < |entries| && entries[slot] == b;
      assert slot in indices;
      var i :| 0 <= i < |indices| && indices[i] == slot;
      assert cells[i] == b;
    }
    assert Elems(cells) == Elems(entries);
    UniqueCardinality(entries);
    CanonicalEncoding(cells);
  }

  /** Exactly which palette payloads are accepted: the final encoding check never refuses one. */
  lemma PaletteAcceptance(payload: ByteString)
    ensures DecodePalette(payload).Ok? <==>
      && |payload| >= 2
      && var count := PaletteCount(payload);
      && 2 <= count <= PALETTE_CAPACITY && |payload| == TableEnd(count) + CELL_COUNT
      && Unique(ReadWords(payload[2..TableEnd(count)]))
      && AllBelow(payload[TableEnd(count)..], count) && AllUsed(payload[TableEnd(count)..], count)
  {
    hide OptimalState;
    if |payload| >= 2 {
      var count := PaletteCount(payload);
      if 2 <= count <= PALETTE_CAPACITY && |payload| == TableEnd(count) + CELL_COUNT {
        var entries, indices := ReadWords(payload[2..TableEnd(count)]), payload[TableEnd(count)..];
        if Unique(entries) && AllBelow(indices, count) && AllUsed(indices, count) {
          CheckedPaletteIsPalette(entries, indices);
        }
      }
    }
  }

  /** A Raw payload is accepted exactly when it has the full length and overflows a palette; then it is canonical. */
  lemma RawAcceptance(payload: ByteString)
    ensures DecodeRaw(payload).Ok? <==>
      |payload| == CELL_COUNT * BLOCK_BYTES && |Elems(ReadWords(payload))| > PALETTE_CAPACITY
    ensures DecodeRaw(payload).Ok? ==> Payload(DecodeRaw(payload).value) == payload
  {
    if |payload| == CELL_COUNT * BLOCK_BYTES {
      CanonicalEncoding(ReadWords(payload));
      ReadWordsRoundTrip(payload);
    }
  }

  // ---- delta round trip

  lemma {:induction false} ApplyDeltaBytes(cells: Cells, entries: seq<DeltaEntry>)
    ensures ApplyBytes(cells, DeltaBytes(entries)) == Ok(Applied(cells, entries))
    decreases |entries|
  {
    if entries != [] {
      var bytes, e := DeltaBytes(entries), entries[0];
      ReadEntry(e, DeltaBytes(entries[1..]));
      ApplyDeltaBytes(cells[e.offset := e.block], entries[1..]);
    }
  }

  lemma ReadEntry(e: DeltaEntry, rest: ByteString)
    ensures var bytes := EntryBytes(e) + rest;
      FromLittleEndian(bytes[..2]) == e.offset && ReadWord(bytes[2..6]) == e.block && bytes[6..] == rest
  {
    hide LittleEndian;
    hide FromLittleEndian;
    RadixValues();
    LittleEndianRoundTrip(2, e.offset);
    LittleEndianRoundTrip(4, e.block);
    var bytes := EntryBytes(e) + rest;
    assert bytes[..2] == LittleEndian(2, e.offset) && bytes[2..6] == LittleEndian(4, e.block);
  }

  /** A delta is accepted exactly by a receiver at its base and before its revision, and writes its entries. */
  lemma DeltaRoundTrip(id: SectionId, revision: U64, base: U64, entries: seq<DeltaEntry>, held: Option<Held>)
    ensures var r := Decode(EncodeDelta(id, revision, base, entries), held);
      if held.None? then r == Err(DeltaUsedForFirstDelivery)
      else if held.value.revision == base && base < revision
      then r == Ok(Decoded(id, revision, Applied(held.value.cells, entries)))
      else r == Err(DeltaBaseRevisionMismatch)
  {
    hide ParseSection;
    hide SectionKey;
    hide DeltaBytes;
    hide ApplyBytes;
    ParseSectionIsExact(SectionKey(id), id);
    if held.Some? {
      ApplyDeltaBytes(held.value.cells, entries);
    }
  }

  // ---- as computed in the source

  method WordBytes(blocks: seq<BlockId>) returns (bytes: ByteString)
    ensures bytes == Words(blocks)
  {
    hide LittleEndian;
    bytes := [];
    for i := 0 to |blocks|
      invariant bytes + Words(blocks[i..]) == Words(blocks)
    {
      assert blocks[i..][1..] == blocks[i + 1..];
      ghost var before := bytes;
      bytes := bytes + LittleEndian(4, blocks[i]);
      assert bytes + Words(blocks[i + 1..]) == before + Words(blocks[i..]);
    }
    assert blocks[|blocks|..] == [] && bytes + [] == bytes;
  }

  /** The bytes are those of the canonical form, whatever history left in the storage. */
  method EncodedPayload(storage: SectionStorage) returns (payload: ByteString)
    requires storage.Valid()
    ensures payload == Payload(Content(storage.state))
  {
    hide OptimalState;
    hide LittleEndian;
    hide Words;
    var compacted := storage.Compacted();
    match compacted {
      case Uniform(block) =>
        payload := LittleEndian(4, block);
      case Palette(entries, slots) =>
        var table := WordBytes(entries);
        payload := LittleEndian(2, |entries|) + (table + slots);
      case Raw(cells) =>
        payload := WordBytes(cells);
    }
  }

  lemma NoWords()
    ensures ReadWords([]) == []
  {
  }

  lemma NextWord(bytes: ByteString, at: nat, entries: seq<BlockId>)
    requires at + 4 <= |bytes| && at % BLOCK_BYTES == 0 && |bytes| % BLOCK_BYTES == 0
    ensures entries + ReadWords(bytes[at..]) == entries + [ReadWord(bytes[at..at + 4])] + ReadWords(bytes[at + 4..])
  {
    hide ReadWord;
    var rest := bytes[at..];
    assert rest[..4] == bytes[at..at + 4] && rest[4..] == bytes[at + 4..];
    assert ReadWords(rest) == [ReadWord(rest[..4])] + ReadWords(rest[4..]);
  }

  lemma RepeatedBlock(entries: seq<BlockId>, block: BlockId, more: seq<BlockId>)
    requires block in entries
    ensures !Unique(entries + [block] + more)
  {
    var i :| 0 <= i < |entries| && entries[i] == block;
    var all := entries + [block] + more;
    assert all[i] == block && all[|entries|] == block;
  }

  method ReadTable(bytes: ByteString) returns (r: Option<seq<BlockId>>)
    requires |bytes| % BLOCK_BYTES == 0
    ensures r == if Unique(ReadWords(bytes)) then Some(ReadWords(bytes)) else None
  {
    hide ReadWord;
    hide ReadWords;
    ghost var all := ReadWords(bytes);
    NoWords();
    var entries: seq<BlockId> := [];
    var at := 0;
    assert bytes[0..] == bytes;
    while at < |bytes|
      invariant 0 <= at <= |bytes| && at == BLOCK_BYTES * |entries|
      invariant entries + ReadWords(bytes[at..]) == all
      invariant Unique(entries)
      decreases |bytes| - at
    {
      var block := ReadWord(bytes[at..at + 4]);
      NextWord(bytes, at, entries);
      if block in entries {
        RepeatedBlock(entries, block, ReadWords(bytes[at + 4..]));
        return None;
      }
      entries := entries + [block];
      at := at + 4;
    }
    assert bytes[at..] == [] && entries + ReadWords([]) == entries;
    r := Some(entries);
  }

  /** Resolve indices through the table, marking the slots that are used. */
  method ReadIndices(entries: seq<BlockId>, indices: seq<Slot>) returns (cells: seq<BlockId>, live: seq<Word>, ok: bool)
    requires |entries| <= PALETTE_CAPACITY
    ensures ok == AllBelow(indices, |entries|)
    ensures ok ==> cells == PaletteCells(entries, indices)
    ensures |live| == 4
    ensures ok ==> forall k: Slot :: IsSlotLive(live, k) <==> k in indices
  {
    hide IsSlotLive;
    hide MarkedLive;
    cells, live := [], [{}, {}, {}, {}];
    assert forall k: Slot :: !IsSlotLive(live, k) by {
      NoSlotLive([], 0);
    }
    for i := 0 to |indices|
      invariant |live| == 4 && |cells| == i
      invariant AllBelow(indices[..i], |entries|)
      invariant forall j :: 0 <= j < i ==> indices[j] < |entries| && cells[j] == entries[indices[j]]
      invariant forall k: Slot :: IsSlotLive(live, k) <==> k in indices[..i]
    {
      var index := indices[i];
      if index >= |entries| {
        return cells, live, false;
      }
      assert indices[..i + 1] == indices[..i] + [index];
      live := MarkedLive(live, index);
      cells := cells + [entries[index]];
    }
    assert indices[..|indices|] == indices;
    ok := true;
  }

  method DecodePaletteBytes(payload: ByteString) returns (r: Result<Cells, SectionError>)
    ensures r == DecodePalette(payload)
  {
    hide OptimalState;
    hide ReadWords;
    hide FromLittleEndian;
    hide IsSlotLive;
    if |payload| < 2 {
      return Err(EncodingMismatch);
    }
    var count := PaletteCount(payload);
    if count > PALETTE_CAPACITY {
      return Err(SectionError.PaletteOverflow);
    }
    if count < 2 || |payload| != TableEnd(count) + CELL_COUNT {
      return Err(EncodingMismatch);
    }
    var entries := ReadTable(payload[2..TableEnd(count)]);
    if entries.None? {
      return Err(EncodingMismatch);
    }
    var indices := payload[TableEnd(count)..];
    var cells, live, ok := ReadIndices(entries.value, indices);
    if !ok {
      return Err(EncodingMismatch);
    }
    if exists slot: Slot :: slot < count && !IsSlotLive(live, slot) {
      return Err(DeadPaletteEntry);
    }
    if EncodingOf(OptimalState(cells)) != PaletteEncoding {
      return Err(EncodingMismatch);
    }
    r := Ok(cells);
  }

  /** Write the entries of a delta payload one after another into a copy of the baseline. */
  method ApplyDeltaBytesTo(baseline: StorageState, payload: ByteString) returns (r: Result<StorageState, SectionError>)
    requires ValidState(baseline)
    ensures match ApplyDelta(Content(baseline), payload)
      case Ok(cells) => r.Ok? && ValidState(r.value) && Content(r.value) == cells
      case Err(e) => r == Err(e)
  {
    hide ReadWord;
    hide FromLittleEndian;
    hide Content;
    hide ValidState;
    if |payload| % DELTA_ENTRY_BYTES != 0 {
      return Err(EncodingMismatch);
    }
    var storage := new SectionStorage.Clone(baseline);
    ghost var goal := ApplyBytes(Content(baseline), payload);
    var at := 0;
    while at < |payload|
      invariant 0 <= at <= |payload| && at % DELTA_ENTRY_BYTES == 0
      invariant ValidState(storage.state)
      invariant ApplyBytes(Content(storage.state), payload[at..]) == goal
      decreases |payload| - at
    {
      var rest := payload[at..];
      assert rest[..2] == payload[at..at + 2] && rest[2..6] == payload[at + 2..at + 6];
      assert rest[6..] == payload[at + 6..];
      var offset := FromLittleEndian(payload[at..at + 2]);
      if offset >= SECTION_CELLS {
        return Err(CellOffsetOutOfRange);
      }
      var outcome := storage.Write(offset, ReadWord(payload[at + 2..at + 6]));
      at := at + 6;
    }
    r := Ok(storage.state);
  }

  /** The decoder on real storage agrees with the decoder on plain cells, refusals included. */
  method DecodeEnvelope(e: Envelope, baseline: Option<(StorageState, U64)>)
    returns (r: Result<Decoded<StorageState>, SectionError>)
    requires baseline.Some? ==> ValidState(baseline.value.0)
    ensures match Decode(e, if baseline.None? then None else Some(Held(Content(baseline.value.0), baseline.value.1)))
      case Ok(d) =>
        && r.Ok? && r.value.section == d.section && r.value.revision == d.revision
        && ValidState(r.value.content) && Content(r.value.content) == d.content
      case Err(error) => r == Err(error)
  {
    hide DecodePalette;
    hide DecodeRaw;
    hide ApplyDelta;
    hide ParseSection;
    hide OptimalState;
    hide Content;
    if e.payload != e.digestOf {
      return Err(DigestMismatch);
    }
    if |e.payload| != e.payloadLength {
      return Err(EncodingMismatch);
    }
    var id := ParseSection(e.sectionKey);
    if id.Err? {
      return Err(BadKey(id.error));
    }
    if e.encoding == DeltaEncoding {
      if baseline.None? {
        return Err(DeltaUsedForFirstDelivery);
      }
      if e.baseRevision != Some(baseline.value.1) || e.sectionRevision <= baseline.value.1 {
        return Err(DeltaBaseRevisionMismatch);
      }
      var written := ApplyDeltaBytesTo(baseline.value.0, e.payload);
      if written.Err? {
        return Err(written.error);
      }
      return Ok(Decoded(id.value, e.sectionRevision, written.value));
    }
    if e.baseRevision.Some? {
      return Err(BaseRevisionOnFullEncoding);
    }
    if baseline.Some? && e.sectionRevision <= baseline.value.1 {
      return Err(StaleSectionRevision);
    }
    var full := DecodeFullBytes(e.encoding, e.payload);
    if full.Err? {
      return Err(full.error);
    }
    r := Ok(Decoded(id.value, e.sectionRevision, full.value));
  }

  method DecodeFullBytes(encoding: Encoding, payload: ByteString) returns (r: Result<StorageState, SectionError>)
    requires encoding != DeltaEncoding
    ensures match DecodeFull(encoding, payload)
      case Ok(cells) => r.Ok? && ValidState(r.value) && Content(r.value) == cells
      case Err(e) => r == Err(e)
  {
    hide DecodePalette;
    hide OptimalState;
    hide ReadWord;
    hide ReadWords;
    if encoding == UniformEncoding {
      if |payload| != BLOCK_BYTES {
        return Err(EncodingMismatch);
      }
      var storage := new SectionStorage.Uniform(ReadWord(payload));
      r := Ok(storage.state);
    } else if encoding == PaletteEncoding {
      var cells := DecodePaletteBytes(payload);
      if cells.Err? {
        return Err(cells.error);
      }
      var storage := new SectionStorage.FromCells(cells.value);
      r := Ok(storage.state);
    } else {
      if |payload| != CELL_COUNT * BLOCK_BYTES {
        return Err(EncodingMismatch);
      }
      var storage := new SectionStorage.FromCells(ReadWords(payload));
      if EncodingOf(storage.state) != RawEncoding {
        return Err(EncodingMismatch);
      }
      r := Ok(storage.state);
    }
  }
}
