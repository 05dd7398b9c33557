/** The bytes of a section payload, read one by one, and exactly which envelopes are accepted. */
module SectionFormat {
  import opened Wrappers
  import opened Blocks
  import opened Bytes
  import opened Keys
  import opened PaletteStorage
  import opened SectionCodec

  // ---- words and halves by their bytes

  function ByteAt(bytes: ByteString, at: nat): nat
    requires at < |bytes|
  {
    bytes[at]
  }

  /** A 16-bit number, low byte first. */
  function HalfAt(bytes: ByteString, at: nat): nat
    requires at + 2 <= |bytes|
  {
    ByteAt(bytes, at) + 0x100 * ByteAt(bytes, at + 1)
  }

  /** A 32-bit number, low byte first. */
  function WordAt(bytes: ByteString, at: nat): nat
    requires at + 4 <= |bytes|
  {
    ByteAt(bytes, at) + 0x100 * ByteAt(bytes, at + 1) + 0x1_0000 * ByteAt(bytes, at + 2)
      + 0x100_0000 * ByteAt(bytes, at + 3)
  }

  lemma ReadHalf(bytes: ByteString, at: nat)
    requires at + 2 <= |bytes|
    ensures FromLittleEndian(bytes[at..at + 2]) == HalfAt(bytes, at)
  {
    var b := bytes[at..at + 2];
    assert b[1..] == [b[1]] && b[1..][1..] == [];
    assert FromLittleEndian([b[1]]) == b[1] + 256 * FromLittleEndian([b[1]][1..]);
  }

  lemma ReadFour(bytes: ByteString, at: nat)
    requires at + 4 <= |bytes|
    ensures FromLittleEndian(bytes[at..at + 4]) == WordAt(bytes, at)
  {
    var b := bytes[at..at + 4];
    var c := b[1..];
    assert c[1..] == bytes[at + 2..at + 4];
    ReadHalf(bytes, at + 2);
    assert FromLittleEndian(c) == c[0] + 256 * FromLittleEndian(c[1..]);
  }

  /** Reading behind a prefix. */
  lemma WordBehind(before: ByteString, rest: ByteString, at: nat)
    requires at + 4 <= |rest|
    ensures WordAt(before + rest, |before| + at) == WordAt(rest, at)
  {
    assert forall i :: 0 <= i < |rest| ==> (before + rest)[|before| + i] == rest[i];
  }

  lemma HalfBehind(before: ByteString, rest: ByteString, at: nat)
    requires at + 2 <= |rest|
    ensures HalfAt(before + rest, |before| + at) == HalfAt(rest, at)
  {
    assert forall i :: 0 <= i < |rest| ==> (before + rest)[|before| + i] == rest[i];
  }

  lemma {:induction false} WordOfWords(blocks: seq<BlockId>, k: nat)
    requires k < |blocks|
    ensures WordAt(Words(blocks), 4 * k) == blocks[k]
  {
    hide WordAt;
    hide LittleEndian;
    hide FromLittleEndian;
    var bytes := Words(blocks);
    if k == 0 {
      RadixValues();
      LittleEndianRoundTrip(4, blocks[0]);
      assert bytes[0..4] == LittleEndian(4, blocks[0]);
      ReadFour(bytes, 0);
    } else {
      WordOfWords(blocks[1..], k - 1);
      WordBehind(LittleEndian(4, blocks[0]), Words(blocks[1..]), 4 * (k - 1));
    }
  }

  lemma WordInside(before: ByteString, middle: ByteString, after: ByteString, at: nat)
    requires at + 4 <= |middle|
    ensures WordAt(before + (middle + after), |before| + at) == WordAt(middle, at)
  {
    var all := before + (middle + after);
    assert forall i :: 0 <= i < |middle| ==> all[|before| + i] == middle[i];
  }

  // ---- full payloads

  lemma UniformPayload(cells: Cells, c: CellOffset)
    requires OptimalState(cells).Uniform?
    ensures |Payload(cells)| == 4 && WordAt(Payload(cells), 0) == cells[c]
  {
    hide OptimalState;
    hide LittleEndian;
    hide FromLittleEndian;
    var block := OptimalState(cells).block;
    assert ReadState(OptimalState(cells), c) == block && Content(OptimalState(cells))[c] == block;
    RadixValues();
    LittleEndianRoundTrip(4, block);
    var bytes := Payload(cells);
    assert bytes[0..4] == bytes;
    ReadFour(bytes, 0);
  }

  lemma RawPayload(cells: Cells, c: CellOffset)
    requires OptimalState(cells).Raw?
    ensures |Payload(cells)| == 16384 && WordAt(Payload(cells), 4 * c) == cells[c]
  {
    hide OptimalState;
    var raw := OptimalState(cells).cells;
    assert raw == Content(OptimalState(cells));
    hide Words;
    hide WordAt;
    WordOfWords(raw, c);
  }

  lemma PalettePayload(cells: Cells, c: CellOffset)
    requires OptimalState(cells).Palette?
    ensures var bytes := Payload(cells);
      && |bytes| >= 2
      && var count := HalfAt(bytes, 0);
      && 2 <= count <= 256 && |bytes| == 2 + 4 * count + 4096
      && ByteAt(bytes, 2 + 4 * count + c) < count
      && WordAt(bytes, 2 + 4 * ByteAt(bytes, 2 + 4 * count + c)) == cells[c]
  {
    hide OptimalState;
    hide LittleEndian;
    hide FromLittleEndian;
    hide Words;
    hide WordAt;
    var s, bytes := OptimalState(cells), Payload(cells);
    var half, table := LittleEndian(2, |s.entries|), Words(s.entries);
    assert bytes == half + (table + s.slots);
    RadixValues();
    LittleEndianRoundTrip(2, |s.entries|);
    assert bytes[0..2] == half;
    ReadHalf(bytes, 0);
    var slot: nat := s.slots[c];
    assert bytes[2 + 4 * |s.entries| + c] == slot;
    assert Content(s)[c] == ReadState(s, c) == s.entries[slot];
    WordOfWords(s.entries, slot);
    WordInside(half, table, s.slots, 4 * slot);
  }

  /**
   The bytes of a full payload, cell by cell: four bytes are the one block of every cell, 16384 bytes are the blocks
   of the cells in turn, and any other payload is a 16-bit count of 2 to 256 blocks, the blocks, and one byte per
   cell that picks the cell's block. Numbers have their low byte first.
   */
  lemma PayloadReadsBack(cells: Cells, c: CellOffset)
    ensures var bytes := Payload(cells);
      if |bytes| == 4 then WordAt(bytes, 0) == cells[c]
      else if |bytes| == 16384 then WordAt(bytes, 4 * c) == cells[c]
      else
        && |bytes| >= 2
        && var count := HalfAt(bytes, 0);
        && 2 <= count <= 256 && |bytes| == 2 + 4 * count + 4096
        && ByteAt(bytes, 2 + 4 * count + c) < count
        && WordAt(bytes, 2 + 4 * ByteAt(bytes, 2 + 4 * count + c)) == cells[c]
  {
    hide OptimalState;
    if OptimalState(cells).Uniform? {
      UniformPayload(cells, c);
    } else if OptimalState(cells).Raw? {
      RawPayload(cells, c);
    } else {
      PalettePayload(cells, c);
    }
    hide Payload;
    hide WordAt;
    hide HalfAt;
  }

  // ---- the order of the palette

  /** The block's first cell is the i-th. */
  predicate FirstAt(cells: seq<BlockId>, block: BlockId, i: nat) {
    i < |cells| && cells[i] == block && forall k :: 0 <= k < i ==> cells[k] != block
  }

  lemma {:induction false} SeenSomewhere(cells: seq<BlockId>, k: nat) returns (i: nat)
    requires k < |FirstSeen(cells)|
    ensures FirstAt(cells, FirstSeen(cells)[k], i)
  {
    var n := |cells| - 1;
    var init := cells[..n];
    assert forall j :: 0 <= j < n ==> cells[j] == init[j];
    if k < |FirstSeen(init)| {
      i := SeenSomewhere(init, k);
    } else {
      i := n;
      forall j | 0 <= j < n ensures cells[j] != cells[n] {
        assert init[j] in Elems(init);
      }
    }
  }

  lemma OneFirst(cells: seq<BlockId>, block: BlockId, i: nat, j: nat)
    requires FirstAt(cells, block, i) && FirstAt(cells, block, j)
    ensures i == j
  {
  }

  lemma {:induction false} SeenInOrder(cells: seq<BlockId>, a: nat, b: nat, i: nat, j: nat)
    requires a < b < |FirstSeen(cells)|
    requires FirstAt(cells, FirstSeen(cells)[a], i) && FirstAt(cells, FirstSeen(cells)[b], j)
    ensures i < j
  {
    var n := |cells| - 1;
    var init := cells[..n];
    assert forall k :: 0 <= k < n ==> cells[k] == init[k];
    var i' := SeenSomewhere(init, a);
    assert FirstAt(cells, FirstSeen(cells)[a], i');
    OneFirst(cells, FirstSeen(cells)[a], i, i');
    if b < |FirstSeen(init)| {
      var j' := SeenSomewhere(init, b);
      assert FirstAt(cells, FirstSeen(cells)[b], j');
      OneFirst(cells, FirstSeen(cells)[b], j, j');
      SeenInOrder(init, a, b, i, j);
    } else {
      forall k | 0 <= k < n ensures cells[k] != cells[n] {
        assert init[k] in Elems(init);
      }
    }
  }

  /** The canonical palette lists its blocks in the order of their first cells. */
  lemma PaletteFollowsCells(cells: Cells, a: nat, b: nat, i: nat, j: nat)
    requires OptimalState(cells).Palette? && a < b < |OptimalState(cells).entries|
    requires FirstAt(cells, OptimalState(cells).entries[a], i) && FirstAt(cells, OptimalState(cells).entries[b], j)
    ensures i < j
  {
    hide FirstAt;
    hide FirstSeen;
    hide Position;
    SeenInOrder(cells, a, b, i, j);
  }

  // ---- delta payloads

  /** Entry k of a delta payload takes six bytes: the cell as 16 bits, then the block as 32. */
  lemma {:induction false} DeltaReadsBack(entries: seq<DeltaEntry>, k: nat)
    requires k < |entries|
    ensures |DeltaBytes(entries)| == 6 * |entries|
    ensures HalfAt(DeltaBytes(entries), 6 * k) == entries[k].offset
    ensures WordAt(DeltaBytes(entries), 6 * k + 2) == entries[k].block
  {
    hide WordAt;
    hide HalfAt;
    hide LittleEndian;
    hide FromLittleEndian;
    var bytes := DeltaBytes(entries);
    var rest := DeltaBytes(entries[1..]);
    if k == 0 {
      ReadEntry(entries[0], rest);
      RadixValues();
      LittleEndianRoundTrip(4, entries[0].block);
      assert bytes[..2] == bytes[0..2] && bytes[2..6] == LittleEndian(4, entries[0].block);
      ReadHalf(bytes, 0);
      ReadFour(bytes, 2);
    } else {
      DeltaReadsBack(entries[1..], k - 1);
      HalfBehind(EntryBytes(entries[0]), rest, 6 * (k - 1));
      WordBehind(EntryBytes(entries[0]), rest, 6 * (k - 1) + 2);
    }
  }

  /** The entries a payload of whole entries spells, offsets unchecked. */
  predicate OffsetsFit(payload: ByteString) {
    |payload| % 6 == 0 && forall k :: 0 <= k < |payload| / 6 ==> HalfAt(payload, 6 * k) < 4096
  }

  lemma OffsetsUnfold(payload: ByteString)
    requires payload != [] && |payload| % 6 == 0
    ensures OffsetsFit(payload) <==> HalfAt(payload, 0) < 4096 && OffsetsFit(payload[6..])
  {
    var rest := payload[6..];
    assert forall k :: 0 <= k < |rest| / 6 ==> HalfAt(rest, 6 * k) == HalfAt(payload, 6 * (k + 1));
    if OffsetsFit(payload) {
      assert HalfAt(payload, 6 * 0) < 4096;
      forall k | 0 <= k < |rest| / 6 ensures HalfAt(rest, 6 * k) < 4096 {
        assert HalfAt(payload, 6 * (k + 1)) < 4096;
      }
    }
    if HalfAt(payload, 0) < 4096 && OffsetsFit(rest) {
      forall k | 0 <= k < |payload| / 6 ensures HalfAt(payload, 6 * k) < 4096 {
        if k > 0 {
          assert HalfAt(rest, 6 * (k - 1)) < 4096;
        }
      }
    }
  }

  lemma NoOffsets()
    ensures OffsetsFit([])
  {
  }

  lemma {:induction false} BytesApplyExactly(cells: Cells, payload: ByteString)
    requires |payload| % 6 == 0
    ensures ApplyBytes(cells, payload).Ok? <==> OffsetsFit(payload)
    ensures ApplyBytes(cells, payload).Err? ==> ApplyBytes(cells, payload) == Err(CellOffsetOutOfRange)
    decreases |payload|
  {
    hide OffsetsFit;
    hide ReadWord;
    hide FromLittleEndian;
    if payload == [] {
      NoOffsets();
    } else {
      assert payload[0..2] == payload[..2];
      ReadHalf(payload, 0);
      OffsetsUnfold(payload);
      var offset := FromLittleEndian(payload[..2]);
      if offset < SECTION_CELLS {
        BytesApplyExactly(cells[offset := ReadWord(payload[2..6])], payload[6..]);
      }
    }
  }

  /** A later entry for the same cell wins, and a cell without an entry keeps its block. */
  lemma {:induction false} LastEntryWins(cells: Cells, entries: seq<DeltaEntry>, cell: CellOffset, k: nat)
    requires k <= |entries| && (k > 0 ==> entries[k - 1].offset == cell)
    requires forall i :: k <= i < |entries| ==> entries[i].offset != cell
    ensures Applied(cells, entries)[cell] == if k > 0 then entries[k - 1].block else cells[cell]
    decreases |entries|
  {
    if entries != [] {
      var next := cells[entries[0].offset := entries[0].block];
      LastEntryWins(next, entries[1..], cell, if k > 1 then k - 1 else 0);
    }
  }

  // ---- which envelopes are accepted

  /** What a body of each encoding has to be, said of its bytes. */
  predicate FullBodyFits(encoding: Encoding, payload: ByteString)
    requires encoding != DeltaEncoding
  {
    match encoding
    case UniformEncoding => |payload| == 4
    case RawEncoding => |payload| == 16384 && |Elems(ReadWords(payload))| > 256
    case PaletteEncoding =>
      && |payload| >= 2
      && var count := HalfAt(payload, 0);
      && 2 <= count <= 256 && |payload| == 2 + 4 * count + 4096
      && Unique(ReadWords(payload[2..2 + 4 * count]))
      && AllBelow(payload[2 + 4 * count..], count) && AllUsed(payload[2 + 4 * count..], count)
  }

  lemma FullBodiesExactly(encoding: Encoding, payload: ByteString)
    requires encoding != DeltaEncoding
    ensures DecodeFull(encoding, payload).Ok? <==> FullBodyFits(encoding, payload)
  {
    hide OptimalState;
    hide ReadWords;
    hide ReadWord;
    hide Unique;
    hide AllUsed;
    hide AllBelow;
    hide Elems;
    hide FromLittleEndian;
    match encoding
    case UniformEncoding =>
    case RawEncoding =>
      RawAcceptance(payload);
      hide DecodeRaw;
    case PaletteEncoding =>
      PaletteAcceptance(payload);
      hide DecodePalette;
      if |payload| >= 2 {
        assert payload[0..2] == payload[..2];
        ReadHalf(payload, 0);
      }
  }

  /** Which refusal a full body gets: each check in the order of the source. */
  lemma FullBodyRefusals(encoding: Encoding, payload: ByteString)
    requires encoding != DeltaEncoding && DecodeFull(encoding, payload).Err?
    ensures var error := DecodeFull(encoding, payload).error;
      if encoding != PaletteEncoding || |payload| < 2 then error == EncodingMismatch
      else
        var count := HalfAt(payload, 0);
        if count > 256 then error == SectionError.PaletteOverflow
        else if count < 2 || |payload| != 2 + 4 * count + 4096 then error == EncodingMismatch
        else if !Unique(ReadWords(payload[2..2 + 4 * count])) || !AllBelow(payload[2 + 4 * count..], count)
        then error == EncodingMismatch
        else !AllUsed(payload[2 + 4 * count..], count) && error == DeadPaletteEntry
  {
    hide OptimalState;
    hide ReadWords;
    hide ReadWord;
    hide Unique;
    hide AllUsed;
    hide AllBelow;
    hide Elems;
    hide FromLittleEndian;
    FullBodiesExactly(encoding, payload);
    if |payload| >= 2 {
      assert payload[0..2] == payload[..2];
      ReadHalf(payload, 0);
    }
  }

  /** An older section than the envelope's. */
  predicate Behind(held: Held, revision: U64) {
    held.revision < revision
  }

  /**
   Exactly which envelopes a receiver accepts. The digest is of the payload, the length is its own and the key names a
   section. A full body has no base, is newer than what is held, if anything, and fits its encoding. A delta has what
   is held as its base, is newer, and is made of whole entries for cells of the section.
   */
  lemma DecodeIsExact(e: Envelope, held: Option<Held>)
    ensures Decode(e, held).Ok? <==>
      && e.payload == e.digestOf && |e.payload| == e.payloadLength && IsSectionKey(e.sectionKey)
      && if e.encoding == DeltaEncoding
         then held.Some? && e.baseRevision == Some(held.value.revision) && Behind(held.value, e.sectionRevision)
              && OffsetsFit(e.payload)
         else e.baseRevision.None? && (held.Some? ==> Behind(held.value, e.sectionRevision))
              && FullBodyFits(e.encoding, e.payload)
    ensures Decode(e, held).Ok? ==>
      Decode(e, held).value.revision == e.sectionRevision && SectionKey(Decode(e, held).value.section) == e.sectionKey
  {
    hide ParseSection;
    hide SectionKey;
    hide DecodeFull;
    hide FullBodyFits;
    hide OffsetsFit;
    hide ApplyBytes;
    if e.encoding != DeltaEncoding {
      FullBodiesExactly(e.encoding, e.payload);
    } else if held.Some? && |e.payload| % 6 == 0 {
      BytesApplyExactly(held.value.cells, e.payload);
    }
    WholeEntries(e.payload);
    if ParseSection(e.sectionKey).Ok? {
      ParseSectionIsExact(e.sectionKey, ParseSection(e.sectionKey).value);
    }
  }

  lemma WholeEntries(payload: ByteString)
    ensures OffsetsFit(payload) ==> |payload| % 6 == 0
  {
  }

  /** Each refusal of an envelope, in the order in which the source looks. */
  lemma DecodeRefusals(e: Envelope, held: Option<Held>)
    ensures var r := Decode(e, held);
      if e.payload != e.digestOf then r == Err(DigestMismatch)
      else if |e.payload| != e.payloadLength then r == Err(EncodingMismatch)
      else if !IsSectionKey(e.sectionKey) then r.Err? && r.error.BadKey?
      else if e.encoding == DeltaEncoding then
        if held.None? then r == Err(DeltaUsedForFirstDelivery)
        else if e.baseRevision != Some(held.value.revision) || !Behind(held.value, e.sectionRevision)
        then r == Err(DeltaBaseRevisionMismatch)
        else if |e.payload| % 6 != 0 then r == Err(EncodingMismatch)
        else !OffsetsFit(e.payload) ==> r == Err(CellOffsetOutOfRange)
      else if e.baseRevision.Some? then r == Err(BaseRevisionOnFullEncoding)
      else held.Some? && !Behind(held.value, e.sectionRevision) ==> r == Err(StaleSectionRevision)
  {
    hide ParseSection;
    hide DecodeFull;
    hide OffsetsFit;
    hide ApplyBytes;
    if e.encoding == DeltaEncoding && held.Some? && |e.payload| % 6 == 0 {
      BytesApplyExactly(held.value.cells, e.payload);
    }
  }
}
