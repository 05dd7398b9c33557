/**
 What one section stores: a single block, a palette with per-cell slots, or every cell by itself.

 The storage is proved to behave exactly like a plain array of cells, and its canonical form to be a
 function of those cells alone.
 */
module PaletteStorage {
  import opened Collections
  import opened Wrappers
  import opened Blocks

  const CELL_COUNT: nat := SECTION_CELLS
  const PALETTE_CAPACITY: nat := 256

  /** A palette index as stored per cell. */
  type Slot = Byte

  datatype Encoding = UniformEncoding | PaletteEncoding | RawEncoding | DeltaEncoding

  datatype CapacityAction =
    | NotNeeded
    | ReusedDeadSlot(cellIndexChanged: bool)
    | EscalatedAfterFullScan

  datatype StorageState =
    | Uniform(block: BlockId)
    | Palette(entries: seq<BlockId>, slots: seq<Slot>)
    | Raw(cells: seq<BlockId>)

  // ---- the abstract view

  function Elems(s: seq<BlockId>): set<BlockId> {
    set b | b in s
  }

  predicate Unique(s: seq<BlockId>) {
    forall i, j :: 0 <= i < j < |s| ==> s[i] != s[j]
  }

  predicate ValidPalette(entries: seq<BlockId>, slots: seq<Slot>) {
    && |slots| == CELL_COUNT
    && 2 <= |entries| <= PALETTE_CAPACITY
    && Unique(entries)
    && forall i :: 0 <= i < |slots| ==> slots[i] < |entries|
  }

  /** Palette entries are distinct, indices are in range, and Raw is used only when it has to be. */
  predicate ValidState(s: StorageState) {
    match s
    case Uniform(_) => true
    case Palette(entries, slots) => ValidPalette(entries, slots)
    case Raw(cells) => |cells| == CELL_COUNT && |Elems(cells)| > PALETTE_CAPACITY
  }

  function ReadState(s: StorageState, offset: CellOffset): BlockId
    requires ValidState(s)
  {
    match s
    case Uniform(block) => block
    case Palette(entries, slots) => entries[slots[offset]]
    case Raw(cells) => cells[offset]
  }

  /** The plain array a storage stands for. */
  function Content(s: StorageState): (cells: Cells)
    requires ValidState(s)
    ensures forall i: CellOffset :: cells[i] == ReadState(s, i)
  {
    seq(CELL_COUNT, i requires 0 <= i < CELL_COUNT => ReadState(s, i))
  }

  function EncodingOf(s: StorageState): Encoding {
    match s
    case Uniform(_) => UniformEncoding
    case Palette(_, _) => PaletteEncoding
    case Raw(_) => RawEncoding
  }

  // ---- cardinalities

  lemma {:induction false} UniqueCardinality(s: seq<BlockId>)
    requires Unique(s)
    ensures |Elems(s)| == |s|
  {
    if s != [] {
      var p, last := s[..|s| - 1], s[|s| - 1];
      UniqueCardinality(p);
      assert s == p + [last];
      assert Elems(s) == Elems(p) + {last};
    }
  }

  // ---- the canonical form

  /** Distinct elements in order of first occurrence. */
  function FirstSeen(s: seq<BlockId>): (entries: seq<BlockId>)
    ensures Unique(entries)
    ensures Elems(entries) == Elems(s)
  {
    if s == [] then [] else
    var before, last := FirstSeen(s[..|s| - 1]), s[|s| - 1];
    assert s == s[..|s| - 1] + [last];
    assert Elems(s) == Elems(before) + {last};
    if last in before then before else before + [last]
  }

  /** Where an entry first stands. */
  function Position(entries: seq<BlockId>, b: BlockId): (i: nat)
    requires b in entries
    ensures i < |entries| && entries[i] == b
    ensures forall j :: 0 <= j < i ==> entries[j] != b
  {
    if entries[0] == b then 0 else 1 + Position(entries[1..], b)
  }

  /** The best storage for given cells: Uniform, else Palette, else Raw. */
  function OptimalState(cells: Cells): (s: StorageState)
    ensures ValidState(s) && Content(s) == cells
  {
    var entries := FirstSeen(cells);
    UniqueCardinality(entries);
    assert cells[0] in Elems(entries);
    if |entries| > PALETTE_CAPACITY then Raw(cells)
    else if |entries| == 1 then
      assert forall i: CellOffset :: cells[i] in Elems(entries);
      Uniform(entries[0])
    else
      assert forall i :: 0 <= i < CELL_COUNT ==> cells[i] in Elems(entries);
      Palette(entries, seq(CELL_COUNT, i requires 0 <= i < CELL_COUNT => Position(entries, cells[i])))
  }

  /** The canonical encoding is fixed by the number of distinct block identities. */
  lemma CanonicalEncoding(cells: Cells)
    ensures EncodingOf(OptimalState(cells))
         == if |Elems(cells)| > PALETTE_CAPACITY then RawEncoding
            else if |Elems(cells)| == 1 then UniformEncoding else PaletteEncoding
  {
    UniqueCardinality(FirstSeen(cells));
  }

  /** Raw is used exactly when more distinct identities are present than a palette can hold. */
  lemma RawExactlyWhenUnavoidable(s: StorageState)
    requires ValidState(s)
    ensures s.Raw? <==> |Elems(Content(s))| > PALETTE_CAPACITY
  {
    match s
    case Uniform(block) =>
      SubsetSize(Elems(Content(s)), {block});
    case Palette(entries, slots) =>
      UniqueCardinality(entries);
      SubsetSize(Elems(Content(s)), Elems(entries));
    case Raw(cells) =>
      assert Content(s) == cells;
  }

  // ---- scans, as in the source

  /** Indices of the first cells into the entries first seen among them. */
  ghost predicate Indexed(cells: seq<BlockId>, entries: seq<BlockId>, indices: seq<Slot>) {
    && entries == FirstSeen(cells) && |indices| == |cells|
    && forall i :: 0 <= i < |cells| ==> cells[i] in entries && indices[i] == Position(entries, cells[i])
  }

  lemma IndexedStep(cells: seq<BlockId>, entries: seq<BlockId>, indices: seq<Slot>, block: BlockId)
    requires Indexed(cells, entries, indices)
    requires |entries| <= PALETTE_CAPACITY
    ensures block in entries ==> Indexed(cells + [block], entries, indices + [Position(entries, block)])
    ensures block !in entries && |entries| < PALETTE_CAPACITY
        ==> Indexed(cells + [block], entries + [block], indices + [|entries|])
  {
    hide Position;
    var more := cells + [block];
    assert more[..|more| - 1] == cells;
    if block !in entries {
      PositionKept(entries, block);
    }
  }

  lemma NothingIndexed(cells: seq<BlockId>)
    ensures Indexed(cells[..0], [], [])
  {
  }

  lemma IndexedIsCanonical(cells: Cells, entries: seq<BlockId>, indices: seq<Slot>)
    requires Indexed(cells, entries, indices) && |entries| <= PALETTE_CAPACITY
    ensures |Elems(cells)| <= PALETTE_CAPACITY
    ensures OptimalState(cells) == if |entries| == 1 then Uniform(entries[0]) else Palette(entries, indices)
  {
    hide Position;
    hide FirstSeen;
    UniqueCardinality(entries);
    if |entries| != 1 {
      assert indices == OptimalState(cells).slots;
    }
  }

  /** None when the cells need more entries than a palette holds. */
  method PaletteOrUniform(cells: Cells) returns (r: Option<StorageState>)
    ensures r == if |Elems(cells)| > PALETTE_CAPACITY then None else Some(OptimalState(cells))
  {
    hide Indexed;
    hide Position;
    hide OptimalState;
    hide FirstSeen;
    var entries: seq<BlockId> := [];
    var indices: seq<Slot> := [];
    NothingIndexed(cells);
    for cell := 0 to CELL_COUNT
      invariant Indexed(cells[..cell], entries, indices) && |entries| <= PALETTE_CAPACITY
    {
      var block := cells[cell];
      assert cells[..cell + 1] == cells[..cell] + [block];
      IndexedStep(cells[..cell], entries, indices, block);
      if block in entries {
        indices := indices + [Position(entries, block)];
      } else if |entries| < PALETTE_CAPACITY {
        indices := indices + [|entries|];
        entries := entries + [block];
      } else {
        FullPaletteOverflows(cells, entries, indices, cell);
        return None;
      }
    }
    assert cells[..CELL_COUNT] == cells;
    IndexedIsCanonical(cells, entries, indices);
    r := Some(if |entries| == 1 then Uniform(entries[0]) else Palette(entries, indices));
  }

  lemma FullPaletteOverflows(cells: Cells, entries: seq<BlockId>, indices: seq<Slot>, cell: nat)
    requires cell < CELL_COUNT
    requires Indexed(cells[..cell], entries, indices)
    requires |entries| == PALETTE_CAPACITY && cells[cell] !in entries
    ensures |Elems(cells)| > PALETTE_CAPACITY
  {
    UniqueCardinality(entries);
    assert |Elems(entries) + {cells[cell]}| == PALETTE_CAPACITY + 1;
    SubsetSize(Elems(entries) + {cells[cell]}, Elems(cells));
  }

  lemma PositionKept(entries: seq<BlockId>, block: BlockId)
    requires block !in entries
    ensures forall b :: b in entries ==> Position(entries + [block], b) == Position(entries, b)
    ensures Position(entries + [block], block) == |entries|
  {
    forall b | b in entries ensures Position(entries + [block], b) == Position(entries, b) {
      var i, j := Position(entries, b), Position(entries + [block], b);
      assert (entries + [block])[i] == b;
    }
    assert (entries + [block])[|entries|] == block;
  }

  /** A 64-bit word, given by the positions of its set bits. */
  type Word = bits: set<nat> | forall bit :: bit in bits ==> bit < 64

  /** Slot bitmap: four words. */
  predicate IsSlotLive(live: seq<Word>, slot: nat)
    requires |live| == 4 && slot < PALETTE_CAPACITY
  {
    slot % 64 in live[slot / 64]
  }

  function MarkedLive(live: seq<Word>, slot: nat): (r: seq<Word>)
    requires |live| == 4 && slot < PALETTE_CAPACITY
    ensures |r| == 4
    ensures forall k :: 0 <= k < PALETTE_CAPACITY ==> (IsSlotLive(r, k) <==> k == slot || IsSlotLive(live, k))
  {
    var r := live[slot / 64 := live[slot / 64] + {slot % 64}];
    assert forall k :: 0 <= k < PALETTE_CAPACITY ==> k == 64 * (k / 64) + k % 64;
    r
  }

  /** Some cell other than the excluded one uses the slot. */
  predicate UsedElsewhere(slots: seq<Slot>, excluded: nat, slot: nat) {
    exists cell :: 0 <= cell < |slots| && cell != excluded && slots[cell] == slot
  }

  method LiveSlotsExcluding(slots: seq<Slot>, excluded: nat) returns (live: seq<Word>)
    ensures |live| == 4
    ensures forall slot :: 0 <= slot < PALETTE_CAPACITY ==>
      (IsSlotLive(live, slot) <==> UsedElsewhere(slots, excluded, slot))
  {
    hide IsSlotLive;
    hide UsedElsewhere;
    live := [{}, {}, {}, {}];
    NoSlotLive(slots, excluded);
    for cell := 0 to |slots|
      invariant |live| == 4
      invariant forall k :: 0 <= k < PALETTE_CAPACITY ==>
        (IsSlotLive(live, k) <==> UsedElsewhere(slots[..cell], excluded, k))
    {
      var slot := slots[cell];
      if cell != excluded {
        live := MarkedLive(live, slot);
      }
      forall k | 0 <= k < PALETTE_CAPACITY
        ensures IsSlotLive(live, k) <==> UsedElsewhere(slots[..cell + 1], excluded, k)
      {
        UsedStep(slots, excluded, k, cell);
      }
    }
    assert slots[..|slots|] == slots;
  }

  lemma NoSlotLive(slots: seq<Slot>, excluded: nat)
    ensures forall k :: 0 <= k < PALETTE_CAPACITY ==> !IsSlotLive([{}, {}, {}, {}], k)
    ensures forall k :: !UsedElsewhere(slots[..0], excluded, k)
  {
  }

  lemma UsedStep(slots: seq<Slot>, excluded: nat, k: nat, cell: nat)
    requires cell < |slots|
    ensures UsedElsewhere(slots[..cell + 1], excluded, k)
       <==> UsedElsewhere(slots[..cell], excluded, k) || (cell != excluded && slots[cell] == k)
  {
    if UsedElsewhere(slots[..cell], excluded, k) {
      var c :| 0 <= c < cell && c != excluded && slots[..cell][c] == k;
      assert slots[..cell + 1][c] == k;
    }
    if cell != excluded && slots[cell] == k {
      assert slots[..cell + 1][cell] == k;
    }
    if UsedElsewhere(slots[..cell + 1], excluded, k) {
      var c :| 0 <= c < cell + 1 && c != excluded && slots[..cell + 1][c] == k;
      assert c < cell ==> slots[..cell][c] == k;
    }
  }

  // ---- writing through a palette

  datatype PaletteWrite =
    | Complete(action: CapacityAction, entries: seq<BlockId>, slots: seq<Slot>)
    | Escalate(raw: Cells)

  /** Content of a palette. */
  function Looked(entries: seq<BlockId>, slots: seq<Slot>): Cells
    requires ValidPalette(entries, slots)
  {
    Content(Palette(entries, slots))
  }

  /** Overwriting a slot no other cell uses changes the written cell only. */
  lemma DeadSlotReuse(entries: seq<BlockId>, slots: seq<Slot>, cell: CellOffset, block: BlockId, slot: Slot)
    requires ValidPalette(entries, slots) && block !in entries && slot < |entries|
    requires !UsedElsewhere(slots, cell, slot)
    ensures ValidPalette(entries[slot := block], slots[cell := slot])
    ensures Looked(entries[slot := block], slots[cell := slot]) == Looked(entries, slots)[cell := block]
  {
    var e, t := entries[slot := block], slots[cell := slot];
    forall i: CellOffset ensures e[t[i]] == Looked(entries, slots)[cell := block][i] {
      assert i != cell ==> slots[i] != slot;
    }
  }

  lemma PointAtEntry(entries: seq<BlockId>, slots: seq<Slot>, cell: CellOffset, slot: Slot)
    requires ValidPalette(entries, slots) && slot < |entries|
    ensures ValidPalette(entries, slots[cell := slot])
    ensures Looked(entries, slots[cell := slot]) == Looked(entries, slots)[cell := entries[slot]]
  {
  }

  /** Appending a new entry changes the written cell only. */
  lemma AppendEntry(entries: seq<BlockId>, slots: seq<Slot>, cell: CellOffset, block: BlockId)
    requires ValidPalette(entries, slots) && block !in entries && |entries| < PALETTE_CAPACITY
    ensures ValidPalette(entries + [block], slots[cell := |entries|])
    ensures Looked(entries + [block], slots[cell := |entries|]) == Looked(entries, slots)[cell := block]
  {
    var e, t := entries + [block], slots[cell := |entries|];
    forall i: CellOffset ensures e[t[i]] == Looked(entries, slots)[cell := block][i] {
    }
  }

  /** With every slot of a full palette in use elsewhere, the write needs one identity too many. */
  lemma EscalationIsUnavoidable(entries: seq<BlockId>, slots: seq<Slot>, cell: CellOffset, block: BlockId)
    requires ValidPalette(entries, slots) && block !in entries && |entries| == PALETTE_CAPACITY
    requires forall slot :: 0 <= slot < PALETTE_CAPACITY ==> UsedElsewhere(slots, cell, slot)
    ensures |Elems(Looked(entries, slots)[cell := block])| > PALETTE_CAPACITY
  {
    var after := Looked(entries, slots)[cell := block];
    forall b | b in Elems(entries) ensures b in Elems(after) {
      var slot :| 0 <= slot < |entries| && entries[slot] == b;
      assert UsedElsewhere(slots, cell, slot);
      var c :| 0 <= c < |slots| && c != cell && slots[c] == slot;
      assert after[c] == b;
    }
    assert after[cell] == block;
    UniqueCardinality(entries);
    assert |Elems(entries) + {block}| == PALETTE_CAPACITY + 1;
    SubsetSize(Elems(entries) + {block}, Elems(after));
  }

  /** A palette that needs no escalation still fits. */
  lemma ReuseFits(entries: seq<BlockId>, slots: seq<Slot>)
    requires ValidPalette(entries, slots)
    ensures |Elems(Looked(entries, slots))| <= PALETTE_CAPACITY
  {
    RawExactlyWhenUnavoidable(Palette(entries, slots));
  }

  method WritePalette(entries: seq<BlockId>, slots: seq<Slot>, cell: CellOffset, block: BlockId)
    returns (r: PaletteWrite)
    requires ValidPalette(entries, slots)
    requires entries[slots[cell]] != block
    ensures r.Complete? ==>
      && ValidPalette(r.entries, r.slots)
      && Looked(r.entries, r.slots) == Looked(entries, slots)[cell := block]
      && r.action == (if block in entries || |entries| < PALETTE_CAPACITY then NotNeeded
                      else ReusedDeadSlot(UsedElsewhere(slots, cell, slots[cell])))
    ensures r.Escalate? ==> r.raw == Looked(entries, slots)[cell := block]
    ensures r.Escalate? <==> |Elems(Looked(entries, slots)[cell := block])| > PALETTE_CAPACITY
  {
    var oldSlot := slots[cell];
    if block in entries {
      var slot := Position(entries, block);
      PointAtEntry(entries, slots, cell, slot);
      r := Complete(NotNeeded, entries, slots[cell := slot]);
      ReuseFits(r.entries, r.slots);
      return;
    }
    if |entries| < PALETTE_CAPACITY {
      AppendEntry(entries, slots, cell, block);
      r := Complete(NotNeeded, entries + [block], slots[cell := |entries|]);
      ReuseFits(r.entries, r.slots);
      return;
    }
    var live := LiveSlotsExcluding(slots, cell);
    var slot := if !IsSlotLive(live, oldSlot) then oldSlot else 0;
    if IsSlotLive(live, oldSlot) {
      while slot < PALETTE_CAPACITY && IsSlotLive(live, slot)
        invariant 0 <= slot <= PALETTE_CAPACITY
        invariant forall k :: 0 <= k < slot ==> IsSlotLive(live, k)
      {
        slot := slot + 1;
      }
    }
    if slot < PALETTE_CAPACITY {
      DeadSlotReuse(entries, slots, cell, block, slot);
      r := Complete(ReusedDeadSlot(slots[cell] != slot), entries[slot := block], slots[cell := slot]);
      ReuseFits(r.entries, r.slots);
      return;
    }
    EscalationIsUnavoidable(entries, slots, cell, block);
    var raw: seq<BlockId> := [];
    for i := 0 to CELL_COUNT
      invariant |raw| == i && forall j :: 0 <= j < i ==> raw[j] == entries[slots[j]]
    {
      raw := raw + [entries[slots[i]]];
    }
    r := Escalate(raw[cell := block]);
  }

  /** One write cannot leave a single identity where there were more than fit a palette. */
  lemma RawNeverTurnsUniform(cells: Cells, cell: CellOffset, block: BlockId)
    requires |Elems(cells)| > PALETTE_CAPACITY
    ensures !OptimalState(cells[cell := block]).Uniform?
  {
    var updated: Cells := cells[cell := block];
    var small := OptimalState(updated);
    hide OptimalState;
    if small.Uniform? {
      forall b | b in Elems(cells) ensures b in {small.block, cells[cell]} {
        var i: CellOffset :| cells[i] == b;
        assert Content(small)[i] == updated[i];
      }
      SubsetSize(Elems(cells), {small.block, cells[cell]});
      assert false;
    }
  }

  // ---- the storage object

  datatype WriteOutcome = WriteOutcome(encoding: Encoding, action: CapacityAction)

  class SectionStorage {
    var state: StorageState

    ghost predicate Valid()
      reads this
    {
      ValidState(state)
    }

    constructor Uniform(block: BlockId)
      ensures Valid() && Content(state) == seq(CELL_COUNT, _ => block)
    {
      state := StorageState.Uniform(block);
    }

    constructor FromCells(cells: Cells)
      ensures Valid() && state == OptimalState(cells) && Content(state) == cells
    {
      state := StorageState.Uniform(0);
      new;
      var small := PaletteOrUniform(cells);
      UniqueCardinality(FirstSeen(cells));
      state := if small.Some? then small.value else Raw(cells);
    }

    constructor Clone(of: StorageState)
      requires ValidState(of)
      ensures Valid() && state == of
    {
      state := of;
    }

    method Read(offset: CellOffset) returns (block: BlockId)
      requires Valid()
      ensures block == Content(state)[offset]
    {
      block := match state
        case Uniform(b) => b
        case Palette(entries, slots) => entries[slots[offset]]
        case Raw(cells) => cells[offset];
    }

    /** One cell changes, no other does; the storage grows only when it must and never turns Uniform again. */
    method Write(offset: CellOffset, block: BlockId) returns (outcome: WriteOutcome)
      requires Valid()
      modifies this
      ensures Valid()
      ensures Content(state) == old(Content(state))[offset := block]
      ensures outcome.encoding == EncodingOf(state)
      ensures outcome.action.EscalatedAfterFullScan? <==> old(state).Palette? && state.Raw?
      ensures outcome.action.ReusedDeadSlot? <==>
        && old(state).Palette? && state.Palette?
        && |old(state).entries| == PALETTE_CAPACITY && block !in old(state).entries
      ensures outcome.action.ReusedDeadSlot? ==>
        outcome.action.cellIndexChanged == UsedElsewhere(old(state).slots, offset, old(state).slots[offset])
      ensures old(Content(state))[offset] == block ==> state == old(state)
      ensures state.Uniform? ==> state == old(state)
    {
      ghost var goal := Content(state)[offset := block];
      var current := Read(offset);
      if current == block {
        assert goal == Content(state);
        return WriteOutcome(EncodingOf(state), NotNeeded);
      }
      var action := NotNeeded;
      match state {
        case Uniform(was) =>
          var slots: seq<Slot> := seq(CELL_COUNT, _ => 0)[offset := 1];
          state := Palette([was, block], slots);
          assert Content(state) == goal;
        case Palette(entries, slots) =>
          var written := WritePalette(entries, slots, offset, block);
          match written {
            case Complete(a, e, t) =>
              state := Palette(e, t);
              action := a;
            case Escalate(raw) =>
              state := Raw(raw);
              action := EscalatedAfterFullScan;
          }
        case Raw(cells) =>
          assert Content(state) == cells;
          var updated := cells[offset := block];
          RawNeverTurnsUniform(cells, offset, block);
          var small := PaletteOrUniform(updated);
          state := if small.Some? then small.value else Raw(updated);
      }
      outcome := WriteOutcome(EncodingOf(state), action);
    }

    /** The same cells in their canonical form. */
    method Compacted() returns (r: StorageState)
      requires Valid()
      ensures r == OptimalState(Content(state))
    {
      var expanded: seq<BlockId> := [];
      for i := 0 to CELL_COUNT
        invariant |expanded| == i && forall j :: 0 <= j < i ==> expanded[j] == Content(state)[j]
      {
        var block := Read(i);
        expanded := expanded + [block];
      }
      assert expanded == Content(state);
      var small := PaletteOrUniform(expanded);
      UniqueCardinality(FirstSeen(expanded));
      r := if small.Some? then small.value else Raw(expanded);
    }
  }
}
