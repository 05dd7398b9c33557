/** Block/entity binding of one section: sparse references, transactions and their publication. */
module Binding {
  import opened Wrappers
  import opened Text
  import opened Blocks
  import Storage = PaletteStorage

  datatype BindingError =
    | EntityBindingMissing
    | EntityBindingOrphan
    | EntityBindingTypeMismatch
    | EntityBindingNotSparse
    | BindingCommitSplit

  /** Which entity type a block type needs, if any. */
  type Policy = nat -> Option<string>

  datatype EntityRecord = EntityRecord(id: string, entityType: string, alive: bool)

  type References = map<CellOffset, string>

  type Entities = map<string, EntityRecord>

  datatype BindingState = BindingState(section: Storage.StorageState, references: References, entities: Entities)

  function BlockType(block: BlockId): nat {
    block / 256
  }

  /** The low eight bits of a block identity. */
  function BlockState(block: BlockId): Byte {
    block % 256
  }

  /** A block identity from a 24-bit type and a state. */
  function BlockFromParts(blockType: nat, state: Byte): BlockId
    requires blockType < 0x100_0000
  {
    256 * blockType + state
  }

  /** Type and state are the upper 24 and the lower 8 bits, and determine the block. */
  lemma BlockParts(block: BlockId, blockType: nat, state: Byte)
    requires blockType < 0x100_0000
    ensures BlockType(block) < 0x100_0000 && block == 0x100 * BlockType(block) + BlockState(block)
    ensures BlockFromParts(blockType, state) == block <==> BlockType(block) == blockType && BlockState(block) == state
  {
  }

  function Expected(cells: Cells, policy: Policy, cell: CellOffset): Option<string> {
    policy(BlockType(cells[cell]))
  }

  // ---- the binding invariant

  /**
   The references are a bijection from the cells whose block type needs an entity onto the registry, and every
   entity is alive and of the type its block expects.
   */
  ghost predicate WellBound(cells: Cells, references: References, entities: Entities, policy: Policy) {
    && (forall cell: CellOffset :: cell in references <==> Expected(cells, policy, cell).Some?)
    && (forall cell :: cell in references ==>
          && references[cell] in entities && entities[references[cell]].alive
          && Expected(cells, policy, cell) == Some(entities[references[cell]].entityType))
    && (forall a, b :: a in references && b in references && references[a] == references[b] ==> a == b)
    && (forall id :: id in entities ==> IsReferenced(references, id))
  }

  ghost predicate IsReferenced(references: References, id: string) {
    exists cell :: cell in references && references[cell] == id
  }

  function OffsetsOf(references: References, id: string): set<CellOffset> {
    set cell | cell in references && references[cell] == id
  }

  lemma OneOffset(references: References, id: string)
    ensures |OffsetsOf(references, id)| == 1 <==>
      && IsReferenced(references, id)
      && forall a, b :: a in references && b in references && references[a] == id && references[b] == id ==> a == b
  {
    var offsets := OffsetsOf(references, id);
    if |offsets| == 1 {
      var only :| only in offsets;
      assert offsets == {only} by {
        assert |offsets - {only}| == 0;
      }
      forall a, b | a in references && b in references && references[a] == id && references[b] == id ensures a == b {
        assert a in offsets && b in offsets;
      }
    }
    if IsReferenced(references, id)
       && forall a, b :: a in references && b in references && references[a] == id && references[b] == id ==> a == b {
      var cell :| cell in references && references[cell] == id;
      assert offsets == {cell};
    }
  }

  // ---- validation

  predicate ReferenceHolds(cells: Cells, references: References, entities: Entities, policy: Policy, cell: CellOffset) {
    cell in references ==>
      && references[cell] in entities && entities[references[cell]].alive
      && Expected(cells, policy, cell) == Some(entities[references[cell]].entityType)
  }

  predicate HasWrongType(cells: Cells, references: References, entities: Entities, policy: Policy, cell: CellOffset) {
    && cell in references && references[cell] in entities && entities[references[cell]].alive
    && Expected(cells, policy, cell).Some?
    && Expected(cells, policy, cell).value != entities[references[cell]].entityType
  }

  /** A reference on a cell whose block needs no entity. */
  predicate IsStray(cells: Cells, references: References, policy: Policy, cell: CellOffset) {
    cell in references && Expected(cells, policy, cell).None?
  }

  /** A reference whose entity is not registered or not alive. */
  predicate LacksEntity(references: References, entities: Entities, cell: CellOffset) {
    cell in references && (references[cell] !in entities || !entities[references[cell]].alive)
  }

  /** A cell whose block needs an entity and that has no reference. */
  predicate LacksReference(cells: Cells, references: References, policy: Policy, cell: CellOffset) {
    Expected(cells, policy, cell).Some? && cell !in references
  }

  method CheckReferences(cells: Cells, references: References, entities: Entities, policy: Policy)
    returns (r: Outcome<BindingError>)
    ensures r.Pass? <==> forall cell: CellOffset :: ReferenceHolds(cells, references, entities, policy, cell)
    ensures r.Fail? ==> match r.error
      case EntityBindingOrphan => exists cell :: IsStray(cells, references, policy, cell)
      case EntityBindingMissing => exists cell :: LacksEntity(references, entities, cell)
      case EntityBindingTypeMismatch => exists cell :: HasWrongType(cells, references, entities, policy, cell)
      case EntityBindingNotSparse => false
      case BindingCommitSplit => false
  {
    for i := 0 to SECTION_CELLS
      invariant forall cell: CellOffset :: cell < i ==> ReferenceHolds(cells, references, entities, policy, cell)
    {
      var cell: CellOffset := i;
      if cell in references {
        var expected := Expected(cells, policy, cell);
        if expected.None? {
          assert IsStray(cells, references, policy, cell);
          assert !ReferenceHolds(cells, references, entities, policy, cell);
          return Fail(EntityBindingOrphan);
        }
        if references[cell] !in entities || !entities[references[cell]].alive {
          assert LacksEntity(references, entities, cell);
          assert !ReferenceHolds(cells, references, entities, policy, cell);
          return Fail(EntityBindingMissing);
        }
        if entities[references[cell]].entityType != expected.value {
          assert HasWrongType(cells, references, entities, policy, cell);
          assert !ReferenceHolds(cells, references, entities, policy, cell);
          return Fail(EntityBindingTypeMismatch);
        }
      }
      assert ReferenceHolds(cells, references, entities, policy, cell);
    }
    r := Pass;
  }

  predicate NeedMet(cells: Cells, references: References, policy: Policy, cell: CellOffset) {
    Expected(cells, policy, cell).Some? <==> cell in references
  }

  method CheckCells(cells: Cells, references: References, policy: Policy) returns (r: Outcome<BindingError>)
    ensures r.Pass? <==> forall cell: CellOffset :: NeedMet(cells, references, policy, cell)
    ensures r.Fail? ==> match r.error
      case EntityBindingOrphan => exists cell :: IsStray(cells, references, policy, cell)
      case EntityBindingMissing => exists cell :: LacksReference(cells, references, policy, cell)
      case EntityBindingTypeMismatch => false
      case EntityBindingNotSparse => false
      case BindingCommitSplit => false
  {
    for i := 0 to SECTION_CELLS
      invariant forall cell: CellOffset :: cell < i ==> NeedMet(cells, references, policy, cell)
    {
      var cell: CellOffset := i;
      var needsEntity := Expected(cells, policy, cell).Some?;
      if needsEntity && cell !in references {
        assert LacksReference(cells, references, policy, cell);
        assert !NeedMet(cells, references, policy, cell);
        return Fail(EntityBindingMissing);
      }
      if !needsEntity && cell in references {
        assert IsStray(cells, references, policy, cell);
        assert !NeedMet(cells, references, policy, cell);
        return Fail(EntityBindingOrphan);
      }
      assert NeedMet(cells, references, policy, cell);
    }
    r := Pass;
  }

  method CountOccurrences(references: References, id: string) returns (n: nat)
    ensures n == |OffsetsOf(references, id)|
  {
    n := 0;
    ghost var seen: set<CellOffset> := {};
    for i := 0 to SECTION_CELLS
      invariant forall cell: CellOffset :: cell in seen <==> cell < i && cell in references && references[cell] == id
      invariant n == |seen|
    {
      var cell: CellOffset := i;
      if cell in references && references[cell] == id {
        n := n + 1;
        seen := seen + {cell};
      }
    }
    assert seen == OffsetsOf(references, id);
  }

  method CheckEntities(references: References, entities: Entities) returns (r: Outcome<BindingError>)
    ensures r.Pass? <==> forall id :: id in entities ==> |OffsetsOf(references, id)| == 1
    ensures r.Fail? ==> r.error == EntityBindingOrphan
    ensures r.Fail? ==> exists id :: id in entities && |OffsetsOf(references, id)| != 1
  {
    var ids := SortedNames(entities.Keys);
    for i := 0 to |ids|
      invariant forall k :: 0 <= k < i ==> |OffsetsOf(references, ids[k])| == 1
    {
      var occurrences := CountOccurrences(references, ids[i]);
      assert ids[i] in entities;
      if occurrences != 1 {
        return Fail(EntityBindingOrphan);
      }
    }
    r := Pass;
  }

  lemma ChecksMeanWellBound(cells: Cells, references: References, entities: Entities, policy: Policy)
    ensures WellBound(cells, references, entities, policy) <==>
      && (forall cell: CellOffset :: ReferenceHolds(cells, references, entities, policy, cell))
      && (forall cell: CellOffset :: NeedMet(cells, references, policy, cell))
      && (forall id :: id in entities ==> |OffsetsOf(references, id)| == 1)
  {
    hide OffsetsOf;
    hide Expected;
    forall id ensures |OffsetsOf(references, id)| == 1 <==>
      && IsReferenced(references, id)
      && forall a, b :: a in references && b in references && references[a] == id && references[b] == id ==> a == b
    {
      OneOffset(references, id);
    }
    if && (forall cell: CellOffset :: ReferenceHolds(cells, references, entities, policy, cell))
       && (forall cell: CellOffset :: NeedMet(cells, references, policy, cell))
       && (forall id :: id in entities ==> |OffsetsOf(references, id)| == 1) {
      forall cell: CellOffset ensures cell in references <==> Expected(cells, policy, cell).Some? {
        assert NeedMet(cells, references, policy, cell);
      }
      forall cell | cell in references
        ensures references[cell] in entities && entities[references[cell]].alive
        ensures Expected(cells, policy, cell) == Some(entities[references[cell]].entityType)
      {
        assert ReferenceHolds(cells, references, entities, policy, cell);
      }
    }
  }

  /** Validation is exact, and each refusal has a witness of its own kind. */
  method Validate(state: BindingState, policy: Policy) returns (r: Outcome<BindingError>)
    requires Storage.ValidState(state.section)
    ensures r.Pass? <==> WellBound(Storage.Content(state.section), state.references, state.entities, policy)
    ensures r.Fail? ==>
      var cells := Storage.Content(state.section);
      match r.error
      case EntityBindingOrphan =>
        || (exists cell :: IsStray(cells, state.references, policy, cell))
        || exists id :: id in state.entities && |OffsetsOf(state.references, id)| != 1
      case EntityBindingMissing =>
        || (exists cell :: LacksEntity(state.references, state.entities, cell))
        || exists cell :: LacksReference(cells, state.references, policy, cell)
      case EntityBindingTypeMismatch =>
        exists cell :: HasWrongType(cells, state.references, state.entities, policy, cell)
      case EntityBindingNotSparse => false
      case BindingCommitSplit => false
  {
    hide IsStray;
    hide LacksEntity;
    hide LacksReference;
    hide HasWrongType;
    hide ReferenceHolds;
    hide NeedMet;
    hide OffsetsOf;
    hide WellBound;
    hide Storage.Content;
    var cells := Storage.Content(state.section);
    ChecksMeanWellBound(cells, state.references, state.entities, policy);
    r := CheckReferences(cells, state.references, state.entities, policy);
    if r.Fail? {
      return;
    }
    r := CheckCells(cells, state.references, policy);
    if r.Fail? {
      return;
    }
    r := CheckEntities(state.references, state.entities);
  }

  // ---- what placing and removing mean for the invariant

  lemma ExpectedAfterWrite(cells: Cells, policy: Policy, cell: CellOffset, block: BlockId)
    ensures forall c: CellOffset ::
      Expected(cells[cell := block], policy, c)
      == if c == cell then policy(BlockType(block)) else Expected(cells, policy, c)
  {
    var after: Cells := cells[cell := block];
    forall c: CellOffset
      ensures Expected(after, policy, c) == if c == cell then policy(BlockType(block)) else Expected(cells, policy, c)
    {
      assert after[c] == if c == cell then block else cells[c];
    }
  }

  /** References of other cells keep their entities, none of which is the one placed. */
  lemma OthersUntouched(cells: Cells, references: References, entities: Entities, policy: Policy,
                        cell: CellOffset, entity: EntityRecord, c: CellOffset)
    requires WellBound(cells, references, entities, policy)
    requires entity.id !in entities || (cell in references && references[cell] == entity.id)
    requires c in references && c != cell
    ensures references[c] in entities && references[c] != entity.id
    ensures cell in references ==> references[c] != references[cell]
    ensures entities[references[c]].alive && Expected(cells, policy, c) == Some(entities[references[c]].entityType)
  {
    hide Expected;
  }

  /** Placing a live entity of the expected type under a fresh id keeps the section well bound. */
  lemma PlaceKeepsWellBound(cells: Cells, references: References, entities: Entities, policy: Policy,
                            cell: CellOffset, block: BlockId, entity: EntityRecord)
    requires WellBound(cells, references, entities, policy)
    requires policy(BlockType(block)) == Some(entity.entityType) && entity.alive
    requires entity.id !in entities || (cell in references && references[cell] == entity.id)
    ensures var removed := if cell in references then {references[cell]} else {};
      WellBound(cells[cell := block], references[cell := entity.id], (entities - removed)[entity.id := entity], policy)
  {
    hide Expected;
    hide IsReferenced;
    var removed := if cell in references then {references[cell]} else {};
    var after, refs := cells[cell := block], references[cell := entity.id];
    var ents := (entities - removed)[entity.id := entity];
    ExpectedAfterWrite(cells, policy, cell, block);
    forall id | id in ents ensures IsReferenced(refs, id) {
      PlacedIsReferenced(references, entities, cell, entity.id, id);
    }
    forall c | c in refs
      ensures refs[c] in ents && ents[refs[c]].alive && Expected(after, policy, c) == Some(ents[refs[c]].entityType)
    {
      if c != cell {
        OthersUntouched(cells, references, entities, policy, cell, entity, c);
      }
    }
    forall x, y | x in refs && y in refs && refs[x] == refs[y] ensures x == y {
      if x != cell {
        OthersUntouched(cells, references, entities, policy, cell, entity, x);
      }
      if y != cell {
        OthersUntouched(cells, references, entities, policy, cell, entity, y);
      }
    }
    assert forall c: CellOffset :: c in refs <==> Expected(after, policy, c).Some?;
  }

  lemma PlacedIsReferenced(references: References, entities: Entities, cell: CellOffset, placed: string, id: string)
    requires id == placed
      || (id in entities && IsReferenced(references, id) && !(cell in references && references[cell] == id))
    ensures IsReferenced(references[cell := placed], id)
  {
    var refs := references[cell := placed];
    if id == placed {
      assert refs[cell] == id;
    } else {
      var c :| c in references && references[c] == id;
      assert refs[c] == id;
    }
  }

  /** Removing the block and its entity together keeps the section well bound. */
  lemma RemoveKeepsWellBound(cells: Cells, references: References, entities: Entities, policy: Policy,
                             cell: CellOffset, replacement: BlockId)
    requires WellBound(cells, references, entities, policy)
    requires policy(BlockType(replacement)) == None
    ensures var removed := if cell in references then {references[cell]} else {};
      WellBound(cells[cell := replacement], references - {cell}, entities - removed, policy)
  {
    hide Expected;
    hide IsReferenced;
    var removed := if cell in references then {references[cell]} else {};
    var after, refs, ents := cells[cell := replacement], references - {cell}, entities - removed;
    ExpectedAfterWrite(cells, policy, cell, replacement);
    forall id | id in ents ensures IsReferenced(refs, id) {
      KeptIsReferenced(references, cell, id);
    }
    assert forall c: CellOffset :: c in refs <==> Expected(after, policy, c).Some?;
  }

  lemma KeptIsReferenced(references: References, cell: CellOffset, id: string)
    requires IsReferenced(references, id) && !(cell in references && references[cell] == id)
    ensures IsReferenced(references - {cell}, id)
  {
    var c :| c in references && references[c] == id;
    assert (references - {cell})[c] == id;
  }

  // ---- transactions

  type BlockChanges = map<CellOffset, BlockId>
  type ReferenceChanges = map<CellOffset, Option<string>>
  type EntityChanges = map<string, Option<EntityRecord>>

  datatype Transaction = Transaction(
    base: BindingState,
    blockChanges: BlockChanges,
    referenceChanges: ReferenceChanges,
    entityChanges: EntityChanges,
    commitId: Option<U64>,
    split: bool)

  /** Changes laid over a map: `Some` puts, `None` removes. */
  function Merged<K(==), V>(base: map<K, V>, changes: map<K, Option<V>>): map<K, V> {
    map k | k in base.Keys + changes.Keys && (k in changes ==> changes[k].Some?) ::
      if k in changes then changes[k].value else base[k]
  }

  function MergedCells(cells: Cells, changes: BlockChanges): (after: Cells)
    ensures forall c: CellOffset :: after[c] == if c in changes then changes[c] else cells[c]
  {
    seq(SECTION_CELLS, i requires 0 <= i < SECTION_CELLS => if i in changes then changes[i] else cells[i])
  }

  /** The commit ids seen so far: the first one, and whether another one followed. */
  function Observe(seen: (Option<U64>, bool), commitId: U64): (Option<U64>, bool) {
    if seen.0.None? then (Some(commitId), seen.1)
    else (seen.0, seen.1 || seen.0.value != commitId)
  }

  function ObserveAll(ids: seq<U64>): (Option<U64>, bool) {
    if ids == [] then (None, false) else Observe(ObserveAll(ids[..|ids| - 1]), ids[|ids| - 1])
  }

  /** A transaction is split exactly when two of its changes carry different commit ids. */
  lemma {:induction false} SplitIsExact(ids: seq<U64>)
    ensures ObserveAll(ids).0 == if ids == [] then None else Some(ids[0])
    ensures ObserveAll(ids).1 <==> exists i, j :: 0 <= i < |ids| && 0 <= j < |ids| && ids[i] != ids[j]
  {
    if ids != [] {
      var init := ids[..|ids| - 1];
      SplitIsExact(init);
      assert forall i :: 0 <= i < |init| ==> init[i] == ids[i];
      if ObserveAll(ids).1 {
        if ObserveAll(init).1 {
          var i, j :| 0 <= i < |init| && 0 <= j < |init| && init[i] != init[j];
          assert ids[i] != ids[j];
        } else {
          assert ids[0] != ids[|ids| - 1];
        }
      }
      if i, j :| 0 <= i < |ids| && 0 <= j < |ids| && ids[i] != ids[j] {
        if !ObserveAll(init).1 {
          assert forall k :: 0 <= k < |init| ==> init[k] == init[0];
        }
      }
    }
  }

  class BindingTransaction {
    const base: BindingState
    var blockChanges: BlockChanges
    var referenceChanges: ReferenceChanges
    var entityChanges: EntityChanges
    var commitId: Option<U64>
    var split: bool

    function Model(): Transaction
      reads this
    {
      Transaction(base, blockChanges, referenceChanges, entityChanges, commitId, split)
    }

    constructor Begin(base: BindingState)
      ensures Model() == Transaction(base, map[], map[], map[], None, false)
    {
      this.base := base;
      blockChanges := map[];
      referenceChanges := map[];
      entityChanges := map[];
      commitId := None;
      split := false;
    }

    method ObserveCommit(id: U64)
      modifies this`commitId, this`split
      ensures (commitId, split) == Observe((old(commitId), old(split)), id)
    {
      if commitId.Some? {
        if commitId.value != id {
          split := true;
        }
      } else {
        commitId := Some(id);
      }
    }

    method SetBlock(id: U64, cell: CellOffset, block: BlockId)
      modifies this
      ensures (commitId, split) == Observe((old(commitId), old(split)), id)
      ensures blockChanges == old(blockChanges)[cell := block]
      ensures referenceChanges == old(referenceChanges) && entityChanges == old(entityChanges)
    {
      ObserveCommit(id);
      blockChanges := blockChanges[cell := block];
    }

    method SetReference(id: U64, cell: CellOffset, entityId: Option<string>)
      modifies this
      ensures (commitId, split) == Observe((old(commitId), old(split)), id)
      ensures referenceChanges == old(referenceChanges)[cell := entityId]
      ensures blockChanges == old(blockChanges) && entityChanges == old(entityChanges)
    {
      ObserveCommit(id);
      referenceChanges := referenceChanges[cell := entityId];
    }

    method SetEntity(id: U64, entityId: string, entity: Option<EntityRecord>)
      requires entity.Some? ==> entity.value.id == entityId
      modifies this
      ensures (commitId, split) == Observe((old(commitId), old(split)), id)
      ensures entityChanges == old(entityChanges)[entityId := entity]
      ensures blockChanges == old(blockChanges) && referenceChanges == old(referenceChanges)
    {
      ObserveCommit(id);
      entityChanges := entityChanges[entityId := entity];
    }

    /** The entity bound to the cell as far as this transaction has got. */
    function PreviousEntity(cell: CellOffset): Option<string>
      reads this
    {
      if cell in referenceChanges && referenceChanges[cell].Some? then referenceChanges[cell]
      else if cell in base.references then Some(base.references[cell])
      else None
    }

    /** Stage block, reference and entity together; an entity this replaces is retired. */
    method Place(cell: CellOffset, block: BlockId, entity: EntityRecord)
      modifies this
      ensures blockChanges == old(blockChanges)[cell := block]
      ensures referenceChanges == old(referenceChanges)[cell := Some(entity.id)]
      ensures var previous := old(PreviousEntity(cell));
        entityChanges == if previous.Some? && previous.value != entity.id
                         then old(entityChanges)[entity.id := Some(entity)][previous.value := None]
                         else old(entityChanges)[entity.id := Some(entity)]
      ensures split == old(split) && commitId == if old(commitId).Some? then old(commitId) else Some(0)
    {
      var previous := PreviousEntity(cell);
      var id := if commitId.Some? then commitId.value else 0;
      SetBlock(id, cell, block);
      SetReference(id, cell, Some(entity.id));
      SetEntity(id, entity.id, Some(entity));
      if previous.Some? && referenceChanges[cell] != previous {
        SetEntity(id, previous.value, None);
      }
    }

    /** Stage the replacement block and retire the reference and its entity. */
    method Remove(cell: CellOffset, replacement: BlockId)
      modifies this
      ensures blockChanges == old(blockChanges)[cell := replacement]
      ensures referenceChanges == old(referenceChanges)[cell := None]
      ensures var previous := old(PreviousEntity(cell));
        entityChanges == if previous.Some? then old(entityChanges)[previous.value := None] else old(entityChanges)
      ensures split == old(split) && commitId == if old(commitId).Some? then old(commitId) else Some(0)
    {
      var previous := PreviousEntity(cell);
      var id := if commitId.Some? then commitId.value else 0;
      SetBlock(id, cell, replacement);
      SetReference(id, cell, None);
      if previous.Some? {
        SetEntity(id, previous.value, None);
      }
    }
  }

  // ---- commit

  method ApplyBlocks(section: Storage.StorageState, changes: BlockChanges) returns (after: Storage.StorageState)
    requires Storage.ValidState(section)
    ensures Storage.ValidState(after)
    ensures Storage.Content(after) == MergedCells(Storage.Content(section), changes)
    ensures after.Uniform? ==> after == section
  {
    hide Storage.ValidState;
    hide Storage.Content;
    hide MergedCells;
    ghost var cells := Storage.Content(section);
    ghost var goal := MergedCells(cells, changes);
    var storage := new Storage.SectionStorage.Clone(section);
    for i := 0 to SECTION_CELLS
      invariant storage.Valid() && (storage.state.Uniform? ==> storage.state == section)
      invariant forall c: CellOffset ::
        Storage.Content(storage.state)[c] == if c < i && c in changes then changes[c] else cells[c]
    {
      var cell: CellOffset := i;
      if cell in changes {
        var _ := storage.Write(cell, changes[cell]);
      }
    }
    assert forall c: CellOffset :: Storage.Content(storage.state)[c] == goal[c];
    SameCells(Storage.Content(storage.state), goal);
    after := storage.state;
  }

  lemma MergedIs(references: References, changes: ReferenceChanges, after: References)
    requires forall c: CellOffset :: c in after <==> if c in changes then changes[c].Some? else c in references
    requires forall c: CellOffset :: c in after ==>
      after[c] == if c in changes then changes[c].value else references[c]
    ensures after == Merged(references, changes)
  {
    var goal := Merged(references, changes);
    assert forall c: CellOffset :: c in after <==> c in goal;
    assert after.Keys == goal.Keys;
  }

  method ApplyReferences(references: References, changes: ReferenceChanges)
    returns (r: Result<References, BindingError>)
    ensures r.Ok? <==> forall c :: c in changes ==> changes[c] != Some("")
    ensures r.Ok? ==> r.value == Merged(references, changes)
    ensures r.Err? ==> r.error == EntityBindingNotSparse
  {
    var after: References := references;
    for i := 0 to SECTION_CELLS
      invariant forall c: CellOffset :: c < i && c in changes ==> changes[c] != Some("")
      invariant forall c: CellOffset :: c in after <==>
        if c < i && c in changes then changes[c].Some? else c in references
      invariant forall c: CellOffset :: c in after ==>
        after[c] == if c < i && c in changes then changes[c].value else references[c]
    {
      var cell: CellOffset := i;
      if cell in changes {
        if changes[cell] == Some("") {
          return Err(EntityBindingNotSparse);
        }
        after := after - {cell};
        if changes[cell].Some? {
          after := after[cell := changes[cell].value];
        }
      }
    }
    MergedIs(references, changes, after);
    r := Ok(after);
  }

  /** Whether the changed registry only holds records under their own, non-empty id. */
  predicate Keyed(entities: Entities) {
    forall id :: id in entities ==> id != "" && entities[id].id == id
  }

  predicate KeyedChanges(changes: EntityChanges) {
    forall id :: id in changes && changes[id].Some? ==> changes[id].value.id == id
  }

  /** A published state: its storage is valid and its records are kept under their own ids. */
  predicate ValidBinding(state: BindingState) {
    Storage.ValidState(state.section) && Keyed(state.entities)
  }

  /**
   What a transaction has to satisfy: one commit id, no empty reference, no empty entity id, and changes that
   leave the section well bound.
   */
  ghost predicate CanCommit(tx: Transaction, policy: Policy)
    requires Storage.ValidState(tx.base.section)
  {
    && !tx.split
    && (forall c :: c in tx.referenceChanges ==> tx.referenceChanges[c] != Some(""))
    && "" !in Merged(tx.base.entities, tx.entityChanges)
    && WellBound(MergedCells(Storage.Content(tx.base.section), tx.blockChanges),
                 Merged(tx.base.references, tx.referenceChanges),
                 Merged(tx.base.entities, tx.entityChanges), policy)
  }

  /** The three kinds of changes laid over the base. A section that is no longer uniform does not become it again. */
  ghost predicate Commits(tx: Transaction, next: BindingState)
    requires Storage.ValidState(tx.base.section)
  {
    && ValidBinding(next)
    && Storage.Content(next.section) == MergedCells(Storage.Content(tx.base.section), tx.blockChanges)
    && next.references == Merged(tx.base.references, tx.referenceChanges)
    && next.entities == Merged(tx.base.entities, tx.entityChanges)
    && (next.section.Uniform? ==> next.section == tx.base.section)
  }

  /**
   Committing lays the three kinds of changes over the base and validates the result; a split transaction, an
   empty entity id or a broken bijection refuses it.
   */
  method Commit(tx: Transaction, policy: Policy) returns (r: Result<BindingState, BindingError>)
    requires ValidBinding(tx.base) && KeyedChanges(tx.entityChanges)
    ensures r.Ok? <==> CanCommit(tx, policy)
    ensures r.Ok? ==> Commits(tx, r.value)
    ensures r.Ok? ==> WellBound(Storage.Content(r.value.section), r.value.references, r.value.entities, policy)
    ensures tx.split ==> r == Err(BindingCommitSplit)
    ensures !tx.split && (exists c :: c in tx.referenceChanges && tx.referenceChanges[c] == Some(""))
      ==> r == Err(EntityBindingNotSparse)
    ensures (&& !tx.split && (forall c :: c in tx.referenceChanges ==> tx.referenceChanges[c] != Some(""))
             && "" in Merged(tx.base.entities, tx.entityChanges))
      ==> r == Err(EntityBindingOrphan)
  {
    hide Storage.Content;
    hide Storage.ValidState;
    hide MergedCells;
    hide WellBound;
    if tx.split {
      return Err(BindingCommitSplit);
    }
    var section := ApplyBlocks(tx.base.section, tx.blockChanges);
    var references := ApplyReferences(tx.base.references, tx.referenceChanges);
    if references.Err? {
      return Err(references.error);
    }
    var entities := Merged(tx.base.entities, tx.entityChanges);
    if "" in entities {
      return Err(EntityBindingOrphan);
    }
    var next := BindingState(section, references.value, entities);
    var valid := Validate(next, policy);
    if valid.Fail? {
      return Err(valid.error);
    }
    r := Ok(next);
  }

  /** A transaction that only places one such entity on a well-bound cut passes validation. */
  lemma PlacedTransactionIsWellBound(base: BindingState, policy: Policy, cell: CellOffset, block: BlockId,
                                     entity: EntityRecord, entityChanges: EntityChanges)
    requires Storage.ValidState(base.section)
    requires WellBound(Storage.Content(base.section), base.references, base.entities, policy)
    requires policy(BlockType(block)) == Some(entity.entityType) && entity.alive
    requires entity.id !in base.entities || (cell in base.references && base.references[cell] == entity.id)
    requires entityChanges == if cell in base.references && base.references[cell] != entity.id
                              then map[entity.id := Some(entity)][base.references[cell] := None]
                              else map[entity.id := Some(entity)]
    ensures WellBound(MergedCells(Storage.Content(base.section), map[cell := block]),
                      Merged(base.references, map[cell := Some(entity.id)]),
                      Merged(base.entities, entityChanges), policy)
  {
    hide Storage.Content;
    hide WellBound;
    hide Merged;
    hide MergedCells;
    var cells := Storage.Content(base.section);
    PlaceKeepsWellBound(cells, base.references, base.entities, policy, cell, block, entity);
    PlacedCells(cells, cell, block);
    PlacedReferences(base.references, cell, entity.id);
    var previous := if cell in base.references then Some(base.references[cell]) else None;
    PlacedEntities(base.entities, previous, entity);
  }

  lemma PlacedCells(cells: Cells, cell: CellOffset, block: BlockId)
    ensures MergedCells(cells, map[cell := block]) == cells[cell := block]
  {
    SameCells(MergedCells(cells, map[cell := block]), cells[cell := block]);
  }

  lemma PlacedReferences(references: References, cell: CellOffset, id: string)
    ensures Merged(references, map[cell := Some(id)]) == references[cell := id]
  {
  }

  lemma PlacedEntities(entities: Entities, previous: Option<string>, entity: EntityRecord)
    ensures var placed: EntityChanges := map[entity.id := Some(entity)];
      Merged(entities, if previous.Some? && previous.value != entity.id then placed[previous.value := None] else placed)
      == (entities - if previous.Some? then {previous.value} else {})[entity.id := entity]
  {
  }

  // ---- publication

  class BindingPublication {
    var current: BindingState

    constructor (initial: BindingState)
      ensures current == initial
    {
      current := initial;
    }

    /**
     A transaction is published exactly when the cut it started from is still the live one, compared as a
     representation, and it can commit; every cut published is well bound, and a refusal changes nothing.
     */
    method Publish(tx: Transaction, policy: Policy) returns (r: Result<BindingState, BindingError>)
      requires ValidBinding(current) && KeyedChanges(tx.entityChanges)
      modifies this
      ensures ValidBinding(current)
      ensures r.Ok? <==> old(current) == tx.base && CanCommit(tx, policy)
      ensures r.Ok? ==> current == r.value && Commits(tx, r.value)
      ensures r.Ok? ==> WellBound(Storage.Content(current.section), current.references, current.entities, policy)
      ensures r.Err? ==> current == old(current)
      ensures old(current) != tx.base || tx.split ==> r == Err(BindingCommitSplit)
    {
      if current != tx.base {
        return Err(BindingCommitSplit);
      }
      r := Commit(tx, policy);
      if r.Ok? {
        current := r.value;
      }
    }
  }

  /** A transaction that writes one block of a type without an entity commits on a cut without bindings. */
  lemma PlainWriteCanCommit(base: BindingState, cell: CellOffset, block: BlockId, policy: Policy)
    requires ValidBinding(base) && base.references == map[] && base.entities == map[]
    requires policy(BlockType(block)) == None
    requires forall c: CellOffset :: Expected(Storage.Content(base.section), policy, c) == None
    ensures var tx := Transaction(base, map[cell := block], map[], map[], None, false);
      CanCommit(tx, policy) && KeyedChanges(tx.entityChanges)
    ensures forall c: CellOffset ::
      Expected(MergedCells(Storage.Content(base.section), map[cell := block]), policy, c) == None
    ensures Merged(base.references, map[]) == map[] && Merged(base.entities, map[]) == map[]
  {
    hide Storage.Content;
    hide Storage.ValidState;
    var cells := Storage.Content(base.section);
    var after := MergedCells(cells, map[cell := block]);
    forall c: CellOffset ensures Expected(after, policy, c) == None {
      assert after[c] == if c == cell then block else cells[c];
      assert Expected(cells, policy, c) == None;
    }
  }

  /** The same changes have the same effect on two cuts with equal cells, references and entities. */
  lemma CommitIgnoresRepresentation(tx: Transaction, other: BindingState, policy: Policy)
    requires Storage.ValidState(tx.base.section) && Storage.ValidState(other.section)
    requires Storage.Content(tx.base.section) == Storage.Content(other.section)
    requires tx.base.references == other.references && tx.base.entities == other.entities
    ensures CanCommit(tx, policy) <==> CanCommit(tx.(base := other), policy)
  {
  }

  /**
   Equal cells are not enough to publish. On a uniform cut another block is written and taken back: cells,
   references and entities are what they were, yet a transaction begun before is refused, while the same changes
   begun on the live cut are published.
   */
  method RestoredCellsRefuse(block: BlockId, other: BlockId, cell: CellOffset, tx: Transaction, policy: Policy)
    returns (live: BindingState,
             refused: Result<BindingState, BindingError>, accepted: Result<BindingState, BindingError>)
    requires block != other && policy(BlockType(block)) == None && policy(BlockType(other)) == None
    requires tx.base == BindingState(Storage.Uniform(block), map[], map[])
    requires KeyedChanges(tx.entityChanges) && CanCommit(tx, policy)
    ensures ValidBinding(live) && live != tx.base
    ensures Storage.Content(live.section) == Storage.Content(tx.base.section)
    ensures live.references == tx.base.references && live.entities == tx.base.entities
    ensures refused == Err(BindingCommitSplit)
    ensures accepted.Ok?
  {
    hide Storage.ValidState;
    hide Merged;
    hide WellBound;
    assert Storage.ValidState(tx.base.section) && ValidBinding(tx.base) by { UniformIsValid(block); }
    UniformExpectsNothing(block, policy);
    hide Storage.Content;
    var publication := new BindingPublication(tx.base);
    PlainWriteCanCommit(tx.base, cell, other, policy);
    var first := publication.Publish(Transaction(tx.base, map[cell := other], map[], map[], None, false), policy);
    var middle := publication.current;
    assert Storage.Content(middle.section)[cell] == other;
    assert Storage.Content(tx.base.section)[cell] == block;
    PlainWriteCanCommit(middle, cell, block, policy);
    var second := publication.Publish(Transaction(middle, map[cell := block], map[], map[], None, false), policy);
    live := publication.current;
    SameCells(Storage.Content(live.section), Storage.Content(tx.base.section));
    refused := publication.Publish(tx, policy);
    CommitIgnoresRepresentation(tx, live, policy);
    accepted := publication.Publish(tx.(base := live), policy);
  }

  lemma UniformIsValid(block: BlockId)
    ensures Storage.ValidState(Storage.Uniform(block))
    ensures ValidBinding(BindingState(Storage.Uniform(block), map[], map[]))
  {
  }

  lemma UniformExpectsNothing(block: BlockId, policy: Policy)
    requires policy(BlockType(block)) == None
    ensures forall c: CellOffset :: Storage.Content(Storage.Uniform(block))[c] == block
    ensures forall c: CellOffset :: Expected(Storage.Content(Storage.Uniform(block)), policy, c) == None
  {
  }
}
