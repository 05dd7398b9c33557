/** Whole lives of a binding: staged on a transaction object, published, and read back from the live cut. */
module BindingLifecycle {
  import opened Wrappers
  import opened Blocks
  import opened Binding
  import Storage = PaletteStorage

  /** A live cut: published under some policy, hence well bound. */
  ghost predicate IsLive(state: BindingState, policy: Policy) {
    && ValidBinding(state)
    && WellBound(Storage.Content(state.section), state.references, state.entities, policy)
  }

  /** An entity that may be bound to the cell: alive, of the type the block needs, and not bound elsewhere. */
  predicate MayBind(state: BindingState, policy: Policy, cell: CellOffset, block: BlockId, entity: EntityRecord) {
    && entity.id != "" && entity.alive && policy(BlockType(block)) == Some(entity.entityType)
    && (entity.id !in state.entities || (cell in state.references && state.references[cell] == entity.id))
  }

  /** The entity the cell is bound to, if any. */
  function BoundTo(state: BindingState, cell: CellOffset): set<string> {
    if cell in state.references then {state.references[cell]} else {}
  }

  /** Exactly these cells, references and entities. */
  ghost predicate Shows(state: BindingState, cells: Cells, references: References, entities: Entities) {
    && ValidBinding(state)
    && Storage.Content(state.section) == cells && state.references == references && state.entities == entities
  }

  /** A transaction whose merged parts are these, and well bound, commits to a state that shows them. */
  lemma CommitShows(tx: Transaction, policy: Policy, cells: Cells, references: References, entities: Entities)
    requires ValidBinding(tx.base) && !tx.split
    requires MergedCells(Storage.Content(tx.base.section), tx.blockChanges) == cells
    requires Merged(tx.base.references, tx.referenceChanges) == references
    requires Merged(tx.base.entities, tx.entityChanges) == entities
    requires forall c :: c in tx.referenceChanges ==> tx.referenceChanges[c] != Some("")
    requires "" !in entities && WellBound(cells, references, entities, policy)
    ensures CanCommit(tx, policy)
    ensures forall next :: Commits(tx, next) ==> Shows(next, cells, references, entities)
  {
    hide WellBound;
    hide Merged;
    hide MergedCells;
  }

  lemma NoEmptyId(state: BindingState, gone: set<string>)
    requires ValidBinding(state)
    ensures "" !in state.entities - gone
  {
  }

  lemma OneReference(references: References, changes: ReferenceChanges, cell: CellOffset, id: Option<string>)
    requires changes == map[cell := id]
    ensures Merged(references, changes) == if id.Some? then references[cell := id.value] else references - {cell}
  {
  }

  lemma OneCell(cells: Cells, cell: CellOffset, block: BlockId)
    ensures MergedCells(cells, map[cell := block]) == cells[cell := block]
  {
    PlacedCells(cells, cell, block);
  }

  /** A transaction that stages this one placing commits to the placed binding. */
  lemma PlacingShows(tx: Transaction, policy: Policy, cell: CellOffset, block: BlockId, entity: EntityRecord)
    requires IsLive(tx.base, policy) && MayBind(tx.base, policy, cell, block, entity) && !tx.split
    requires tx.blockChanges == map[cell := block] && tx.referenceChanges == map[cell := Some(entity.id)]
    requires Merged(tx.base.entities, tx.entityChanges)
          == (tx.base.entities - BoundTo(tx.base, cell))[entity.id := entity]
    ensures CanCommit(tx, policy)
    ensures forall next :: Commits(tx, next) ==>
      Shows(next, Storage.Content(tx.base.section)[cell := block], tx.base.references[cell := entity.id],
            (tx.base.entities - BoundTo(tx.base, cell))[entity.id := entity])
  {
    hide WellBound;
    hide Merged;
    hide MergedCells;
    hide Storage.Content;
    hide Storage.ValidState;
    var base, cells := tx.base, Storage.Content(tx.base.section);
    PlaceKeepsWellBound(cells, base.references, base.entities, policy, cell, block, entity);
    OneCell(cells, cell, block);
    OneReference(base.references, tx.referenceChanges, cell, Some(entity.id));
    NoEmptyId(base, BoundTo(base, cell));
    CommitShows(tx, policy, cells[cell := block], base.references[cell := entity.id],
                (base.entities - BoundTo(base, cell))[entity.id := entity]);
  }

  lemma BoundEntityIsKnown(base: BindingState, policy: Policy, cell: CellOffset)
    requires IsLive(base, policy)
    ensures BoundTo(base, cell) <= base.entities.Keys
  {
    hide Storage.Content;
    hide Storage.ValidState;
  }

  /** A binding placed and published: the block, its one reference and its entity, and what it replaced is gone. */
  method PlaceAndPublish(base: BindingState, policy: Policy, cell: CellOffset, block: BlockId, entity: EntityRecord)
    returns (r: Result<BindingState, BindingError>)
    requires IsLive(base, policy) && MayBind(base, policy, cell, block, entity)
    ensures r.Ok? && Shows(r.value, Storage.Content(base.section)[cell := block], base.references[cell := entity.id],
                           (base.entities - BoundTo(base, cell))[entity.id := entity])
  {
    hide WellBound;
    hide Merged;
    hide MergedCells;
    hide CanCommit;
    hide Commits;
    hide Shows;
    hide Storage.Content;
    hide Storage.ValidState;
    var publication := new BindingPublication(base);
    var tx := new BindingTransaction.Begin(base);
    tx.Place(cell, block, entity);
    PlacedEntities(base.entities, if cell in base.references then Some(base.references[cell]) else None, entity);
    PlacingShows(tx.Model(), policy, cell, block, entity);
    r := publication.Publish(tx.Model(), policy);
  }

  /** What two placings on one cell stage for the registry: the second entity, neither the first nor the replaced. */
  lemma PlacedTwice(entities: Entities, previous: Option<string>, first: EntityRecord, second: EntityRecord)
    requires first.id !in entities && first.id != second.id
    requires previous.Some? ==> previous.value in entities
    requires second.id !in entities || previous == Some(second.id)
    ensures var one: EntityChanges := map[first.id := Some(first)];
      var placed := if previous.Some? && previous.value != first.id then one[previous.value := None] else one;
      Merged(entities, placed[second.id := Some(second)][first.id := None])
      == (entities - if previous.Some? then {previous.value} else {})[second.id := second]
  {
  }

  /** Two entities placed on one cell in one transaction: only the second one is published. */
  method PlaceTwiceAndPublish(base: BindingState, policy: Policy, cell: CellOffset, firstBlock: BlockId,
                              first: EntityRecord, block: BlockId, entity: EntityRecord)
    returns (r: Result<BindingState, BindingError>)
    requires IsLive(base, policy) && MayBind(base, policy, cell, block, entity)
    requires first.id !in base.entities && first.id != entity.id
    ensures r.Ok? && Shows(r.value, Storage.Content(base.section)[cell := block], base.references[cell := entity.id],
                           (base.entities - BoundTo(base, cell))[entity.id := entity])
  {
    hide WellBound;
    hide Merged;
    hide MergedCells;
    hide CanCommit;
    hide Commits;
    hide Shows;
    hide Storage.Content;
    hide Storage.ValidState;
    var publication := new BindingPublication(base);
    var tx := new BindingTransaction.Begin(base);
    tx.Place(cell, firstBlock, first);
    tx.Place(cell, block, entity);
    BoundEntityIsKnown(base, policy, cell);
    PlacedTwice(base.entities, if cell in base.references then Some(base.references[cell]) else None, first, entity);
    PlacingShows(tx.Model(), policy, cell, block, entity);
    r := publication.Publish(tx.Model(), policy);
  }

  lemma RetiredEntities(entities: Entities, previous: Option<string>)
    ensures var none: EntityChanges := map[];
      Merged(entities, if previous.Some? then none[previous.value := None] else none)
      == entities - if previous.Some? then {previous.value} else {}
  {
  }

  /** A binding removed and published: the replacement block is there, the reference and its entity are gone. */
  method RemoveAndPublish(base: BindingState, policy: Policy, cell: CellOffset, replacement: BlockId)
    returns (r: Result<BindingState, BindingError>)
    requires IsLive(base, policy) && policy(BlockType(replacement)) == None
    ensures r.Ok? && Shows(r.value, Storage.Content(base.section)[cell := replacement], base.references - {cell},
                           base.entities - BoundTo(base, cell))
  {
    hide WellBound;
    hide Merged;
    hide MergedCells;
    hide Storage.Content;
    hide Storage.ValidState;
    var publication := new BindingPublication(base);
    var tx := new BindingTransaction.Begin(base);
    tx.Remove(cell, replacement);
    ghost var cells := Storage.Content(base.section);
    RemoveKeepsWellBound(cells, base.references, base.entities, policy, cell, replacement);
    OneCell(cells, cell, replacement);
    OneReference(base.references, tx.referenceChanges, cell, None);
    RetiredEntities(base.entities, if cell in base.references then Some(base.references[cell]) else None);
    NoEmptyId(base, BoundTo(base, cell));
    assert tx.blockChanges == map[cell := replacement];
    CommitShows(tx.Model(), policy, cells[cell := replacement], base.references - {cell},
                base.entities - BoundTo(base, cell));
    r := publication.Publish(tx.Model(), policy);
  }

  /**
   Placing on one live cut and removing on the next brings back the references and entities of a cell that was not
   bound, whatever else the section binds.
   */
  method PlaceThenRemove(base: BindingState, policy: Policy, cell: CellOffset, block: BlockId, entity: EntityRecord,
                         replacement: BlockId)
    returns (r: Result<BindingState, BindingError>)
    requires IsLive(base, policy) && MayBind(base, policy, cell, block, entity)
    requires policy(BlockType(replacement)) == None && cell !in base.references
    ensures r.Ok? && Shows(r.value, Storage.Content(base.section)[cell := replacement], base.references, base.entities)
  {
    hide Storage.Content;
    hide Storage.ValidState;
    hide WellBound;
    var placed := PlaceAndPublish(base, policy, cell, block, entity);
    PlaceKeepsWellBound(Storage.Content(base.section), base.references, base.entities, policy, cell, block, entity);
    r := RemoveAndPublish(placed.value, policy, cell, replacement);
    assert base.references[cell := entity.id] - {cell} == base.references;
    assert base.entities[entity.id := entity] - {entity.id} == base.entities;
    ghost var cells := Storage.Content(base.section);
    assert cells[cell := block][cell := replacement] == cells[cell := replacement];
  }
}
