/** What is read after a run: the last published write of a cell. */
module PublishedReads {
  import opened Wrappers
  import opened Blocks
  import opened Fingerprint
  import opened Protocol
  import opened PublicationLog
  import opened Runs
  import opened MutationStaging

  /** Some entry of the event writes the cell. */
  predicate EventWrites(e: Event, id: string, cell: CellOffset) {
    e.kind.Published? && exists k :: 0 <= k < |e.kind.request.entries| && Writes(e.kind.request.entries[k], id, cell)
  }

  /** The k-th entry of the i-th event is the last published write of the cell. */
  predicate IsLastWrite(log: Log, i: nat, k: nat, id: string, cell: CellOffset) {
    && i < |log| && log[i].kind.Published? && k < |log[i].kind.request.entries|
    && Writes(log[i].kind.request.entries[k], id, cell)
    && (forall m :: k < m < |log[i].kind.request.entries| ==> !Writes(log[i].kind.request.entries[m], id, cell))
    && forall j :: i < j < |log| ==> !EventWrites(log[j], id, cell)
  }

  predicate IsUnwritten(log: Log, id: string, cell: CellOffset) {
    forall j :: 0 <= j < |log| ==> !EventWrites(log[j], id, cell)
  }

  lemma EditsOfEvent(log: Log, id: string)
    requires log != []
    ensures var e := log[|log| - 1];
      PublishedEdits(log, id)
      == PublishedEdits(log[..|log| - 1], id) + if e.kind.Published? then EditsOf(e.kind.request.entries, id) else []
  {
  }

  lemma UntouchedByEvent(cells: Cells, e: Event, id: string, cell: CellOffset)
    requires !EventWrites(e, id, cell)
    ensures Replay(cells, if e.kind.Published? then EditsOf(e.kind.request.entries, id) else [])[cell] == cells[cell]
  {
    if e.kind.Published? {
      LastEntryOfBatchWins(cells, e.kind.request.entries, id, cell, 0);
    }
  }

  lemma {:induction false} UnwrittenCell(cells: Cells, log: Log, id: string, cell: CellOffset)
    requires IsUnwritten(log, id, cell)
    ensures Replay(cells, PublishedEdits(log, id))[cell] == cells[cell]
  {
    hide EventWrites;
    if log != [] {
      var init, e := log[..|log| - 1], log[|log| - 1];
      assert forall j :: 0 <= j < |init| ==> init[j] == log[j];
      UnwrittenCell(cells, init, id, cell);
      EditsOfEvent(log, id);
      var more := if e.kind.Published? then EditsOf(e.kind.request.entries, id) else [];
      ReplayOfTwo(cells, PublishedEdits(init, id), more);
      UntouchedByEvent(Replay(cells, PublishedEdits(init, id)), e, id, cell);
      hide Replay;
      hide EditsOf;
      hide PublishedEdits;
    }
  }

  lemma {:induction false} LastWriteWins(cells: Cells, log: Log, i: nat, k: nat, id: string, cell: CellOffset)
    requires IsLastWrite(log, i, k, id, cell)
    ensures Replay(cells, PublishedEdits(log, id))[cell] == log[i].kind.request.entries[k].blockId
  {
    hide EventWrites;
    var init, e := log[..|log| - 1], log[|log| - 1];
    assert forall j :: 0 <= j < |init| ==> init[j] == log[j];
    var more := if e.kind.Published? then EditsOf(e.kind.request.entries, id) else [];
    EditsOfEvent(log, id);
    ReplayOfTwo(cells, PublishedEdits(init, id), more);
    var before := Replay(cells, PublishedEdits(init, id));
    if i < |init| {
      LastWriteWins(cells, init, i, k, id, cell);
      UntouchedByEvent(before, e, id, cell);
    } else {
      LastEntryOfBatchWins(before, e.kind.request.entries, id, cell, k + 1);
    }
    hide Replay;
    hide EditsOf;
    hide PublishedEdits;
  }

  /**
   Over any run, a voxel section that is never unloaded reads in each cell the block of the last published entry for
   it, the last one of the last batch that names the cell, and the first root's block if there is none.
   */
  lemma LastPublishedWriteIsRead(start: Session, actions: seq<Action>, id: string, cell: CellOffset, i: nat, k: nat)
    requires IsClean(start) && IsVoxelReady(start.authority.root.directory, id)
    requires !UnloadedIn(Run(start, actions).log, id)
    ensures var s := Run(start, actions);
      && IsVoxelReady(s.authority.root.directory, id)
      && (IsLastWrite(s.log, i, k, id, cell) ==>
            s.authority.root.directory[id].payload.cells[cell] == s.log[i].kind.request.entries[k].blockId)
      && (IsUnwritten(s.log, id, cell) ==>
            s.authority.root.directory[id].payload.cells[cell]
            == start.authority.root.directory[id].payload.cells[cell])
  {
    var s := Run(start, actions);
    var cells := start.authority.root.directory[id].payload.cells;
    RunsReplaySerially(start, actions, id);
    hide Run;
    hide IsClean;
    hide Replay;
    hide PublishedEdits;
    hide IsUnwritten;
    hide IsLastWrite;
    if IsLastWrite(s.log, i, k, id, cell) {
      LastWriteWins(cells, s.log, i, k, id, cell);
    }
    if IsUnwritten(s.log, id, cell) {
      UnwrittenCell(cells, s.log, id, cell);
    }
  }
}
