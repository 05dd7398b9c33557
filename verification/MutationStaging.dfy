/** Building a plan from a request and staging each section privately, as prepare does. */
module MutationStaging {
  import opened Wrappers
  import opened Keys
  import opened Blocks
  import opened Fingerprint
  import opened Protocol
  import Storage = PaletteStorage

  // ---- the plan

  lemma FirstEdit(entries: seq<MutationEntry>, id: string)
    requires entries != []
    ensures EditsOf(entries, id)
        == (if entries[0].sectionKey == id then [entries[0]] else []) + EditsOf(entries[1..], id)
  {
  }

  lemma {:induction false} EditsOfAppend(a: seq<MutationEntry>, b: seq<MutationEntry>, id: string)
    ensures EditsOf(a + b, id) == EditsOf(a, id) + EditsOf(b, id)
    decreases |a|
  {
    if a == [] {
      assert a + b == b;
    } else {
      hide EditsOf;
      assert (a + b)[0] == a[0] && (a + b)[1..] == a[1..] + b;
      EditsOfAppend(a[1..], b, id);
      FirstEdit(a + b, id);
      FirstEdit(a, id);
    }
  }

  lemma {:induction false} CheckEntriesSkips(entries: seq<MutationEntry>, i: nat)
    requires i < |entries| && CheckEntries(entries[i..]) == CheckEntries(entries)
    requires entries[i].sectionKey != "" && ParseSection(entries[i].sectionKey).Ok?
    ensures CheckEntries(entries[i + 1..]) == CheckEntries(entries)
  {
    hide ParseSection;
    assert entries[i..][1..] == entries[i + 1..];
  }

  /** The edits of each named section in submission order; a batch with a bad entry has no plan. */
  method BuildPlan(request: MutationRequest) returns (r: Result<map<string, seq<MutationEntry>>, ProtocolError>)
    ensures CheckPlan(request) == if r.Err? then Fail(r.error) else Pass
    ensures r.Ok? ==> r.value.Keys == Named(request.entries)
    ensures r.Ok? ==> forall id :: id in r.value ==> r.value[id] == EditsOf(request.entries, id)
    ensures r.Ok? ==> CanonicalKeys(r.value.Keys)
  {
    hide ParseSection;
    hide CanonicalKeys;
    var entries := request.entries;
    if request.txnId == "" || request.worldId == "" {
      return Err(InvalidHandle);
    }
    if |entries| > MAX_BATCH_ENTRIES {
      return Err(WriteBatchTooLarge);
    }
    var sections: map<string, seq<MutationEntry>> := map[];
    assert entries[0..] == entries;
    for i := 0 to |entries|
      invariant CheckEntries(entries[i..]) == CheckEntries(entries)
      invariant PlanOf(sections, entries[..i])
    {
      var entry := entries[i];
      if entry.sectionKey == "" {
        return Err(UnstructuredEntry);
      }
      var parsed := ParseSection(entry.sectionKey);
      if parsed.Err? {
        return Err(BadKey(parsed.error));
      }
      CheckEntriesSkips(entries, i);
      assert entries[..i + 1] == entries[..i] + [entry];
      PlanGrows(sections, entries[..i], entry);
      var before := if entry.sectionKey in sections then sections[entry.sectionKey] else [];
      sections := sections[entry.sectionKey := before + [entry]];
    }
    assert entries[..|entries|] == entries && entries[|entries|..] == [];
    PlanIsPlan(sections, entries);
    PlannedKeysAreCanonical(entries);
    r := Ok(sections);
  }

  ghost predicate PlanOf(sections: map<string, seq<MutationEntry>>, entries: seq<MutationEntry>) {
    && (forall id :: id in sections <==> id in Named(entries))
    && forall id :: id in sections ==> sections[id] == EditsOf(entries, id)
  }

  lemma PlanIsPlan(sections: map<string, seq<MutationEntry>>, entries: seq<MutationEntry>)
    requires PlanOf(sections, entries)
    ensures sections.Keys == Named(entries)
    ensures forall id :: id in sections ==> sections[id] == EditsOf(entries, id)
  {
    hide EditsOf;
  }

  lemma EditsOfSnoc(done: seq<MutationEntry>, entry: MutationEntry, id: string)
    ensures EditsOf(done + [entry], id) == EditsOf(done, id) + if entry.sectionKey == id then [entry] else []
    ensures id !in Named(done) ==> EditsOf(done, id) == []
  {
    EditsOfAppend(done, [entry], id);
    UnnamedHasNoEdits(done, id);
  }

  lemma PlanGrows(sections: map<string, seq<MutationEntry>>, done: seq<MutationEntry>, entry: MutationEntry)
    requires PlanOf(sections, done)
    ensures var before := if entry.sectionKey in sections then sections[entry.sectionKey] else [];
      PlanOf(sections[entry.sectionKey := before + [entry]], done + [entry])
  {
    var before := if entry.sectionKey in sections then sections[entry.sectionKey] else [];
    var after := sections[entry.sectionKey := before + [entry]];
    assert Named(done + [entry]) == Named(done) + {entry.sectionKey};
    hide EditsOf;
    hide Named;
    forall id | id in after ensures after[id] == EditsOf(done + [entry], id) {
      EditsOfSnoc(done, entry, id);
    }
  }

  // ---- last write wins

  /** The position of the last edit of a cell. */
  function LastEdit(edits: seq<MutationEntry>, cell: CellOffset): (i: Option<nat>)
    ensures i.Some? ==> i.value < |edits| && edits[i.value].cellOffset == cell
    ensures i.None? ==> forall k :: 0 <= k < |edits| ==> edits[k].cellOffset != cell
  {
    if edits == [] then None
    else if edits[|edits| - 1].cellOffset == cell then Some(|edits| - 1)
    else LastEdit(edits[..|edits| - 1], cell)
  }

  lemma {:induction false} ReplaySnoc(cells: Cells, edits: seq<MutationEntry>, e: MutationEntry)
    ensures Replay(cells, edits + [e]) == Replay(cells, edits)[e.cellOffset := e.blockId]
    decreases |edits|
  {
    if edits == [] {
      assert edits + [e] == [e] && [e][1..] == [];
    } else {
      assert (edits + [e])[0] == edits[0] && (edits + [e])[1..] == edits[1..] + [e];
      ReplaySnoc(cells[edits[0].cellOffset := edits[0].blockId], edits[1..], e);
    }
  }

  /** Replaying a batch leaves in each cell what its last edit wrote. */
  lemma {:induction false} LastEditWins(cells: Cells, edits: seq<MutationEntry>, cell: CellOffset)
    ensures Replay(cells, edits)[cell]
        == if LastEdit(edits, cell).Some? then edits[LastEdit(edits, cell).value].blockId else cells[cell]
  {
    if edits != [] {
      var init, e := edits[..|edits| - 1], edits[|edits| - 1];
      assert edits == init + [e];
      LastEditWins(cells, init, cell);
      ReplaySnoc(cells, init, e);
    }
  }

  /** The entry writes this cell of this section. */
  predicate Writes(e: MutationEntry, id: string, cell: CellOffset) {
    e.sectionKey == id && e.cellOffset == cell
  }

  /** A batch leaves in each cell what the last entry for it wrote; cells without an entry keep their block. */
  lemma {:induction false} LastEntryOfBatchWins(cells: Cells, entries: seq<MutationEntry>, id: string,
                                                cell: CellOffset, k: nat)
    requires k <= |entries| && (k > 0 ==> Writes(entries[k - 1], id, cell))
    requires forall i :: k <= i < |entries| ==> !Writes(entries[i], id, cell)
    ensures Replay(cells, EditsOf(entries, id))[cell] == if k > 0 then entries[k - 1].blockId else cells[cell]
  {
    if entries != [] {
      var n := |entries| - 1;
      var init, e := entries[..n], entries[n];
      assert entries == init + [e];
      EditsOfSnoc(init, e, id);
      if e.sectionKey == id {
        ReplaySnoc(cells, EditsOf(init, id), e);
      } else {
        assert EditsOf(init, id) + [] == EditsOf(init, id);
      }
      hide Replay;
      hide EditsOf;
      if k <= n {
        assert !Writes(entries[n], id, cell);
        LastEntryOfBatchWins(cells, init, id, cell, k);
      }
    }
  }

  datatype FinalWrite = FinalWrite(cell: CellOffset, index: nat, block: BlockId)

  /** The collapsed writes: for each edited cell the position and the block of its last edit. */
  ghost predicate Collapsed(finals: map<CellOffset, (nat, BlockId)>, edits: seq<MutationEntry>) {
    && (forall cell: CellOffset :: cell in finals <==> LastEdit(edits, cell).Some?)
    && forall cell: CellOffset :: cell in finals ==>
         finals[cell] == (LastEdit(edits, cell).value, edits[LastEdit(edits, cell).value].blockId)
  }

  lemma CollapseOneMore(finals: map<CellOffset, (nat, BlockId)>, done: seq<MutationEntry>, e: MutationEntry)
    requires Collapsed(finals, done)
    ensures Collapsed(finals[e.cellOffset := (|done|, e.blockId)], done + [e])
  {
    assert (done + [e])[..|done|] == done;
  }

  predicate ByIndex(writes: seq<FinalWrite>) {
    forall i, j :: 0 <= i < j < |writes| ==> writes[i].index < writes[j].index
  }

  /** Insertion into a list sorted by submission index. */
  method InsertByIndex(writes: seq<FinalWrite>, w: FinalWrite) returns (r: seq<FinalWrite>)
    requires ByIndex(writes) && forall i :: 0 <= i < |writes| ==> writes[i].index != w.index
    ensures ByIndex(r) && |r| == |writes| + 1
    ensures forall x :: x in r <==> x in writes || x == w
  {
    var at := |writes|;
    while at > 0 && writes[at - 1].index > w.index
      invariant 0 <= at <= |writes|
      invariant forall i :: at <= i < |writes| ==> writes[i].index > w.index
    {
      at := at - 1;
    }
    forall i | 0 <= i < at ensures writes[i].index < w.index {
      assert writes[i].index <= writes[at - 1].index;
    }
    r := writes[..at] + [w] + writes[at..];
    InsertedAt(writes, w, at);
  }

  lemma InsertedAt(writes: seq<FinalWrite>, w: FinalWrite, at: nat)
    requires ByIndex(writes) && at <= |writes|
    requires forall i :: 0 <= i < at ==> writes[i].index < w.index
    requires forall i :: at <= i < |writes| ==> writes[i].index > w.index
    ensures ByIndex(writes[..at] + [w] + writes[at..])
    ensures forall x :: x in writes[..at] + [w] + writes[at..] <==> x in writes || x == w
  {
    assert writes == writes[..at] + writes[at..];
  }

  /** The sorted writes are exactly the collapsed ones. */
  ghost predicate Lists(writes: seq<FinalWrite>, finals: map<CellOffset, (nat, BlockId)>, below: nat) {
    forall w: FinalWrite :: w in writes
      <==> w.cell in finals && w.cell < below && finals[w.cell] == (w.index, w.block)
  }

  method SortFinalWrites(finals: map<CellOffset, (nat, BlockId)>, ghost edits: seq<MutationEntry>)
    returns (writes: seq<FinalWrite>)
    requires Collapsed(finals, edits)
    ensures ByIndex(writes) && Lists(writes, finals, SECTION_CELLS)
  {
    writes := [];
    for cell := 0 to SECTION_CELLS
      invariant ByIndex(writes) && Lists(writes, finals, cell)
    {
      if cell in finals {
        var w := FinalWrite(cell, finals[cell].0, finals[cell].1);
        forall i | 0 <= i < |writes| ensures writes[i].index != w.index {
          assert writes[i] in writes;
        }
        ghost var before := writes;
        writes := InsertByIndex(writes, w);
        ListsOneMore(before, writes, finals, w);
      } else {
        ListsSkip(writes, finals, cell);
      }
    }
  }

  lemma ListsOneMore(before: seq<FinalWrite>, after: seq<FinalWrite>, finals: map<CellOffset, (nat, BlockId)>,
                     w: FinalWrite)
    requires Lists(before, finals, w.cell) && w.cell in finals && finals[w.cell] == (w.index, w.block)
    requires forall x :: x in after <==> x in before || x == w
    ensures Lists(after, finals, w.cell + 1)
  {
  }

  lemma ListsSkip(writes: seq<FinalWrite>, finals: map<CellOffset, (nat, BlockId)>, cell: nat)
    requires cell !in finals && Lists(writes, finals, cell)
    ensures Lists(writes, finals, cell + 1)
  {
  }

  // ---- staging one section

  /** What the cells hold after the first writes. */
  ghost predicate WrittenUpTo(cells: Cells, base: Cells, writes: seq<FinalWrite>, n: nat) {
    n <= |writes| && forall c: CellOffset ::
      if exists k :: 0 <= k < n && writes[k].cell == c
      then exists k :: 0 <= k < n && writes[k].cell == c && writes[k].block == cells[c]
      else cells[c] == base[c]
  }

  lemma WriteOneMore(cells: Cells, base: Cells, writes: seq<FinalWrite>, n: nat)
    requires n < |writes| && WrittenUpTo(cells, base, writes, n)
    requires forall k :: 0 <= k < n ==> writes[k].cell != writes[n].cell
    ensures WrittenUpTo(cells[writes[n].cell := writes[n].block], base, writes, n + 1)
  {
    var after := cells[writes[n].cell := writes[n].block];
    forall c: CellOffset
      ensures if exists k :: 0 <= k < n + 1 && writes[k].cell == c
              then exists k :: 0 <= k < n + 1 && writes[k].cell == c && writes[k].block == after[c]
              else after[c] == base[c]
    {
      if c == writes[n].cell {
        assert writes[n].block == after[c];
      } else if exists k :: 0 <= k < n + 1 && writes[k].cell == c {
        var k :| 0 <= k < n + 1 && writes[k].cell == c;
        assert k < n;
        var j :| 0 <= j < n && writes[j].cell == c && writes[j].block == cells[c];
        assert writes[j].block == after[c];
      } else {
        assert !exists k :: 0 <= k < n && writes[k].cell == c;
      }
    }
  }

  /** Once every collapsed write is done, the cells are the replayed ones. */
  lemma CollapseMeansReplay(cells: Cells, base: Cells, writes: seq<FinalWrite>,
                            finals: map<CellOffset, (nat, BlockId)>, edits: seq<MutationEntry>)
    requires Collapsed(finals, edits) && Lists(writes, finals, SECTION_CELLS)
    requires WrittenUpTo(cells, base, writes, |writes|)
    ensures cells == Replay(base, edits)
  {
    forall c: CellOffset ensures cells[c] == Replay(base, edits)[c] {
      LastEditWins(base, edits, c);
      if LastEdit(edits, c).Some? {
        var w := FinalWrite(c, finals[c].0, finals[c].1);
        assert w in writes;
        var i :| 0 <= i < |writes| && writes[i] == w;
        assert writes[i].cell == c;
        var k :| 0 <= k < |writes| && writes[k].cell == c && writes[k].block == cells[c];
        assert writes[k] in writes;
      } else {
        assert c !in finals;
        forall k | 0 <= k < |writes| ensures writes[k].cell != c {
          assert writes[k] in writes;
        }
      }
    }
    var replayed := Replay(base, edits);
    assert forall c: CellOffset :: cells[c] == replayed[c];
    SameCells(cells, replayed);
  }

  lemma DistinctCells(writes: seq<FinalWrite>, finals: map<CellOffset, (nat, BlockId)>, n: nat)
    requires ByIndex(writes) && Lists(writes, finals, SECTION_CELLS) && n < |writes|
    ensures forall k :: 0 <= k < n ==> writes[k].cell != writes[n].cell
  {
    forall k | 0 <= k < n ensures writes[k].cell != writes[n].cell {
      assert writes[k] in writes && writes[n] in writes;
    }
  }

  /**
   Last-write collapse: writing only each cell's last edit, in submission order, gives the same section as
   writing every edit, and the cells touched are the edited ones, each once.
   */
  method PayloadForEntries(storage: Storage.SectionStorage, edits: seq<MutationEntry>)
    returns (touched: seq<CellOffset>)
    requires storage.Valid()
    modifies storage
    ensures storage.Valid()
    ensures Storage.Content(storage.state) == Replay(old(Storage.Content(storage.state)), edits)
    ensures forall cell :: cell in touched <==> LastEdit(edits, cell).Some?
    ensures forall i, j :: 0 <= i < j < |touched| ==>
      LastEdit(edits, touched[i]).Some? && LastEdit(edits, touched[j]).Some?
      && LastEdit(edits, touched[i]).value < LastEdit(edits, touched[j]).value
  {
    ghost var base := Storage.Content(storage.state);
    ghost var finals;
    var writes;
    writes, finals := CollapseEdits(edits);
    touched := WriteFinals(storage, writes, finals);
    CollapseMeansReplay(Storage.Content(storage.state), base, writes, finals, edits);
    TouchedCells(writes, finals, edits, touched);
  }

  /** Keep each cell's last edit, then order what is left by submission. */
  method CollapseEdits(edits: seq<MutationEntry>)
    returns (writes: seq<FinalWrite>, ghost finals: map<CellOffset, (nat, BlockId)>)
    ensures Collapsed(finals, edits)
    ensures ByIndex(writes) && Lists(writes, finals, SECTION_CELLS)
  {
    var last: map<CellOffset, (nat, BlockId)> := map[];
    for i := 0 to |edits|
      invariant Collapsed(last, edits[..i])
    {
      CollapseOneMore(last, edits[..i], edits[i]);
      assert edits[..i + 1] == edits[..i] + [edits[i]];
      last := last[edits[i].cellOffset := (i, edits[i].blockId)];
    }
    assert edits[..|edits|] == edits;
    finals := last;
    writes := SortFinalWrites(last, edits);
  }

  method WriteFinals(storage: Storage.SectionStorage, writes: seq<FinalWrite>,
                     ghost finals: map<CellOffset, (nat, BlockId)>)
    returns (touched: seq<CellOffset>)
    requires storage.Valid() && ByIndex(writes) && Lists(writes, finals, SECTION_CELLS)
    modifies storage
    ensures storage.Valid()
    ensures WrittenUpTo(Storage.Content(storage.state), old(Storage.Content(storage.state)), writes, |writes|)
    ensures |touched| == |writes| && forall i :: 0 <= i < |writes| ==> touched[i] == writes[i].cell
  {
    hide Storage.ValidState;
    hide Storage.Content;
    hide WrittenUpTo;
    hide ByIndex;
    hide Lists;
    ghost var base := Storage.Content(storage.state);
    touched := [];
    NothingWritten(base, writes);
    for i := 0 to |writes|
      invariant storage.Valid() && WrittenUpTo(Storage.Content(storage.state), base, writes, i)
      invariant |touched| == i && forall k :: 0 <= k < i ==> touched[k] == writes[k].cell
    {
      DistinctCells(writes, finals, i);
      WriteOneMore(Storage.Content(storage.state), base, writes, i);
      var _ := storage.Write(writes[i].cell, writes[i].block);
      touched := touched + [writes[i].cell];
    }
  }

  lemma NothingWritten(base: Cells, writes: seq<FinalWrite>)
    ensures WrittenUpTo(base, base, writes, 0)
  {
  }

  lemma TouchedCells(writes: seq<FinalWrite>, finals: map<CellOffset, (nat, BlockId)>,
                     edits: seq<MutationEntry>, touched: seq<CellOffset>)
    requires Collapsed(finals, edits) && ByIndex(writes) && Lists(writes, finals, SECTION_CELLS)
    requires |touched| == |writes| && forall i :: 0 <= i < |writes| ==> touched[i] == writes[i].cell
    ensures forall cell :: cell in touched <==> LastEdit(edits, cell).Some?
    ensures forall i, j :: 0 <= i < j < |touched| ==>
      LastEdit(edits, touched[i]).Some? && LastEdit(edits, touched[j]).Some?
      && LastEdit(edits, touched[i]).value < LastEdit(edits, touched[j]).value
  {
    forall i | 0 <= i < |touched|
      ensures LastEdit(edits, touched[i]).Some? && LastEdit(edits, touched[i]).value == writes[i].index
    {
      assert writes[i] in writes;
    }
    forall cell: CellOffset | LastEdit(edits, cell).Some? ensures cell in touched {
      var w := FinalWrite(cell, finals[cell].0, finals[cell].1);
      assert w in writes;
      var i :| 0 <= i < |writes| && writes[i] == w;
      assert touched[i] == cell;
    }
  }
}
