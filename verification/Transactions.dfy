/** Prepare, commit, acknowledgement and unload as they run on the ledger and authority objects. */
module Transactions {
  import opened Wrappers
  import opened Text
  import opened Keys
  import opened Blocks
  import opened Bytes
  import opened Fingerprint
  import opened Protocol
  import opened ReceiptLedgers
  import opened MutationStaging
  import opened SectionDelta
  import SectionCodec
  import SectionPages
  import Storage = PaletteStorage

  // ---- checks against a captured root

  type Plan = map<string, seq<MutationEntry>>

  predicate IsPlanOf(plan: Plan, request: MutationRequest) {
    plan.Keys == Named(request.entries) && forall id :: id in plan ==> plan[id] == EditsOf(request.entries, id)
  }

  lemma {:induction false} EditsOfMembers(entries: seq<MutationEntry>, id: string, e: MutationEntry)
    ensures e in EditsOf(entries, id) <==> e in entries && e.sectionKey == id
  {
    if entries != [] {
      EditsOfMembers(entries[1..], id, e);
      assert entries == [entries[0]] + entries[1..];
    }
  }

  predicate SectionMatches(edits: seq<MutationEntry>, revision: U64) {
    forall i :: 0 <= i < |edits| ==> edits[i].expectedSectionRevision == revision
  }

  lemma MatchesBySection(request: MutationRequest, plan: Plan, stamp: RevisionStamp)
    requires IsPlanOf(plan, request)
    ensures RevisionsMatch(request, stamp)
        <==> forall id :: id in plan ==> SectionMatches(plan[id], RevisionOf(stamp, id))
  {
    hide RevisionOf;
    if RevisionsMatch(request, stamp) {
      forall id | id in plan ensures SectionMatches(plan[id], RevisionOf(stamp, id)) {
        forall i | 0 <= i < |plan[id]| ensures plan[id][i].expectedSectionRevision == RevisionOf(stamp, id) {
          EditsOfMembers(request.entries, id, plan[id][i]);
        }
      }
    }
    if forall id :: id in plan ==> SectionMatches(plan[id], RevisionOf(stamp, id)) {
      forall e | e in request.entries ensures e.expectedSectionRevision == RevisionOf(stamp, e.sectionKey) {
        EditsOfMembers(request.entries, e.sectionKey, e);
        assert e.sectionKey in plan;
        var i :| 0 <= i < |plan[e.sectionKey]| && plan[e.sectionKey][i] == e;
      }
    }
  }

  method EditsMatch(edits: seq<MutationEntry>, current: U64) returns (ok: bool)
    ensures ok <==> SectionMatches(edits, current)
  {
    for k := 0 to |edits|
      invariant forall j :: 0 <= j < k ==> edits[j].expectedSectionRevision == current
    {
      if edits[k].expectedSectionRevision != current {
        return false;
      }
    }
    ok := true;
  }

  method RevisionsHold(plan: Plan, stamp: RevisionStamp) returns (ok: bool)
    ensures ok <==> forall id :: id in plan ==> SectionMatches(plan[id], RevisionOf(stamp, id))
  {
    hide SectionMatches;
    hide RevisionOf;
    var ids := SortedNames(plan.Keys);
    for i := 0 to |ids|
      invariant forall k :: 0 <= k < i ==> SectionMatches(plan[ids[k]], RevisionOf(stamp, ids[k]))
    {
      assert ids[i] in plan;
      var matching := EditsMatch(plan[ids[i]], RevisionOf(stamp, ids[i]));
      if !matching {
        return false;
      }
    }
    ok := true;
  }

  method PresencesHold(sections: set<string>, directory: Directory) returns (ok: bool)
    ensures ok <==> AllReady(sections, directory)
  {
    var ids := SortedNames(sections);
    for i := 0 to |ids|
      invariant forall k :: 0 <= k < i ==> ids[k] in directory && directory[ids[k]].Ready?
    {
      assert ids[i] in sections;
      if ids[i] !in directory {
        return false;
      }
      if !directory[ids[i]].Ready? {
        return false;
      }
    }
    ok := true;
  }

  /** First every expected revision, then every presence, section by section. */
  method CheckPlanAgainstRoot(request: MutationRequest, plan: Plan, root: Root) returns (r: Outcome<ProtocolError>)
    requires IsPlanOf(plan, request)
    ensures r == CheckAgainstRoot(request, root)
  {
    hide EditsOf;
    hide RevisionOf;
    hide RevisionsMatch;
    hide AllReady;
    MatchesBySection(request, plan, root.stamp);
    var matching := RevisionsHold(plan, root.stamp);
    if !matching {
      return Fail(StaleSectionRevision);
    }
    var present := PresencesHold(plan.Keys, root.directory);
    if !present {
      return Fail(SectionUnavailable);
    }
    r := Pass;
  }

  method CheckMutation(request: MutationRequest, base: Root, ledger: ReceiptLedger) returns (r: Outcome<ProtocolError>)
    ensures r == CheckPreconditions(request, base, ledger.Model())
  {
    hide CheckPlan;
    hide CheckAgainstRoot;
    hide Named;
    hide EditsOf;
    if request.txnId == "" || request.worldId == "" {
      return Fail(InvalidHandle);
    }
    if request.worldId != base.stamp.worldId {
      return Fail(SessionMismatch);
    }
    if request.generation != base.stamp.generation {
      return Fail(StaleEpoch);
    }
    var found := ledger.Lookup(request);
    hide Protocol.Lookup;
    if found.Err? {
      return Fail(found.error);
    }
    if found.value.Duplicate? {
      return Pass;
    }
    if found.value.InFlight? {
      return Fail(InvalidHandle);
    }
    var plan := BuildPlan(request);
    if plan.Err? {
      return Fail(plan.error);
    }
    r := CheckPlanAgainstRoot(request, plan.value, base);
  }

  // ---- private staging

  lemma StagingStep(ids: seq<string>, base: Root, i: nat)
    requires i < |ids|
    ensures CheckStaging(ids[i..], base)
        == if CheckSection(ids[i], base).Fail? then CheckSection(ids[i], base) else CheckStaging(ids[i + 1..], base)
  {
    hide CheckSection;
    assert ids[i..][1..] == ids[i + 1..];
  }

  ghost predicate StagedFor(staged: Directory, ids: seq<string>, base: Root, plan: Plan) {
    && (forall id :: id in staged <==> id in ids)
    && forall id :: id in ids ==>
      && id in plan && id in base.directory && base.directory[id].Ready? && base.directory[id].payload.Voxel?
      && staged[id] == Ready(Voxel(Replay(base.directory[id].payload.cells, plan[id])))
  }

  lemma StagedOneMore(staged: Directory, ids: seq<string>, base: Root, plan: Plan, id: string, cells: Cells)
    requires StagedFor(staged, ids, base, plan)
    requires id in plan && id in base.directory && base.directory[id].Ready? && base.directory[id].payload.Voxel?
    requires cells == Replay(base.directory[id].payload.cells, plan[id])
    ensures StagedFor(staged[id := Ready(Voxel(cells))], ids + [id], base, plan)
  {
    hide Replay;
  }

  /**
   One section is staged on its own copy of the base cells: the edits are written, the copy is encoded, and the page
   made of the bytes is sealed beside the copy. That seal cannot refuse, and the touched cells' names do not repeat.
   */
  method StageSection(id: string, base: Root, edits: seq<MutationEntry>)
    returns (r: Result<(Cells, seq<ByteString>, seq<string>), ProtocolError>)
    ensures CheckSection(id, base) == if r.Err? then Fail(r.error) else Pass
    ensures r.Ok? ==>
      && id in base.directory && base.directory[id].Ready? && base.directory[id].payload.Voxel?
      && r.value.0 == Replay(base.directory[id].payload.cells, edits)
      && r.value.1 == [SectionCodec.Payload(r.value.0)]
      && AreOccupancyNames(r.value.2)
  {
    hide Replay;
    hide RevisionOf;
    hide AreOccupancyNames;
    hide SectionCodec.Payload;
    hide SectionPages.FromPages;
    hide Storage.Content;
    hide LastEdit;
    if RevisionOf(base.stamp, id) + 1 >= U64_LIMIT {
      return Err(InvalidHandle);
    }
    if id !in base.directory || !base.directory[id].Ready? {
      return Err(SectionUnavailable);
    }
    if !base.directory[id].payload.Voxel? {
      return Err(UnstructuredEntry);
    }
    var storage := new Storage.SectionStorage.FromCells(base.directory[id].payload.cells);
    var touched := PayloadForEntries(storage, edits);
    var names := NamesOf(touched, edits);
    var bytes := SectionCodec.EncodedPayload(storage);
    StagedPage(storage.state);
    var pages := SectionPages.FromPagesWithStorage([SectionPages.DensePage(bytes)], storage);
    if pages.Err? {
      assert false;
      return Err(SectionEncodingMismatch);
    }
    r := Ok((Storage.Content(storage.state), pages.value, names));
  }

  lemma StagedPage(state: Storage.StorageState)
    requires Storage.ValidState(state)
    ensures var bytes := SectionCodec.Payload(Storage.Content(state));
      SectionPages.FromPages([SectionPages.DensePage(bytes)], Some(Storage.Content(state))) == Ok([bytes])
  {
    SectionPages.StagedPageIsAccepted(SectionId(0, 0, 0), 0, state);
  }

  /** The touched cells by name, in the order they were written. */
  method NamesOf(touched: seq<CellOffset>, ghost edits: seq<MutationEntry>) returns (names: seq<string>)
    requires forall i, j :: 0 <= i < j < |touched| ==>
      LastEdit(edits, touched[i]).Some? && LastEdit(edits, touched[j]).Some?
      && LastEdit(edits, touched[i]).value < LastEdit(edits, touched[j]).value
    ensures AreOccupancyNames(names)
  {
    hide AreOccupancyNames;
    hide LastEdit;
    hide Decimal;
    names := [];
    for i := 0 to |touched|
      invariant |names| == i && forall k :: 0 <= k < i ==> names[k] == Decimal(touched[k])
    {
      names := names + [Decimal(touched[i])];
    }
    OffsetNames(touched, names);
  }

  /** Sections are staged one after another through a private builder, whose own refusals never fire here. */
  method StageSections(request: MutationRequest, base: Root, plan: Plan) returns (r: Result<Directory, ProtocolError>)
    requires IsPlanOf(plan, request) && CanonicalKeys(plan.Keys)
    ensures var check := CheckStaging(SortedNames(Named(request.entries)), base);
      if check.Fail? then r == Err(check.error)
      else r.Ok? && Stageable(Named(request.entries), base) && r.value == StagedSlots(request.entries, base)
  {
    hide Replay;
    hide EditsOf;
    hide CheckSection;
    hide CheckStaging;
    hide StagedFor;
    hide StagedSlots;
    hide Stageable;
    hide Named;
    hide CanonicalKeys;
    hide IsSectionKey;
    hide AreOccupancyNames;
    hide NoRepeats;
    hide MayReplace;
    var ids := SortedNames(plan.Keys);
    SortedNamesAreDistinct(plan.Keys);
    hide SortedNames;
    var builder := new SectionDeltaBuilder(base.directory);
    assert ids[0..] == ids;
    NothingStaged(base, plan);
    for i := 0 to |ids|
      invariant fresh(builder)
      invariant CheckStaging(ids[i..], base) == CheckStaging(ids, base)
      invariant StagedFor(builder.staged, ids[..i], base, plan)
    {
      var id := ids[i];
      assert id in plan;
      StagingStep(ids, base, i);
      var section := StageSection(id, base, plan[id]);
      if section.Err? {
        return Err(section.error);
      }
      CanonicalKey(plan.Keys, id);
      NotYet(ids, i);
      NotStagedYet(builder.staged, ids[..i], base, plan, id);
      var (cells, _, names) := section.value;
      StagedOneMore(builder.staged, ids[..i], base, plan, id, cells);
      assert ids[..i + 1] == ids[..i] + [id];
      var outcome := builder.Stage(id, names, Ready(Voxel(cells)));
      if outcome.Fail? {
        assert false;
        return Err(InvalidHandle);
      }
    }
    assert ids[..|ids|] == ids && ids[|ids|..] == [];
    NothingToCheck(base);
    StagedMayReplace(builder.staged, ids, base, plan);
    AllStaged(request, base, plan, builder.staged, ids);
    r := builder.Freeze();
  }

  lemma CanonicalKey(ids: set<string>, id: string)
    requires CanonicalKeys(ids) && id in ids
    ensures IsSectionKey(id)
  {
    hide IsSectionKey;
  }

  lemma NotStagedYet(staged: Directory, ids: seq<string>, base: Root, plan: Plan, id: string)
    requires StagedFor(staged, ids, base, plan) && id !in ids
    ensures id !in staged
  {
    hide Replay;
  }

  /** Every staged slot renews a Ready one, which the bound root allows. */
  lemma StagedMayReplace(staged: Directory, ids: seq<string>, base: Root, plan: Plan)
    requires StagedFor(staged, ids, base, plan)
    ensures forall id :: id in staged ==> MayReplace(base.directory, id, staged[id])
  {
    hide Replay;
  }

  lemma NothingStaged(base: Root, plan: Plan)
    ensures StagedFor(map[], [], base, plan)
  {
  }

  lemma NothingToCheck(base: Root)
    ensures CheckStaging([], base) == Pass
  {
  }

  lemma AllStaged(request: MutationRequest, base: Root, plan: Plan, staged: Directory, ids: seq<string>)
    requires IsPlanOf(plan, request) && ids == SortedNames(plan.Keys)
    requires CheckStaging(ids, base) == Pass && StagedFor(staged, ids, base, plan)
    ensures Stageable(Named(request.entries), base) && staged == StagedSlots(request.entries, base)
  {
    hide Replay;
    hide EditsOf;
    hide RevisionOf;
    CheckStagingPasses(ids, base);
  }

  ghost predicate RecordedFor(entries: map<string, DirtyEntry>, ids: seq<string>, base: Root) {
    && (forall id :: id in entries <==> id in base.dirty.entries || id in ids)
    && forall id :: id in entries ==>
      if id in ids
      then RevisionOf(base.stamp, id) + 1 < U64_LIMIT
           && entries[id] == RecordDirty(base.dirty.entries, id, RevisionOf(base.stamp, id) + 1, "mutation")
      else entries[id] == base.dirty.entries[id]
  }

  lemma RecordOneMore(entries: map<string, DirtyEntry>, ids: seq<string>, base: Root, id: string)
    requires RecordedFor(entries, ids, base) && id !in ids && RevisionOf(base.stamp, id) + 1 < U64_LIMIT
    ensures RecordedFor(entries[id := RecordDirty(entries, id, RevisionOf(base.stamp, id) + 1, "mutation")],
                        ids + [id], base)
  {
    hide RevisionOf;
    var next := RevisionOf(base.stamp, id) + 1;
    assert RecordDirty(entries, id, next, "mutation") == RecordDirty(base.dirty.entries, id, next, "mutation");
    hide RecordDirty;
  }

  /** Mark each named section dirty at its next revision, one after another. */
  method RecordSections(request: MutationRequest, base: Root) returns (dirty: DirtyFrontier)
    requires Stageable(Named(request.entries), base)
    ensures dirty == StagedDirty(request.entries, base)
  {
    hide RevisionOf;
    hide RecordDirty;
    hide RecordedFor;
    hide StagedDirty;
    hide NoRepeats;
    hide Named;
    var ids := SortedNames(Named(request.entries));
    SortedNamesAreDistinct(Named(request.entries));
    hide SortedNames;
    NothingRecorded(base);
    var entries := base.dirty.entries;
    for i := 0 to |ids|
      invariant RecordedFor(entries, ids[..i], base)
    {
      assert ids[..i + 1] == ids[..i] + [ids[i]];
      NotYet(ids, i);
      assert ids[i] in Named(request.entries);
      RecordOneMore(entries, ids[..i], base, ids[i]);
      entries := entries[ids[i] := RecordDirty(entries, ids[i], RevisionOf(base.stamp, ids[i]) + 1, "mutation")];
    }
    assert ids[..|ids|] == ids;
    AllRecorded(request, base, entries, ids);
    dirty := base.dirty.(entries := entries);
  }

  lemma NothingRecorded(base: Root)
    ensures RecordedFor(base.dirty.entries, [], base)
  {
  }

  lemma NotYet(ids: seq<string>, i: nat)
    requires NoRepeats(ids) && i < |ids|
    ensures ids[i] !in ids[..i]
  {
  }

  lemma AllRecorded(request: MutationRequest, base: Root, entries: map<string, DirtyEntry>, ids: seq<string>)
    requires Stageable(Named(request.entries), base) && RecordedFor(entries, ids, base)
    requires forall id :: id in ids <==> id in Named(request.entries)
    ensures base.dirty.(entries := entries) == StagedDirty(request.entries, base)
  {
    hide RevisionOf;
    hide RecordDirty;
    hide Stageable;
    hide Named;
    var goal := StagedDirty(request.entries, base).entries;
    forall id ensures id in entries <==> id in goal {
    }
    forall id | id in entries ensures entries[id] == goal[id] {
      RecordedEntry(entries, ids, base, id);
    }
    assert entries == goal;
  }

  lemma RecordedEntry(entries: map<string, DirtyEntry>, ids: seq<string>, base: Root, id: string)
    requires RecordedFor(entries, ids, base) && id in entries
    ensures if id in ids
            then RevisionOf(base.stamp, id) + 1 < U64_LIMIT
                 && entries[id] == RecordDirty(base.dirty.entries, id, RevisionOf(base.stamp, id) + 1, "mutation")
            else id in base.dirty.entries && entries[id] == base.dirty.entries[id]
  {
    hide RevisionOf;
    hide RecordDirty;
  }

  /** The plan given is always one that was built, so its keys are canonical. */
  method SealPrivate(request: MutationRequest, base: Root, plan: Plan) returns (r: Result<Staged, ProtocolError>)
    requires IsPlanOf(plan, request) && CanonicalKeys(plan.Keys)
    ensures r == Protocol.SealPrivate(request, base)
  {
    hide CheckStaging;
    hide StagedSlots;
    hide StagedDirty;
    hide SortedNames;
    hide CanonicalKeys;
    var replacement := StageSections(request, base, plan);
    if replacement.Err? {
      return Err(replacement.error);
    }
    var dirty := RecordSections(request, base);
    if base.stamp.worldRevision + 1 >= U64_LIMIT {
      return Err(InvalidHandle);
    }
    r := Ok(Staged(replacement.value, dirty, base.stamp.worldRevision + 1));
  }

  // ---- prepare

  /** Validate, reserve, stage; publishes nothing and gives the reservation back when staging refuses. */
  method Prepare(request: MutationRequest, base: Root, ledger: ReceiptLedger)
    returns (r: Result<PreparedMutation, ProtocolError>)
    modifies ledger
    ensures (ledger.Model(), r) == Protocol.Prepare(request, base, old(ledger.Model()))
  {
    hide Protocol.SealPrivate;
    hide CheckPreconditions;
    hide Named;
    hide EditsOf;
    hide CanonicalKeys;
    var check := CheckMutation(request, base, ledger);
    if check.Fail? {
      return Err(check.error);
    }
    var found := ledger.Lookup(request);
    if found.Err? {
      CheckedLookup(request, base, ledger.Model());
      assert false;
    } else if found.value.Duplicate? {
      var again := ledger.Reserve(request);
      if again.Err? {
        return Err(again.error);
      }
      var entry := ledger.entries[request.txnId];
      return Ok(PreparedMutation(request, base, again.value,
                Staged(map[], base.dirty, base.stamp.worldRevision), Some((entry.receipt.value, entry.evidence))));
    }
    CheckedLookup(request, base, ledger.Model());
    var plan := BuildPlan(request);
    var reservation := ledger.Reserve(request);
    if reservation.Err? {
      return Err(reservation.error);
    }
    hide CheckPlan;
    hide Protocol.Lookup;
    hide Protocol.Reserve;
    hide Protocol.Abort;
    var staged := SealPrivate(request, base, plan.value);
    if staged.Err? {
      var _ := ledger.Abort(request);
      return Err(staged.error);
    }
    r := Ok(PreparedMutation(request, base, reservation.value, staged.value, None));
  }

  lemma CheckedLookup(request: MutationRequest, base: Root, ledger: Ledger)
    requires CheckPreconditions(request, base, ledger) == Pass
    ensures Protocol.Lookup(ledger, request).Ok?
    ensures !Protocol.Lookup(ledger, request).value.Duplicate? ==> CheckPlan(request) == Pass
  {
  }
}
