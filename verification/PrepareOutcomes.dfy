/** When a prepare succeeds, what its token then carries, and what each refusal says. */
module PrepareOutcomes {
  import opened Wrappers
  import opened Text
  import opened Keys
  import opened Fingerprint
  import opened Protocol
  import opened PublicationLog
  import opened Runs
  import opened RunOutcomes

  // ---- what a request asks of the root it is prepared from

  predicate SectionKeysOnly(entries: seq<MutationEntry>) {
    forall i :: 0 <= i < |entries| ==> IsSectionKey(entries[i].sectionKey)
  }

  /** What a reader of the root sees as the section's revision. */
  function ReadRevision(base: Root, id: string): nat {
    if id in base.stamp.sectionRevisions then base.stamp.sectionRevisions[id] else base.stamp.worldRevision
  }

  predicate ExpectsWhatIsRead(entries: seq<MutationEntry>, base: Root) {
    forall i :: 0 <= i < |entries| ==> entries[i].expectedSectionRevision == ReadRevision(base, entries[i].sectionKey)
  }

  predicate NamesReadySections(entries: seq<MutationEntry>, base: Root) {
    forall i :: 0 <= i < |entries| ==>
      entries[i].sectionKey in base.directory && base.directory[entries[i].sectionKey].Ready?
  }

  /** Nothing but the two facts staging needs: cells to write, and a next revision. */
  predicate HasRoom(id: string, base: Root) {
    && id in base.directory && base.directory[id].Ready? && base.directory[id].payload.Voxel?
    && ReadRevision(base, id) + 1 < U64_LIMIT
  }

  predicate AllHaveRoom(entries: seq<MutationEntry>, base: Root) {
    forall i :: 0 <= i < |entries| ==> HasRoom(entries[i].sectionKey, base)
  }

  // ---- planning

  /** The first entry whose key is not a section key. */
  predicate FirstBadKey(entries: seq<MutationEntry>, i: nat) {
    i < |entries| && SectionKeysOnly(entries[..i]) && !IsSectionKey(entries[i].sectionKey)
  }

  function BadKeyError(key: string): ProtocolError
    requires !IsSectionKey(key)
  {
    if key == "" then UnstructuredEntry else BadKey(ParseSection(key).error)
  }

  lemma EmptyIsNoKey()
    ensures !IsSectionKey("")
  {
    assert Split("") == [""];
  }

  lemma FirstAndMore(entries: seq<MutationEntry>)
    requires entries != []
    ensures SectionKeysOnly(entries) <==> IsSectionKey(entries[0].sectionKey) && SectionKeysOnly(entries[1..])
  {
    hide IsSectionKey;
    if IsSectionKey(entries[0].sectionKey) && SectionKeysOnly(entries[1..]) {
      forall i | 0 <= i < |entries| ensures IsSectionKey(entries[i].sectionKey) {
        assert i > 0 ==> entries[i] == entries[1..][i - 1];
      }
    }
    if SectionKeysOnly(entries) {
      forall i | 0 <= i < |entries[1..]| ensures IsSectionKey(entries[1..][i].sectionKey) {
        assert entries[1..][i] == entries[i + 1];
      }
    }
  }

  lemma {:induction false} EntriesPassExactly(entries: seq<MutationEntry>)
    ensures CheckEntries(entries) == Pass <==> SectionKeysOnly(entries)
  {
    hide ParseSection;
    hide SectionKeysOnly;
    if entries == [] {
      assert SectionKeysOnly([]) by { NothingNamed(); }
    } else {
      EmptyIsNoKey();
      FirstAndMore(entries);
      EntriesPassExactly(entries[1..]);
    }
  }

  lemma NothingNamed()
    ensures SectionKeysOnly([])
  {
  }

  lemma {:induction false} FirstBadKeyDecides(entries: seq<MutationEntry>, i: nat)
    requires FirstBadKey(entries, i)
    ensures CheckEntries(entries) == Fail(BadKeyError(entries[i].sectionKey))
  {
    hide ParseSection;
    EmptyIsNoKey();
    if i > 0 {
      assert entries[0] == entries[..i][0];
      assert entries[1..][..i - 1] == entries[..i][1..];
      FirstAndMore(entries[..i]);
      FirstBadKeyDecides(entries[1..], i - 1);
    }
  }

  // ---- staging

  lemma {:induction false} StagingPassesExactly(ids: seq<string>, base: Root)
    ensures CheckStaging(ids, base) == Pass <==> EachHasRoom(ids, base)
  {
    if ids != [] {
      StagingPassesExactly(ids[1..], base);
      assert CheckSection(ids[0], base) == Pass <==> HasRoom(ids[0], base);
      hide HasRoom;
      hide CheckSection;
      assert forall i :: 0 < i < |ids| ==> ids[i] == ids[1..][i - 1];
      assert forall i :: 0 <= i < |ids| - 1 ==> ids[1..][i] == ids[i + 1];
    }
  }

  /** The first section without room. */
  predicate FirstWithoutRoom(ids: seq<string>, base: Root, i: nat) {
    i < |ids| && !HasRoom(ids[i], base) && forall k :: 0 <= k < i ==> HasRoom(ids[k], base)
  }

  lemma {:induction false} FirstWithoutRoomDecides(ids: seq<string>, base: Root, i: nat)
    requires FirstWithoutRoom(ids, base, i) && ids[i] in base.directory && base.directory[ids[i]].Ready?
    ensures CheckStaging(ids, base)
         == Fail(if ReadRevision(base, ids[i]) + 1 >= U64_LIMIT then InvalidHandle else UnstructuredEntry)
  {
    if i > 0 {
      assert HasRoom(ids[0], base) && CheckSection(ids[0], base) == Pass;
      assert ids[1..][i - 1] == ids[i];
      assert forall k :: 0 <= k < i - 1 ==> ids[1..][k] == ids[k + 1];
      FirstWithoutRoomDecides(ids[1..], base, i - 1);
    }
  }

  predicate EachHasRoom(ids: seq<string>, base: Root) {
    forall i :: 0 <= i < |ids| ==> HasRoom(ids[i], base)
  }

  lemma RoomOfNamed(entries: seq<MutationEntry>, base: Root)
    ensures AllHaveRoom(entries, base) <==> EachHasRoom(SortedNames(Named(entries)), base)
  {
    hide HasRoom;
    var ids := SortedNames(Named(entries));
    if AllHaveRoom(entries, base) {
      forall i | 0 <= i < |ids| ensures HasRoom(ids[i], base) {
        assert ids[i] in Named(entries);
        var e :| e in entries && e.sectionKey == ids[i];
        var k :| 0 <= k < |entries| && entries[k] == e;
        assert HasRoom(entries[k].sectionKey, base);
      }
    }
    if EachHasRoom(ids, base) {
      forall i | 0 <= i < |entries| ensures HasRoom(entries[i].sectionKey, base) {
        assert entries[i].sectionKey in Named(entries);
        var k :| 0 <= k < |ids| && ids[k] == entries[i].sectionKey;
        assert HasRoom(ids[k], base);
      }
    }
  }

  lemma SealsExactly(request: MutationRequest, base: Root)
    ensures SealPrivate(request, base).Ok?
        <==> AllHaveRoom(request.entries, base) && base.stamp.worldRevision + 1 < U64_LIMIT
  {
    hide CheckStaging;
    hide HasRoom;
    hide SortedNames;
    hide StagedSlots;
    hide StagedDirty;
    StagingPassesExactly(SortedNames(Named(request.entries)), base);
    RoomOfNamed(request.entries, base);
  }

  lemma AgainstRootExactly(request: MutationRequest, base: Root)
    ensures RevisionsMatch(request, base.stamp) <==> ExpectsWhatIsRead(request.entries, base)
    ensures AllReady(Named(request.entries), base.directory) <==> NamesReadySections(request.entries, base)
  {
    var entries := request.entries;
    if ExpectsWhatIsRead(entries, base) {
      forall e | e in entries ensures e.expectedSectionRevision == RevisionOf(base.stamp, e.sectionKey) {
        var i :| 0 <= i < |entries| && entries[i] == e;
      }
    }
    if AllReady(Named(entries), base.directory) {
      forall i | 0 <= i < |entries|
        ensures entries[i].sectionKey in base.directory && base.directory[entries[i].sectionKey].Ready?
      {
        assert entries[i] in entries && entries[i].sectionKey in Named(entries);
      }
    }
  }

  // ---- prepare succeeds exactly when the request fits the root

  /** Everything prepare asks of a new request, said of the request and the root alone. */
  predicate Fits(request: MutationRequest, base: Root) {
    && request.worldId == base.stamp.worldId && request.generation == base.stamp.generation
    && |request.entries| <= 65536 && SectionKeysOnly(request.entries)
    && ExpectsWhatIsRead(request.entries, base)
    && AllHaveRoom(request.entries, base)
    && base.stamp.worldRevision + 1 < U64_LIMIT
  }

  lemma RoomIsReady(entries: seq<MutationEntry>, base: Root)
    requires AllHaveRoom(entries, base)
    ensures NamesReadySections(entries, base)
  {
  }

  lemma NewRequest(request: MutationRequest, base: Root, ledger: Ledger)
    requires CheckRequest(ledger, request) == Pass && request.txnId !in ledger.entries
    ensures Lookup(ledger, request) == Ok(Vacant)
    ensures CheckPreconditions(request, base, ledger) ==
      if request.worldId != base.stamp.worldId then Fail(SessionMismatch)
      else if request.generation != base.stamp.generation then Fail(StaleEpoch)
      else if |request.entries| > 65536 then Fail(WriteBatchTooLarge)
      else if CheckEntries(request.entries).Fail? then CheckEntries(request.entries)
      else if !ExpectsWhatIsRead(request.entries, base) then Fail(StaleSectionRevision)
      else if !NamesReadySections(request.entries, base) then Fail(SectionUnavailable)
      else Pass
  {
    hide CheckEntries;
    hide RevisionsMatch;
    hide AllReady;
    hide NamesReadySections;
    hide ExpectsWhatIsRead;
    hide Named;
    AgainstRootExactly(request, base);
  }

  /**
   A request of an unknown transaction is prepared exactly when it fits the root and the ledger has room. The token
   is fresh and carries what staging computes, the transaction is reserved, and a refusal leaves the entries alone.
   */
  lemma PrepareIsExact(request: MutationRequest, base: Root, ledger: Ledger)
    requires CheckRequest(ledger, request) == Pass && request.txnId !in ledger.entries
    ensures var (after, result) := Prepare(request, base, ledger);
      && (result.Ok? <==> Fits(request, base) && |ledger.entries| < ledger.maxEntries)
      && (result.Ok? ==>
            && SealPrivate(request, base).Ok?
            && result.value == PreparedMutation(
                 request, base, ReservationFor(request), SealPrivate(request, base).value, None)
            && after.entries == ledger.entries[request.txnId := LedgerEntry(ReservationFor(request), None, None)])
      && (result.Err? ==> after.entries == ledger.entries)
  {
    hide SealPrivate;
    hide CheckPreconditions;
    hide CheckEntries;
    hide ExpectsWhatIsRead;
    hide NamesReadySections;
    hide AllHaveRoom;
    hide SectionKeysOnly;
    NewRequest(request, base, ledger);
    EntriesPassExactly(request.entries);
    SealsExactly(request, base);
    if AllHaveRoom(request.entries, base) {
      RoomIsReady(request.entries, base);
    }
    if |ledger.entries| < ledger.maxEntries {
      ReservedThenAborted(request, ledger);
    }
    hide Lookup;
    hide Abort;
  }

  /** Each refusal of a new request, in the order in which the source looks. */
  lemma PrepareRefusals(request: MutationRequest, base: Root, ledger: Ledger, i: nat)
    requires CheckRequest(ledger, request) == Pass && request.txnId !in ledger.entries
    ensures var result := Prepare(request, base, ledger).1;
      var entries, ids := request.entries, SortedNames(Named(request.entries));
      if request.worldId != base.stamp.worldId then result == Err(SessionMismatch)
      else if request.generation != base.stamp.generation then result == Err(StaleEpoch)
      else if |entries| > 65536 then result == Err(WriteBatchTooLarge)
      else if !SectionKeysOnly(entries)
      then FirstBadKey(entries, i) ==> result == Err(BadKeyError(entries[i].sectionKey))
      else if !ExpectsWhatIsRead(entries, base) then result == Err(StaleSectionRevision)
      else if !NamesReadySections(entries, base) then result == Err(SectionUnavailable)
      else if |ledger.entries| >= ledger.maxEntries then result == Err(BudgetExceeded)
      else if !AllHaveRoom(entries, base)
      then FirstWithoutRoom(ids, base, i) ==>
        result == Err(if ReadRevision(base, ids[i]) + 1 >= U64_LIMIT then InvalidHandle else UnstructuredEntry)
      else base.stamp.worldRevision + 1 >= U64_LIMIT ==> result == Err(InvalidHandle)
  {
    hide CheckPreconditions;
    hide ParseSection;
    hide ExpectsWhatIsRead;
    hide CheckEntries;
    NewRequest(request, base, ledger);
    EntriesPassExactly(request.entries);
    if FirstBadKey(request.entries, i) {
      FirstBadKeyDecides(request.entries, i);
    }
    hide SectionKeysOnly;
    hide FirstBadKey;
    if NamesReadySections(request.entries, base) {
      SealRefusals(request, base, i);
    }
    hide NamesReadySections;
    hide SealPrivate;
    hide AllHaveRoom;
    hide FirstWithoutRoom;
    hide SortedNames;
    hide Named;
  }

  lemma SealRefusals(request: MutationRequest, base: Root, i: nat)
    requires NamesReadySections(request.entries, base)
    ensures var ids := SortedNames(Named(request.entries));
      && (FirstWithoutRoom(ids, base, i) ==>
            SealPrivate(request, base)
            == Err(if ReadRevision(base, ids[i]) + 1 >= U64_LIMIT then InvalidHandle else UnstructuredEntry))
      && (AllHaveRoom(request.entries, base) && base.stamp.worldRevision + 1 >= U64_LIMIT ==>
            SealPrivate(request, base) == Err(InvalidHandle))
  {
    var ids := SortedNames(Named(request.entries));
    if FirstWithoutRoom(ids, base, i) {
      assert ids[i] in Named(request.entries);
      FirstWithoutRoomDecides(ids, base, i);
    }
    hide HasRoom;
    hide CheckStaging;
    StagingPassesExactly(ids, base);
    RoomOfNamed(request.entries, base);
    hide SortedNames;
    hide AllHaveRoom;
    hide NamesReadySections;
    hide StagedSlots;
    hide StagedDirty;
  }

  // ---- known transactions

  /**
   Over any run, a request that was completed is answered from every view of its world and generation with a replay
   token: the stored receipt, its own evidence, and nothing staged. The ledger stays as it is.
   */
  lemma CompletedRequestIsReplayed(start: Session, actions: seq<Action>, request: MutationRequest, view: Root)
    requires IsClean(start)
    requires request.worldId == view.stamp.worldId && request.generation == view.stamp.generation
    requires var done := Completed(Run(start, actions).ledger);
      request.txnId in done && done[request.txnId].fingerprint == request
    ensures var ledger := Run(start, actions).ledger;
      var receipt := Completed(ledger)[request.txnId];
      Prepare(request, view, ledger) == (ledger, Ok(PreparedMutation(
        request, view, ReservationFor(request), Staged(map[], view.dirty, view.stamp.worldRevision),
        Some((receipt, Some(Evidence(receipt.oldRoot, receipt.newRoot)))))))
  {
    var ledger := Run(start, actions).ledger;
    ReachableIsSound(start, actions);
    RunKeepsBound(start, actions);
    hide Run;
    CompletedIsReplayed(request, view, ledger);
  }

  lemma CompletedIsReplayed(request: MutationRequest, view: Root, ledger: Ledger)
    requires LedgerOk(ledger) && IsBound(ledger)
    requires request.worldId == view.stamp.worldId && request.generation == view.stamp.generation
    requires request.txnId in Completed(ledger) && Completed(ledger)[request.txnId].fingerprint == request
    ensures var receipt := Completed(ledger)[request.txnId];
      Prepare(request, view, ledger) == (ledger, Ok(PreparedMutation(
        request, view, ReservationFor(request), Staged(map[], view.dirty, view.stamp.worldRevision),
        Some((receipt, Some(Evidence(receipt.oldRoot, receipt.newRoot)))))))
  {
    assert EntryOk(request.txnId, ledger.entries[request.txnId]);
    assert CheckRequest(ledger, request) == Pass;
    LookupFacts(ledger, request);
    hide LedgerOk;
    hide IsBound;
    hide CheckPlan;
    hide CheckAgainstRoot;
    hide SealPrivate;
    hide Abort;
  }

  /** Over any run, a request whose transaction is in flight, or known with another request, is not prepared. */
  lemma KnownRequestIsRefused(start: Session, actions: seq<Action>, request: MutationRequest, view: Root)
    requires IsClean(start)
    requires request.worldId == view.stamp.worldId && request.generation == view.stamp.generation
    requires var ledger := Run(start, actions).ledger;
      && CheckRequest(ledger, request) == Pass && request.txnId in ledger.entries
      && (request.txnId !in Completed(ledger) || ledger.entries[request.txnId].reservation.fingerprint != request)
    ensures var ledger := Run(start, actions).ledger;
      Prepare(request, view, ledger)
      == (ledger, Err(if ledger.entries[request.txnId].reservation.fingerprint == request
                      then InvalidHandle else RevisionConflict))
  {
    var ledger := Run(start, actions).ledger;
    ReachableIsSound(start, actions);
    RunKeepsBound(start, actions);
    hide Run;
    assert EntryOk(request.txnId, ledger.entries[request.txnId]);
  }
}
