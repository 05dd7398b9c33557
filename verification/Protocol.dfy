/**
 The transaction protocol on values: what one step of the receipt ledger, of prepare, of commit, of a
 durability acknowledgement and of an unload does to the published root and to the ledger.

 A root identity is given by everything it is a digest of, so a root stands for its own identity; a request
 fingerprint is given by the request. Both digests are taken over injective preimages.
 */
module Protocol {
  import opened Wrappers
  import opened Text
  import opened Keys
  import opened Blocks
  import opened Fingerprint

  const MAX_BATCH_ENTRIES: nat := 65536

  datatype ProtocolError =
    | InvalidHandle
    | SessionMismatch
    | StaleEpoch
    | RevisionConflict
    | BudgetExceeded
    | StaleSectionRevision
    | WriteBatchTooLarge
    | UnstructuredEntry
    | SectionUnavailable
    | SnapshotBaseMismatch
    | EvidenceDigestMismatch
    | DirtySectionNotDurable
    | PinnedSectionEvicted
    | SectionEncodingMismatch
    | BadKey(rejection: KeyRejection)

  // ---- published roots

  /** Voxel cells, or page bytes of another adapter that no block write understands. */
  datatype SectionPayload = Voxel(cells: Cells) | Pages(bytes: seq<Byte>)

  datatype SectionSlot = Ready(payload: SectionPayload) | Unchanged | Pending | Unavailable

  type Directory = map<string, SectionSlot>

  datatype RevisionStamp = RevisionStamp(
    worldId: string,
    contextId: string,
    generation: U64,
    worldRevision: U64,
    sectionRevisions: map<string, U64>)

  datatype DirtyEntry = DirtyEntry(first: U64, latest: U64, reason: string)

  datatype DirtyFrontier = DirtyFrontier(worldId: string, generation: U64, entries: map<string, DirtyEntry>)

  datatype Root = Root(
    stamp: RevisionStamp,
    directory: Directory,
    dirty: DirtyFrontier,
    replacement: Option<Directory>)

  /** A section's own revision, or the world's while the section has none. */
  function RevisionOf(stamp: RevisionStamp, id: string): U64 {
    if id in stamp.sectionRevisions then stamp.sectionRevisions[id] else stamp.worldRevision
  }

  function CheckedNext(n: U64): Result<U64, ProtocolError> {
    if n + 1 < U64_LIMIT then Ok(n + 1) else Err(InvalidHandle)
  }

  // ---- the receipt ledger

  datatype Reservation = Reservation(
    txnId: string, worldId: string, generation: U64, fingerprint: MutationRequest)

  datatype Receipt = Receipt(txnId: string, oldRoot: Root, newRoot: Root, fingerprint: MutationRequest)

  datatype Evidence = Evidence(oldRoot: Root, newRoot: Root)

  datatype LedgerEntry = LedgerEntry(
    reservation: Reservation, receipt: Option<Receipt>, evidence: Option<Evidence>)

  datatype Ledger = Ledger(
    maxEntries: nat,
    entries: map<string, LedgerEntry>,
    reserveCount: nat,
    boundWorld: Option<string>,
    boundGeneration: Option<U64>)

  datatype LookupOutcome = Vacant | InFlight | Duplicate(receipt: Receipt)

  function ReservationFor(request: MutationRequest): Reservation {
    Reservation(request.txnId, request.worldId, request.generation, request)
  }

  function CheckRequest(ledger: Ledger, request: MutationRequest): Outcome<ProtocolError> {
    if request.txnId == "" || request.worldId == "" then Fail(InvalidHandle)
    else if ledger.boundWorld.Some? && ledger.boundWorld.value != request.worldId then Fail(SessionMismatch)
    else if ledger.boundGeneration.Some? && ledger.boundGeneration.value != request.generation then Fail(InvalidHandle)
    else Pass
  }

  function CheckEntry(request: MutationRequest, entry: LedgerEntry): Outcome<ProtocolError> {
    if entry.reservation.worldId != request.worldId then Fail(SessionMismatch)
    else if entry.reservation.generation != request.generation then Fail(InvalidHandle)
    else if entry.reservation.fingerprint != request then Fail(RevisionConflict)
    else Pass
  }

  function Lookup(ledger: Ledger, request: MutationRequest): Result<LookupOutcome, ProtocolError> {
    var check := CheckRequest(ledger, request);
    :- check;
    if request.txnId !in ledger.entries then Ok(Vacant) else
    var entry := ledger.entries[request.txnId];
    :- CheckEntry(request, entry);
    Ok(if entry.receipt.Some? then Duplicate(entry.receipt.value) else InFlight)
  }

  /** The ledger after a new reservation. */
  function WithReservation(ledger: Ledger, request: MutationRequest): Ledger {
    ledger.(
      entries := ledger.entries[request.txnId := LedgerEntry(ReservationFor(request), None, None)],
      reserveCount := ledger.reserveCount + 1,
      boundWorld := if ledger.boundWorld.None? then Some(request.worldId) else ledger.boundWorld,
      boundGeneration := if ledger.boundGeneration.None? then Some(request.generation) else ledger.boundGeneration)
  }

  /** An existing entry is reused, a new one needs room. */
  function Reserve(ledger: Ledger, request: MutationRequest): Result<(Ledger, Reservation), ProtocolError> {
    var check := CheckRequest(ledger, request);
    :- check;
    if request.txnId in ledger.entries then
      :- CheckEntry(request, ledger.entries[request.txnId]);
      Ok((ledger, ledger.entries[request.txnId].reservation))
    else
      :- Need(|ledger.entries| < ledger.maxEntries, BudgetExceeded);
      Ok((WithReservation(ledger, request), ReservationFor(request)))
  }

  /** Release an in-flight entry; a completed receipt is kept. */
  function Abort(ledger: Ledger, request: MutationRequest): Result<Ledger, ProtocolError> {
    var check := CheckRequest(ledger, request);
    :- check;
    if request.txnId !in ledger.entries then Ok(ledger) else
    :- CheckEntry(request, ledger.entries[request.txnId]);
    if ledger.entries[request.txnId].receipt.Some? then Ok(ledger)
    else Ok(ledger.(entries := ledger.entries - {request.txnId}))
  }

  function AbortInFlight(ledger: Ledger): Ledger {
    ledger.(entries := map t | t in ledger.entries && ledger.entries[t].receipt.Some? :: ledger.entries[t])
  }

  /** Store the receipt and its evidence unless the entry already has them. */
  function Finalize(ledger: Ledger, txnId: string, receipt: Receipt): Ledger {
    if txnId !in ledger.entries || ledger.entries[txnId].receipt.Some? then ledger
    else ledger.(entries := ledger.entries[txnId := ledger.entries[txnId].(
      receipt := Some(receipt),
      evidence := if ledger.entries[txnId].evidence.Some? then ledger.entries[txnId].evidence
                  else Some(Evidence(receipt.oldRoot, receipt.newRoot)))])
  }

  // ---- planning

  function CheckEntries(entries: seq<MutationEntry>): Outcome<ProtocolError> {
    if entries == [] then Pass
    else if entries[0].sectionKey == "" then Fail(UnstructuredEntry)
    else
      match ParseSection(entries[0].sectionKey)
      case Err(rejection) => Fail(BadKey(rejection))
      case Ok(_) => CheckEntries(entries[1..])
  }

  function CheckPlan(request: MutationRequest): Outcome<ProtocolError> {
    if request.txnId == "" || request.worldId == "" then Fail(InvalidHandle)
    else if |request.entries| > MAX_BATCH_ENTRIES then Fail(WriteBatchTooLarge)
    else CheckEntries(request.entries)
  }

  /** The sections a batch names. */
  function Named(entries: seq<MutationEntry>): set<string> {
    set e | e in entries :: e.sectionKey
  }

  /** Every name is a canonical section key. */
  predicate CanonicalKeys(ids: set<string>) {
    forall id :: id in ids ==> IsSectionKey(id)
  }

  lemma {:induction false} PlannedKeysAreCanonical(entries: seq<MutationEntry>)
    requires CheckEntries(entries) == Pass
    ensures CanonicalKeys(Named(entries))
  {
    hide ParseSection;
    if entries != [] {
      PlannedKeysAreCanonical(entries[1..]);
      assert entries == [entries[0]] + entries[1..];
      assert Named(entries) == {entries[0].sectionKey} + Named(entries[1..]);
    }
  }

  /** The edits of one section, in submission order. */
  function EditsOf(entries: seq<MutationEntry>, id: string): seq<MutationEntry> {
    if entries == [] then []
    else (if entries[0].sectionKey == id then [entries[0]] else []) + EditsOf(entries[1..], id)
  }

  lemma {:induction false} UnnamedHasNoEdits(entries: seq<MutationEntry>, id: string)
    ensures EditsOf(entries, id) == [] <==> id !in Named(entries)
  {
    if entries != [] {
      UnnamedHasNoEdits(entries[1..], id);
      assert entries == [entries[0]] + entries[1..];
      assert Named(entries) == {entries[0].sectionKey} + Named(entries[1..]);
    }
  }

  /** Entries written one after another: the meaning of a batch for one section. */
  function Replay(cells: Cells, edits: seq<MutationEntry>): Cells
    decreases |edits|
  {
    if edits == [] then cells else Replay(cells[edits[0].cellOffset := edits[0].blockId], edits[1..])
  }

  predicate RevisionsMatch(request: MutationRequest, stamp: RevisionStamp) {
    forall e :: e in request.entries ==> e.expectedSectionRevision == RevisionOf(stamp, e.sectionKey)
  }

  predicate AllReady(ids: set<string>, directory: Directory) {
    forall id :: id in ids ==> id in directory && directory[id].Ready?
  }

  function CheckAgainstRoot(request: MutationRequest, root: Root): Outcome<ProtocolError> {
    if !RevisionsMatch(request, root.stamp) then Fail(StaleSectionRevision)
    else if !AllReady(Named(request.entries), root.directory) then Fail(SectionUnavailable)
    else Pass
  }

  function CheckPreconditions(request: MutationRequest, base: Root, ledger: Ledger): Outcome<ProtocolError> {
    if request.txnId == "" || request.worldId == "" then Fail(InvalidHandle)
    else if request.worldId != base.stamp.worldId then Fail(SessionMismatch)
    else if request.generation != base.stamp.generation then Fail(StaleEpoch)
    else
      match Lookup(ledger, request)
      case Err(e) => Fail(e)
      case Ok(Duplicate(_)) => Pass
      case Ok(InFlight) => Fail(InvalidHandle)
      case Ok(Vacant) =>
        var plan := CheckPlan(request);
        if plan.Fail? then plan else CheckAgainstRoot(request, base)
  }

  // ---- prepare

  datatype Staged = Staged(replacement: Directory, dirty: DirtyFrontier, targetWorldRevision: U64)

  datatype PreparedMutation = PreparedMutation(
    request: MutationRequest,
    base: Root,
    reservation: Reservation,
    staged: Staged,
    replay: Option<(Receipt, Option<Evidence>)>)

  function CheckSection(id: string, base: Root): Outcome<ProtocolError> {
    if RevisionOf(base.stamp, id) + 1 >= U64_LIMIT then Fail(InvalidHandle)
    else if id !in base.directory || !base.directory[id].Ready? then Fail(SectionUnavailable)
    else if !base.directory[id].payload.Voxel? then Fail(UnstructuredEntry)
    else Pass
  }

  /** Staging works through the sections in key order and stops at the first refusal. */
  function CheckStaging(ids: seq<string>, base: Root): Outcome<ProtocolError> {
    if ids == [] then Pass
    else
      var first := CheckSection(ids[0], base);
      if first.Fail? then first else CheckStaging(ids[1..], base)
  }

  predicate Stageable(ids: set<string>, base: Root) {
    forall id :: id in ids ==>
      && RevisionOf(base.stamp, id) + 1 < U64_LIMIT
      && id in base.directory && base.directory[id].Ready? && base.directory[id].payload.Voxel?
  }

  lemma {:induction false} CheckStagingPasses(ids: seq<string>, base: Root)
    requires CheckStaging(ids, base) == Pass
    ensures forall id :: id in ids ==>
      && RevisionOf(base.stamp, id) + 1 < U64_LIMIT
      && id in base.directory && base.directory[id].Ready? && base.directory[id].payload.Voxel?
  {
    if ids != [] {
      CheckStagingPasses(ids[1..], base);
    }
  }

  function RecordDirty(entries: map<string, DirtyEntry>, id: string, revision: U64, reason: string): DirtyEntry {
    if id !in entries then DirtyEntry(revision, revision, reason)
    else DirtyEntry(if revision < entries[id].first then revision else entries[id].first,
                    if revision > entries[id].latest then revision else entries[id].latest, reason)
  }

  function StagedSlots(entries: seq<MutationEntry>, base: Root): Directory
    requires Stageable(Named(entries), base)
  {
    map id | id in Named(entries) :: Ready(Voxel(Replay(base.directory[id].payload.cells, EditsOf(entries, id))))
  }

  function StagedDirty(entries: seq<MutationEntry>, base: Root): DirtyFrontier
    requires Stageable(Named(entries), base)
  {
    base.dirty.(entries := base.dirty.entries + map id | id in Named(entries) ::
      RecordDirty(base.dirty.entries, id, RevisionOf(base.stamp, id) + 1, "mutation"))
  }

  function SealPrivate(request: MutationRequest, base: Root): Result<Staged, ProtocolError> {
    var check := CheckStaging(SortedNames(Named(request.entries)), base);
    :- check;
    CheckStagingPasses(SortedNames(Named(request.entries)), base);
    var target :- CheckedNext(base.stamp.worldRevision);
    Ok(Staged(StagedSlots(request.entries, base), StagedDirty(request.entries, base), target))
  }

  /** Prepare publishes nothing; at most it reserves the transaction. */
  function Prepare(request: MutationRequest, base: Root, ledger: Ledger)
    : (Ledger, Result<PreparedMutation, ProtocolError>)
  {
    match CheckPreconditions(request, base, ledger)
    case Fail(e) => (ledger, Err(e))
    case Pass =>
      match Reserve(ledger, request)
      case Err(e) => (ledger, Err(e))
      case Ok((reserved, reservation)) =>
        if Lookup(ledger, request).Ok? && Lookup(ledger, request).value.Duplicate? then
          var entry := ledger.entries[request.txnId];
          (reserved, Ok(PreparedMutation(request, base, reservation,
            Staged(map[], base.dirty, base.stamp.worldRevision), Some((entry.receipt.value, entry.evidence)))))
        else
          match SealPrivate(request, base)
          case Ok(staged) => (reserved, Ok(PreparedMutation(request, base, reservation, staged, None)))
          case Err(e) =>
            var released := Abort(reserved, request);
            (if released.Ok? then released.value else reserved, Err(e))
  }

  // ---- commit

  datatype Authority = Authority(
    worldId: string, contextId: string, generation: U64, root: Root, nextTokenId: U64)

  datatype MutationReceipt = MutationReceipt(txnId: string, receipt: Receipt, evidence: Evidence)

  function RecheckPrepared(prepared: PreparedMutation, root: Root): Outcome<ProtocolError> {
    if prepared.request.generation != root.stamp.generation
       || prepared.reservation.generation != root.stamp.generation then Fail(StaleEpoch)
    else if prepared.request.worldId != root.stamp.worldId
       || prepared.reservation.worldId != root.stamp.worldId then Fail(SessionMismatch)
    else if prepared.base != root then Fail(SnapshotBaseMismatch)
    else Pass
  }

  /** Section revisions of the next stamp, computed for the ids in order. */
  function BuildRevisions(ids: seq<string>, stamp: RevisionStamp, replaced: set<string>)
    : Result<map<string, U64>, ProtocolError>
  {
    if ids == [] then Ok(map[]) else
    var id := ids[|ids| - 1];
    var before :- BuildRevisions(ids[..|ids| - 1], stamp, replaced);
    match ParseSection(id)
    case Err(rejection) => Err(BadKey(rejection))
    case Ok(_) =>
      var revision :- if id in replaced then CheckedNext(RevisionOf(stamp, id)) else Ok(RevisionOf(stamp, id));
      Ok(before[id := revision])
  }

  /** The replaced slots laid over the directory; unrelated sections keep their slots. */
  function Overlay(directory: Directory, replacement: Directory, ids: set<string>): Result<Directory, ProtocolError> {
    if ids <= replacement.Keys then Ok(directory + map id | id in ids :: replacement[id]) else Err(InvalidHandle)
  }

  function NewRoot(prepared: PreparedMutation, root: Root): Result<Root, ProtocolError> {
    var ids := Named(prepared.request.entries);
    var directory :- Overlay(root.directory, prepared.staged.replacement, ids);
    var revisions :- BuildRevisions(SortedNames(root.stamp.sectionRevisions.Keys + ids), root.stamp,
                                    prepared.staged.replacement.Keys);
    Ok(Root(
      root.stamp.(worldRevision := prepared.staged.targetWorldRevision, sectionRevisions := revisions),
      directory, prepared.staged.dirty, Some(prepared.staged.replacement)))
  }

  function CheckStamp(authority: Authority, stamp: RevisionStamp): Outcome<ProtocolError> {
    if stamp.worldId != authority.worldId || stamp.contextId != authority.contextId then Fail(SessionMismatch)
    else if stamp.generation != authority.generation then Fail(StaleEpoch)
    else Pass
  }

  /** Bind, seal and publish one successor of the live root; `pinFree` says whether a revision pin is left. */
  function PublishNext(authority: Authority, next: Root, pinFree: bool): (Authority, Outcome<ProtocolError>) {
    var stampCheck := CheckStamp(authority, next.stamp);
    if stampCheck.Fail? then (authority, stampCheck)
    else if authority.nextTokenId + 1 >= U64_LIMIT then (authority, Fail(InvalidHandle))
    else if !pinFree then (authority.(nextTokenId := authority.nextTokenId + 1), Fail(BudgetExceeded))
    else (authority.(nextTokenId := authority.nextTokenId + 1, root := next), Pass)
  }

  datatype Committed = Committed(
    authority: Authority, ledger: Ledger, result: Result<MutationReceipt, ProtocolError>)

  function DuplicateReceipt(prepared: PreparedMutation, receipt: Receipt): MutationReceipt {
    MutationReceipt(
      prepared.request.txnId,
      if prepared.replay.Some? then prepared.replay.value.0 else receipt,
      if prepared.replay.Some? && prepared.replay.value.1.Some? then prepared.replay.value.1.value
      else Evidence(prepared.base, prepared.base))
  }

  function RecheckInFlight(prepared: PreparedMutation, root: Root): Outcome<ProtocolError> {
    var first := RecheckPrepared(prepared, root);
    if first.Fail? then first else
    var plan := CheckPlan(prepared.request);
    if plan.Fail? then plan else CheckAgainstRoot(prepared.request, root)
  }

  function CommitInFlight(prepared: PreparedMutation, authority: Authority, ledger: Ledger, pinFree: bool): Committed {
    match RecheckInFlight(prepared, authority.root)
    case Fail(e) => Committed(authority, ledger, Err(e))
    case Pass =>
      match NewRoot(prepared, authority.root)
      case Err(e) => Committed(authority, ledger, Err(e))
      case Ok(next) =>
        var (published, outcome) := PublishNext(authority, next, pinFree);
        if outcome.Fail? then Committed(published, ledger, Err(outcome.error)) else
        var receipt := Receipt(prepared.request.txnId, prepared.base, next, prepared.reservation.fingerprint);
        Committed(published, Finalize(ledger, prepared.request.txnId, receipt),
                  Ok(MutationReceipt(prepared.request.txnId, receipt, Evidence(prepared.base, next))))
  }

  /** A completed transaction is replayed before anything else is looked at. */
  function Commit(prepared: PreparedMutation, authority: Authority, ledger: Ledger, pinFree: bool): Committed {
    match Lookup(ledger, prepared.request)
    case Err(e) => Committed(authority, ledger, Err(e))
    case Ok(Vacant) => Committed(authority, ledger, Err(InvalidHandle))
    case Ok(Duplicate(receipt)) => Committed(authority, ledger, Ok(DuplicateReceipt(prepared, receipt)))
    case Ok(InFlight) => CommitInFlight(prepared, authority, ledger, pinFree)
  }

  // ---- durability acknowledgement

  datatype CoveredSection = CoveredSection(sectionId: string, upTo: U64)

  datatype Ack = Ack(
    kind: string,
    worldId: string,
    contextId: string,
    generation: U64,
    coveredWorldRevision: U64,
    sections: seq<CoveredSection>)

  /** The declared bounds; a bad key or a section named twice refuses the receipt. */
  function Bounds(sections: seq<CoveredSection>): Result<map<string, U64>, ProtocolError> {
    if sections == [] then Ok(map[]) else
    var last := sections[|sections| - 1];
    var before :- Bounds(sections[..|sections| - 1]);
    match ParseSection(last.sectionId)
    case Err(rejection) => Err(BadKey(rejection))
    case Ok(_) => if last.sectionId in before then Err(InvalidHandle) else Ok(before[last.sectionId := last.upTo])
  }

  function CoveredBy(frontier: DirtyFrontier, ack: Ack): Result<set<string>, ProtocolError> {
    if ack.kind != "DurabilityAck" then Err(InvalidHandle) else
    :- Need(ack.worldId == frontier.worldId, SessionMismatch);
    :- Need(ack.generation == frontier.generation, StaleEpoch);
    var bounds :- Bounds(ack.sections);
    if exists id :: id in frontier.entries && id in bounds && frontier.entries[id].latest > bounds[id]
    then Err(StaleSectionRevision)
    else Ok(frontier.entries.Keys * bounds.Keys)
  }

  function ExceptCovered(frontier: DirtyFrontier, covered: set<string>): DirtyFrontier {
    frontier.(entries := frontier.entries - covered)
  }

  function ValidateAck(authority: Authority, ack: Ack): Outcome<ProtocolError> {
    if ack.kind != "DurabilityAck" then Fail(InvalidHandle)
    else if ack.worldId != authority.worldId || ack.contextId != authority.contextId then Fail(SessionMismatch)
    else if ack.generation != authority.generation then Fail(StaleEpoch)
    else if ack.coveredWorldRevision > authority.root.stamp.worldRevision then Fail(EvidenceDigestMismatch)
    else Pass
  }

  /** Clear exactly the covered dirty entries; a receipt that covers nothing publishes nothing. */
  function ApplyAck(authority: Authority, ack: Ack, pinFree: bool): (Authority, Result<nat, ProtocolError>) {
    match ValidateAck(authority, ack)
    case Fail(e) => (authority, Err(e))
    case Pass =>
      match CoveredBy(authority.root.dirty, ack)
      case Err(e) => (authority, Err(e))
      case Ok(covered) =>
        if covered == {} then (authority, Ok(0)) else
        var next := authority.root.(dirty := ExceptCovered(authority.root.dirty, covered), replacement := Some(map[]));
        var (published, outcome) := PublishNext(authority, next, pinFree);
        (published, if outcome.Fail? then Err(outcome.error) else Ok(|covered|))
  }

  // ---- unload

  /** `exempt` says whether the pin policy lets the section leave. */
  function Unload(authority: Authority, id: string, exempt: bool, pinFree: bool)
    : (Authority, Result<bool, ProtocolError>)
  {
    var root := authority.root;
    match ParseSection(id)
    case Err(rejection) => (authority, Err(BadKey(rejection)))
    case Ok(_) =>
      if id !in root.directory then (authority, Err(SectionUnavailable))
      else if id in root.dirty.entries then (authority, Err(DirtySectionNotDurable))
      else if root.directory[id].Unchanged? then (authority, Ok(false))
      else if !root.directory[id].Ready? then (authority, Err(SectionUnavailable))
      else if !exempt then (authority, Err(PinnedSectionEvicted))
      else
        var next := root.(directory := root.directory[id := Unchanged], replacement := Some(map[id := Unchanged]));
        var (published, outcome) := PublishNext(authority, next, pinFree);
        (published, if outcome.Fail? then Err(outcome.error) else Ok(true))
  }
}
