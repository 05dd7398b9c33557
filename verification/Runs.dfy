/**
 Runs of the transaction protocol: any interleaving of captures, prepares from any captured view, commits,
 aborts, acknowledgements and unloads, refusals included.

 Prepared tokens are only ever added, so a run may commit the same token twice; the source's move-only tokens
 allow fewer runs.
 */
module Runs {
  import opened Collections
  import opened Wrappers
  import opened Text
  import opened Keys
  import opened Fingerprint
  import opened Protocol
  import opened PublicationLog

  datatype Session = Session(
    authority: Authority,
    ledger: Ledger,
    views: set<Root>,
    tokens: set<PreparedMutation>,
    log: Log)

  /** `pinFree` says whether a revision pin is left, `exempt` whether the pin policy lets the section go. */
  datatype Action =
    | Capture
    | PrepareFrom(request: MutationRequest, view: Root)
    | CommitToken(token: PreparedMutation, pinFree: bool)
    | AbortRequest(request: MutationRequest)
    | AbortAllInFlight
    | Acknowledge(ack: Ack, pinFree: bool)
    | UnloadSection(id: string, exempt: bool, pinFree: bool)

  function Append(s: Session, authority: Authority, kind: EventKind): Session {
    s.(authority := authority, log := s.log + [Event(kind, s.authority.root, authority.root)])
  }

  function PrepareStep(s: Session, request: MutationRequest, view: Root): Session {
    var (ledger, result) := Prepare(request, view, s.ledger);
    s.(ledger := ledger, tokens := if result.Ok? then s.tokens + {result.value} else s.tokens)
  }

  function CommitStep(s: Session, token: PreparedMutation, pinFree: bool): Session {
    var outcome := Commit(token, s.authority, s.ledger, pinFree);
    if outcome.result.Ok? && Lookup(s.ledger, token.request) == Ok(InFlight)
    then Append(s.(ledger := outcome.ledger), outcome.authority, Published(token.request))
    else s.(authority := outcome.authority, ledger := outcome.ledger)
  }

  function AckStep(s: Session, ack: Ack, pinFree: bool): Session {
    var (authority, result) := ApplyAck(s.authority, ack, pinFree);
    if result.Ok? && result.value > 0 && Bounds(ack.sections).Ok?
    then Append(s, authority, Acknowledged(Bounds(ack.sections).value))
    else s.(authority := authority)
  }

  function UnloadStep(s: Session, id: string, exempt: bool, pinFree: bool): Session {
    var (authority, result) := Unload(s.authority, id, exempt, pinFree);
    if result == Ok(true) then Append(s, authority, Unloaded(id)) else s.(authority := authority)
  }

  function Step(s: Session, a: Action): Session {
    match a
    case Capture => s.(views := s.views + {s.authority.root})
    case PrepareFrom(request, view) => if view in s.views then PrepareStep(s, request, view) else s
    case CommitToken(token, pinFree) => if token in s.tokens then CommitStep(s, token, pinFree) else s
    case AbortRequest(request) =>
      var r := Abort(s.ledger, request);
      if r.Ok? then s.(ledger := r.value) else s
    case AbortAllInFlight => s.(ledger := AbortInFlight(s.ledger))
    case Acknowledge(ack, pinFree) => AckStep(s, ack, pinFree)
    case UnloadSection(id, exempt, pinFree) => UnloadStep(s, id, exempt, pinFree)
  }

  function Run(s: Session, actions: seq<Action>): Session {
    if actions == [] then s else Step(Run(s, actions[..|actions| - 1]), actions[|actions| - 1])
  }

  /** A clean start: an empty ledger, no views or tokens, and no dirty section. */
  predicate IsClean(s: Session) {
    && s.ledger.entries == map[]
    && s.views == {} && s.tokens == {} && s.log == []
    && s.authority.root.dirty.entries == map[]
  }

  // ---- receipts follow from the log

  /** The receipts of the published transactions. */
  function Receipts(log: Log): map<string, Receipt> {
    if log == [] then map[] else
    var before, e := Receipts(log[..|log| - 1]), log[|log| - 1];
    match e.kind
    case Published(request) => before[request.txnId := Receipt(request.txnId, e.before, e.after, request)]
    case Acknowledged(_) => before
    case Unloaded(_) => before
  }

  /** The receipts the ledger holds. */
  function Completed(ledger: Ledger): map<string, Receipt> {
    map t | t in ledger.entries && ledger.entries[t].receipt.Some? :: ledger.entries[t].receipt.value
  }

  predicate DistinctTransactions(log: Log) {
    forall i, j :: 0 <= i < j < |log| && log[i].kind.Published? && log[j].kind.Published? ==>
      log[i].kind.request.txnId != log[j].kind.request.txnId
  }

  lemma {:induction false} ReceiptsAreOfTheLog(log: Log, i: nat)
    requires DistinctTransactions(log) && i < |log| && log[i].kind.Published?
    ensures var request := log[i].kind.request;
      && request.txnId in Receipts(log)
      && Receipts(log)[request.txnId] == Receipt(request.txnId, log[i].before, log[i].after, request)
  {
    var init := log[..|log| - 1];
    assert forall k :: 0 <= k < |init| ==> init[k] == log[k];
    if i < |init| {
      ReceiptsAreOfTheLog(init, i);
    }
  }

  lemma {:induction false} OnlyLoggedReceipts(log: Log, t: string) returns (i: nat)
    requires t in Receipts(log)
    ensures i < |log| && log[i].kind.Published? && log[i].kind.request.txnId == t
    ensures Receipts(log)[t] == Receipt(t, log[i].before, log[i].after, log[i].kind.request)
  {
    var init, e := log[..|log| - 1], log[|log| - 1];
    if e.kind.Published? && e.kind.request.txnId == t {
      i := |init|;
    } else {
      i := OnlyLoggedReceipts(init, t);
      assert init[i] == log[i];
    }
  }

  // ---- what holds in every reachable session

  predicate EntryOk(t: string, entry: LedgerEntry) {
    && entry.reservation == ReservationFor(entry.reservation.fingerprint)
    && entry.reservation.txnId == t
    && (entry.receipt.Some? ==>
          && entry.receipt.value.txnId == t
          && entry.receipt.value.fingerprint == entry.reservation.fingerprint
          && entry.evidence == Some(Evidence(entry.receipt.value.oldRoot, entry.receipt.value.newRoot)))
    && (entry.receipt.None? ==> entry.evidence.None?)
  }

  predicate LedgerOk(ledger: Ledger) {
    && |ledger.entries| <= ledger.maxEntries
    && forall t :: t in ledger.entries ==> EntryOk(t, ledger.entries[t])
  }

  /** A fresh token carries what staging computes from its base; a replay token what the ledger has stored. */
  predicate TokenOk(ledger: Ledger, token: PreparedMutation) {
    && token.reservation == ReservationFor(token.request)
    && if token.replay.None?
       then SealPrivate(token.request, token.base) == Ok(token.staged) && RecheckInFlight(token, token.base) == Pass
       else
         && token.request.txnId in Completed(ledger)
         && Completed(ledger)[token.request.txnId] == token.replay.value.0
         && token.replay.value.1 == Some(Evidence(token.replay.value.0.oldRoot, token.replay.value.0.newRoot))
         && token.replay.value.0.fingerprint == token.request
  }

  predicate Sound(first: Root, s: Session) {
    && LedgerOk(s.ledger)
    && (forall token :: token in s.tokens ==> TokenOk(s.ledger, token))
    && Completed(s.ledger) == Receipts(s.log)
    && DistinctTransactions(s.log)
    && Leads(s.log, first, s.authority.root)
  }

  // ---- ledger steps keep it

  lemma NewReservationKeeps(ledger: Ledger, request: MutationRequest)
    requires LedgerOk(ledger) && request.txnId !in ledger.entries && |ledger.entries| < ledger.maxEntries
    ensures var after := WithReservation(ledger, request);
      LedgerOk(after) && Completed(after) == Completed(ledger)
  {
    var after := WithReservation(ledger, request);
    assert after.entries.Keys == ledger.entries.Keys + {request.txnId};
    assert |after.entries.Keys| == |ledger.entries.Keys| + 1;
    assert |after.entries| == |after.entries.Keys| && |ledger.entries| == |ledger.entries.Keys|;
  }

  lemma ReserveKeeps(ledger: Ledger, request: MutationRequest)
    requires LedgerOk(ledger) && Reserve(ledger, request).Ok?
    ensures var (after, reservation) := Reserve(ledger, request).value;
      && LedgerOk(after) && Completed(after) == Completed(ledger) && reservation == ReservationFor(request)
      && request.txnId in after.entries && after.entries[request.txnId].reservation == reservation
      && after.entries.Keys == ledger.entries.Keys + {request.txnId}
  {
    hide Completed;
    if request.txnId in ledger.entries {
      assert EntryOk(request.txnId, ledger.entries[request.txnId]);
    } else {
      NewReservationKeeps(ledger, request);
    }
    hide LedgerOk;
  }

  lemma AbortKeeps(ledger: Ledger, request: MutationRequest)
    requires LedgerOk(ledger) && Abort(ledger, request).Ok?
    ensures LedgerOk(Abort(ledger, request).value)
    ensures Completed(Abort(ledger, request).value) == Completed(ledger)
  {
    FewerKeys(Abort(ledger, request).value.entries, ledger.entries);
  }

  lemma AbortInFlightKeeps(ledger: Ledger)
    requires LedgerOk(ledger)
    ensures LedgerOk(AbortInFlight(ledger)) && Completed(AbortInFlight(ledger)) == Completed(ledger)
  {
    FewerKeys(AbortInFlight(ledger).entries, ledger.entries);
  }

  lemma TokenStays(before: Ledger, after: Ledger, token: PreparedMutation)
    requires TokenOk(before, token)
    requires forall t :: t in Completed(before) ==> t in Completed(after) && Completed(after)[t] == Completed(before)[t]
    ensures TokenOk(after, token)
  {
    hide RecheckInFlight;
    hide SealPrivate;
    hide Completed;
  }

  lemma LookupFacts(ledger: Ledger, request: MutationRequest)
    requires LedgerOk(ledger) && Lookup(ledger, request).Ok?
    ensures Lookup(ledger, request).value.Vacant? <==> request.txnId !in ledger.entries
    ensures request.txnId in ledger.entries ==> ledger.entries[request.txnId].reservation == ReservationFor(request)
    ensures Lookup(ledger, request).value.InFlight?
        <==> request.txnId in ledger.entries && request.txnId !in Completed(ledger)
    ensures Lookup(ledger, request).value.Duplicate?
        <==> request.txnId in Completed(ledger)
    ensures request.txnId in Completed(ledger) ==>
      && Lookup(ledger, request).value.receipt == Completed(ledger)[request.txnId]
      && Completed(ledger)[request.txnId].fingerprint == request
  {
    if request.txnId in ledger.entries {
      assert EntryOk(request.txnId, ledger.entries[request.txnId]);
    }
  }

  // ---- prepare

  lemma PrepareKeeps(request: MutationRequest, base: Root, ledger: Ledger)
    requires LedgerOk(ledger)
    ensures var (after, result) := Prepare(request, base, ledger);
      && LedgerOk(after) && Completed(after) == Completed(ledger)
      && (result.Ok? ==> TokenOk(after, result.value) && result.value.request == request && result.value.base == base)
  {
    hide SealPrivate;
    hide CheckPlan;
    hide CheckAgainstRoot;
    if CheckPreconditions(request, base, ledger).Pass? && Reserve(ledger, request).Ok? {
      var (reserved, reservation) := Reserve(ledger, request).value;
      ReserveKeeps(ledger, request);
      LookupFacts(ledger, request);
      hide Completed;
      if Lookup(ledger, request).Ok? && Lookup(ledger, request).value.Duplicate? {
        StoredEvidence(ledger, request.txnId);
      } else if SealPrivate(request, base).Err? && Abort(reserved, request).Ok? {
        AbortKeeps(reserved, request);
      }
    }
  }

  lemma StoredEvidence(ledger: Ledger, t: string)
    requires LedgerOk(ledger) && t in Completed(ledger)
    ensures t in ledger.entries && ledger.entries[t].receipt == Some(Completed(ledger)[t])
    ensures ledger.entries[t].evidence == Some(Evidence(Completed(ledger)[t].oldRoot, Completed(ledger)[t].newRoot))
  {
    assert EntryOk(t, ledger.entries[t]);
  }

  // ---- commit

  lemma {:induction false} BuiltRevisions(ids: seq<string>, stamp: RevisionStamp, replaced: set<string>)
    requires BuildRevisions(ids, stamp, replaced).Ok?
    ensures var built := BuildRevisions(ids, stamp, replaced).value;
      && (forall id :: id in built <==> id in ids)
      && forall id :: id in built ==> built[id] == RevisionOf(stamp, id) + if id in replaced then 1 else 0
  {
    hide RevisionOf;
    hide ParseSection;
    if ids != [] {
      BuiltRevisions(ids[..|ids| - 1], stamp, replaced);
      assert ids == ids[..|ids| - 1] + [ids[|ids| - 1]];
    }
  }

  lemma SealedParts(request: MutationRequest, root: Root)
    requires SealPrivate(request, root).Ok?
    ensures Stageable(Named(request.entries), root)
    ensures root.stamp.worldRevision + 1 < U64_LIMIT
    ensures SealPrivate(request, root).value == Staged(
      StagedSlots(request.entries, root), StagedDirty(request.entries, root), root.stamp.worldRevision + 1)
    ensures StagedSlots(request.entries, root).Keys == Named(request.entries)
  {
    hide ParseSection;
    hide RecordDirty;
    hide Replay;
    hide EditsOf;
    hide CheckStaging;
    hide RevisionOf;
    hide SortedNames;
    hide Stageable;
    StageableFrom(Named(request.entries), root);
  }

  lemma OverlayAll(directory: Directory, replacement: Directory)
    ensures Overlay(directory, replacement, replacement.Keys) == Ok(directory + replacement)
  {
    assert (map id | id in replacement.Keys :: replacement[id]) == replacement;
  }

  lemma RevisionsParts(stamp: RevisionStamp, ids: set<string>)
    requires BuildRevisions(SortedNames(stamp.sectionRevisions.Keys + ids), stamp, ids).Ok?
    ensures var built := BuildRevisions(SortedNames(stamp.sectionRevisions.Keys + ids), stamp, ids).value;
      && built.Keys == stamp.sectionRevisions.Keys + ids
      && forall id :: id in built ==> built[id] == RevisionOf(stamp, id) + if id in ids then 1 else 0
  {
    var names := SortedNames(stamp.sectionRevisions.Keys + ids);
    BuiltRevisions(names, stamp, ids);
    hide RevisionOf;
    hide BuildRevisions;
  }

  lemma NewRootParts(token: PreparedMutation, root: Root)
    requires NewRoot(token, root).Ok? && token.staged.replacement.Keys == Named(token.request.entries)
    ensures var next, ids := NewRoot(token, root).value, Named(token.request.entries);
      && next.directory == root.directory + token.staged.replacement
      && next.dirty == token.staged.dirty && next.replacement == Some(token.staged.replacement)
      && next.stamp == root.stamp.(
           worldRevision := token.staged.targetWorldRevision, sectionRevisions := next.stamp.sectionRevisions)
      && next.stamp.sectionRevisions.Keys == root.stamp.sectionRevisions.Keys + ids
      && forall id :: id in next.stamp.sectionRevisions ==>
           next.stamp.sectionRevisions[id] == RevisionOf(root.stamp, id) + if id in ids then 1 else 0
  {
    hide Named;
    hide Overlay;
    hide BuildRevisions;
    hide RevisionOf;
    hide SortedNames;
    OverlayAll(root.directory, token.staged.replacement);
    RevisionsParts(root.stamp, Named(token.request.entries));
  }

  /** Staging from the live root, laid over the live root, is one publication. */
  lemma StagedRootIsPublish(token: PreparedMutation, root: Root)
    requires SealPrivate(token.request, root) == Ok(token.staged)
    requires RevisionsMatch(token.request, root.stamp)
    requires NewRoot(token, root).Ok?
    ensures IsPublish(token.request, root, NewRoot(token, root).value)
  {
    hide SealPrivate;
    hide NewRoot;
    hide RevisionsMatch;
    hide Stageable;
    hide StagedSlots;
    hide StagedDirty;
    hide RevisionOf;
    hide Named;
    SealedParts(token.request, root);
    NewRootParts(token, root);
  }

  lemma StageableFrom(ids: set<string>, root: Root)
    requires CheckStaging(SortedNames(ids), root) == Pass
    ensures Stageable(ids, root)
  {
    CheckStagingPasses(SortedNames(ids), root);
  }

  lemma AgainstRoot(request: MutationRequest, root: Root)
    requires CheckAgainstRoot(request, root) == Pass
    ensures RevisionsMatch(request, root.stamp)
  {
  }

  lemma CommitPublishes(token: PreparedMutation, authority: Authority, ledger: Ledger, pinFree: bool)
    requires LedgerOk(ledger) && TokenOk(ledger, token) && Lookup(ledger, token.request) == Ok(InFlight)
    requires Commit(token, authority, ledger, pinFree).result.Ok?
    ensures var outcome := Commit(token, authority, ledger, pinFree);
      var receipt := Receipt(token.request.txnId, authority.root, outcome.authority.root, token.request);
      && IsPublish(token.request, authority.root, outcome.authority.root)
      && outcome.ledger == Finalize(ledger, token.request.txnId, receipt)
      && outcome.result.value == MutationReceipt(
           token.request.txnId, receipt, Evidence(authority.root, outcome.authority.root))
  {
    hide SealPrivate;
    hide NewRoot;
    hide CheckPlan;
    hide Finalize;
    hide IsPublish;
    hide CheckAgainstRoot;
    assert CheckAgainstRoot(token.request, authority.root) == Pass;
    assert RevisionsMatch(token.request, authority.root.stamp) by { AgainstRoot(token.request, authority.root); }
    LookupFacts(ledger, token.request);
    hide Lookup;
    assert token.replay.None?;
    StagedRootIsPublish(token, authority.root);
  }

  lemma FinalizedEntries(ledger: Ledger, request: MutationRequest, receipt: Receipt)
    requires LedgerOk(ledger) && request.txnId in ledger.entries && request.txnId !in Completed(ledger)
    requires ledger.entries[request.txnId].reservation == ReservationFor(request)
    ensures Finalize(ledger, request.txnId, receipt) == ledger.(entries := ledger.entries[request.txnId :=
      LedgerEntry(ReservationFor(request), Some(receipt), Some(Evidence(receipt.oldRoot, receipt.newRoot)))])
  {
    assert EntryOk(request.txnId, ledger.entries[request.txnId]);
  }

  lemma ReplacedEntryIsOk(ledger: Ledger, t: string, entry: LedgerEntry)
    requires LedgerOk(ledger) && t in ledger.entries && EntryOk(t, entry)
    ensures LedgerOk(ledger.(entries := ledger.entries[t := entry]))
  {
    hide EntryOk;
    var after := ledger.entries[t := entry];
    assert after.Keys == ledger.entries.Keys;
    FewerKeys(after, ledger.entries);
  }

  lemma CompletedEntry(ledger: Ledger, t: string, entry: LedgerEntry)
    requires t in ledger.entries && entry.receipt.Some?
    ensures Completed(ledger.(entries := ledger.entries[t := entry])) == Completed(ledger)[t := entry.receipt.value]
  {
  }

  lemma FinalizeKeeps(ledger: Ledger, request: MutationRequest, receipt: Receipt)
    requires LedgerOk(ledger) && Lookup(ledger, request) == Ok(InFlight)
    requires receipt.txnId == request.txnId && receipt.fingerprint == request
    ensures var after := Finalize(ledger, request.txnId, receipt);
      && LedgerOk(after)
      && Completed(after) == Completed(ledger)[request.txnId := receipt]
      && request.txnId !in Completed(ledger)
      && after.entries.Keys == ledger.entries.Keys
  {
    hide Lookup;
    hide Completed;
    hide Finalize;
    hide LedgerOk;
    LookupFacts(ledger, request);
    FinalizedEntries(ledger, request, receipt);
    var t := request.txnId;
    var entry := LedgerEntry(
      ReservationFor(request), Some(receipt), Some(Evidence(receipt.oldRoot, receipt.newRoot)));
    ReplacedEntryIsOk(ledger, t, entry);
    CompletedEntry(ledger, t, entry);
    assert ledger.entries[t := entry].Keys == ledger.entries.Keys;
  }

  /** A commit that does not publish leaves the root and the ledger alone. */
  lemma CommitRefusedOrReplayed(token: PreparedMutation, authority: Authority, ledger: Ledger, pinFree: bool)
    requires Commit(token, authority, ledger, pinFree).result.Err? || Lookup(ledger, token.request) != Ok(InFlight)
    ensures Commit(token, authority, ledger, pinFree).authority.root == authority.root
    ensures Commit(token, authority, ledger, pinFree).ledger == ledger
  {
    hide Lookup;
    hide RecheckInFlight;
    hide NewRoot;
  }

  // ---- every step keeps a sound session sound

  lemma LeadsAppend(log: Log, first: Root, root: Root, e: Event)
    requires Leads(log, first, root) && e.before == root && Legal(e)
    ensures Leads(log + [e], first, e.after)
  {
    hide Legal;
    assert (log + [e])[..|log|] == log;
  }

  lemma AppendOther(log: Log, e: Event)
    requires DistinctTransactions(log) && !e.kind.Published?
    ensures DistinctTransactions(log + [e]) && Receipts(log + [e]) == Receipts(log)
  {
    assert (log + [e])[..|log|] == log;
  }

  lemma AppendPublished(log: Log, e: Event)
    requires DistinctTransactions(log) && e.kind.Published? && e.kind.request.txnId !in Receipts(log)
    ensures DistinctTransactions(log + [e])
    ensures Receipts(log + [e])
        == Receipts(log)[e.kind.request.txnId := Receipt(e.kind.request.txnId, e.before, e.after, e.kind.request)]
  {
    assert (log + [e])[..|log|] == log;
    forall i | 0 <= i < |log| && log[i].kind.Published? ensures log[i].kind.request.txnId != e.kind.request.txnId {
      ReceiptsAreOfTheLog(log, i);
    }
  }

  lemma PrepareStepKeeps(first: Root, s: Session, request: MutationRequest, view: Root)
    requires Sound(first, s)
    ensures Sound(first, PrepareStep(s, request, view))
  {
    hide Prepare;
    hide Completed;
    hide LedgerOk;
    hide TokenOk;
    hide Leads;
    PrepareKeeps(request, view, s.ledger);
    forall token | token in s.tokens ensures TokenOk(PrepareStep(s, request, view).ledger, token) {
      TokenStays(s.ledger, PrepareStep(s, request, view).ledger, token);
    }
  }

  lemma LedgerStepKeeps(first: Root, s: Session, ledger: Ledger)
    requires Sound(first, s) && LedgerOk(ledger) && Completed(ledger) == Completed(s.ledger)
    ensures Sound(first, s.(ledger := ledger))
  {
    hide Completed;
    hide LedgerOk;
    hide TokenOk;
    hide Leads;
    forall token | token in s.tokens ensures TokenOk(ledger, token) {
      TokenStays(s.ledger, ledger, token);
    }
  }

  lemma CommitStepKeeps(first: Root, s: Session, token: PreparedMutation, pinFree: bool)
    requires Sound(first, s) && token in s.tokens
    ensures Sound(first, CommitStep(s, token, pinFree))
  {
    hide Commit;
    hide Completed;
    hide LedgerOk;
    hide TokenOk;
    hide Leads;
    hide IsPublish;
    hide Finalize;
    hide Lookup;
    hide DistinctTransactions;
    hide Receipts;
    var outcome := Commit(token, s.authority, s.ledger, pinFree);
    if outcome.result.Ok? && Lookup(s.ledger, token.request) == Ok(InFlight) {
      var receipt := Receipt(token.request.txnId, s.authority.root, outcome.authority.root, token.request);
      CommitPublishes(token, s.authority, s.ledger, pinFree);
      FinalizeKeeps(s.ledger, token.request, receipt);
      var e := Event(Published(token.request), s.authority.root, outcome.authority.root);
      AppendPublished(s.log, e);
      LeadsAppend(s.log, first, s.authority.root, e);
      forall other | other in s.tokens ensures TokenOk(outcome.ledger, other) {
        TokenStays(s.ledger, outcome.ledger, other);
      }
    } else {
      CommitRefusedOrReplayed(token, s.authority, s.ledger, pinFree);
    }
  }

  lemma AckIsAcknowledgement(authority: Authority, ack: Ack, pinFree: bool)
    ensures var (after, result) := ApplyAck(authority, ack, pinFree);
      if result.Ok? && result.value > 0
      then Bounds(ack.sections).Ok? && IsAcknowledgement(Bounds(ack.sections).value, authority.root, after.root)
      else after.root == authority.root
  {
    hide Bounds;
    var covered := CoveredBy(authority.root.dirty, ack);
    if covered.Ok? {
      assert covered.value == {} <==> |covered.value| == 0;
    }
  }

  lemma AckStepKeeps(first: Root, s: Session, ack: Ack, pinFree: bool)
    requires Sound(first, s)
    ensures Sound(first, AckStep(s, ack, pinFree))
  {
    hide ApplyAck;
    hide Completed;
    hide LedgerOk;
    hide TokenOk;
    hide Leads;
    hide IsAcknowledgement;
    hide Bounds;
    hide DistinctTransactions;
    hide Receipts;
    AckIsAcknowledgement(s.authority, ack, pinFree);
    var (after, result) := ApplyAck(s.authority, ack, pinFree);
    if result.Ok? && result.value > 0 {
      var e := Event(Acknowledged(Bounds(ack.sections).value), s.authority.root, after.root);
      LeadsAppend(s.log, first, s.authority.root, e);
      AppendOther(s.log, e);
    }
  }

  lemma UnloadIsUnload(authority: Authority, id: string, exempt: bool, pinFree: bool)
    ensures var (after, result) := Unload(authority, id, exempt, pinFree);
      if result == Ok(true) then exempt && IsUnload(id, authority.root, after.root) else after.root == authority.root
  {
    hide ParseSection;
  }

  lemma UnloadStepKeeps(first: Root, s: Session, id: string, exempt: bool, pinFree: bool)
    requires Sound(first, s)
    ensures Sound(first, UnloadStep(s, id, exempt, pinFree))
  {
    hide Unload;
    hide Completed;
    hide LedgerOk;
    hide TokenOk;
    hide Leads;
    hide IsUnload;
    hide DistinctTransactions;
    hide Receipts;
    UnloadIsUnload(s.authority, id, exempt, pinFree);
    var (after, result) := Unload(s.authority, id, exempt, pinFree);
    if result == Ok(true) {
      var e := Event(Unloaded(id), s.authority.root, after.root);
      LeadsAppend(s.log, first, s.authority.root, e);
      AppendOther(s.log, e);
    }
  }

  lemma StepKeeps(first: Root, s: Session, a: Action)
    requires Sound(first, s)
    ensures Sound(first, Step(s, a))
  {
    hide PrepareStep;
    hide CommitStep;
    hide AckStep;
    hide UnloadStep;
    hide Abort;
    hide AbortInFlight;
    hide Completed;
    hide LedgerOk;
    hide TokenOk;
    hide Leads;
    hide DistinctTransactions;
    hide Receipts;
    if a.PrepareFrom? {
      PrepareStepKeeps(first, s, a.request, a.view);
    } else if a.CommitToken? && a.token in s.tokens {
      CommitStepKeeps(first, s, a.token, a.pinFree);
    } else if a.AbortRequest? && Abort(s.ledger, a.request).Ok? {
      AbortKeeps(s.ledger, a.request);
      LedgerStepKeeps(first, s, Abort(s.ledger, a.request).value);
    } else if a.AbortAllInFlight? {
      AbortInFlightKeeps(s.ledger);
      LedgerStepKeeps(first, s, AbortInFlight(s.ledger));
    } else if a.Acknowledge? {
      AckStepKeeps(first, s, a.ack, a.pinFree);
    } else if a.UnloadSection? {
      UnloadStepKeeps(first, s, a.id, a.exempt, a.pinFree);
    }
  }

  lemma CleanIsSound(s: Session)
    requires IsClean(s)
    ensures Sound(s.authority.root, s)
  {
    assert Completed(s.ledger) == map[];
  }

  lemma {:induction false} RunIsSound(first: Root, s: Session, actions: seq<Action>)
    requires Sound(first, s)
    ensures Sound(first, Run(s, actions))
  {
    hide Sound;
    hide Step;
    if actions != [] {
      RunIsSound(first, s, actions[..|actions| - 1]);
      StepKeeps(first, Run(s, actions[..|actions| - 1]), actions[|actions| - 1]);
    }
  }

  // ---- main results

  /** Every reachable session is sound: its log leads from the first root to the live one. */
  lemma ReachableIsSound(start: Session, actions: seq<Action>)
    requires IsClean(start)
    ensures Sound(start.authority.root, Run(start, actions))
  {
    CleanIsSound(start);
    RunIsSound(start.authority.root, start, actions);
  }

  /**
   Serial replay over runs: whatever was interleaved, each section holds the initial cells with every published
   edit applied in publication order, the world revision counts the publications, and a section with a
   revision of its own has one more for each publication naming it.
   */
  lemma RunsReplaySerially(start: Session, actions: seq<Action>, id: string)
    requires IsClean(start) && id in start.authority.root.directory
    ensures var first, s := start.authority.root, Run(start, actions);
      var last := s.authority.root;
      && last.directory.Keys == first.directory.Keys
      && last.directory[id] == Expected(first.directory[id], PublishedEdits(s.log, id), UnloadedIn(s.log, id))
      && last.stamp.worldRevision == first.stamp.worldRevision + Publications(s.log)
      && (id in first.stamp.sectionRevisions
          ==> RevisionOf(last.stamp, id) == RevisionOf(first.stamp, id) + Naming(s.log, id))
  {
    var first, s := start.authority.root, Run(start, actions);
    ReachableIsSound(start, actions);
    DirectoryKeysStay(s.log, first, s.authority.root);
    SerialReplay(s.log, first, s.authority.root, id);
    SectionRevisionCountsNaming(s.log, first, s.authority.root, id);
    WorldRevisionCountsPublications(s.log, first, s.authority.root);
  }

  /** No committed edit is lost before it is durable, over any run. */
  lemma RunsLoseNothing(start: Session, actions: seq<Action>, id: string)
    requires IsClean(start)
    ensures var first, s := start.authority.root, Run(start, actions);
      && DirtyIsCurrent(s.authority.root)
      && (id in s.authority.root.dirty.entries <==> exists i :: Outstanding(s.log, i, id))
      && (id in s.authority.root.dirty.entries ==>
            && IsVoxelReady(first.directory, id) && IsVoxelReady(s.authority.root.directory, id)
            && s.authority.root.directory[id].payload.cells
               == Replay(first.directory[id].payload.cells, PublishedEdits(s.log, id)))
  {
    var first, s := start.authority.root, Run(start, actions);
    ReachableIsSound(start, actions);
    DirtyStaysCurrent(s.log, first, s.authority.root);
    NoEditIsLost(s.log, first, s.authority.root, id);
  }

  /**
   At most once: no two publications of a run share a transaction; a transaction has a receipt exactly when it
   was published, naming the roots just before and just after; the ledger never outgrows its bound.
   */
  lemma RunsApplyOnce(start: Session, actions: seq<Action>)
    requires IsClean(start)
    ensures var s := Run(start, actions);
      && |s.ledger.entries| <= s.ledger.maxEntries
      && DistinctTransactions(s.log)
      && (forall i :: 0 <= i < |s.log| && s.log[i].kind.Published? ==>
            var t := s.log[i].kind.request.txnId;
            && t in Completed(s.ledger)
            && Completed(s.ledger)[t] == Receipt(t, s.log[i].before, s.log[i].after, s.log[i].kind.request))
      && (forall t :: t in Completed(s.ledger) ==> PublishedIn(s.log, t))
  {
    var s := Run(start, actions);
    ReachableIsSound(start, actions);
    forall i | 0 <= i < |s.log| && s.log[i].kind.Published?
      ensures var t := s.log[i].kind.request.txnId;
        && t in Completed(s.ledger)
        && Completed(s.ledger)[t] == Receipt(t, s.log[i].before, s.log[i].after, s.log[i].kind.request)
    {
      ReceiptsAreOfTheLog(s.log, i);
    }
    forall t | t in Completed(s.ledger) ensures PublishedIn(s.log, t) {
      var i := OnlyLoggedReceipts(s.log, t);
    }
  }

  predicate PublishedIn(log: Log, t: string) {
    exists i :: 0 <= i < |log| && log[i].kind.Published? && log[i].kind.request.txnId == t
  }

  lemma {:induction false} RunsCompose(s: Session, a: seq<Action>, b: seq<Action>)
    ensures Run(s, a + b) == Run(Run(s, a), b)
    decreases |b|
  {
    hide Step;
    if b == [] {
      assert a + b == a;
    } else {
      assert (a + b)[..|a + b| - 1] == a + b[..|b| - 1];
      RunsCompose(s, a, b[..|b| - 1]);
    }
  }

  lemma LoggedReceiptStays(log: Log, e: Event, t: string)
    requires DistinctTransactions(log + [e]) && t in Receipts(log)
    ensures t in Receipts(log + [e]) && Receipts(log + [e])[t] == Receipts(log)[t]
  {
    var longer := log + [e];
    assert longer[..|log|] == log;
    if e.kind.Published? {
      var i := OnlyLoggedReceipts(log, t);
      assert longer[i] == log[i] && longer[|log|] == e;
      assert e.kind.request.txnId != t;
    }
  }

  lemma StepKeepsReceipts(first: Root, s: Session, a: Action, t: string)
    requires Sound(first, s) && t in Completed(s.ledger)
    ensures t in Completed(Step(s, a).ledger) && Completed(Step(s, a).ledger)[t] == Completed(s.ledger)[t]
  {
    hide Step;
    hide Completed;
    hide Leads;
    hide LedgerOk;
    hide TokenOk;
    hide Receipts;
    hide DistinctTransactions;
    StepKeeps(first, s, a);
    StepExtendsLog(s, a);
    if Step(s, a).log != s.log {
      var e :| Step(s, a).log == s.log + [e];
      LoggedReceiptStays(s.log, e, t);
    }
  }

  lemma StepExtendsLog(s: Session, a: Action)
    ensures Step(s, a).log == s.log || exists e :: Step(s, a).log == s.log + [e]
  {
    hide Commit;
    hide ApplyAck;
    hide Unload;
    hide Prepare;
    hide Abort;
    hide AbortInFlight;
    hide Lookup;
    hide Bounds;
  }

  /** A recorded receipt never changes and never disappears, whatever runs afterwards. */
  lemma {:induction false} ReceiptsAreForever(start: Session, actions: seq<Action>, more: seq<Action>, t: string)
    requires IsClean(start) && t in Completed(Run(start, actions).ledger)
    ensures t in Completed(Run(start, actions + more).ledger)
    ensures Completed(Run(start, actions + more).ledger)[t] == Completed(Run(start, actions).ledger)[t]
    decreases |more|
  {
    hide Step;
    hide Completed;
    hide Sound;
    hide IsClean;
    if more == [] {
      assert actions + more == actions;
    } else {
      var init := more[..|more| - 1];
      ReceiptsAreForever(start, actions, init, t);
      ReachableIsSound(start, actions + init);
      assert (actions + more)[..|actions + more| - 1] == actions + init;
      StepKeepsReceipts(start.authority.root, Run(start, actions + init), more[|more| - 1], t);
    }
  }

  // ---- refusals

  /** A refused prepare leaves the ledger's entries as they were. */
  lemma FailedPrepareReservesNothing(request: MutationRequest, base: Root, ledger: Ledger)
    requires LedgerOk(ledger) && Prepare(request, base, ledger).1.Err?
    ensures Prepare(request, base, ledger).0.entries == ledger.entries
  {
    hide SealPrivate;
    hide CheckPreconditions;
    hide LedgerOk;
    hide Lookup;
    if CheckPreconditions(request, base, ledger).Pass? && Reserve(ledger, request).Ok? {
      CheckedIsKnownOrVacant(request, base, ledger);
      if !Lookup(ledger, request).value.Duplicate? {
        ReservedThenAborted(request, ledger);
      }
      LookupFacts(ledger, request);
      hide Completed;
      hide Abort;
    }
  }

  lemma CheckedIsKnownOrVacant(request: MutationRequest, base: Root, ledger: Ledger)
    requires CheckPreconditions(request, base, ledger) == Pass
    ensures Lookup(ledger, request).Ok?
    ensures Lookup(ledger, request).value.Duplicate? || Lookup(ledger, request).value.Vacant?
  {
    hide CheckPlan;
    hide CheckAgainstRoot;
  }

  lemma ReservedThenAborted(request: MutationRequest, ledger: Ledger)
    requires Lookup(ledger, request) == Ok(Vacant) && Reserve(ledger, request).Ok?
    ensures request.txnId !in ledger.entries
    ensures var released := Abort(Reserve(ledger, request).value.0, request);
      released.Ok? && released.value.entries == ledger.entries
  {
  }

  lemma {:induction false} RevisionsCanBeBuilt(ids: seq<string>, stamp: RevisionStamp, replaced: set<string>)
    requires forall id :: id in ids ==> IsSectionKey(id)
    requires forall id :: id in ids && id in replaced ==> RevisionOf(stamp, id) + 1 < U64_LIMIT
    ensures BuildRevisions(ids, stamp, replaced).Ok?
  {
    hide RevisionOf;
    hide ParseSection;
    if ids != [] {
      RevisionsCanBeBuilt(ids[..|ids| - 1], stamp, replaced);
      assert IsSectionKey(ids[|ids| - 1]);
    }
  }

  lemma NewRootExists(token: PreparedMutation, root: Root)
    requires SealPrivate(token.request, root) == Ok(token.staged)
    requires CheckPlan(token.request) == Pass && CanonicalKeys(root.stamp.sectionRevisions.Keys)
    ensures NewRoot(token, root).Ok?
  {
    hide ParseSection;
    hide SealPrivate;
    hide RevisionOf;
    hide Named;
    hide StagedSlots;
    hide StagedDirty;
    SealedParts(token.request, root);
    PlannedKeysAreCanonical(token.request.entries);
    OverlayAll(root.directory, token.staged.replacement);
    var ids := Named(token.request.entries);
    var names := SortedNames(root.stamp.sectionRevisions.Keys + ids);
    hide SortedNames;
    RevisionsCanBeBuilt(names, root.stamp, token.staged.replacement.Keys);
  }

  /**
   A fresh token of an in-flight transaction publishes exactly when the live root still is the one it was
   prepared from and the authority has a token id and a revision pin left. Otherwise nothing changes but the
   token counter, and the transaction stays in flight.
   */
  lemma CommitSucceedsOnBase(token: PreparedMutation, authority: Authority, ledger: Ledger, pinFree: bool)
    requires LedgerOk(ledger) && TokenOk(ledger, token) && Lookup(ledger, token.request) == Ok(InFlight)
    requires CheckStamp(authority, authority.root.stamp) == Pass
    requires CanonicalKeys(authority.root.stamp.sectionRevisions.Keys)
    ensures Commit(token, authority, ledger, pinFree).result.Ok?
        <==> token.base == authority.root && authority.nextTokenId + 1 < U64_LIMIT && pinFree
    ensures Commit(token, authority, ledger, pinFree).result.Err? ==>
      && Commit(token, authority, ledger, pinFree).authority.root == authority.root
      && Commit(token, authority, ledger, pinFree).ledger == ledger
  {
    LookupFacts(ledger, token.request);
    hide Lookup;
    hide Completed;
    hide LedgerOk;
    hide SealPrivate;
    hide NewRoot;
    hide CheckPlan;
    hide CheckAgainstRoot;
    hide CanonicalKeys;
    if token.base == authority.root {
      NewRootExists(token, authority.root);
      NewRootKeepsStamp(token, authority.root);
    }
  }

  lemma NewRootKeepsStamp(token: PreparedMutation, root: Root)
    requires NewRoot(token, root).Ok?
    ensures var next := NewRoot(token, root).value.stamp;
      next.worldId == root.stamp.worldId && next.contextId == root.stamp.contextId
      && next.generation == root.stamp.generation
  {
    hide BuildRevisions;
    hide Overlay;
  }
}
