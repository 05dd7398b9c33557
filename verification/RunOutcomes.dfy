/** What a request or a token meets in a reachable session: conflicts, replays and commits, each exactly. */
module RunOutcomes {
  import opened Wrappers
  import opened Text
  import opened Keys
  import opened Fingerprint
  import opened Protocol
  import opened PublicationLog
  import opened Runs
  import opened Durability

  // ---- a ledger is bound to one world and generation

  /** Every entry has a name and a world, and the ledger is bound to that world and to the entry's generation. */
  predicate IsBound(ledger: Ledger) {
    forall t :: t in ledger.entries ==>
      && t != "" && ledger.entries[t].reservation.worldId != ""
      && ledger.boundWorld == Some(ledger.entries[t].reservation.worldId)
      && ledger.boundGeneration == Some(ledger.entries[t].reservation.generation)
  }

  lemma ReserveKeepsBound(ledger: Ledger, request: MutationRequest)
    requires IsBound(ledger) && Reserve(ledger, request).Ok?
    ensures IsBound(Reserve(ledger, request).value.0)
  {
  }

  lemma AbortKeepsBound(ledger: Ledger, request: MutationRequest)
    requires IsBound(ledger) && Abort(ledger, request).Ok?
    ensures IsBound(Abort(ledger, request).value)
  {
  }

  lemma PrepareKeepsBound(request: MutationRequest, base: Root, ledger: Ledger)
    requires IsBound(ledger)
    ensures IsBound(Prepare(request, base, ledger).0)
  {
    hide IsBound;
    hide SealPrivate;
    hide CheckPreconditions;
    hide Reserve;
    hide Abort;
    hide Lookup;
    if CheckPreconditions(request, base, ledger).Pass? && Reserve(ledger, request).Ok? {
      ReserveKeepsBound(ledger, request);
      var reserved := Reserve(ledger, request).value.0;
      if Abort(reserved, request).Ok? {
        AbortKeepsBound(reserved, request);
      }
    }
  }

  lemma CommitKeepsBound(token: PreparedMutation, authority: Authority, ledger: Ledger, pinFree: bool)
    requires IsBound(ledger)
    ensures IsBound(Commit(token, authority, ledger, pinFree).ledger)
  {
    hide Lookup;
    hide RecheckInFlight;
    hide NewRoot;
    hide PublishNext;
  }

  lemma StepKeepsBound(s: Session, a: Action)
    requires IsBound(s.ledger)
    ensures IsBound(Step(s, a).ledger)
  {
    hide Prepare;
    hide Commit;
    hide Abort;
    hide ApplyAck;
    hide Unload;
    hide Lookup;
    hide Bounds;
    if a.PrepareFrom? {
      PrepareKeepsBound(a.request, a.view, s.ledger);
    } else if a.CommitToken? {
      CommitKeepsBound(a.token, s.authority, s.ledger, a.pinFree);
    } else if a.AbortRequest? && Abort(s.ledger, a.request).Ok? {
      AbortKeepsBound(s.ledger, a.request);
    }
  }

  lemma {:induction false} RunKeepsBound(s: Session, actions: seq<Action>)
    requires IsBound(s.ledger)
    ensures IsBound(Run(s, actions).ledger)
  {
    hide Step;
    hide IsBound;
    if actions != [] {
      RunKeepsBound(s, actions[..|actions| - 1]);
      StepKeepsBound(Run(s, actions[..|actions| - 1]), actions[|actions| - 1]);
    }
  }

  /** Over any run, an admissible request conflicts exactly when its transaction is known with a different request. */
  lemma ConflictsAreExact(start: Session, actions: seq<Action>, request: MutationRequest)
    requires IsClean(start) && CheckRequest(Run(start, actions).ledger, request) == Pass
    ensures var ledger := Run(start, actions).ledger;
      Lookup(ledger, request) == Err(RevisionConflict)
      <==> request.txnId in ledger.entries && ledger.entries[request.txnId].reservation.fingerprint != request
  {
    var s := Run(start, actions);
    ReachableIsSound(start, actions);
    assert IsBound(start.ledger);
    RunKeepsBound(start, actions);
    hide Run;
    BoundConflict(s.ledger, request);
  }

  lemma BoundConflict(ledger: Ledger, request: MutationRequest)
    requires LedgerOk(ledger) && IsBound(ledger) && CheckRequest(ledger, request) == Pass
    ensures Lookup(ledger, request) == Err(RevisionConflict)
        <==> request.txnId in ledger.entries && ledger.entries[request.txnId].reservation.fingerprint != request
  {
    if request.txnId in ledger.entries {
      assert EntryOk(request.txnId, ledger.entries[request.txnId]);
    }
  }

  // ---- committing a completed transaction

  lemma {:induction false} LoggedEventIsLegal(log: Log, first: Root, last: Root, i: nat)
    requires Leads(log, first, last) && i < |log|
    ensures Legal(log[i])
  {
    hide Legal;
    var init := log[..|log| - 1];
    if i < |init| {
      LoggedEventIsLegal(init, first, log[|log| - 1].before, i);
      assert init[i] == log[i];
    }
  }

  /** The two roots of a receipt are never the same: a publication raises the world revision. */
  lemma ReceiptRootsDiffer(start: Session, actions: seq<Action>, t: string)
    requires IsClean(start) && t in Completed(Run(start, actions).ledger)
    ensures var receipt := Completed(Run(start, actions).ledger)[t];
      receipt.newRoot.stamp.worldRevision == receipt.oldRoot.stamp.worldRevision + 1
  {
    var s := Run(start, actions);
    ReachableIsSound(start, actions);
    var i := OnlyLoggedReceipts(s.log, t);
    LoggedEventIsLegal(s.log, start.authority.root, s.authority.root, i);
    hide Run;
    hide RevisionsMatch;
    hide Stageable;
  }

  /**
   Committing any token of a completed transaction returns the stored receipt and changes nothing; the original
   evidence comes with it if and only if the token is a replay token.
   */
  lemma RepeatReturnsTheReceipt(start: Session, actions: seq<Action>, token: PreparedMutation, pinFree: bool)
    requires IsClean(start)
    requires var s := Run(start, actions);
      && token in s.tokens
      && Lookup(s.ledger, token.request).Ok? && token.request.txnId in Completed(s.ledger)
    ensures var s := Run(start, actions);
      var outcome := Commit(token, s.authority, s.ledger, pinFree);
      && outcome.authority == s.authority && outcome.ledger == s.ledger
      && outcome.result.Ok?
      && outcome.result.value.receipt == Completed(s.ledger)[token.request.txnId]
      && (outcome.result.value.evidence
          == Evidence(outcome.result.value.receipt.oldRoot, outcome.result.value.receipt.newRoot)
          <==> token.replay.Some?)
      && (token.replay.None? ==> outcome.result.value.evidence == Evidence(token.base, token.base))
  {
    var s := Run(start, actions);
    ReachableIsSound(start, actions);
    ReceiptRootsDiffer(start, actions, token.request.txnId);
    assert TokenOk(s.ledger, token) && LedgerOk(s.ledger);
    LookupFacts(s.ledger, token.request);
    hide Run;
    hide Completed;
    hide SealPrivate;
    hide RecheckInFlight;
    hide Lookup;
    hide LedgerOk;
    hide Receipts;
    hide Leads;
  }

  // ---- committing a fresh token

  lemma CommitKeepsCanonical(token: PreparedMutation, authority: Authority, ledger: Ledger, pinFree: bool)
    requires LedgerOk(ledger) && TokenOk(ledger, token)
    requires CanonicalKeys(authority.root.stamp.sectionRevisions.Keys)
    ensures CanonicalKeys(Commit(token, authority, ledger, pinFree).authority.root.stamp.sectionRevisions.Keys)
  {
    hide CheckEntries;
    hide CanonicalKeys;
    hide Lookup;
    var outcome := Commit(token, authority, ledger, pinFree);
    if outcome.result.Ok? && Lookup(ledger, token.request) == Ok(InFlight) {
      CommitPublishes(token, authority, ledger, pinFree);
      LookupFacts(ledger, token.request);
      PlannedTokenIsCanonical(token, authority, ledger, pinFree);
      CanonicalUnion(authority.root.stamp.sectionRevisions.Keys, Named(token.request.entries));
    } else {
      CommitRefusedOrReplayed(token, authority, ledger, pinFree);
    }
    hide Commit;
    hide LedgerOk;
    hide TokenOk;
    hide RevisionsMatch;
    hide Stageable;
    hide Named;
  }

  lemma PlannedTokenIsCanonical(token: PreparedMutation, authority: Authority, ledger: Ledger, pinFree: bool)
    requires Lookup(ledger, token.request) == Ok(InFlight)
    requires Commit(token, authority, ledger, pinFree).result.Ok?
    ensures CanonicalKeys(Named(token.request.entries))
  {
    hide CheckEntries;
    hide CanonicalKeys;
    hide NewRoot;
    hide CheckAgainstRoot;
    hide Lookup;
    PlannedKeysAreCanonical(token.request.entries);
  }

  lemma CanonicalUnion(a: set<string>, b: set<string>)
    requires CanonicalKeys(a) && CanonicalKeys(b)
    ensures CanonicalKeys(a + b)
  {
    hide IsSectionKey;
  }

  lemma StepKeepsCanonical(first: Root, s: Session, a: Action)
    requires Sound(first, s) && CanonicalKeys(s.authority.root.stamp.sectionRevisions.Keys)
    ensures CanonicalKeys(Step(s, a).authority.root.stamp.sectionRevisions.Keys)
  {
    hide CanonicalKeys;
    hide Prepare;
    hide Commit;
    hide Abort;
    hide AbortInFlight;
    hide ApplyAck;
    hide Unload;
    hide Lookup;
    hide Bounds;
    hide LedgerOk;
    hide TokenOk;
    hide Leads;
    hide Completed;
    if a.CommitToken? && a.token in s.tokens {
      CommitKeepsCanonical(a.token, s.authority, s.ledger, a.pinFree);
    } else if a.Acknowledge? {
      AckIsAcknowledgement(s.authority, a.ack, a.pinFree);
    } else if a.UnloadSection? {
      UnloadIsUnload(s.authority, a.id, a.exempt, a.pinFree);
    }
  }

  /** A canonical stamp stays canonical: only planned sections are ever added to it. */
  lemma {:induction false} RunKeepsCanonical(start: Session, actions: seq<Action>)
    requires IsClean(start) && CanonicalKeys(start.authority.root.stamp.sectionRevisions.Keys)
    ensures CanonicalKeys(Run(start, actions).authority.root.stamp.sectionRevisions.Keys)
  {
    hide Step;
    hide CanonicalKeys;
    hide Sound;
    hide IsClean;
    if actions != [] {
      var init := actions[..|actions| - 1];
      RunKeepsCanonical(start, init);
      ReachableIsSound(start, init);
      StepKeepsCanonical(start.authority.root, Run(start, init), actions[|actions| - 1]);
    }
  }

  /**
   Over any run, a token of an in-flight transaction publishes exactly when the live root still is the one it was
   prepared from and the authority has a token id and a revision pin left. Otherwise root and ledger stay as they
   are, so the transaction stays in flight.
   */
  lemma CommitSucceedsExactlyOnItsBase(start: Session, actions: seq<Action>, token: PreparedMutation, pinFree: bool)
    requires IsClean(start) && CheckStamp(start.authority, start.authority.root.stamp) == Pass
    requires CanonicalKeys(start.authority.root.stamp.sectionRevisions.Keys)
    requires token in Run(start, actions).tokens && Lookup(Run(start, actions).ledger, token.request) == Ok(InFlight)
    ensures var s := Run(start, actions);
      var outcome := Commit(token, s.authority, s.ledger, pinFree);
      && (outcome.result.Ok?
          <==> token.base == s.authority.root && s.authority.nextTokenId + 1 < U64_LIMIT && pinFree)
      && (outcome.result.Err? ==> outcome.authority.root == s.authority.root && outcome.ledger == s.ledger)
  {
    var s := Run(start, actions);
    ReachableIsSound(start, actions);
    StampStaysOwn(start, actions);
    RunKeepsCanonical(start, actions);
    hide Run;
    hide Completed;
    hide Receipts;
    hide Leads;
    hide CanonicalKeys;
    hide Commit;
    hide LedgerOk;
    hide TokenOk;
    hide Lookup;
    assert TokenOk(s.ledger, token) && LedgerOk(s.ledger);
    CommitSucceedsOnBase(token, s.authority, s.ledger, pinFree);
  }

  lemma InFlightRefusals(token: PreparedMutation, authority: Authority, ledger: Ledger, pinFree: bool)
    requires LedgerOk(ledger) && TokenOk(ledger, token) && Lookup(ledger, token.request) == Ok(InFlight)
    requires CheckStamp(authority, authority.root.stamp) == Pass
    requires CanonicalKeys(authority.root.stamp.sectionRevisions.Keys)
    ensures var outcome := Commit(token, authority, ledger, pinFree);
      && (if token.request.generation != authority.generation then outcome.result == Err(StaleEpoch)
          else if token.request.worldId != authority.worldId then outcome.result == Err(SessionMismatch)
          else if token.base != authority.root then outcome.result == Err(SnapshotBaseMismatch)
          else if authority.nextTokenId + 1 >= U64_LIMIT then outcome.result == Err(InvalidHandle)
          else !pinFree ==> outcome.result == Err(BudgetExceeded))
      && outcome.authority.nextTokenId == authority.nextTokenId
         + (if token.base == authority.root && authority.nextTokenId + 1 < U64_LIMIT then 1 else 0)
  {
    LookupFacts(ledger, token.request);
    hide Lookup;
    hide Completed;
    hide LedgerOk;
    hide SealPrivate;
    hide NewRoot;
    hide CheckPlan;
    hide CheckAgainstRoot;
    hide CanonicalKeys;
    if token.base == authority.root {
      NewRootExists(token, authority.root);
      NewRootKeepsStamp(token, authority.root);
    }
  }

  /**
   Over any run, each refusal of a token of an in-flight transaction, in the order in which the source looks: another
   generation, another world, another base, no token id, no pin. A token id is used up once the base is the live root.
   */
  lemma CommitRefusals(start: Session, actions: seq<Action>, token: PreparedMutation, pinFree: bool)
    requires IsClean(start) && CheckStamp(start.authority, start.authority.root.stamp) == Pass
    requires CanonicalKeys(start.authority.root.stamp.sectionRevisions.Keys)
    requires token in Run(start, actions).tokens && Lookup(Run(start, actions).ledger, token.request) == Ok(InFlight)
    ensures var s := Run(start, actions);
      var outcome := Commit(token, s.authority, s.ledger, pinFree);
      && (if token.request.generation != s.authority.generation then outcome.result == Err(StaleEpoch)
          else if token.request.worldId != s.authority.worldId then outcome.result == Err(SessionMismatch)
          else if token.base != s.authority.root then outcome.result == Err(SnapshotBaseMismatch)
          else if s.authority.nextTokenId + 1 >= U64_LIMIT then outcome.result == Err(InvalidHandle)
          else !pinFree ==> outcome.result == Err(BudgetExceeded))
      && outcome.authority.nextTokenId == s.authority.nextTokenId
         + (if token.base == s.authority.root && s.authority.nextTokenId + 1 < U64_LIMIT then 1 else 0)
  {
    var s := Run(start, actions);
    ReachableIsSound(start, actions);
    StampStaysOwn(start, actions);
    RunKeepsCanonical(start, actions);
    hide Run;
    hide Completed;
    hide Receipts;
    hide Leads;
    hide CanonicalKeys;
    hide Commit;
    hide LedgerOk;
    hide TokenOk;
    hide Lookup;
    assert TokenOk(s.ledger, token) && LedgerOk(s.ledger);
    InFlightRefusals(token, s.authority, s.ledger, pinFree);
  }

  /** A token whose transaction is not known, or known with another request, publishes nothing. */
  lemma UnknownTokenIsRefused(token: PreparedMutation, authority: Authority, ledger: Ledger, pinFree: bool)
    requires LedgerOk(ledger) && IsBound(ledger) && CheckRequest(ledger, token.request) == Pass
    ensures token.request.txnId !in ledger.entries ==>
      Commit(token, authority, ledger, pinFree) == Committed(authority, ledger, Err(InvalidHandle))
    ensures (&& token.request.txnId in ledger.entries
             && ledger.entries[token.request.txnId].reservation.fingerprint != token.request)
        ==> Commit(token, authority, ledger, pinFree) == Committed(authority, ledger, Err(RevisionConflict))
  {
    BoundConflict(ledger, token.request);
    hide LedgerOk;
    hide IsBound;
    hide CommitInFlight;
  }

  // ---- two runs that happen

  lemma RunOneMore(s: Session, actions: seq<Action>, a: Action)
    ensures Run(s, actions + [a]) == Step(Run(s, actions), a)
  {
    assert (actions + [a])[..|actions|] == actions;
  }

  /** The token an empty batch gets, and the root it publishes. */
  function EmptyToken(request: MutationRequest, base: Root): PreparedMutation
    requires base.stamp.worldRevision + 1 < U64_LIMIT
  {
    PreparedMutation(request, base, ReservationFor(request),
                     Staged(map[], base.dirty, base.stamp.worldRevision + 1), None)
  }

  function EmptySuccessor(base: Root): Root
    requires base.stamp.worldRevision + 1 < U64_LIMIT
  {
    base.(stamp := base.stamp.(worldRevision := base.stamp.worldRevision + 1), replacement := Some(map[]))
  }

  predicate IsEmptyFor(request: MutationRequest, root: Root) {
    && request.entries == [] && request.txnId != "" && request.worldId != ""
    && request.worldId == root.stamp.worldId && request.generation == root.stamp.generation
    && root.stamp.sectionRevisions == map[] && root.stamp.worldRevision + 1 < U64_LIMIT
  }

  lemma NothingIsStaged(request: MutationRequest, root: Root)
    requires request.entries == []
    ensures Stageable(Named(request.entries), root)
    ensures StagedSlots(request.entries, root) == map[] && StagedDirty(request.entries, root) == root.dirty
    ensures RevisionsMatch(request, root.stamp) && AllReady(Named(request.entries), root.directory)
  {
    assert Named(request.entries) == {};
  }

  lemma EmptyBatch(request: MutationRequest, root: Root)
    requires IsEmptyFor(request, root)
    ensures CheckPlan(request) == Pass && CheckAgainstRoot(request, root) == Pass
    ensures SealPrivate(request, root) == Ok(Staged(map[], root.dirty, root.stamp.worldRevision + 1))
    ensures NewRoot(EmptyToken(request, root), root) == Ok(EmptySuccessor(root))
  {
    assert Named(request.entries) == {} && SortedNames({}) == [];
    NothingIsStaged(request, root);
    assert root.stamp.sectionRevisions.Keys + Named(request.entries) == {};
    var nothing: Directory := map[];
    OverlayAll(root.directory, nothing);
    assert nothing.Keys == {} && root.directory + nothing == root.directory;
    hide SortedNames;
    hide Overlay;
    hide Named;
    hide StagedSlots;
    hide StagedDirty;
  }

  lemma EmptyPrepareStep(s: Session, request: MutationRequest, view: Root)
    requires view in s.views && IsEmptyFor(request, view)
    requires CheckRequest(s.ledger, request) == Pass && request.txnId !in s.ledger.entries
    requires |s.ledger.entries| < s.ledger.maxEntries
    ensures Step(s, PrepareFrom(request, view)) == s.(
      ledger := WithReservation(s.ledger, request), tokens := s.tokens + {EmptyToken(request, view)})
  {
    EmptyBatch(request, view);
    hide SealPrivate;
    hide CheckPlan;
    hide CheckAgainstRoot;
    hide NewRoot;
  }

  lemma EmptyCommitStep(s: Session, request: MutationRequest)
    requires IsEmptyFor(request, s.authority.root) && EmptyToken(request, s.authority.root) in s.tokens
    requires CheckRequest(s.ledger, request) == Pass && request.txnId in s.ledger.entries
    requires s.ledger.entries[request.txnId] == LedgerEntry(ReservationFor(request), None, None)
    requires CheckStamp(s.authority, s.authority.root.stamp) == Pass && s.authority.nextTokenId + 1 < U64_LIMIT
    ensures var root, next := s.authority.root, EmptySuccessor(s.authority.root);
      var receipt := Receipt(request.txnId, root, next, request);
      Step(s, CommitToken(EmptyToken(request, root), true)) == Append(
        s.(ledger := Finalize(s.ledger, request.txnId, receipt)),
        s.authority.(root := next, nextTokenId := s.authority.nextTokenId + 1), Published(request))
  {
    EmptyBatch(request, s.authority.root);
    hide SealPrivate;
    hide CheckPlan;
    hide CheckAgainstRoot;
    hide NewRoot;
    assert Lookup(s.ledger, request) == Ok(InFlight);
  }

  function QuietRoot(id: string): Root {
    Root(RevisionStamp("w", "c", 0, 0, map[]), map[id := Pending], DirtyFrontier("w", 0, map[]), None)
  }

  function QuietStart(id: string): Session {
    Session(Authority("w", "c", 0, QuietRoot(id), 0), Ledger(2, map[], 0, None, None), {}, {}, [])
  }

  /** The quiet start after one capture and one prepare. */
  function Prepared(id: string, request: MutationRequest): Session
    requires IsEmptyFor(request, QuietRoot(id))
  {
    QuietStart(id).(ledger := WithReservation(QuietStart(id).ledger, request),
                    views := {QuietRoot(id)}, tokens := {EmptyToken(request, QuietRoot(id))})
  }

  lemma CapturedAndPrepared(id: string, request: MutationRequest)
    requires IsEmptyFor(request, QuietRoot(id))
    ensures Run(QuietStart(id), [Capture] + [PrepareFrom(request, QuietRoot(id))]) == Prepared(id, request)
  {
    var start, root := QuietStart(id), QuietRoot(id);
    var captured := start.(views := {root});
    RunOneMore(start, [], Capture);
    assert [] + [Capture] == [Capture] && Step(start, Capture).views == {root};
    RunOneMore(start, [Capture], PrepareFrom(request, root));
    EmptyPrepareStep(captured, request, root);
    hide Step;
    hide Run;
    assert captured.tokens + {EmptyToken(request, root)} == {EmptyToken(request, root)};
  }

  /**
   "By one if and only if named" fails in a run: an empty batch is prepared and committed, and what is read for a
   section without a revision of its own moves although nothing names it.
   */
  lemma UnnamedSectionCanMove() returns (start: Session, actions: seq<Action>, id: string)
    ensures IsClean(start) && IsSectionKey(id)
    ensures var first, s := start.authority.root, Run(start, actions);
      && id in first.directory && Publications(s.log) == 1 && Naming(s.log, id) == 0
      && RevisionOf(s.authority.root.stamp, id) == RevisionOf(first.stamp, id) + 1
  {
    id := SectionKey(SectionId(0, 0, 0));
    assert IsSectionKey(id) by { ParseSectionIsExact(id, SectionId(0, 0, 0)); }
    hide ParseSection;
    hide SectionKey;
    start := QuietStart(id);
    var root, request := QuietRoot(id), MutationRequest("t", "w", 0, []);
    var commit := CommitToken(EmptyToken(request, root), true);
    actions := [Capture] + [PrepareFrom(request, root)] + [commit];
    CapturedAndPrepared(id, request);
    RunOneMore(start, [Capture] + [PrepareFrom(request, root)], commit);
    EmptyCommitStep(Prepared(id, request), request);
    var s := Run(start, actions);
    hide Step;
    hide Run;
    var e := Event(Published(request), root, EmptySuccessor(root));
    assert s.log == [e];
    assert Publications([e]) == 1 && Naming([e], id) == 0 by { assert [e][..0] == [] && Named([]) == {}; }
  }

  /** The request was prepared and given back, and the other one is in flight. */
  function Overtaken(id: string, request: MutationRequest, other: MutationRequest): Session
    requires IsEmptyFor(request, QuietRoot(id)) && IsEmptyFor(other, QuietRoot(id))
  {
    Session(
      QuietStart(id).authority,
      Ledger(2, map[other.txnId := LedgerEntry(ReservationFor(other), None, None)], 2, Some("w"), Some(0)),
      {QuietRoot(id)}, {EmptyToken(request, QuietRoot(id)), EmptyToken(other, QuietRoot(id))}, [])
  }

  lemma AbortPrepared(s: Session, request: MutationRequest)
    requires CheckRequest(s.ledger, request) == Pass && request.txnId in s.ledger.entries
    requires s.ledger.entries[request.txnId] == LedgerEntry(ReservationFor(request), None, None)
    ensures Step(s, AbortRequest(request)) == s.(ledger := s.ledger.(entries := s.ledger.entries - {request.txnId}))
  {
  }

  lemma PreparedAndOvertaken(id: string, request: MutationRequest, other: MutationRequest)
    requires IsEmptyFor(request, QuietRoot(id)) && IsEmptyFor(other, QuietRoot(id)) && request.txnId != other.txnId
    ensures var root := QuietRoot(id);
      Step(Step(Prepared(id, request), AbortRequest(request)), PrepareFrom(other, root))
      == Overtaken(id, request, other)
  {
    var root, s2 := QuietRoot(id), Prepared(id, request);
    AbortPrepared(s2, request);
    var s3 := Step(s2, AbortRequest(request));
    assert s3.ledger.entries == map[];
    EmptyPrepareStep(s3, other, root);
    hide Step;
    assert s3.tokens + {EmptyToken(other, root)} == {EmptyToken(request, root), EmptyToken(other, root)};
  }

  /** The other request is published, and the first one is prepared and published from the new root. */
  lemma OvertakenThenPublished(s4: Session, id: string, request: MutationRequest, other: MutationRequest)
    requires IsEmptyFor(request, QuietRoot(id)) && IsEmptyFor(other, QuietRoot(id)) && request.txnId != other.txnId
    requires s4 == Overtaken(id, request, other)
    ensures var root := QuietRoot(id);
      var next := EmptySuccessor(root);
      var s6 := Step(Step(s4, CommitToken(EmptyToken(other, root), true)), Capture);
      var s := Step(Step(s6, PrepareFrom(request, next)), CommitToken(EmptyToken(request, next), true));
      && EmptyToken(request, root) in s.tokens
      && request.txnId in s.ledger.entries
      && s.ledger.entries[request.txnId].receipt == Some(Receipt(request.txnId, next, EmptySuccessor(next), request))
      && Lookup(s.ledger, request).Ok?
  {
    var root := QuietRoot(id);
    var next := EmptySuccessor(root);
    var s5 := Step(s4, CommitToken(EmptyToken(other, root), true));
    EmptyCommitStep(s4, other);
    var s6 := Step(s5, Capture);
    EmptyPrepareStep(s6, request, next);
    var s7 := Step(s6, PrepareFrom(request, next));
    hide Step;
    EmptyCommitStep(s7, request);
  }

  /**
   Such an older token exists: a request is prepared, given back, overtaken by another publication, prepared again
   and published. Committing the first token then returns the stored receipt with the wrong evidence.
   */
  lemma OlderTokenAnswersItsBase() returns (start: Session, actions: seq<Action>, token: PreparedMutation)
    ensures IsClean(start)
    ensures var s := Run(start, actions);
      && token in s.tokens && token.replay.None?
      && Lookup(s.ledger, token.request).Ok? && token.request.txnId in Completed(s.ledger)
      && var outcome := Commit(token, s.authority, s.ledger, true).result;
         && outcome.Ok? && outcome.value.receipt == Completed(s.ledger)[token.request.txnId]
         && outcome.value.evidence != Evidence(outcome.value.receipt.oldRoot, outcome.value.receipt.newRoot)
         && outcome.value.evidence.oldRoot != outcome.value.receipt.oldRoot
  {
    var id, request, other := "s:0:0:0", MutationRequest("t", "w", 0, []), MutationRequest("u", "w", 0, []);
    var root := QuietRoot(id);
    var next := EmptySuccessor(root);
    start, token := QuietStart(id), EmptyToken(request, root);
    var two := [Capture] + [PrepareFrom(request, root)];
    var c, d := AbortRequest(request), PrepareFrom(other, root);
    var e, f := CommitToken(EmptyToken(other, root), true), Capture;
    var g, h := PrepareFrom(request, next), CommitToken(EmptyToken(request, next), true);
    actions := two + [c] + [d] + [e] + [f] + [g] + [h];
    CapturedAndPrepared(id, request);
    PreparedAndOvertaken(id, request, other);
    OvertakenThenPublished(Overtaken(id, request, other), id, request, other);
    RunOneMore(start, two, c);
    RunOneMore(start, two + [c], d);
    RunOneMore(start, two + [c] + [d], e);
    RunOneMore(start, two + [c] + [d] + [e], f);
    RunOneMore(start, two + [c] + [d] + [e] + [f], g);
    RunOneMore(start, two + [c] + [d] + [e] + [f] + [g], h);
    hide Run;
    hide Step;
    hide Lookup;
    RepeatReturnsTheReceipt(start, actions, token, true);
  }
}
