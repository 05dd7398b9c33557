/** What the ledger makes of a request in a reachable session: admission, reservation and release, each exactly. */
module LedgerOutcomes {
  import opened Wrappers
  import opened Fingerprint
  import opened Protocol
  import opened Runs
  import opened RunOutcomes

  // ---- which requests a ledger admits

  /**
   Over any run, a ledger that knows a transaction admits exactly the named requests of that transaction's world and
   generation: another world is a session mismatch, another generation an invalid handle.
   */
  lemma AdmissionIsExact(start: Session, actions: seq<Action>, request: MutationRequest, known: string)
    requires IsClean(start) && known in Run(start, actions).ledger.entries
    ensures var ledger := Run(start, actions).ledger;
      var held := ledger.entries[known].reservation;
      CheckRequest(ledger, request) ==
        if request.txnId == "" || request.worldId == "" then Fail(InvalidHandle)
        else if request.worldId != held.worldId then Fail(SessionMismatch)
        else if request.generation != held.generation then Fail(InvalidHandle)
        else Pass
  {
    assert IsBound(start.ledger);
    RunKeepsBound(start, actions);
    hide Run;
  }

  /** A ledger bound to nothing admits every named request, and its first reservation binds it. */
  lemma FirstReservationBinds(ledger: Ledger, request: MutationRequest, other: MutationRequest)
    requires ledger.boundWorld.None? && ledger.boundGeneration.None?
    requires Reserve(ledger, request).Ok? && request.txnId !in ledger.entries
    requires other.txnId != "" && other.worldId != ""
    ensures var after := Reserve(ledger, request).value.0;
      && CheckRequest(ledger, other) == Pass
      && (CheckRequest(after, other) == Pass
          <==> other.worldId == request.worldId && other.generation == request.generation)
  {
  }

  lemma StepKeepsBinding(s: Session, a: Action)
    requires s.ledger.boundWorld.Some? && s.ledger.boundGeneration.Some?
    ensures Step(s, a).ledger.boundWorld == s.ledger.boundWorld
    ensures Step(s, a).ledger.boundGeneration == s.ledger.boundGeneration
    ensures Step(s, a).ledger.maxEntries == s.ledger.maxEntries
  {
    hide Lookup;
    hide RecheckInFlight;
    hide NewRoot;
    hide PublishNext;
    hide SealPrivate;
    hide CheckPreconditions;
    hide CheckEntry;
    hide ApplyAck;
    hide Unload;
    hide Bounds;
  }

  /** Whatever runs afterwards, a binding and the entry limit never change. */
  lemma {:induction false} BindingIsForever(s: Session, actions: seq<Action>)
    requires s.ledger.boundWorld.Some? && s.ledger.boundGeneration.Some?
    ensures Run(s, actions).ledger.boundWorld == s.ledger.boundWorld
    ensures Run(s, actions).ledger.boundGeneration == s.ledger.boundGeneration
    ensures Run(s, actions).ledger.maxEntries == s.ledger.maxEntries
  {
    hide Step;
    if actions != [] {
      BindingIsForever(s, actions[..|actions| - 1]);
      StepKeepsBinding(Run(s, actions[..|actions| - 1]), actions[|actions| - 1]);
    }
  }

  // ---- what an admitted request meets

  /** The transaction is known, and with this very request. */
  predicate Knows(ledger: Ledger, request: MutationRequest) {
    request.txnId in ledger.entries && ledger.entries[request.txnId].reservation.fingerprint == request
  }

  lemma BoundLookup(ledger: Ledger, request: MutationRequest)
    requires LedgerOk(ledger) && IsBound(ledger) && CheckRequest(ledger, request) == Pass
    ensures Lookup(ledger, request) ==
      if request.txnId !in ledger.entries then Ok(Vacant)
      else if !Knows(ledger, request) then Err(RevisionConflict)
      else if request.txnId in Completed(ledger) then Ok(Duplicate(Completed(ledger)[request.txnId]))
      else Ok(InFlight)
    ensures request.txnId in ledger.entries ==>
      (CheckEntry(request, ledger.entries[request.txnId]) == Pass <==> Knows(ledger, request))
    ensures Knows(ledger, request) ==> ledger.entries[request.txnId].reservation == ReservationFor(request)
  {
    if request.txnId in ledger.entries {
      assert EntryOk(request.txnId, ledger.entries[request.txnId]);
    }
  }

  lemma ReachableLedger(start: Session, actions: seq<Action>)
    requires IsClean(start)
    ensures LedgerOk(Run(start, actions).ledger) && IsBound(Run(start, actions).ledger)
  {
    ReachableIsSound(start, actions);
    assert IsBound(start.ledger);
    RunKeepsBound(start, actions);
  }

  /** Over any run, an admitted request is new, in flight, completed, or in conflict, exactly as the ledger knows it. */
  lemma LookupIsExact(start: Session, actions: seq<Action>, request: MutationRequest)
    requires IsClean(start) && CheckRequest(Run(start, actions).ledger, request) == Pass
    ensures var ledger := Run(start, actions).ledger;
      Lookup(ledger, request) ==
        if request.txnId !in ledger.entries then Ok(Vacant)
        else if !Knows(ledger, request) then Err(RevisionConflict)
        else if request.txnId in Completed(ledger) then Ok(Duplicate(Completed(ledger)[request.txnId]))
        else Ok(InFlight)
  {
    ReachableLedger(start, actions);
    hide Run;
    BoundLookup(Run(start, actions).ledger, request);
  }

  /**
   Over any run, an admitted request is reserved exactly when its transaction is known with it or is new and there is
   room. Only a new one changes the ledger, and then by its own in-flight entry and a count.
   */
  lemma ReserveIsExact(start: Session, actions: seq<Action>, request: MutationRequest)
    requires IsClean(start) && CheckRequest(Run(start, actions).ledger, request) == Pass
    ensures var ledger := Run(start, actions).ledger;
      var outcome := Reserve(ledger, request);
      && (outcome.Ok? <==>
            Knows(ledger, request) || (request.txnId !in ledger.entries && |ledger.entries| < ledger.maxEntries))
      && (outcome.Err? ==>
            outcome.error == if request.txnId in ledger.entries then RevisionConflict else BudgetExceeded)
      && (outcome.Ok? ==>
            && outcome.value.1 == ReservationFor(request)
            && outcome.value.0.entries == (
                 if Knows(ledger, request) then ledger.entries
                 else ledger.entries[request.txnId := LedgerEntry(ReservationFor(request), None, None)])
            && outcome.value.0.reserveCount == ledger.reserveCount + (if Knows(ledger, request) then 0 else 1))
  {
    ReachableLedger(start, actions);
    hide Run;
    BoundLookup(Run(start, actions).ledger, request);
    hide CheckEntry;
    hide LedgerOk;
    hide IsBound;
  }

  // ---- release

  /** The ledger without some of its entries. */
  predicate OnlyWithout(ledger: Ledger, after: Ledger, gone: set<string>) {
    after == ledger.(entries := ledger.entries - gone)
  }

  /**
   Over any run, aborting an admitted request is refused exactly in a conflict. It takes out that request's entry
   while it is in flight, which makes the transaction new again, and nothing else ever.
   */
  lemma AbortIsExact(start: Session, actions: seq<Action>, request: MutationRequest)
    requires IsClean(start) && CheckRequest(Run(start, actions).ledger, request) == Pass
    ensures var ledger := Run(start, actions).ledger;
      var outcome := Abort(ledger, request);
      && (outcome.Err? <==> request.txnId in ledger.entries && !Knows(ledger, request))
      && (outcome.Err? ==> outcome.error == RevisionConflict)
      && (outcome.Ok? ==>
            OnlyWithout(ledger, outcome.value,
                        if request.txnId in ledger.entries && request.txnId !in Completed(ledger)
                        then {request.txnId} else {}))
      && (Lookup(ledger, request) == Ok(InFlight) ==>
            outcome.Ok? && Lookup(outcome.value, request) == Ok(Vacant))
  {
    ReachableLedger(start, actions);
    hide Run;
    var ledger := Run(start, actions).ledger;
    BoundLookup(ledger, request);
    assert ledger.entries - {} == ledger.entries;
    hide CheckEntry;
    hide LedgerOk;
    hide IsBound;
  }

  /** The transactions that have an entry but no receipt. */
  function InFlightIds(ledger: Ledger): set<string> {
    set t | t in ledger.entries && ledger.entries[t].receipt.None?
  }

  /**
   Releasing everything in flight takes out exactly the entries without a receipt: such a transaction is new again,
   and a completed one answers as before.
   */
  lemma AbortInFlightIsExact(ledger: Ledger, request: MutationRequest)
    requires CheckRequest(ledger, request) == Pass
    ensures var after := AbortInFlight(ledger);
      && OnlyWithout(ledger, after, InFlightIds(ledger))
      && InFlightIds(after) == {} && CheckRequest(after, request) == Pass
      && (Lookup(ledger, request) == Ok(InFlight) ==> Lookup(after, request) == Ok(Vacant))
      && (Lookup(ledger, request) != Ok(InFlight) && request.txnId !in InFlightIds(ledger) ==>
            Lookup(after, request) == Lookup(ledger, request))
  {
    var after := AbortInFlight(ledger);
    assert after.entries == ledger.entries - InFlightIds(ledger);
  }
}
