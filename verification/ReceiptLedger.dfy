/** The receipt ledger as the object prepare and commit update in place. */
module ReceiptLedgers {
  import opened Wrappers
  import opened Fingerprint
  import opened Protocol

  datatype ReceiptStatus = Unknown | Prepared | Applied

  class ReceiptLedger {
    const maxEntries: nat
    var entries: map<string, LedgerEntry>
    var reserveCount: nat
    var boundWorld: Option<string>
    var boundGeneration: Option<U64>

    ghost function Model(): Ledger
      reads this
    {
      Ledger(maxEntries, entries, reserveCount, boundWorld, boundGeneration)
    }

    constructor (maxEntries: nat)
      ensures Model() == Ledger(maxEntries, map[], 0, None, None)
    {
      this.maxEntries := maxEntries;
      entries := map[];
      reserveCount := 0;
      boundWorld := None;
      boundGeneration := None;
    }

    method CheckRequest(request: MutationRequest) returns (r: Outcome<ProtocolError>)
      ensures r == Protocol.CheckRequest(Model(), request)
    {
      if request.txnId == "" || request.worldId == "" {
        return Fail(InvalidHandle);
      }
      if boundWorld.Some? {
        if boundWorld.value != request.worldId {
          return Fail(SessionMismatch);
        }
      }
      if boundGeneration.Some? {
        if boundGeneration.value != request.generation {
          return Fail(InvalidHandle);
        }
      }
      r := Pass;
    }

    method Lookup(request: MutationRequest) returns (r: Result<LookupOutcome, ProtocolError>)
      ensures r == Protocol.Lookup(Model(), request)
    {
      var valid := CheckRequest(request);
      if valid.Fail? {
        return Err(valid.error);
      }
      if request.txnId !in entries {
        return Ok(Vacant);
      }
      var entry := entries[request.txnId];
      var matching := CheckEntry(request, entry);
      if matching.Fail? {
        return Err(matching.error);
      }
      if entry.receipt.Some? {
        r := Ok(Duplicate(entry.receipt.value));
      } else {
        r := Ok(InFlight);
      }
    }

    /** Status needs only the transaction id. */
    method Status(txnId: string) returns (status: ReceiptStatus)
      ensures status.Unknown? <==> txnId !in entries
      ensures status.Applied? <==> txnId in entries && entries[txnId].receipt.Some?
    {
      if txnId !in entries {
        return Unknown;
      }
      status := if entries[txnId].receipt.Some? then Applied else Prepared;
    }

    method Reserve(request: MutationRequest) returns (r: Result<Reservation, ProtocolError>)
      modifies this
      ensures var spec := Protocol.Reserve(old(Model()), request);
        if spec.Ok? then Model() == spec.value.0 && r == Ok(spec.value.1)
        else Model() == old(Model()) && r == Err(spec.error)
    {
      var valid := CheckRequest(request);
      if valid.Fail? {
        return Err(valid.error);
      }
      if request.txnId in entries {
        var matching := CheckEntry(request, entries[request.txnId]);
        if matching.Fail? {
          return Err(matching.error);
        }
        return Ok(entries[request.txnId].reservation);
      }
      if |entries| >= maxEntries {
        return Err(BudgetExceeded);
      }
      var reservation := ReservationFor(request);
      Bind(request);
      entries := entries[request.txnId := LedgerEntry(reservation, None, None)];
      reserveCount := reserveCount + 1;
      r := Ok(reservation);
    }

    /** The first reservation binds the ledger to one world and generation. */
    method Bind(request: MutationRequest)
      modifies this`boundWorld, this`boundGeneration
      ensures boundWorld == if old(boundWorld).None? then Some(request.worldId) else old(boundWorld)
      ensures boundGeneration == if old(boundGeneration).None? then Some(request.generation) else old(boundGeneration)
    {
      if boundWorld.None? {
        boundWorld := Some(request.worldId);
      }
      if boundGeneration.None? {
        boundGeneration := Some(request.generation);
      }
    }

    /** The receipt stored for a published transaction: the first one wins. */
    method FinalizeAfterPublish(request: MutationRequest, receipt: Receipt) returns (stored: Receipt)
      requires request.txnId in entries
      modifies this`entries
      ensures entries.Keys == old(entries.Keys)
      ensures entries == old(entries)[request.txnId := old(entries)[request.txnId].(receipt := Some(stored))]
      ensures stored == if old(entries)[request.txnId].receipt.Some?
                        then old(entries)[request.txnId].receipt.value else receipt
    {
      var entry := entries[request.txnId];
      if entry.receipt.Some? {
        assert entry == entry.(receipt := Some(entry.receipt.value));
        assert entries == entries[request.txnId := entry];
        return entry.receipt.value;
      }
      entries := entries[request.txnId := entry.(receipt := Some(receipt))];
      stored := receipt;
    }

    method RecordEvidenceAfterPublish(request: MutationRequest, evidence: Evidence)
      requires request.txnId in entries
      modifies this`entries
      ensures entries == if old(entries)[request.txnId].receipt.Some? && old(entries)[request.txnId].evidence.None?
                         then old(entries)[request.txnId := old(entries)[request.txnId].(evidence := Some(evidence))]
                         else old(entries)
    {
      var entry := entries[request.txnId];
      if entry.receipt.Some? && entry.evidence.None? {
        entries := entries[request.txnId := entry.(evidence := Some(evidence))];
      }
    }

    method Abort(request: MutationRequest) returns (r: Outcome<ProtocolError>)
      modifies this`entries
      ensures var spec := Protocol.Abort(old(Model()), request);
        if spec.Ok? then Model() == spec.value && r == Pass
        else Model() == old(Model()) && r == Fail(spec.error)
    {
      r := CheckRequest(request);
      if r.Fail? {
        return;
      }
      if request.txnId !in entries {
        return Pass;
      }
      var entry := entries[request.txnId];
      var matching := CheckEntry(request, entry);
      if matching.Fail? {
        return matching;
      }
      if entry.receipt.Some? {
        return Pass;
      }
      entries := entries - {request.txnId};
    }

    method AbortInFlight()
      modifies this`entries
      ensures Model() == Protocol.AbortInFlight(old(Model()))
    {
      entries := map t | t in entries && entries[t].receipt.Some? :: entries[t];
    }
  }
}
