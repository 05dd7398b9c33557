/** The three steps that publish: commit, durability acknowledgement and unload, on the live objects. */
module Barriers {
  import opened Wrappers
  import opened Text
  import opened Keys
  import opened Fingerprint
  import opened Protocol
  import opened ReceiptLedgers
  import opened MutationStaging
  import opened Transactions
  import opened Publication

  // ---- commit

  ghost predicate Laid(builder: Directory, directory: Directory, replacement: Directory, ids: seq<string>) {
    && (forall id :: id in builder <==> id in directory || id in ids)
    && forall id :: id in builder ==>
      if id in ids then id in replacement && builder[id] == replacement[id] else builder[id] == directory[id]
  }

  lemma LaidOneMore(builder: Directory, directory: Directory, replacement: Directory, ids: seq<string>, id: string)
    requires Laid(builder, directory, replacement, ids) && id in replacement
    ensures Laid(builder[id := replacement[id]], directory, replacement, ids + [id])
  {
  }

  lemma LaidNothing(directory: Directory, replacement: Directory)
    ensures Laid(directory, directory, replacement, [])
  {
  }

  lemma LaidAll(builder: Directory, directory: Directory, replacement: Directory, ids: seq<string>,
                sections: set<string>)
    requires Laid(builder, directory, replacement, ids)
    requires forall id :: id in ids <==> id in sections
    ensures Overlay(directory, replacement, sections) == Ok(builder)
  {
    forall id | id in sections ensures id in replacement {
      assert id in ids && id in builder;
    }
    var goal := directory + map id | id in sections :: replacement[id];
    assert builder.Keys == goal.Keys;
    assert builder == goal;
  }

  /** Lay the replaced slots over the directory, one section after another. */
  method OverlayDirectory(directory: Directory, replacement: Directory, sections: set<string>)
    returns (r: Result<Directory, ProtocolError>)
    ensures r == Overlay(directory, replacement, sections)
  {
    hide Laid;
    var ids := SortedNames(sections);
    hide SortedNames;
    var builder := directory;
    LaidNothing(directory, replacement);
    for i := 0 to |ids|
      invariant Laid(builder, directory, replacement, ids[..i])
    {
      var id := ids[i];
      assert id in sections;
      if id !in replacement {
        return Err(InvalidHandle);
      }
      assert ids[..i + 1] == ids[..i] + [id];
      LaidOneMore(builder, directory, replacement, ids[..i], id);
      builder := builder[id := replacement[id]];
    }
    assert ids[..|ids|] == ids;
    LaidAll(builder, directory, replacement, ids, sections);
    r := Ok(builder);
  }

  lemma BuildStops(ids: seq<string>, stamp: RevisionStamp, replaced: set<string>, i: nat)
    requires i <= |ids| && BuildRevisions(ids[..i], stamp, replaced).Err?
    ensures BuildRevisions(ids, stamp, replaced) == Err(BuildRevisions(ids[..i], stamp, replaced).error)
    decreases |ids|
  {
    hide ParseSection;
    hide RevisionOf;
    if i == |ids| {
      assert ids[..i] == ids;
    } else {
      assert ids[..|ids| - 1][..i] == ids[..i];
      BuildStops(ids[..|ids| - 1], stamp, replaced, i);
    }
  }

  /** The next revision of each section: one more where the batch replaces it, the old one elsewhere. */
  method BuildStamp(stamp: RevisionStamp, overlayIds: set<string>, replaced: set<string>)
    returns (r: Result<map<string, U64>, ProtocolError>)
    ensures r == BuildRevisions(SortedNames(overlayIds), stamp, replaced)
  {
    hide ParseSection;
    hide RevisionOf;
    var ids := SortedNames(overlayIds);
    hide SortedNames;
    var pairs: map<string, U64> := map[];
    for i := 0 to |ids|
      invariant BuildRevisions(ids[..i], stamp, replaced) == Ok(pairs)
    {
      var id := ids[i];
      assert ids[..i + 1][..i] == ids[..i];
      var parsed := ParseSection(id);
      if parsed.Err? {
        BuildStops(ids, stamp, replaced, i + 1);
        return Err(BadKey(parsed.error));
      }
      var revision := RevisionOf(stamp, id);
      if id in replaced {
        if revision + 1 >= U64_LIMIT {
          BuildStops(ids, stamp, replaced, i + 1);
          return Err(InvalidHandle);
        }
        revision := revision + 1;
      }
      pairs := pairs[id := revision];
    }
    assert ids[..|ids|] == ids;
    r := Ok(pairs);
  }

  method OverlayRoot(prepared: PreparedMutation, root: Root) returns (r: Result<Root, ProtocolError>)
    ensures r == NewRoot(prepared, root)
  {
    hide Overlay;
    hide BuildRevisions;
    hide SortedNames;
    var ids := set e | e in prepared.request.entries :: e.sectionKey;
    assert ids == Named(prepared.request.entries);
    hide Named;
    var directory := OverlayDirectory(root.directory, prepared.staged.replacement, ids);
    if directory.Err? {
      return Err(directory.error);
    }
    var revisions := BuildStamp(root.stamp, root.stamp.sectionRevisions.Keys + ids, prepared.staged.replacement.Keys);
    if revisions.Err? {
      return Err(revisions.error);
    }
    r := Ok(Root(
      root.stamp.(worldRevision := prepared.staged.targetWorldRevision, sectionRevisions := revisions.value),
      directory.value, prepared.staged.dirty, Some(prepared.staged.replacement)));
  }

  method Recheck(prepared: PreparedMutation, root: Root) returns (r: Outcome<ProtocolError>)
    ensures r == RecheckInFlight(prepared, root)
  {
    hide CheckPlan;
    hide CheckAgainstRoot;
    hide Named;
    hide EditsOf;
    if prepared.request.generation != root.stamp.generation
       || prepared.reservation.generation != root.stamp.generation {
      return Fail(StaleEpoch);
    }
    if prepared.request.worldId != root.stamp.worldId || prepared.reservation.worldId != root.stamp.worldId {
      return Fail(SessionMismatch);
    }
    if prepared.base != root {
      return Fail(SnapshotBaseMismatch);
    }
    var plan := BuildPlan(prepared.request);
    if plan.Err? {
      return Fail(plan.error);
    }
    r := CheckPlanAgainstRoot(prepared.request, plan.value, root);
  }

  /** Replay, or recheck, overlay, seal, publish once and record the receipt. */
  method Commit(prepared: PreparedMutation, authority: PublicationAuthority, ledger: ReceiptLedger, pinFree: bool)
    returns (r: Result<MutationReceipt, ProtocolError>)
    modifies authority, ledger
    ensures Committed(authority.Model(), ledger.Model(), r)
        == Protocol.Commit(prepared, old(authority.Model()), old(ledger.Model()), pinFree)
  {
    hide NewRoot;
    hide RecheckInFlight;
    hide PublishNext;
    var found := ledger.Lookup(prepared.request);
    if found.Err? {
      return Err(found.error);
    }
    if found.value.Vacant? {
      return Err(InvalidHandle);
    }
    if found.value.Duplicate? {
      return Ok(DuplicateReceipt(prepared, found.value.receipt));
    }
    InFlightHasNoReceipt(ledger.Model(), prepared.request);
    hide Protocol.Lookup;
    var check := Recheck(prepared, authority.root);
    if check.Fail? {
      return Err(check.error);
    }
    var next := OverlayRoot(prepared, authority.root);
    if next.Err? {
      return Err(next.error);
    }
    NewRootCarriesReplacement(prepared, authority.root);
    var published := authority.PublishSuccessor(next.value.(replacement := None), prepared.staged.replacement, pinFree);
    if published.Fail? {
      return Err(published.error);
    }
    var receipt := Receipt(prepared.request.txnId, prepared.base, next.value, prepared.reservation.fingerprint);
    var evidence := Evidence(prepared.base, next.value);
    var stored := ledger.FinalizeAfterPublish(prepared.request, receipt);
    ledger.RecordEvidenceAfterPublish(prepared.request, evidence);
    r := Ok(MutationReceipt(prepared.request.txnId, stored, evidence));
  }

  lemma InFlightHasNoReceipt(ledger: Ledger, request: MutationRequest)
    requires Protocol.Lookup(ledger, request) == Ok(InFlight)
    ensures request.txnId in ledger.entries && ledger.entries[request.txnId].receipt.None?
  {
  }

  lemma NewRootCarriesReplacement(prepared: PreparedMutation, root: Root)
    requires NewRoot(prepared, root).Ok?
    ensures NewRoot(prepared, root).value.replacement == Some(prepared.staged.replacement)
  {
    hide Overlay;
    hide BuildRevisions;
  }

  // ---- durability acknowledgement

  lemma BoundsStop(sections: seq<CoveredSection>, i: nat)
    requires i <= |sections| && Bounds(sections[..i]).Err?
    ensures Bounds(sections) == Err(Bounds(sections[..i]).error)
    decreases |sections|
  {
    hide ParseSection;
    if i == |sections| {
      assert sections[..i] == sections;
    } else {
      assert sections[..|sections| - 1][..i] == sections[..i];
      BoundsStop(sections[..|sections| - 1], i);
    }
  }

  method CollectBounds(sections: seq<CoveredSection>) returns (r: Result<map<string, U64>, ProtocolError>)
    ensures r == Bounds(sections)
  {
    hide ParseSection;
    var upTo: map<string, U64> := map[];
    for i := 0 to |sections|
      invariant Bounds(sections[..i]) == Ok(upTo)
    {
      var section := sections[i];
      assert sections[..i + 1][..i] == sections[..i];
      var parsed := ParseSection(section.sectionId);
      if parsed.Err? {
        BoundsStop(sections, i + 1);
        return Err(BadKey(parsed.error));
      }
      if section.sectionId in upTo {
        BoundsStop(sections, i + 1);
        return Err(InvalidHandle);
      }
      upTo := upTo[section.sectionId := section.upTo];
    }
    assert sections[..|sections|] == sections;
    r := Ok(upTo);
  }

  /** Which dirty sections a receipt covers; a declared bound below what is dirty refuses the receipt. */
  method Coverage(frontier: DirtyFrontier, ack: Ack) returns (r: Result<set<string>, ProtocolError>)
    ensures r == CoveredBy(frontier, ack)
  {
    hide Bounds;
    if ack.kind != "DurabilityAck" {
      return Err(InvalidHandle);
    }
    if ack.worldId != frontier.worldId {
      return Err(SessionMismatch);
    }
    if ack.generation != frontier.generation {
      return Err(StaleEpoch);
    }
    var bounds := CollectBounds(ack.sections);
    if bounds.Err? {
      return Err(bounds.error);
    }
    r := CoverEntries(frontier, bounds.value);
  }

  ghost predicate CoveredSoFar(
      covered: set<string>, frontier: DirtyFrontier, ids: seq<string>, upTo: map<string, U64>)
  {
    && (forall id :: id in covered <==> id in ids && id in upTo)
    && forall id :: id in ids ==>
         id in frontier.entries && (id in upTo ==> frontier.entries[id].latest <= upTo[id])
  }

  lemma CoverOneMore(covered: set<string>, frontier: DirtyFrontier, ids: seq<string>, upTo: map<string, U64>,
                     id: string)
    requires CoveredSoFar(covered, frontier, ids, upTo) && id in frontier.entries
    requires id in upTo ==> frontier.entries[id].latest <= upTo[id]
    ensures CoveredSoFar(if id in upTo then covered + {id} else covered, frontier, ids + [id], upTo)
  {
  }

  lemma CoverAll(covered: set<string>, frontier: DirtyFrontier, ids: seq<string>, upTo: map<string, U64>)
    requires CoveredSoFar(covered, frontier, ids, upTo)
    requires forall id :: id in ids <==> id in frontier.entries
    ensures covered == frontier.entries.Keys * upTo.Keys
    ensures !exists id :: id in frontier.entries && id in upTo && frontier.entries[id].latest > upTo[id]
  {
  }

  method CoverEntries(frontier: DirtyFrontier, upTo: map<string, U64>) returns (r: Result<set<string>, ProtocolError>)
    ensures r == if exists id :: id in frontier.entries && id in upTo && frontier.entries[id].latest > upTo[id]
                 then Err(StaleSectionRevision)
                 else Ok(frontier.entries.Keys * upTo.Keys)
  {
    hide CoveredSoFar;
    var ids := SortedNames(frontier.entries.Keys);
    hide SortedNames;
    var covered: set<string> := {};
    assert CoveredSoFar({}, frontier, ids[..0], upTo) by { CoverNothing(frontier, upTo, ids[..0]); }
    for i := 0 to |ids|
      invariant CoveredSoFar(covered, frontier, ids[..i], upTo)
    {
      var id := ids[i];
      assert id in frontier.entries;
      assert ids[..i + 1] == ids[..i] + [id];
      if id in upTo && frontier.entries[id].latest > upTo[id] {
        return Err(StaleSectionRevision);
      }
      CoverOneMore(covered, frontier, ids[..i], upTo, id);
      if id in upTo {
        covered := covered + {id};
      }
    }
    assert ids[..|ids|] == ids;
    CoverAll(covered, frontier, ids, upTo);
    r := Ok(covered);
  }

  lemma CoverNothing(frontier: DirtyFrontier, upTo: map<string, U64>, none: seq<string>)
    requires none == []
    ensures CoveredSoFar({}, frontier, none, upTo)
  {
  }

  /** Clear what the receipt covers, in at most one publication. */
  method ApplyDurabilityAck(authority: PublicationAuthority, ack: Ack, pinFree: bool)
    returns (r: Result<nat, ProtocolError>)
    modifies authority
    ensures (authority.Model(), r) == ApplyAck(old(authority.Model()), ack, pinFree)
  {
    hide CoveredBy;
    hide PublishNext;
    if ack.kind != "DurabilityAck" {
      return Err(InvalidHandle);
    }
    if ack.worldId != authority.worldId || ack.contextId != authority.contextId {
      return Err(SessionMismatch);
    }
    if ack.generation != authority.generation {
      return Err(StaleEpoch);
    }
    if ack.coveredWorldRevision > authority.root.stamp.worldRevision {
      return Err(EvidenceDigestMismatch);
    }
    var root := authority.root;
    var covered := Coverage(root.dirty, ack);
    if covered.Err? {
      return Err(covered.error);
    }
    if covered.value == {} {
      return Ok(0);
    }
    var next := root.(dirty := ExceptCovered(root.dirty, covered.value), replacement := None);
    var published := authority.PublishSuccessor(next, map[], pinFree);
    if published.Fail? {
      return Err(published.error);
    }
    r := Ok(|covered.value|);
  }

  // ---- unload

  /** Only a clean Ready section that the pin policy exempts leaves; revisions stay as they are. */
  method UnloadSection(authority: PublicationAuthority, id: string, exempt: bool, pinFree: bool)
    returns (r: Result<bool, ProtocolError>)
    modifies authority
    ensures (authority.Model(), r) == Unload(old(authority.Model()), id, exempt, pinFree)
  {
    hide PublishNext;
    hide ParseSection;
    var root := authority.root;
    var parsed := ParseSection(id);
    if parsed.Err? {
      return Err(BadKey(parsed.error));
    }
    if id !in root.directory {
      return Err(SectionUnavailable);
    }
    if id in root.dirty.entries {
      return Err(DirtySectionNotDurable);
    }
    if root.directory[id].Unchanged? {
      return Ok(false);
    }
    if !root.directory[id].Ready? {
      return Err(SectionUnavailable);
    }
    if !exempt {
      return Err(PinnedSectionEvicted);
    }
    var next := root.(directory := root.directory[id := Unchanged], replacement := None);
    var published := authority.PublishSuccessor(next, map[id := Unchanged], pinFree);
    if published.Fail? {
      return Err(published.error);
    }
    r := Ok(true);
  }
}
