/** When an acknowledgement is accepted, what it clears, and when a section may leave afterwards. */
module Durability {
  import opened Wrappers
  import opened Keys
  import opened Protocol
  import opened PublicationLog
  import opened Runs

  // ---- which receipts are accepted

  predicate DistinctSections(sections: seq<CoveredSection>) {
    && (forall i :: 0 <= i < |sections| ==> IsSectionKey(sections[i].sectionId))
    && forall i, j :: 0 <= i < j < |sections| ==> sections[i].sectionId != sections[j].sectionId
  }

  /** The map holds exactly the declared bounds. */
  predicate Declares(sections: seq<CoveredSection>, bounds: map<string, U64>) {
    && (forall i :: 0 <= i < |sections| ==>
          sections[i].sectionId in bounds && bounds[sections[i].sectionId] == sections[i].upTo)
    && forall id :: id in bounds ==> NamesSection(sections, id)
  }

  predicate NamesSection(sections: seq<CoveredSection>, id: string) {
    exists i :: 0 <= i < |sections| && sections[i].sectionId == id
  }

  lemma SnocDistinct(init: seq<CoveredSection>, last: CoveredSection)
    ensures DistinctSections(init + [last])
        <==> DistinctSections(init) && IsSectionKey(last.sectionId) && !NamesSection(init, last.sectionId)
  {
    hide ParseSection;
    hide IsSectionKey;
    var all := init + [last];
    assert forall i :: 0 <= i < |init| ==> all[i] == init[i];
    assert all[|init|] == last;
    if DistinctSections(all) {
      assert IsSectionKey(all[|init|].sectionId);
    }
  }

  lemma SnocDeclares(init: seq<CoveredSection>, bounds: map<string, U64>, last: CoveredSection)
    requires Declares(init, bounds) && last.sectionId !in bounds
    ensures Declares(init + [last], bounds[last.sectionId := last.upTo])
  {
    var all := init + [last];
    assert forall i :: 0 <= i < |init| ==> all[i] == init[i];
    assert all[|init|] == last;
    forall id | id in bounds ensures NamesSection(all, id) {
      var i :| 0 <= i < |init| && init[i].sectionId == id;
      assert all[i].sectionId == id;
    }
  }

  /** The bounds of a receipt are read exactly when its keys are section keys named once each. */
  lemma {:induction false} BoundsAreExact(sections: seq<CoveredSection>)
    ensures Bounds(sections).Ok? <==> DistinctSections(sections)
    ensures Bounds(sections).Ok? ==> Declares(sections, Bounds(sections).value)
  {
    hide ParseSection;
    hide DistinctSections;
    if sections == [] {
      assert DistinctSections([]) by { NoSections(); }
    } else {
      var init, last := sections[..|sections| - 1], sections[|sections| - 1];
      assert sections == init + [last];
      BoundsAreExact(init);
      SnocDistinct(init, last);
      if Bounds(init).Ok? {
        var bounds := Bounds(init).value;
        assert NamesSection(init, last.sectionId) <==> last.sectionId in bounds;
        if last.sectionId !in bounds {
          SnocDeclares(init, bounds, last);
        }
      }
    }
  }

  lemma NoSections()
    ensures DistinctSections([])
  {
  }

  /**
   A receipt for the frontier's world and generation is accepted exactly when it names section keys once each
   and no declared bound is below what is still dirty; it then covers exactly the dirty sections it names.
   */
  lemma CoverageIsExact(frontier: DirtyFrontier, ack: Ack)
    requires ack.kind == "DurabilityAck" && ack.worldId == frontier.worldId && ack.generation == frontier.generation
    ensures CoveredBy(frontier, ack).Ok? <==>
      && DistinctSections(ack.sections)
      && forall i :: 0 <= i < |ack.sections| && ack.sections[i].sectionId in frontier.entries ==>
           frontier.entries[ack.sections[i].sectionId].latest <= ack.sections[i].upTo
    ensures CoveredBy(frontier, ack).Ok? ==> forall id ::
      id in CoveredBy(frontier, ack).value <==> id in frontier.entries && NamesSection(ack.sections, id)
  {
    hide DistinctSections;
    hide Bounds;
    BoundsAreExact(ack.sections);
    if Bounds(ack.sections).Ok? {
      var bounds := Bounds(ack.sections).value;
      forall id ensures id in bounds <==> NamesSection(ack.sections, id) {
      }
    }
  }

  // ---- when a section may leave

  /**
   Over any run, an unload of a canonical key publishes exactly when the section is Ready, none of its published
   edits is outstanding, the pin policy exempts it, and a token id and a revision pin are left.
   */
  lemma UnloadNeedsDurability(start: Session, actions: seq<Action>, id: string, exempt: bool, pinFree: bool)
    requires IsClean(start) && IsSectionKey(id)
    requires CheckStamp(start.authority, start.authority.root.stamp) == Pass
    ensures var s := Run(start, actions);
      Unload(s.authority, id, exempt, pinFree).1 == Ok(true) <==>
        && id in s.authority.root.directory && s.authority.root.directory[id].Ready?
        && !HasOutstanding(s.log, id)
        && exempt && pinFree && s.authority.nextTokenId + 1 < U64_LIMIT
  {
    var s := Run(start, actions);
    RunsLoseNothing(start, actions, id);
    StampStaysOwn(start, actions);
    hide Run;
    hide ParseSection;
    hide Replay;
    hide PublishedEdits;
    hide DirtyIsCurrent;
  }

  lemma RefusedUnload(authority: Authority, id: string, exempt: bool, pinFree: bool)
    requires CheckStamp(authority, authority.root.stamp) == Pass && ParseSection(id).Ok?
    ensures var root, result := authority.root, Unload(authority, id, exempt, pinFree).1;
      if id !in root.directory then result == Err(SectionUnavailable)
      else if id in root.dirty.entries then result == Err(DirtySectionNotDurable)
      else if root.directory[id].Unchanged? then result == Ok(false)
      else if !root.directory[id].Ready? then result == Err(SectionUnavailable)
      else if !exempt then result == Err(PinnedSectionEvicted)
      else if authority.nextTokenId + 1 >= U64_LIMIT then result == Err(InvalidHandle)
      else !pinFree ==> result == Err(BudgetExceeded)
  {
    hide ParseSection;
  }

  /**
   Over any run, which refusal an unload gets, in the order in which the source looks; a section already unchanged
   is left alone without a refusal.
   */
  lemma UnloadRefusals(start: Session, actions: seq<Action>, id: string, exempt: bool, pinFree: bool)
    requires IsClean(start) && CheckStamp(start.authority, start.authority.root.stamp) == Pass
    requires IsSectionKey(id)
    ensures var s := Run(start, actions);
      var directory, result := s.authority.root.directory, Unload(s.authority, id, exempt, pinFree).1;
      if id !in directory then result == Err(SectionUnavailable)
      else if HasOutstanding(s.log, id) then result == Err(DirtySectionNotDurable)
      else if directory[id].Unchanged? then result == Ok(false)
      else if !directory[id].Ready? then result == Err(SectionUnavailable)
      else if !exempt then result == Err(PinnedSectionEvicted)
      else if s.authority.nextTokenId + 1 >= U64_LIMIT then result == Err(InvalidHandle)
      else !pinFree ==> result == Err(BudgetExceeded)
  {
    var s := Run(start, actions);
    RunsLoseNothing(start, actions, id);
    StampStaysOwn(start, actions);
    RefusedUnload(s.authority, id, exempt, pinFree);
    hide Run;
    hide Unload;
    hide ParseSection;
    hide Replay;
    hide PublishedEdits;
    hide DirtyIsCurrent;
  }

  ghost predicate HasOutstanding(log: Log, id: string) {
    exists i :: Outstanding(log, i, id)
  }

  /** The live root always carries the stamp of its authority. */
  lemma StampStaysOwn(start: Session, actions: seq<Action>)
    requires IsClean(start) && CheckStamp(start.authority, start.authority.root.stamp) == Pass
    ensures var s := Run(start, actions);
      CheckStamp(s.authority, s.authority.root.stamp) == Pass
  {
    var s := Run(start, actions);
    ReachableIsSound(start, actions);
    WorldRevisionCountsPublications(s.log, start.authority.root, s.authority.root);
    RunKeepsOwner(start, actions);
  }

  lemma StepKeepsOwner(s: Session, a: Action)
    ensures Step(s, a).authority.worldId == s.authority.worldId
    ensures Step(s, a).authority.contextId == s.authority.contextId
    ensures Step(s, a).authority.generation == s.authority.generation
  {
    hide Lookup;
    hide NewRoot;
    hide RecheckInFlight;
    hide Prepare;
    hide Abort;
    hide AbortInFlight;
    hide Bounds;
    hide CoveredBy;
    hide ParseSection;
  }

  lemma {:induction false} RunKeepsOwner(s: Session, actions: seq<Action>)
    ensures Run(s, actions).authority.worldId == s.authority.worldId
    ensures Run(s, actions).authority.contextId == s.authority.contextId
    ensures Run(s, actions).authority.generation == s.authority.generation
  {
    hide Step;
    if actions != [] {
      RunKeepsOwner(s, actions[..|actions| - 1]);
      StepKeepsOwner(Run(s, actions[..|actions| - 1]), actions[|actions| - 1]);
    }
  }

  /**
   Over any run, the entry of a dirty section runs from the least to the greatest revision of its outstanding
   publications, both attained.
   */
  lemma DirtySpansOutstanding(start: Session, actions: seq<Action>, id: string)
    requires IsClean(start)
    ensures SpansOutstanding(Run(start, actions).log, Run(start, actions).authority.root, id)
  {
    var s := Run(start, actions);
    ReachableIsSound(start, actions);
    hide SpansOutstanding;
    DirtyRangeIsExact(s.log, start.authority.root, s.authority.root, id);
  }

  // ---- when an acknowledgement is applied

  /** No declared bound is below what is still dirty. */
  predicate ReachesDirty(sections: seq<CoveredSection>, frontier: DirtyFrontier) {
    forall i :: 0 <= i < |sections| && sections[i].sectionId in frontier.entries ==>
      frontier.entries[sections[i].sectionId].latest <= sections[i].upTo
  }

  /** The dirty sections a receipt names. */
  function NamedDirty(sections: seq<CoveredSection>, frontier: DirtyFrontier): set<string> {
    set id | id in frontier.entries && NamesSection(sections, id)
  }

  /** The frontier belongs to the authority's world and generation. */
  predicate OwnsFrontier(authority: Authority) {
    && authority.root.dirty.worldId == authority.worldId
    && authority.root.dirty.generation == authority.generation
  }

  lemma {:induction false} FrontierStaysOwn(log: Log, first: Root, last: Root)
    requires Leads(log, first, last)
    ensures last.dirty.worldId == first.dirty.worldId && last.dirty.generation == first.dirty.generation
  {
    hide RevisionsMatch;
    hide Stageable;
    hide StagedSlots;
    if log != [] {
      FrontierStaysOwn(log[..|log| - 1], first, log[|log| - 1].before);
    }
  }

  /** Everything a receipt has to match before its sections are looked at. */
  predicate Admissible(ack: Ack, authority: Authority) {
    && ack.kind == "DurabilityAck" && ack.worldId == authority.worldId && ack.contextId == authority.contextId
    && ack.generation == authority.generation
    && ack.coveredWorldRevision <= authority.root.stamp.worldRevision
  }

  lemma AppliedExactly(authority: Authority, ack: Ack, pinFree: bool)
    requires OwnsFrontier(authority) && CheckStamp(authority, authority.root.stamp) == Pass
    ensures var (after, result) := ApplyAck(authority, ack, pinFree);
      var named := NamedDirty(ack.sections, authority.root.dirty);
      && (result.Ok? <==>
            && Admissible(ack, authority)
            && DistinctSections(ack.sections) && ReachesDirty(ack.sections, authority.root.dirty)
            && (named == {} || (pinFree && authority.nextTokenId + 1 < U64_LIMIT)))
      && (result.Ok? ==> result.value == |named|)
      && after.root == (if result.Ok? && named != {}
                        then authority.root.(
                          dirty := authority.root.dirty.(entries := authority.root.dirty.entries - named),
                          replacement := Some(map[]))
                        else authority.root)
  {
    hide Bounds;
    hide DistinctSections;
    if Admissible(ack, authority) {
      CoverageIsExact(authority.root.dirty, ack);
      if CoveredBy(authority.root.dirty, ack).Ok? {
        assert CoveredBy(authority.root.dirty, ack).value == NamedDirty(ack.sections, authority.root.dirty);
      }
      hide CoveredBy;
    }
  }

  /**
   Over any run, an acknowledgement is applied exactly when its kind, world, context and generation match, it covers
   no later world revision than the live one, its keys are distinct section keys, no bound is below what is dirty,
   and, if it names something dirty, a token id and a revision pin are left. It returns how many dirty sections it
   names, and takes exactly those out of the frontier.
   */
  lemma AcknowledgesExactly(start: Session, actions: seq<Action>, ack: Ack, pinFree: bool)
    requires IsClean(start) && CheckStamp(start.authority, start.authority.root.stamp) == Pass
    requires OwnsFrontier(start.authority)
    ensures var authority := Run(start, actions).authority;
      var (after, result) := ApplyAck(authority, ack, pinFree);
      var named := NamedDirty(ack.sections, authority.root.dirty);
      && (result.Ok? <==>
            && ack.kind == "DurabilityAck" && ack.worldId == authority.worldId
            && ack.contextId == authority.contextId && ack.generation == authority.generation
            && ack.coveredWorldRevision <= authority.root.stamp.worldRevision
            && DistinctSections(ack.sections) && ReachesDirty(ack.sections, authority.root.dirty)
            && (named == {} || (pinFree && authority.nextTokenId + 1 < U64_LIMIT)))
      && (result.Ok? ==> result.value == |named|)
      && after.root == (if result.Ok? && named != {}
                        then authority.root.(
                          dirty := authority.root.dirty.(entries := authority.root.dirty.entries - named),
                          replacement := Some(map[]))
                        else authority.root)
  {
    var s := Run(start, actions);
    ReachableIsSound(start, actions);
    FrontierStaysOwn(s.log, start.authority.root, s.authority.root);
    RunKeepsOwner(start, actions);
    StampStaysOwn(start, actions);
    hide Run;
    hide ApplyAck;
    AppliedExactly(s.authority, ack, pinFree);
  }

  /** Each refusal of an acknowledgement, in the order in which the source looks. */
  lemma AckRefusals(authority: Authority, ack: Ack, pinFree: bool)
    requires OwnsFrontier(authority) && CheckStamp(authority, authority.root.stamp) == Pass
    ensures var result := ApplyAck(authority, ack, pinFree).1;
      if ack.kind != "DurabilityAck" then result == Err(InvalidHandle)
      else if ack.worldId != authority.worldId || ack.contextId != authority.contextId
      then result == Err(SessionMismatch)
      else if ack.generation != authority.generation then result == Err(StaleEpoch)
      else if ack.coveredWorldRevision > authority.root.stamp.worldRevision
      then result == Err(EvidenceDigestMismatch)
      else if !DistinctSections(ack.sections) then result.Err? && (result.error.BadKey? || result.error.InvalidHandle?)
      else if !ReachesDirty(ack.sections, authority.root.dirty) then result == Err(StaleSectionRevision)
      else if NamedDirty(ack.sections, authority.root.dirty) == {} then result == Ok(0)
      else if authority.nextTokenId + 1 >= U64_LIMIT then result == Err(InvalidHandle)
      else !pinFree ==> result == Err(BudgetExceeded)
  {
    hide DistinctSections;
    BoundsAreExact(ack.sections);
    if Bounds(ack.sections).Err? {
      BoundsErrors(ack.sections);
    }
    hide Bounds;
    if Admissible(ack, authority) {
      CoverageIsExact(authority.root.dirty, ack);
      if CoveredBy(authority.root.dirty, ack).Ok? {
        assert CoveredBy(authority.root.dirty, ack).value == NamedDirty(ack.sections, authority.root.dirty);
      }
    }
  }

  lemma {:induction false} BoundsErrors(sections: seq<CoveredSection>)
    requires Bounds(sections).Err?
    ensures Bounds(sections).error.BadKey? || Bounds(sections).error.InvalidHandle?
  {
    hide ParseSection;
    if Bounds(sections[..|sections| - 1]).Err? {
      BoundsErrors(sections[..|sections| - 1]);
    }
  }

  // ---- token ids

  lemma StepUsesTokens(s: Session, a: Action)
    ensures Step(s, a).authority.nextTokenId + |s.log| >= s.authority.nextTokenId + |Step(s, a).log|
  {
    hide Lookup;
    hide NewRoot;
    hide RecheckInFlight;
    hide Prepare;
    hide Abort;
    hide AbortInFlight;
    hide Bounds;
    hide CoveredBy;
    hide ParseSection;
    hide Finalize;
  }

  /** Every publication, acknowledgement and unload that replaced the root used up a token id of its own. */
  lemma {:induction false} RunUsesTokens(start: Session, actions: seq<Action>)
    requires IsClean(start)
    ensures Run(start, actions).authority.nextTokenId >= start.authority.nextTokenId + |Run(start, actions).log|
  {
    hide Step;
    if actions != [] {
      RunUsesTokens(start, actions[..|actions| - 1]);
      StepUsesTokens(Run(start, actions[..|actions| - 1]), actions[|actions| - 1]);
    }
  }
}
