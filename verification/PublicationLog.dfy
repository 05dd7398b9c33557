/**
 The history of published roots. Each event relates the root it replaced to the root it published; what a
 chain of such events does to a section, a revision or the dirty frontier is proved here, for every chain.
 */
module PublicationLog {
  import opened Wrappers
  import opened Blocks
  import opened Fingerprint
  import opened Protocol

  datatype EventKind =
    | Published(request: MutationRequest)
    | Acknowledged(bounds: map<string, U64>)
    | Unloaded(id: string)

  datatype Event = Event(kind: EventKind, before: Root, after: Root)

  type Log = seq<Event>

  // ---- what one event does

  predicate IsPublish(request: MutationRequest, before: Root, after: Root) {
    && RevisionsMatch(request, before.stamp)
    && Stageable(Named(request.entries), before)
    && before.stamp.worldRevision + 1 < U64_LIMIT
    && after.directory == before.directory + StagedSlots(request.entries, before)
    && after.dirty == StagedDirty(request.entries, before)
    && after.replacement == Some(StagedSlots(request.entries, before))
    && after.stamp == before.stamp.(
         worldRevision := before.stamp.worldRevision + 1,
         sectionRevisions := after.stamp.sectionRevisions)
    && after.stamp.sectionRevisions.Keys == before.stamp.sectionRevisions.Keys + Named(request.entries)
    && forall id :: id in after.stamp.sectionRevisions ==>
         after.stamp.sectionRevisions[id]
         == RevisionOf(before.stamp, id) + if id in Named(request.entries) then 1 else 0
  }

  predicate IsAcknowledgement(bounds: map<string, U64>, before: Root, after: Root) {
    && after.stamp == before.stamp
    && after.directory == before.directory
    && after.dirty == ExceptCovered(before.dirty, before.dirty.entries.Keys * bounds.Keys)
    && after.replacement == Some(map[])
    && forall id :: id in before.dirty.entries && id in bounds ==> before.dirty.entries[id].latest <= bounds[id]
  }

  predicate IsUnload(id: string, before: Root, after: Root) {
    && after.stamp == before.stamp
    && after.dirty == before.dirty
    && id in before.directory && before.directory[id].Ready? && id !in before.dirty.entries
    && after.directory == before.directory[id := Unchanged]
    && after.replacement == Some(map[id := Unchanged])
  }

  predicate Legal(e: Event) {
    match e.kind
    case Published(request) => IsPublish(request, e.before, e.after)
    case Acknowledged(bounds) => IsAcknowledgement(bounds, e.before, e.after)
    case Unloaded(id) => IsUnload(id, e.before, e.after)
  }

  /** The log leads from `first` to `last`, one legal event after another. */
  predicate Leads(log: Log, first: Root, last: Root) {
    if log == [] then first == last
    else
      var e := log[|log| - 1];
      e.after == last && Legal(e) && Leads(log[..|log| - 1], first, e.before)
  }

  // ---- serial replay

  lemma {:induction false} ReplayOfTwo(cells: Cells, a: seq<MutationEntry>, b: seq<MutationEntry>)
    ensures Replay(cells, a + b) == Replay(Replay(cells, a), b)
    decreases |a|
  {
    if a == [] {
      assert a + b == b;
    } else {
      assert (a + b)[0] == a[0] && (a + b)[1..] == a[1..] + b;
      ReplayOfTwo(cells[a[0].cellOffset := a[0].blockId], a[1..], b);
    }
  }

  /** Every published edit of one section, in publication order and submission order within a publication. */
  function PublishedEdits(log: Log, id: string): seq<MutationEntry> {
    if log == [] then [] else
    var last := log[|log| - 1].kind;
    PublishedEdits(log[..|log| - 1], id) + if last.Published? then EditsOf(last.request.entries, id) else []
  }

  predicate UnloadedIn(log: Log, id: string) {
    exists i :: 0 <= i < |log| && log[i].kind == Unloaded(id)
  }

  lemma UnloadedInStep(log: Log, id: string)
    requires log != []
    ensures UnloadedIn(log, id)
        <==> UnloadedIn(log[..|log| - 1], id) || log[|log| - 1].kind == Unloaded(id)
  {
    var init := log[..|log| - 1];
    if UnloadedIn(init, id) {
      var i :| 0 <= i < |init| && init[i].kind == Unloaded(id);
      assert log[i].kind == Unloaded(id);
    }
    if UnloadedIn(log, id) && log[|log| - 1].kind != Unloaded(id) {
      var i :| 0 <= i < |log| && log[i].kind == Unloaded(id);
      assert init[i].kind == Unloaded(id);
    }
  }

  /** What a section must hold after the edits, given what it held at first. */
  function Expected(slot: SectionSlot, edits: seq<MutationEntry>, unloaded: bool): SectionSlot {
    if unloaded then Unchanged
    else if slot.Ready? && slot.payload.Voxel? then Ready(Voxel(Replay(slot.payload.cells, edits)))
    else slot
  }

  /** One event moves each section from what it holds to what its edits in that event make of it. */
  lemma SlotAfterEvent(e: Event, id: string)
    requires Legal(e) && id in e.before.directory
    ensures id in e.after.directory
    ensures e.kind.Published? && EditsOf(e.kind.request.entries, id) != []
        ==> e.before.directory[id].Ready? && e.before.directory[id].payload.Voxel?
    ensures e.after.directory[id]
        == Expected(e.before.directory[id], if e.kind.Published? then EditsOf(e.kind.request.entries, id) else [],
                    e.kind == Unloaded(id))
  {
    hide RevisionsMatch;
    hide StagedDirty;
    if e.kind.Published? {
      UnnamedHasNoEdits(e.kind.request.entries, id);
    }
  }

  lemma {:induction false} DirectoryKeysStay(log: Log, first: Root, last: Root)
    requires Leads(log, first, last)
    ensures last.directory.Keys == first.directory.Keys
  {
    if log != [] {
      var e := log[|log| - 1];
      DirectoryKeysStay(log[..|log| - 1], first, e.before);
      forall id | id in e.after.directory ensures id in e.before.directory {
        hide RevisionsMatch;
        hide StagedDirty;
      }
      forall id | id in e.before.directory ensures id in e.after.directory {
        SlotAfterEvent(e, id);
      }
    }
  }

  /**
   Serial replay: in every reachable root a section holds exactly the initial cells with every published edit
   applied in publication order, unless it was unloaded; a section that was not Ready at first is untouched.
   */
  lemma {:induction false} SerialReplay(log: Log, first: Root, last: Root, id: string)
    requires Leads(log, first, last) && id in first.directory
    ensures id in last.directory
    ensures last.directory[id] == Expected(first.directory[id], PublishedEdits(log, id), UnloadedIn(log, id))
    ensures !(first.directory[id].Ready? && first.directory[id].payload.Voxel?) ==> PublishedEdits(log, id) == []
    ensures UnloadedIn(log, id) ==> first.directory[id].Ready?
  {
    if log != [] {
      var e, init := log[|log| - 1], log[..|log| - 1];
      SerialReplay(init, first, e.before, id);
      UnloadedInStep(log, id);
      SlotAfterEvent(e, id);
      if e.kind == Unloaded(id) {
        UnloadsReady(e, id);
      }
      ExpectedStep(first.directory[id], PublishedEdits(init, id), UnloadedIn(init, id),
                   if e.kind.Published? then EditsOf(e.kind.request.entries, id) else [], e.kind == Unloaded(id));
    }
  }

  lemma UnloadsReady(e: Event, id: string)
    requires Legal(e) && e.kind == Unloaded(id)
    ensures id in e.before.directory && e.before.directory[id].Ready?
  {
  }

  lemma ExpectedStep(slot: SectionSlot, edits: seq<MutationEntry>, unloaded: bool, more: seq<MutationEntry>, now: bool)
    requires more != [] ==> !unloaded && slot.Ready? && slot.payload.Voxel?
    requires now ==> more == []
    ensures Expected(Expected(slot, edits, unloaded), more, now) == Expected(slot, edits + more, unloaded || now)
  {
    if slot.Ready? && slot.payload.Voxel? {
      ReplayOfTwo(slot.payload.cells, edits, more);
    }
  }

  // ---- revisions

  /** How many publications the log holds. */
  function Publications(log: Log): nat {
    if log == [] then 0
    else Publications(log[..|log| - 1]) + if log[|log| - 1].kind.Published? then 1 else 0
  }

  predicate Names(kind: EventKind, id: string) {
    kind.Published? && id in Named(kind.request.entries)
  }

  /** How many publications of the log name the section. */
  function Naming(log: Log, id: string): nat {
    if log == [] then 0
    else Naming(log[..|log| - 1], id) + if Names(log[|log| - 1].kind, id) then 1 else 0
  }

  /** The world revision grows by exactly one per publication and by nothing else. */
  lemma {:induction false} WorldRevisionCountsPublications(log: Log, first: Root, last: Root)
    requires Leads(log, first, last)
    ensures last.stamp.worldRevision == first.stamp.worldRevision + Publications(log)
    ensures last.stamp.worldId == first.stamp.worldId
    ensures last.stamp.contextId == first.stamp.contextId && last.stamp.generation == first.stamp.generation
  {
    hide RevisionsMatch;
    hide Stageable;
    if log != [] {
      WorldRevisionCountsPublications(log[..|log| - 1], first, log[|log| - 1].before);
    }
  }

  /**
   The revision a reader sees for a section moves with one event exactly when the event publishes and the
   section is named or has no revision of its own, and then by one.
   */
  lemma RevisionStep(e: Event, id: string)
    requires Legal(e)
    ensures RevisionOf(e.after.stamp, id) == RevisionOf(e.before.stamp, id)
        + if e.kind.Published? && (Names(e.kind, id) || id !in e.before.stamp.sectionRevisions) then 1 else 0
    ensures id in e.after.stamp.sectionRevisions <==> id in e.before.stamp.sectionRevisions || Names(e.kind, id)
  {
    hide RevisionsMatch;
    hide Stageable;
  }

  /** The publications that name the section or come before any that does. */
  function Moves(log: Log, id: string): nat {
    if log == [] then 0 else
    var init, kind := log[..|log| - 1], log[|log| - 1].kind;
    Moves(init, id) + if kind.Published? && (Names(kind, id) || Naming(init, id) == 0) then 1 else 0
  }

  /**
   Section revisions are exact: a section that began with a revision of its own has grown by one for each
   publication naming it, and one never named and without its own still follows the world revision.
   */
  lemma {:induction false} SectionRevisionCountsNaming(log: Log, first: Root, last: Root, id: string)
    requires Leads(log, first, last)
    ensures id in last.stamp.sectionRevisions <==> id in first.stamp.sectionRevisions || Naming(log, id) > 0
    ensures id in first.stamp.sectionRevisions
        ==> RevisionOf(last.stamp, id) == RevisionOf(first.stamp, id) + Naming(log, id)
    ensures id !in first.stamp.sectionRevisions
        ==> RevisionOf(last.stamp, id) == first.stamp.worldRevision + Moves(log, id)
    ensures id !in last.stamp.sectionRevisions
        ==> RevisionOf(last.stamp, id) == first.stamp.worldRevision + Publications(log)
  {
    if log != [] {
      SectionRevisionCountsNaming(log[..|log| - 1], first, log[|log| - 1].before, id);
      RevisionStep(log[|log| - 1], id);
    }
    WorldRevisionCountsPublications(log, first, last);
  }

  predicate BelowWorld(stamp: RevisionStamp) {
    forall id :: id in stamp.sectionRevisions ==> stamp.sectionRevisions[id] <= stamp.worldRevision
  }

  /** No section revision runs ahead of the world revision. */
  lemma {:induction false} RevisionsStayBelowWorld(log: Log, first: Root, last: Root)
    requires Leads(log, first, last) && BelowWorld(first.stamp)
    ensures BelowWorld(last.stamp)
  {
    hide RevisionsMatch;
    hide Stageable;
    if log != [] {
      RevisionsStayBelowWorld(log[..|log| - 1], first, log[|log| - 1].before);
    }
  }

  // ---- nothing committed is lost before it is durable

  predicate IsVoxelReady(directory: Directory, id: string) {
    id in directory && directory[id].Ready? && directory[id].payload.Voxel?
  }

  /** If the section is dirty it is Ready, and its latest dirty revision is its own revision. */
  predicate EntryIsCurrent(root: Root, id: string) {
    id in root.dirty.entries ==>
      && IsVoxelReady(root.directory, id)
      && id in root.stamp.sectionRevisions
      && root.dirty.entries[id].latest == root.stamp.sectionRevisions[id]
      && root.dirty.entries[id].first <= root.dirty.entries[id].latest
  }

  predicate DirtyIsCurrent(root: Root) {
    forall id :: id in root.dirty.entries ==> EntryIsCurrent(root, id)
  }

  lemma PublishedEntryIsCurrent(request: MutationRequest, before: Root, after: Root, id: string)
    requires IsPublish(request, before, after) && EntryIsCurrent(before, id) && id in Named(request.entries)
    ensures EntryIsCurrent(after, id)
  {
    hide RevisionsMatch;
    hide Named;
    hide Replay;
    hide EditsOf;
  }

  lemma OtherEntryIsCurrent(request: MutationRequest, before: Root, after: Root, id: string)
    requires IsPublish(request, before, after) && EntryIsCurrent(before, id) && id !in Named(request.entries)
    ensures EntryIsCurrent(after, id)
  {
    hide RevisionsMatch;
    hide Named;
    hide Stageable;
    hide RecordDirty;
    hide Replay;
    hide EditsOf;
  }

  lemma PublishKeepsEntryCurrent(request: MutationRequest, before: Root, after: Root, id: string)
    requires IsPublish(request, before, after) && EntryIsCurrent(before, id)
    ensures EntryIsCurrent(after, id)
  {
    hide IsPublish;
    hide EntryIsCurrent;
    if id in Named(request.entries) {
      PublishedEntryIsCurrent(request, before, after, id);
    } else {
      OtherEntryIsCurrent(request, before, after, id);
    }
  }

  lemma EventKeepsDirtyCurrent(e: Event)
    requires Legal(e) && DirtyIsCurrent(e.before)
    ensures DirtyIsCurrent(e.after)
  {
    forall id | id in e.after.dirty.entries ensures EntryIsCurrent(e.after, id) {
      hide DirtyIsCurrent;
      if e.kind.Published? {
        CurrentEntry(e.before, id);
        hide IsPublish;
        PublishKeepsEntryCurrent(e.kind.request, e.before, e.after, id);
      } else {
        CurrentEntry(e.before, id);
      }
    }
    hide Legal;
  }

  lemma CurrentEntry(root: Root, id: string)
    requires DirtyIsCurrent(root)
    ensures EntryIsCurrent(root, id)
  {
  }

  lemma {:induction false} DirtyStaysCurrent(log: Log, first: Root, last: Root)
    requires Leads(log, first, last) && DirtyIsCurrent(first)
    ensures DirtyIsCurrent(last)
  {
    if log != [] {
      DirtyStaysCurrent(log[..|log| - 1], first, log[|log| - 1].before);
      EventKeepsDirtyCurrent(log[|log| - 1]);
    }
  }

  /** The i-th event published an edit of the section that no later acknowledgement covers. */
  predicate Outstanding(log: Log, i: nat, id: string) {
    && i < |log| && Names(log[i].kind, id)
    && forall j :: i < j < |log| && log[j].kind.Acknowledged? && id in log[j].kind.bounds ==>
         log[j].kind.bounds[id] < RevisionOf(log[i].after.stamp, id)
  }

  lemma PublishMakesDirty(e: Event, id: string)
    requires Legal(e) && e.kind.Published?
    ensures id in e.after.dirty.entries <==> Names(e.kind, id) || id in e.before.dirty.entries
    ensures Names(e.kind, id) ==> e.after.dirty.entries[id].latest >= RevisionOf(e.after.stamp, id)
    ensures id in e.before.dirty.entries
        ==> e.after.dirty.entries[id].latest >= e.before.dirty.entries[id].latest
  {
    hide RevisionsMatch;
    hide StagedSlots;
  }

  lemma {:induction false} OutstandingIsDirty(log: Log, first: Root, last: Root, i: nat, id: string)
    requires Leads(log, first, last) && Outstanding(log, i, id)
    ensures id in last.dirty.entries
    ensures last.dirty.entries[id].latest >= RevisionOf(log[i].after.stamp, id)
  {
    hide IsPublish;
    var e, init := log[|log| - 1], log[..|log| - 1];
    if e.kind.Published? {
      PublishMakesDirty(e, id);
    }
    if i < |init| {
      assert forall j :: 0 <= j < |init| ==> init[j] == log[j];
      assert Outstanding(init, i, id);
      OutstandingIsDirty(init, first, e.before, i, id);
    }
  }

  lemma {:induction false} DirtyIsOutstanding(log: Log, first: Root, last: Root, id: string) returns (i: nat)
    requires Leads(log, first, last) && first.dirty.entries == map[] && id in last.dirty.entries
    ensures Outstanding(log, i, id)
  {
    hide IsPublish;
    assert log != [];
    var e, init := log[|log| - 1], log[..|log| - 1];
    if e.kind.Published? {
      PublishMakesDirty(e, id);
    }
    if Names(e.kind, id) {
      i := |init|;
    } else {
      i := DirtyIsOutstanding(init, first, e.before, id);
      assert forall j :: 0 <= j < |init| ==> init[j] == log[j];
    }
  }

  /**
   No committed edit is lost before durability: a section is dirty exactly while some published edit of it is
   outstanding, and then it is Ready, was never unloaded, and reads every published edit.
   */
  lemma NoEditIsLost(log: Log, first: Root, last: Root, id: string)
    requires Leads(log, first, last) && first.dirty.entries == map[]
    ensures id in last.dirty.entries <==> exists i :: Outstanding(log, i, id)
    ensures id in last.dirty.entries ==>
      && !UnloadedIn(log, id)
      && IsVoxelReady(first.directory, id) && IsVoxelReady(last.directory, id)
      && last.directory[id].payload.cells == Replay(first.directory[id].payload.cells, PublishedEdits(log, id))
  {
    if id in last.dirty.entries {
      var i := DirtyIsOutstanding(log, first, last, id);
      DirtyStaysCurrent(log, first, last);
      DirectoryKeysStay(log, first, last);
      SerialReplay(log, first, last, id);
    }
    if i :| Outstanding(log, i, id) {
      OutstandingIsDirty(log, first, last, i, id);
    }
  }

  /** The revision the i-th event left the section at. */
  function RevisionAfter(log: Log, i: nat, id: string): U64
    requires i < |log|
  {
    RevisionOf(log[i].after.stamp, id)
  }

  ghost predicate IsOutstandingRevision(log: Log, id: string, revision: U64) {
    exists i: nat :: Outstanding(log, i, id) && RevisionAfter(log, i, id) == revision
  }

  /** Every outstanding publication left the section at a revision of the range. */
  ghost predicate AllWithin(log: Log, id: string, low: U64, high: U64) {
    forall i: nat :: Outstanding(log, i, id) ==> low <= RevisionAfter(log, i, id) <= high
  }

  /** A dirty entry spans the revisions of the outstanding publications of its section, first to last. */
  ghost predicate SpansOutstanding(log: Log, root: Root, id: string) {
    id in root.dirty.entries ==>
      var entry := root.dirty.entries[id];
      && AllWithin(log, id, entry.first, entry.latest)
      && IsOutstandingRevision(log, id, entry.first) && IsOutstandingRevision(log, id, entry.latest)
      && entry.reason == "mutation"
  }

  lemma OutstandingOneMore(log: Log, e: Event, i: nat, id: string)
    ensures Outstanding(log + [e], i, id) <==>
      if i == |log| then Names(e.kind, id)
      else
        && Outstanding(log, i, id)
        && (e.kind.Acknowledged? && id in e.kind.bounds ==> e.kind.bounds[id] < RevisionAfter(log, i, id))
  {
    var longer := log + [e];
    assert longer[|log|] == e && forall j :: 0 <= j < |log| ==> longer[j] == log[j];
  }

  lemma StaysOutstanding(log: Log, e: Event, id: string, revision: U64)
    requires IsOutstandingRevision(log, id, revision) && !(e.kind.Acknowledged? && id in e.kind.bounds)
    ensures IsOutstandingRevision(log + [e], id, revision)
  {
    var i: nat :| Outstanding(log, i, id) && RevisionAfter(log, i, id) == revision;
    OutstandingOneMore(log, e, i, id);
    assert (log + [e])[i] == log[i];
  }

  lemma PublishedRange(e: Event, id: string)
    requires Legal(e) && Names(e.kind, id)
    ensures id in e.after.dirty.entries
    ensures var now, entry := RevisionOf(e.after.stamp, id), e.after.dirty.entries[id];
      && entry.reason == "mutation"
      && if id in e.before.dirty.entries
         then entry.first == (if now < e.before.dirty.entries[id].first then now else e.before.dirty.entries[id].first)
              && entry.latest == if now > e.before.dirty.entries[id].latest then now
                                 else e.before.dirty.entries[id].latest
         else entry.first == now && entry.latest == now
  {
    hide RevisionsMatch;
    hide StagedSlots;
  }

  lemma UnpublishedRange(e: Event, id: string)
    requires Legal(e) && !Names(e.kind, id) && id in e.after.dirty.entries
    ensures id in e.before.dirty.entries && e.after.dirty.entries[id] == e.before.dirty.entries[id]
    ensures !(e.kind.Acknowledged? && id in e.kind.bounds)
  {
    hide RevisionsMatch;
    hide StagedSlots;
  }

  /** An earlier publication still outstanding after one more was outstanding before it. */
  lemma OutstandingBefore(init: Log, e: Event, i: nat, id: string)
    requires Outstanding(init + [e], i, id) && i < |init|
    ensures Outstanding(init, i, id) && RevisionAfter(init + [e], i, id) == RevisionAfter(init, i, id)
  {
    OutstandingOneMore(init, e, i, id);
    assert (init + [e])[i] == init[i];
  }

  /** One more publication of the section widens the range to its revision. */
  lemma NamedWithin(init: Log, e: Event, first: Root, id: string, low: U64, high: U64)
    requires Leads(init, first, e.before) && Names(e.kind, id)
    requires low <= RevisionOf(e.after.stamp, id) <= high
    requires id in e.before.dirty.entries ==>
      && AllWithin(init, id, e.before.dirty.entries[id].first, e.before.dirty.entries[id].latest)
      && low <= e.before.dirty.entries[id].first && e.before.dirty.entries[id].latest <= high
    ensures AllWithin(init + [e], id, low, high)
  {
    var log := init + [e];
    forall i: nat | Outstanding(log, i, id) ensures low <= RevisionAfter(log, i, id) <= high {
      if i < |init| {
        OutstandingBefore(init, e, i, id);
        OutstandingIsDirty(init, first, e.before, i, id);
      }
    }
  }

  lemma NamedIsOutstanding(init: Log, e: Event, id: string)
    requires Names(e.kind, id)
    ensures IsOutstandingRevision(init + [e], id, RevisionOf(e.after.stamp, id))
  {
    OutstandingOneMore(init, e, |init|, id);
    assert RevisionAfter(init + [e], |init|, id) == RevisionOf(e.after.stamp, id);
  }

  lemma NamedSpans(init: Log, e: Event, first: Root, id: string)
    requires Leads(init, first, e.before) && Legal(e) && Names(e.kind, id)
    requires SpansOutstanding(init, e.before, id)
    ensures SpansOutstanding(init + [e], e.after, id)
  {
    hide Legal;
    hide Leads;
    hide AllWithin;
    hide IsOutstandingRevision;
    hide RevisionOf;
    PublishedRange(e, id);
    var entry := e.after.dirty.entries[id];
    NamedWithin(init, e, first, id, entry.first, entry.latest);
    NamedIsOutstanding(init, e, id);
    if id in e.before.dirty.entries {
      StaysOutstanding(init, e, id, e.before.dirty.entries[id].first);
      StaysOutstanding(init, e, id, e.before.dirty.entries[id].latest);
    }
  }

  lemma UnnamedWithin(init: Log, e: Event, id: string, low: U64, high: U64)
    requires AllWithin(init, id, low, high) && !Names(e.kind, id)
    ensures AllWithin(init + [e], id, low, high)
  {
    var log := init + [e];
    forall i: nat | Outstanding(log, i, id) ensures low <= RevisionAfter(log, i, id) <= high {
      OutstandingOneMore(init, e, i, id);
      OutstandingBefore(init, e, i, id);
    }
  }

  lemma UnnamedSpans(init: Log, e: Event, id: string)
    requires Legal(e) && !Names(e.kind, id)
    requires SpansOutstanding(init, e.before, id)
    ensures SpansOutstanding(init + [e], e.after, id)
  {
    hide Legal;
    hide AllWithin;
    hide IsOutstandingRevision;
    if id in e.after.dirty.entries {
      UnpublishedRange(e, id);
      UnnamedWithin(init, e, id, e.before.dirty.entries[id].first, e.before.dirty.entries[id].latest);
      StaysOutstanding(init, e, id, e.before.dirty.entries[id].first);
      StaysOutstanding(init, e, id, e.before.dirty.entries[id].latest);
    }
  }

  /**
   The dirty frontier is exact: a dirty section's entry runs from the least to the greatest revision of its
   outstanding publications, both attained.
   */
  lemma {:induction false} DirtyRangeIsExact(log: Log, first: Root, last: Root, id: string)
    requires Leads(log, first, last) && first.dirty.entries == map[]
    ensures SpansOutstanding(log, last, id)
  {
    hide SpansOutstanding;
    hide Legal;
    if log == [] {
      NothingSpans(last, id);
    } else {
      var init, e := log[..|log| - 1], log[|log| - 1];
      assert log == init + [e];
      DirtyRangeIsExact(init, first, e.before, id);
      if Names(e.kind, id) {
        NamedSpans(init, e, first, id);
      } else {
        UnnamedSpans(init, e, id);
      }
    }
  }

  lemma NothingSpans(root: Root, id: string)
    requires root.dirty.entries == map[]
    ensures SpansOutstanding([], root, id)
  {
  }
}
