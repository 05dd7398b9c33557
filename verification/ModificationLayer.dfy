/** Recorded section states, the deltas between them, and what is sent to a receiver at a given revision. */
module ModificationLayer {
  import opened Wrappers
  import opened Blocks
  import opened Keys
  import opened PaletteStorage
  import opened SectionCodec

  // ---- canonical entry order

  /** Stable insertion by cell offset: an entry goes after the equal offsets before it. */
  function InsertByOffset(sorted: seq<DeltaEntry>, e: DeltaEntry): (r: seq<DeltaEntry>)
    ensures |r| == |sorted| + 1
  {
    if sorted == [] || sorted[|sorted| - 1].offset <= e.offset then sorted + [e]
    else InsertByOffset(sorted[..|sorted| - 1], e) + [sorted[|sorted| - 1]]
  }

  /** What a stable sort by cell offset returns. */
  function SortedByOffset(entries: seq<DeltaEntry>): (r: seq<DeltaEntry>)
    ensures |r| == |entries|
  {
    if entries == [] then [] else InsertByOffset(SortedByOffset(entries[..|entries| - 1]), entries[|entries| - 1])
  }

  predicate Ascending(entries: seq<DeltaEntry>) {
    forall i, j :: 0 <= i < j < |entries| ==> entries[i].offset <= entries[j].offset
  }

  lemma {:induction false} AppliedAppend(cells: Cells, entries: seq<DeltaEntry>, e: DeltaEntry)
    ensures Applied(cells, entries + [e]) == Applied(cells, entries)[e.offset := e.block]
    decreases |entries|
  {
    var all := entries + [e];
    if entries == [] {
      assert all[1..] == [];
    } else {
      assert all[1..] == entries[1..] + [e];
      AppliedAppend(cells[entries[0].offset := entries[0].block], entries[1..], e);
    }
  }

  lemma {:induction false} InsertApplies(cells: Cells, sorted: seq<DeltaEntry>, e: DeltaEntry)
    ensures Applied(cells, InsertByOffset(sorted, e)) == Applied(cells, sorted)[e.offset := e.block]
  {
    hide Applied;
    if sorted == [] || sorted[|sorted| - 1].offset <= e.offset {
      AppliedAppend(cells, sorted, e);
    } else {
      var before, last := sorted[..|sorted| - 1], sorted[|sorted| - 1];
      assert sorted == before + [last];
      InsertApplies(cells, before, e);
      AppliedAppend(cells, InsertByOffset(before, e), last);
      AppliedAppend(cells, before, last);
    }
  }

  lemma {:induction false} InsertKeepsEntries(sorted: seq<DeltaEntry>, e: DeltaEntry)
    ensures multiset(InsertByOffset(sorted, e)) == multiset(sorted) + multiset{e}
  {
    if sorted != [] && sorted[|sorted| - 1].offset > e.offset {
      var before, last := sorted[..|sorted| - 1], sorted[|sorted| - 1];
      assert sorted == before + [last];
      InsertKeepsEntries(before, e);
    }
  }

  lemma AscendingSnoc(before: seq<DeltaEntry>, last: DeltaEntry)
    ensures Ascending(before + [last])
        <==> Ascending(before) && forall i :: 0 <= i < |before| ==> before[i].offset <= last.offset
  {
    var all := before + [last];
    assert forall i :: 0 <= i < |before| ==> all[i] == before[i];
    if Ascending(all) {
      assert forall i :: 0 <= i < |before| ==> all[i].offset <= all[|before|].offset;
    }
  }

  lemma {:induction false} InsertKeepsOrder(sorted: seq<DeltaEntry>, e: DeltaEntry)
    requires Ascending(sorted)
    ensures Ascending(InsertByOffset(sorted, e))
  {
    if sorted == [] || sorted[|sorted| - 1].offset <= e.offset {
      AscendingSnoc(sorted, e);
    } else {
      var before, last := sorted[..|sorted| - 1], sorted[|sorted| - 1];
      assert sorted == before + [last];
      AscendingSnoc(before, last);
      hide Ascending;
      InsertKeepsOrder(before, e);
      InsertStaysBelow(before, e, last.offset);
      AscendingSnoc(InsertByOffset(before, e), last);
    }
  }

  lemma {:induction false} InsertStaysBelow(sorted: seq<DeltaEntry>, e: DeltaEntry, bound: nat)
    requires e.offset <= bound && forall i :: 0 <= i < |sorted| ==> sorted[i].offset <= bound
    ensures forall i :: 0 <= i < |InsertByOffset(sorted, e)| ==> InsertByOffset(sorted, e)[i].offset <= bound
  {
    if sorted != [] && sorted[|sorted| - 1].offset > e.offset {
      InsertStaysBelow(sorted[..|sorted| - 1], e, bound);
    }
  }

  /** Sorting stably by offset permutes the entries and leaves the resulting cells unchanged. */
  lemma {:induction false} SortKeepsLastWrites(cells: Cells, entries: seq<DeltaEntry>)
    ensures Applied(cells, SortedByOffset(entries)) == Applied(cells, entries)
    ensures multiset(SortedByOffset(entries)) == multiset(entries)
    ensures Ascending(SortedByOffset(entries))
  {
    if entries != [] {
      var before, last := entries[..|entries| - 1], entries[|entries| - 1];
      assert entries == before + [last];
      SortKeepsLastWrites(cells, before);
      InsertApplies(cells, SortedByOffset(before), last);
      InsertKeepsEntries(SortedByOffset(before), last);
      InsertKeepsOrder(SortedByOffset(before), last);
      AppliedAppend(cells, before, last);
    }
  }

  // ---- the layer on plain cells

  datatype Modification = Modification(revision: U64, cells: Cells, latestDelta: Option<Envelope>)

  type Layer = map<SectionId, Modification>

  datatype Event =
    | SetReady(id: SectionId, revision: U64, cells: Cells)
    | RecordDelta(id: SectionId, revision: U64, entries: seq<DeltaEntry>)
    | MarkUnchanged(id: SectionId)

  function DeltaEnvelope(m: Modification, id: SectionId, revision: U64, entries: seq<DeltaEntry>): Envelope {
    EncodeDelta(id, revision, m.revision, SortedByOffset(entries))
  }

  /** A delta is recorded only if the layer's own section decodes it. */
  function Recorded(layer: Layer, id: SectionId, revision: U64, entries: seq<DeltaEntry>)
    : Result<Modification, SectionError>
  {
    if id !in layer then Err(SectionUnavailable) else
    var m := layer[id];
    var envelope := DeltaEnvelope(m, id, revision, entries);
    var decoded :- Decode(envelope, Some(Held(m.cells, m.revision)));
    Ok(Modification(decoded.revision, decoded.content, Some(envelope)))
  }

  function Step(layer: Layer, event: Event): Layer {
    match event
    case SetReady(id, revision, cells) => layer[id := Modification(revision, cells, None)]
    case RecordDelta(id, revision, entries) =>
      var r := Recorded(layer, id, revision, entries);
      if r.Ok? then layer[id := r.value] else layer
    case MarkUnchanged(id) => layer - {id}
  }

  function Run(layer: Layer, events: seq<Event>): Layer {
    if events == [] then layer else Step(Run(layer, events[..|events| - 1]), events[|events| - 1])
  }

  datatype Delivery = FirstDelivery | ReadyAt(revision: U64) | Resync | PendingDelivery | UnavailableDelivery

  datatype Dispatch = Ready(envelope: Envelope) | Unchanged | Pending | Unavailable

  function DispatchSection(layer: Layer, id: SectionId, delivery: Delivery): Dispatch {
    if delivery.PendingDelivery? then Pending
    else if delivery.UnavailableDelivery? then Unavailable
    else if id !in layer then Unchanged
    else if delivery.ReadyAt? && HasDeltaFrom(layer[id], delivery.revision) then Ready(layer[id].latestDelta.value)
    else Ready(EncodeFull(id, layer[id].revision, layer[id].cells))
  }

  predicate HasDeltaFrom(m: Modification, revision: U64) {
    m.latestDelta.Some? && m.latestDelta.value.baseRevision == Some(revision)
  }

  // ---- one event

  /** Exactly when a delta is recorded, and what it leaves; a refused delta changes nothing. */
  lemma RecordDeltaIsExact(layer: Layer, id: SectionId, revision: U64, entries: seq<DeltaEntry>)
    ensures var r := Recorded(layer, id, revision, entries);
      if id !in layer then r == Err(SectionUnavailable)
      else if revision <= layer[id].revision then r == Err(DeltaBaseRevisionMismatch)
      else r == Ok(Modification(revision, Applied(layer[id].cells, entries),
                                Some(DeltaEnvelope(layer[id], id, revision, entries))))
    ensures Recorded(layer, id, revision, entries).Err?
        ==> Step(layer, RecordDelta(id, revision, entries)) == layer
  {
    if id in layer {
      var m := layer[id];
      SortKeepsLastWrites(m.cells, entries);
      DeltaRoundTrip(id, revision, m.revision, SortedByOffset(entries), Some(Held(m.cells, m.revision)));
    }
  }

  // ---- whole runs, seen from one section

  /** Every revision the layer has published for the section, with the cells it stood for. */
  function History(events: seq<Event>, id: SectionId): seq<Held> {
    if events == [] then [] else
    var before, last := History(events[..|events| - 1], id), events[|events| - 1];
    var layer := Run(map[], events[..|events| - 1]);
    if last.MarkUnchanged? || last.id != id then before
    else if last.RecordDelta? && Recorded(layer, id, last.revision, last.entries).Err? then before
    else
      var m := Step(layer, last)[id];
      before + [Held(m.cells, m.revision)]
  }

  /** Revisions published for one section grow along the run. */
  predicate Increasing(history: seq<Held>) {
    forall i, j :: 0 <= i < j < |history| ==> history[i].revision < history[j].revision
  }

  /** The stored delta is made of these entries, over this older base. */
  ghost predicate LeadsFrom(m: Modification, id: SectionId, base: Held, entries: seq<DeltaEntry>) {
    && base.revision < m.revision
    && m.latestDelta == Some(EncodeDelta(id, m.revision, base.revision, entries))
    && m.cells == Applied(base.cells, entries)
  }

  /** The stored delta leads from the revision published before to the current one. */
  ghost predicate DeltaLeadsHere(m: Modification, id: SectionId, history: seq<Held>) {
    m.latestDelta.Some? ==>
      |history| >= 2 && CameFrom(m, id, history[|history| - 2])
  }

  ghost predicate CameFrom(m: Modification, id: SectionId, base: Held) {
    exists entries :: LeadsFrom(m, id, base, entries)
  }

  ghost predicate Tracks(layer: Layer, id: SectionId, history: seq<Held>) {
    id in layer ==>
      && history != []
      && history[|history| - 1] == Held(layer[id].cells, layer[id].revision)
      && DeltaLeadsHere(layer[id], id, history)
  }

  lemma {:induction false} HistoryTracksLayer(events: seq<Event>, id: SectionId)
    ensures Tracks(Run(map[], events), id, History(events, id))
  {
    hide Recorded;
    hide Tracks;
    if events == [] {
      NothingToTrack(id);
    } else {
      var init, last := events[..|events| - 1], events[|events| - 1];
      HistoryTracksLayer(init, id);
      StepTracks(Run(map[], init), id, History(init, id), last);
    }
  }

  lemma NothingToTrack(id: SectionId)
    ensures Tracks(map[], id, [])
  {
  }

  lemma StepTracks(layer: Layer, id: SectionId, history: seq<Held>, event: Event)
    requires Tracks(layer, id, history)
    ensures Tracks(Step(layer, event), id,
                   if event.MarkUnchanged? || event.id != id then history
                   else if event.RecordDelta? && Recorded(layer, id, event.revision, event.entries).Err? then history
                   else history + [Held(Step(layer, event)[id].cells, Step(layer, event)[id].revision)])
  {
    hide Recorded;
    if event.RecordDelta? && event.id == id {
      hide Tracks;
      RecordedLeads(layer, id, event.revision, event.entries, history);
    } else {
      hide CameFrom;
    }
  }

  lemma RecordedLeads(layer: Layer, id: SectionId, revision: U64, entries: seq<DeltaEntry>, history: seq<Held>)
    requires Tracks(layer, id, history)
    ensures var r := Recorded(layer, id, revision, entries);
      r.Ok? ==> Tracks(layer[id := r.value], id, history + [Held(r.value.cells, r.value.revision)])
  {
    hide SortedByOffset;
    hide Recorded;
    hide Applied;
    hide EncodeDelta;
    RecordDeltaIsExact(layer, id, revision, entries);
    if Recorded(layer, id, revision, entries).Ok? {
      var m, after := layer[id], Recorded(layer, id, revision, entries).value;
      SortKeepsLastWrites(m.cells, entries);
      assert LeadsFrom(after, id, Held(m.cells, m.revision), SortedByOffset(entries));
      var longer := history + [Held(after.cells, after.revision)];
      assert longer[|longer| - 2] == Held(m.cells, m.revision);
    }
  }

  // ---- when a receiver converges

  predicate Touches(entries: seq<DeltaEntry>, cell: CellOffset) {
    exists k :: 0 <= k < |entries| && entries[k].offset == cell
  }

  /** The same cells wherever the entries do not write. */
  ghost predicate AgreeOutside(a: Cells, b: Cells, entries: seq<DeltaEntry>) {
    forall cell: CellOffset :: !Touches(entries, cell) ==> a[cell] == b[cell]
  }

  /** A cell the entries write ends up the same whatever was there; any other cell keeps what it had. */
  lemma {:induction false} AppliedCell(a: Cells, b: Cells, entries: seq<DeltaEntry>, cell: CellOffset)
    ensures Touches(entries, cell) ==> Applied(a, entries)[cell] == Applied(b, entries)[cell]
    ensures !Touches(entries, cell) ==> Applied(a, entries)[cell] == a[cell]
    decreases |entries|
  {
    if entries != [] {
      var e, rest := entries[0], entries[1..];
      AppliedCell(a[e.offset := e.block], b[e.offset := e.block], rest, cell);
      AppliedCell(b[e.offset := e.block], b[e.offset := e.block], rest, cell);
      hide Applied;
      TouchesUnfold(entries, cell);
      AppliedUnfold(a, entries);
      AppliedUnfold(b, entries);
    }
  }

  lemma TouchesUnfold(entries: seq<DeltaEntry>, cell: CellOffset)
    requires entries != []
    ensures Touches(entries, cell) <==> entries[0].offset == cell || Touches(entries[1..], cell)
  {
    var rest := entries[1..];
    assert forall k :: 0 <= k < |rest| ==> rest[k] == entries[k + 1];
    if entries[0].offset != cell && !Touches(rest, cell) {
      forall k | 0 <= k < |entries| ensures entries[k].offset != cell {
        assert k == 0 || entries[k] == rest[k - 1];
      }
    }
  }

  lemma AppliedUnfold(cells: Cells, entries: seq<DeltaEntry>)
    requires entries != []
    ensures Applied(cells, entries) == Applied(cells[entries[0].offset := entries[0].block], entries[1..])
  {
  }

  /** Entries lead two sections to the same cells exactly when these agree wherever nothing is written. */
  lemma AppliedAgree(a: Cells, b: Cells, entries: seq<DeltaEntry>)
    ensures Applied(a, entries) == Applied(b, entries) <==> AgreeOutside(a, b, entries)
  {
    hide Applied;
    forall cell: CellOffset
      ensures Applied(a, entries)[cell] == Applied(b, entries)[cell] <==> Touches(entries, cell) || a[cell] == b[cell]
    {
      AppliedCell(a, b, entries, cell);
      AppliedCell(b, a, entries, cell);
    }
    if AgreeOutside(a, b, entries) {
      SameCells(Applied(a, entries), Applied(b, entries));
    }
  }

  /**
   Exactly when dispatch makes a receiver converge, for every run and every receiver: it has to be at an older
   revision, and if the answer is the stored delta it has to agree with the delta's base, the state recorded
   before the current one, in every cell the delta does not write.
   */
  lemma ConvergenceIsExact(events: seq<Event>, id: SectionId, receiver: Held) returns (entries: seq<DeltaEntry>)
    requires id in Run(map[], events)
    ensures var m, history := Run(map[], events)[id], History(events, id);
      var answer := DispatchSection(Run(map[], events), id, ReadyAt(receiver.revision));
      && answer.Ready?
      && (HasDeltaFrom(m, receiver.revision) ==>
            |history| >= 2 && LeadsFrom(m, id, history[|history| - 2], entries))
      && (Decode(answer.envelope, Some(receiver)) == Ok(Decoded(id, m.revision, m.cells))
          <==> && receiver.revision < m.revision
               && (HasDeltaFrom(m, receiver.revision) ==>
                     AgreeOutside(receiver.cells, history[|history| - 2].cells, entries)))
  {
    hide Decode;
    hide EncodeFull;
    hide EncodeDelta;
    hide Applied;
    hide Run;
    hide History;
    HistoryTracksLayer(events, id);
    var m, history := Run(map[], events)[id], History(events, id);
    entries := [];
    if HasDeltaFrom(m, receiver.revision) {
      var base := history[|history| - 2];
      entries :| LeadsFrom(m, id, base, entries);
      BaseOfDelta(id, m.revision, base.revision, entries);
      DeltaRoundTrip(id, m.revision, base.revision, entries, Some(receiver));
      AppliedAgree(receiver.cells, base.cells, entries);
    } else if receiver.revision < m.revision {
      FullRoundTrip(id, m.revision, m.cells, Some(receiver));
    } else {
      FullIsStaleUnlessNewer(id, m.revision, m.cells, Some(receiver));
    }
  }

  lemma BaseOfDelta(id: SectionId, revision: U64, base: U64, entries: seq<DeltaEntry>)
    ensures EncodeDelta(id, revision, base, entries).baseRevision == Some(base)
  {
  }

  /**
   A receiver that holds what the layer published at any earlier revision, and decodes the answer the
   layer now gives for that revision, ends with exactly the layer's cells and revision.
   */
  lemma DispatchConverges(events: seq<Event>, id: SectionId, i: nat)
    requires var history := History(events, id);
      && Increasing(history) && i < |history|
      && id in Run(map[], events) && history[i].revision < Run(map[], events)[id].revision
    ensures var layer, receiver := Run(map[], events), History(events, id)[i];
      var answer := DispatchSection(layer, id, ReadyAt(receiver.revision));
      && answer.Ready?
      && Decode(answer.envelope, Some(receiver)) == Ok(Decoded(id, layer[id].revision, layer[id].cells))
  {
    hide Decode;
    hide EncodeFull;
    hide EncodeDelta;
    hide Applied;
    hide Run;
    hide History;
    var m, history := Run(map[], events)[id], History(events, id);
    var entries := ConvergenceIsExact(events, id, history[i]);
    if HasDeltaFrom(m, history[i].revision) {
      var base := history[|history| - 2];
      BaseOfDelta(id, m.revision, base.revision, entries);
      assert i == |history| - 2;
    }
  }

  /** A receiver that is not behind the layer is answered with a full envelope it refuses as stale. */
  lemma CurrentReceiverIsRefused(events: seq<Event>, id: SectionId, receiver: Held)
    requires id in Run(map[], events) && receiver.revision >= Run(map[], events)[id].revision
    ensures var answer := DispatchSection(Run(map[], events), id, ReadyAt(receiver.revision));
      answer.Ready? && Decode(answer.envelope, Some(receiver)) == Err(StaleSectionRevision)
  {
    hide Decode;
    hide EncodeFull;
    hide EncodeDelta;
    hide Applied;
    hide Run;
    hide History;
    HistoryTracksLayer(events, id);
    var m, history := Run(map[], events)[id], History(events, id);
    FullIsStaleUnlessNewer(id, m.revision, m.cells, Some(receiver));
    if HasDeltaFrom(m, receiver.revision) {
      var base := history[|history| - 2];
      var entries :| LeadsFrom(m, id, base, entries);
      BaseOfDelta(id, m.revision, base.revision, entries);
      assert false;
    }
  }

  /**
   A revision set twice, then a delta that writes nothing: a receiver of the first setting ends with its own
   cells, not with the layer's.
   */
  lemma RepeatedRevisionDiverges(id: SectionId, a: Cells, b: Cells)
    requires a != b
    ensures var layer := Step(Step(Step(map[], SetReady(id, 1, a)), SetReady(id, 1, b)), RecordDelta(id, 2, []));
      var answer := DispatchSection(layer, id, ReadyAt(1));
      && id in layer && layer[id].cells == b
      && answer.Ready? && Decode(answer.envelope, Some(Held(a, 1))) == Ok(Decoded(id, 2, a))
  {
    hide Decode;
    hide EncodeDelta;
    hide Recorded;
    var before := Step(Step(map[], SetReady(id, 1, a)), SetReady(id, 1, b));
    RecordDeltaIsExact(before, id, 2, []);
    DeltaRoundTrip(id, 2, 1, [], Some(Held(a, 1)));
    BaseOfDelta(id, 2, 1, []);
  }

  /** A receiver without the section, or asking for a resync, is always answered with the full cells. */
  lemma FirstDeliveryConverges(events: seq<Event>, id: SectionId, delivery: Delivery)
    requires delivery.FirstDelivery? || delivery.Resync?
    ensures var layer := Run(map[], events);
      var answer := DispatchSection(layer, id, delivery);
      if id in layer
      then answer.Ready? && Decode(answer.envelope, None) == Ok(Decoded(id, layer[id].revision, layer[id].cells))
      else answer == Unchanged
  {
    hide Decode;
    var layer := Run(map[], events);
    if id in layer {
      FullRoundTrip(id, layer[id].revision, layer[id].cells, None);
    }
  }

  // ---- the answer, for every delivery state

  predicate SetsReady(event: Event, id: SectionId) {
    event.SetReady? && event.id == id
  }

  predicate Drops(event: Event, id: SectionId) {
    event.MarkUnchanged? && event.id == id
  }

  /** The section was set at some point and not dropped since. */
  predicate HeldAfter(events: seq<Event>, id: SectionId) {
    exists i :: 0 <= i < |events| && SetsReady(events[i], id)
                && forall j :: i < j < |events| ==> !Drops(events[j], id)
  }

  lemma HeldStep(init: seq<Event>, last: Event, id: SectionId)
    ensures HeldAfter(init + [last], id) <==> SetsReady(last, id) || (HeldAfter(init, id) && !Drops(last, id))
  {
    var events := init + [last];
    assert events[|init|] == last && forall i :: 0 <= i < |init| ==> events[i] == init[i];
    if HeldAfter(events, id) && !SetsReady(last, id) {
      var i :| 0 <= i < |events| && SetsReady(events[i], id) && forall j :: i < j < |events| ==> !Drops(events[j], id);
      assert SetsReady(init[i], id);
      assert forall j :: i < j < |init| ==> !Drops(init[j], id) by {
        assert forall j :: i < j < |init| ==> !Drops(events[j], id);
      }
      assert !Drops(events[|init|], id);
    }
    if HeldAfter(init, id) && !Drops(last, id) {
      var i :| 0 <= i < |init| && SetsReady(init[i], id) && forall j :: i < j < |init| ==> !Drops(init[j], id);
      assert SetsReady(events[i], id);
    }
    if SetsReady(last, id) {
      assert SetsReady(events[|init|], id);
    }
  }

  /** The layer holds a section from a setting on until it is marked unchanged; deltas change nothing about that. */
  lemma {:induction false} LayerHoldsExactly(events: seq<Event>, id: SectionId)
    ensures id in Run(map[], events) <==> HeldAfter(events, id)
  {
    hide HeldAfter;
    hide Recorded;
    if events == [] {
      assert !HeldAfter([], id) by { NeverHeld(id); }
    } else {
      var init, last := events[..|events| - 1], events[|events| - 1];
      assert events == init + [last];
      LayerHoldsExactly(init, id);
      HeldStep(init, last, id);
      if last.RecordDelta? && last.id == id && id !in Run(map[], init) {
        RecordDeltaIsExact(Run(map[], init), id, last.revision, last.entries);
      }
    }
  }

  lemma NeverHeld(id: SectionId)
    ensures !HeldAfter([], id)
  {
  }

  /**
   The answer to every delivery state, over every run: a pending or unavailable delivery is answered in kind whatever
   the layer holds, a section it does not hold is unchanged, and any other is Ready at the layer's revision, with a
   delta exactly for a receiver at the delta's base.
   */
  lemma DispatchIsExact(events: seq<Event>, id: SectionId, delivery: Delivery)
    ensures var layer := Run(map[], events);
      var answer := DispatchSection(layer, id, delivery);
      && (answer.Pending? <==> delivery.PendingDelivery?)
      && (answer.Unavailable? <==> delivery.UnavailableDelivery?)
      && (answer.Unchanged? <==>
            !delivery.PendingDelivery? && !delivery.UnavailableDelivery? && !HeldAfter(events, id))
      && (answer.Ready? ==>
            && id in layer
            && answer.envelope.sectionKey == SectionKey(id)
            && answer.envelope.sectionRevision == layer[id].revision
            && (answer.envelope.encoding == DeltaEncoding
                <==> delivery.ReadyAt? && HasDeltaFrom(layer[id], delivery.revision)))
  {
    hide SectionKey;
    hide HeldAfter;
    hide OptimalState;
    hide StatePayload;
    hide DeltaBytes;
    hide Applied;
    LayerHoldsExactly(events, id);
    HistoryTracksLayer(events, id);
    hide Run;
    hide History;
    var layer := Run(map[], events);
    if id in layer {
      NeverDelta(layer[id].cells);
    }
  }

  // ---- the layer object

  datatype SectionModification = SectionModification(
    revision: U64, storage: StorageState, latestDelta: Option<Envelope>)

  class RoomModificationLayer {
    var sections: map<SectionId, SectionModification>

    ghost predicate Valid()
      reads this
    {
      forall id :: id in sections ==> ValidState(sections[id].storage)
    }

    ghost function View(): Layer
      requires Valid()
      reads this
    {
      map id | id in sections ::
        Modification(sections[id].revision, Content(sections[id].storage), sections[id].latestDelta)
    }

    constructor ()
      ensures Valid() && View() == map[]
    {
      sections := map[];
    }

    method SetReady(id: SectionId, revision: U64, storage: StorageState)
      requires Valid() && ValidState(storage)
      modifies this
      ensures Valid() && View() == Step(old(View()), Event.SetReady(id, revision, Content(storage)))
    {
      sections := sections[id := SectionModification(revision, storage, None)];
    }

    method RecordDelta(id: SectionId, revision: U64, entries: seq<DeltaEntry>) returns (r: Outcome<SectionError>)
      requires Valid()
      modifies this
      ensures Valid() && View() == Step(old(View()), Event.RecordDelta(id, revision, entries))
      ensures match Recorded(old(View()), id, revision, entries)
        case Ok(_) => r == Pass
        case Err(e) => r == Fail(e) && sections == old(sections)
    {
      hide Decode;
      hide SortedByOffset;
      hide Content;
      hide ValidState;
      if id !in sections {
        return Fail(SectionUnavailable);
      }
      var m := sections[id];
      var envelope := EncodeDelta(id, revision, m.revision, SortedByOffset(entries));
      var decoded := DecodeEnvelope(envelope, Some((m.storage, m.revision)));
      if decoded.Err? {
        return Fail(decoded.error);
      }
      sections := sections[id := SectionModification(decoded.value.revision, decoded.value.content, Some(envelope))];
      assert View() == Step(old(View()), Event.RecordDelta(id, revision, entries));
      r := Pass;
    }

    method MarkUnchanged(id: SectionId)
      requires Valid()
      modifies this
      ensures Valid() && View() == Step(old(View()), Event.MarkUnchanged(id))
    {
      sections := sections - {id};
    }

    method Dispatch(id: SectionId, delivery: Delivery) returns (answer: Dispatch)
      requires Valid()
      ensures answer == DispatchSection(View(), id, delivery)
    {
      hide OptimalState;
      if delivery.PendingDelivery? {
        return Pending;
      }
      if delivery.UnavailableDelivery? {
        return Unavailable;
      }
      if id !in sections {
        return Unchanged;
      }
      var m := sections[id];
      assert View()[id].latestDelta == m.latestDelta;
      if delivery.ReadyAt? && m.latestDelta.Some? && m.latestDelta.value.baseRevision == Some(delivery.revision) {
        return Ready(m.latestDelta.value);
      }
      var storage := new SectionStorage.Clone(m.storage);
      var compacted := storage.Compacted();
      var payload := EncodedPayload(storage);
      answer := Ready(Outgoing(id, m.revision, EncodingOf(compacted), None, payload));
    }
  }
}
