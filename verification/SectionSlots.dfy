/** The four presence states of a section slot and the conversions between them. */
module SectionSlots {
  import opened Wrappers
  import opened Protocol
  import opened PublicationLog

  datatype Presence = IsReady | IsUnchanged | IsPending | IsUnavailable

  function PresenceOf(slot: SectionSlot): Presence {
    match slot
    case Ready(_) => IsReady
    case Unchanged => IsUnchanged
    case Pending => IsPending
    case Unavailable => IsUnavailable
  }

  function TryConvert(slot: SectionSlot, to: Presence, payload: Option<SectionPayload>)
    : Result<SectionSlot, ProtocolError>
  {
    var start := PresenceOf(slot);
    if start == to then
      if to.IsReady? then Ok(if payload.Some? then Ready(payload.value) else slot)
      else if payload.None? then Ok(slot) else Err(InvalidHandle)
    else if to.IsReady? && payload.None? then Err(SectionUnavailable)
    else if start.IsUnchanged? && to.IsPending? && payload.None? then Ok(Pending)
    else if start.IsPending? && to.IsReady? then Ok(Ready(payload.value))
    else if start.IsPending? && to.IsUnavailable? && payload.None? then Ok(Unavailable)
    else if start.IsPending? && to.IsUnchanged? && payload.None? then Ok(Unchanged)
    else if start.IsReady? && to.IsUnchanged? && payload.None? then Ok(Unchanged)
    else if start.IsUnavailable? && to.IsPending? && payload.None? then Ok(Pending)
    else if start.IsUnavailable? && to.IsUnchanged? && payload.None? then Ok(Unchanged)
    else if to.IsReady? then Err(SectionUnavailable)
    else Err(InvalidHandle)
  }

  datatype Conversion = Conversion(to: Presence, payload: Option<SectionPayload>)

  /** The slots a run of conversions passes through; a refused one changes nothing. */
  function History(slot: SectionSlot, steps: seq<Conversion>): (slots: seq<SectionSlot>)
    ensures |slots| == |steps| + 1
  {
    if steps == [] then [slot] else
    var before := History(slot, steps[..|steps| - 1]);
    var last := steps[|steps| - 1];
    var next := TryConvert(before[|before| - 1], last.to, last.payload);
    before + [if next.Ok? then next.value else before[|before| - 1]]
  }

  predicate SomePending(slots: seq<SectionSlot>) {
    exists i :: 0 <= i < |slots| && slots[i].Pending?
  }

  /** A section that starts out absent becomes Ready only by way of Pending, whatever is attempted. */
  lemma {:induction false} ReadyOnlyThroughPending(slot: SectionSlot, steps: seq<Conversion>)
    requires slot.Unchanged? || slot.Unavailable?
    ensures var slots := History(slot, steps);
      slots[|slots| - 1].Ready? || slots[|slots| - 1].Pending? ==> SomePending(slots)
  {
    if steps != [] {
      var before := History(slot, steps[..|steps| - 1]);
      var slots := History(slot, steps);
      ReadyOnlyThroughPending(slot, steps[..|steps| - 1]);
      if SomePending(before) {
        var i :| 0 <= i < |before| && before[i].Pending?;
        assert slots[i].Pending?;
      }
      if slots[|slots| - 1].Pending? {
        assert SomePending(slots);
      }
    }
  }

  /**
   Exactly which conversions succeed: Ready is entered from Pending with a payload or renewed in place; without a
   payload Unchanged is reached from anywhere, Pending from an absent section, Unavailable from Pending, and every
   state from itself. The result has the presence asked for and the payload given; a section that cannot become Ready is
   unavailable, any other refusal an invalid handle.
   */
  lemma ConversionIsExact(slot: SectionSlot, to: Presence, payload: Option<SectionPayload>)
    ensures TryConvert(slot, to, payload).Ok? <==>
      if to.IsReady? then slot.Ready? || (slot.Pending? && payload.Some?)
      else
        && payload.None?
        && (to == PresenceOf(slot) || to.IsUnchanged?
            || (to.IsPending? && (slot.Unchanged? || slot.Unavailable?)) || (to.IsUnavailable? && slot.Pending?))
    ensures TryConvert(slot, to, payload).Err? ==>
      TryConvert(slot, to, payload).error == if to.IsReady? then SectionUnavailable else InvalidHandle
    ensures TryConvert(slot, to, payload).Ok? ==> PresenceOf(TryConvert(slot, to, payload).value) == to
    ensures TryConvert(slot, to, payload).Ok? && to.IsReady? ==>
      TryConvert(slot, to, payload).value == if payload.Some? then Ready(payload.value) else slot
  {
  }

  /** Every published event converts each slot in a way the slot itself allows. */
  lemma EventsConvertLegally(e: Event, id: string)
    requires Legal(e) && id in e.before.directory
    ensures id in e.after.directory
    ensures var before, after := e.before.directory[id], e.after.directory[id];
      TryConvert(before, PresenceOf(after), if after.Ready? then Some(after.payload) else None) == Ok(after)
  {
    SlotAfterEvent(e, id);
    if e.kind.Published? {
      UnnamedHasNoEdits(e.kind.request.entries, id);
    }
    if e.kind == Unloaded(id) {
      UnloadsReady(e, id);
    }
    hide Legal;
    hide Replay;
    hide EditsOf;
  }
}
