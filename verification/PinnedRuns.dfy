/**
 Runs of a world whose region pins are attached: the pin policy guards every unload, so a section whose pin
 is Ready on the world's own cut stays Ready until the pin is released.
 */
module PinnedRuns {
  import opened Wrappers
  import opened Keys
  import opened Protocol
  import opened PublicationLog
  import opened Runs
  import opened Durability
  import Pins = RegionPins

  datatype World = World(session: Session, pins: Option<Pins.Manager>)

  /** An attached manager is whatever a manager's own methods have made of a fresh one. */
  datatype WorldAction =
    | OfSession(action: Action)
    | AttachPins(budget: Pins.PinBudget, events: seq<Pins.PinEvent>)
    | DeclarePin(ids: seq<string>, requested: Pins.PinBudget)
    | MarkReady(pin: U64)
    | MarkReadyFromWorld(pin: U64)
    | ReleasePin(pin: U64)

  function Attached(budget: Pins.PinBudget, events: seq<Pins.PinEvent>): Pins.Manager {
    Pins.PinRun(Pins.Manager(budget, 1, map[]), events)
  }

  /** An attached policy is authoritative over the hook the caller passes. */
  function Guarded(w: World, action: Action): Action {
    if action.UnloadSection? && w.pins.Some?
    then action.(exempt := action.exempt && !Pins.IsPinned(w.pins.value, action.id))
    else action
  }

  function WorldStep(w: World, a: WorldAction): World {
    if a.OfSession? then w.(session := Step(w.session, Guarded(w, a.action)))
    else if a.AttachPins? then w.(pins := Some(Attached(a.budget, a.events)))
    else if w.pins.None? then w
    else
      var m := w.pins.value;
      match a
      case DeclarePin(ids, requested) => w.(pins := Some(Pins.Declare(m, ids, requested).0))
      case MarkReady(pin) =>
        var r := Pins.MarkReady(m, pin);
        if r.Ok? then w.(pins := Some(r.value)) else w
      case MarkReadyFromWorld(pin) =>
        var r := Pins.MarkReady(m, pin);
        if r.Ok? && AllReady(m.pins[pin].sections, w.session.authority.root.directory)
        then w.(pins := Some(r.value)) else w
      case ReleasePin(pin) =>
        var r := Pins.Release(m, pin);
        if r.Ok? then w.(pins := Some(r.value)) else w
  }

  function WorldRun(w: World, actions: seq<WorldAction>): World {
    if actions == [] then w else WorldStep(WorldRun(w, actions[..|actions| - 1]), actions[|actions| - 1])
  }

  /** The pin is attached and Ready, and so is each of its sections in the live root. */
  predicate Holds(w: World, pin: U64, sections: set<string>) {
    && w.pins.Some? && pin in w.pins.value.pins
    && w.pins.value.pins[pin] == Pins.RegionPin(sections, Pins.ReadyPin)
    && AllReady(sections, w.session.authority.root.directory)
  }

  predicate ManagerOk(m: Pins.Manager) {
    Pins.WithinBudget(m) && Pins.PinsSectionKeys(m)
  }

  lemma PinStepKeeps(m: Pins.Manager, e: Pins.PinEvent)
    requires ManagerOk(m)
    ensures ManagerOk(Pins.PinStep(m, e))
  {
    hide Pins.WithinBudget;
    hide Pins.PinsSectionKeys;
    hide Pins.PinStep;
    Pins.StepKeepsBudget(m, e);
    Pins.StepPinsSectionKeys(m, e);
  }

  predicate WorldSound(first: Root, w: World) {
    Sound(first, w.session) && (w.pins.Some? ==> ManagerOk(w.pins.value))
  }

  lemma EventKeepsReady(e: Event, id: string)
    requires Legal(e) && id in e.before.directory && e.before.directory[id].Ready?
    requires e.kind != Unloaded(id)
    ensures id in e.after.directory && e.after.directory[id].Ready?
  {
    SlotAfterEvent(e, id);
    hide Legal;
    if e.kind.Published? {
      UnnamedHasNoEdits(e.kind.request.entries, id);
    }
  }

  /** A session step replaces the root by one legal event or not at all; an unload needs the exemption. */
  lemma StepIsEvent(first: Root, s: Session, a: Action) returns (e: Option<Event>)
    requires Sound(first, s)
    ensures e.None? ==> Step(s, a).authority.root == s.authority.root
    ensures e.Some? ==>
      && Legal(e.value) && e.value.before == s.authority.root && e.value.after == Step(s, a).authority.root
      && (e.value.kind.Unloaded? ==> a.UnloadSection? && a.exempt && e.value.kind.id == a.id)
  {
    hide Commit;
    hide ApplyAck;
    hide Unload;
    hide Prepare;
    hide Abort;
    hide AbortInFlight;
    hide Lookup;
    hide Bounds;
    hide IsPublish;
    hide IsUnload;
    hide IsAcknowledgement;
    hide Completed;
    hide LedgerOk;
    hide TokenOk;
    hide Leads;
    e := None;
    var before, after := s.authority.root, Step(s, a).authority.root;
    if a.CommitToken? && a.token in s.tokens {
      if && Commit(a.token, s.authority, s.ledger, a.pinFree).result.Ok?
         && Lookup(s.ledger, a.token.request) == Ok(InFlight) {
        CommitPublishes(a.token, s.authority, s.ledger, a.pinFree);
        e := Some(Event(Published(a.token.request), before, after));
      } else {
        CommitRefusedOrReplayed(a.token, s.authority, s.ledger, a.pinFree);
      }
    } else if a.Acknowledge? {
      AckIsAcknowledgement(s.authority, a.ack, a.pinFree);
      var result := ApplyAck(s.authority, a.ack, a.pinFree).1;
      if result.Ok? && result.value > 0 {
        e := Some(Event(Acknowledged(Bounds(a.ack.sections).value), before, after));
      }
    } else if a.UnloadSection? {
      UnloadIsUnload(s.authority, a.id, a.exempt, a.pinFree);
      if Unload(s.authority, a.id, a.exempt, a.pinFree).1 == Ok(true) {
        e := Some(Event(Unloaded(a.id), before, after));
      }
    }
  }

  lemma SessionStepKeepsHold(first: Root, w: World, action: Action, pin: U64, sections: set<string>)
    requires Sound(first, w.session) && Holds(w, pin, sections)
    ensures Holds(WorldStep(w, OfSession(action)), pin, sections)
  {
    var guarded := Guarded(w, action);
    var e := StepIsEvent(first, w.session, guarded);
    hide Step;
    hide Sound;
    hide Legal;
    if e.Some? {
      var m := w.pins.value;
      forall id | id in sections ensures id in e.value.after.directory && e.value.after.directory[id].Ready? {
        assert Pins.IsPinned(m, id);
        EventKeepsReady(e.value, id);
      }
    }
  }

  /** No step but releasing the pin or attaching another manager ends what a ready pin holds. */
  lemma StepKeepsHold(first: Root, w: World, a: WorldAction, pin: U64, sections: set<string>)
    requires WorldSound(first, w) && Holds(w, pin, sections)
    requires a != ReleasePin(pin) && !a.AttachPins?
    ensures Holds(WorldStep(w, a), pin, sections)
  {
    hide Step;
    hide Sound;
    if a.OfSession? {
      hide ManagerOk;
      SessionStepKeepsHold(first, w, a.action, pin, sections);
    } else {
      hide AllReady;
      hide Pins.Admit;
      hide Pins.ActiveSections;
      hide Pins.PinsSectionKeys;
    }
  }

  lemma WorldStepKeeps(first: Root, w: World, a: WorldAction)
    requires WorldSound(first, w)
    ensures WorldSound(first, WorldStep(w, a))
  {
    hide Step;
    hide Sound;
    hide AllReady;
    hide Pins.WithinBudget;
    hide Pins.PinsSectionKeys;
    if a.OfSession? {
      StepKeeps(first, w.session, Guarded(w, a.action));
    } else if a.AttachPins? {
      Pins.BudgetHoldsOverRuns(a.budget, a.events);
      Pins.RunPinsSectionKeys(a.budget, a.events);
    } else if w.pins.Some? {
      var m := w.pins.value;
      match a {
        case DeclarePin(ids, requested) =>
          PinStepKeeps(m, Pins.DeclareEvent(ids, requested));
        case MarkReady(pin) =>
          PinStepKeeps(m, Pins.ReadyEvent(pin));
        case MarkReadyFromWorld(pin) =>
          PinStepKeeps(m, Pins.ReadyEvent(pin));
        case ReleasePin(pin) =>
          PinStepKeeps(m, Pins.ReleaseEvent(pin));
        case OfSession(_) =>
        case AttachPins(_, _) =>
      }
    }
  }

  lemma {:induction false} WorldRunKeeps(first: Root, w: World, actions: seq<WorldAction>)
    requires WorldSound(first, w)
    ensures WorldSound(first, WorldRun(w, actions))
  {
    hide WorldSound;
    hide WorldStep;
    if actions != [] {
      WorldRunKeeps(first, w, actions[..|actions| - 1]);
      WorldStepKeeps(first, WorldRun(w, actions[..|actions| - 1]), actions[|actions| - 1]);
    }
  }

  /**
   Marking a pin from the world succeeds exactly when it is declared and not ready and all its sections are Ready in
   the live cut, and then it holds them.
   */
  lemma MarkedFromWorldHolds(w: World, pin: U64)
    requires w.pins.Some? && pin in w.pins.value.pins
    requires w.pins.value.pins[pin].readiness == Pins.NotReady
    ensures var sections := w.pins.value.pins[pin].sections;
      Holds(WorldStep(w, MarkReadyFromWorld(pin)), pin, sections)
      <==> AllReady(sections, w.session.authority.root.directory)
  {
    hide AllReady;
  }

  predicate LeavesAlone(actions: seq<WorldAction>, pin: U64) {
    forall i :: 0 <= i < |actions| ==> actions[i] != ReleasePin(pin) && !actions[i].AttachPins?
  }

  lemma {:induction false} RunKeepsHold(first: Root, w: World, actions: seq<WorldAction>, pin: U64,
                                        sections: set<string>)
    requires WorldSound(first, w) && Holds(w, pin, sections) && LeavesAlone(actions, pin)
    ensures Holds(WorldRun(w, actions), pin, sections)
  {
    hide WorldSound;
    hide WorldStep;
    hide Holds;
    if actions != [] {
      var init := actions[..|actions| - 1];
      assert forall i :: 0 <= i < |init| ==> init[i] == actions[i];
      RunKeepsHold(first, w, init, pin, sections);
      WorldRunKeeps(first, w, init);
      StepKeepsHold(first, WorldRun(w, init), actions[|actions| - 1], pin, sections);
    }
  }

  lemma {:induction false} WorldRunsCompose(w: World, a: seq<WorldAction>, b: seq<WorldAction>)
    ensures WorldRun(w, a + b) == WorldRun(WorldRun(w, a), b)
    decreases |b|
  {
    hide WorldStep;
    if b == [] {
      assert a + b == a;
    } else {
      assert (a + b)[..|a + b| - 1] == a + b[..|b| - 1];
      WorldRunsCompose(w, a, b[..|b| - 1]);
    }
  }

  /**
   Pinned sections stay readable: once a pin is attached and Ready with all its sections Ready in the live cut, no
   commit, acknowledgement, unload or other action but its release or another attachment makes one of them anything
   but Ready, so the read gate admits what is observed there.
   */
  lemma PinnedSectionsStayReady(start: Session, a: seq<WorldAction>, b: seq<WorldAction>, pin: U64, id: string)
    requires IsClean(start)
    requires var w := WorldRun(World(start, None), a);
      && w.pins.Some? && pin in w.pins.value.pins && id in w.pins.value.pins[pin].sections
      && Holds(w, pin, w.pins.value.pins[pin].sections)
    requires LeavesAlone(b, pin)
    ensures var w := WorldRun(World(start, None), a + b);
      var directory := w.session.authority.root.directory;
      && id in directory && directory[id].Ready?
      && w.pins.Some? && pin in w.pins.value.pins && id in w.pins.value.pins[pin].sections
      && w.pins.value.pins[pin].readiness == Pins.ReadyPin
      && Pins.ValidatePresence(w.pins.value, id, directory[id].Ready?) == Pass
  {
    CleanIsSound(start);
    var w := WorldRun(World(start, None), a);
    var sections := w.pins.value.pins[pin].sections;
    WorldRunKeeps(start.authority.root, World(start, None), a);
    RunKeepsHold(start.authority.root, w, b, pin, sections);
    WorldRunsCompose(World(start, None), a, b);
    WorldRunKeeps(start.authority.root, w, b);
    hide WorldRun;
    hide Sound;
    hide ParseSection;
  }

  // ---- when an unload goes through

  lemma {:induction false} WorldRunKeepsOwner(w: World, actions: seq<WorldAction>)
    ensures var after := WorldRun(w, actions).session.authority;
      && after.worldId == w.session.authority.worldId && after.contextId == w.session.authority.contextId
      && after.generation == w.session.authority.generation
  {
    hide Step;
    if actions != [] {
      var init, a := actions[..|actions| - 1], actions[|actions| - 1];
      WorldRunKeepsOwner(w, init);
      if a.OfSession? {
        StepKeepsOwner(WorldRun(w, init).session, Guarded(WorldRun(w, init), a.action));
      }
    }
  }

  predicate IsFreeOfPins(w: World, id: string) {
    w.pins.Some? ==> !Pins.IsPinned(w.pins.value, id)
  }

  lemma UnloadsExactly(first: Root, w: World, id: string, exempt: bool, pinFree: bool)
    requires Sound(first, w.session) && first.dirty.entries == map[] && IsSectionKey(id)
    requires CheckStamp(w.session.authority, w.session.authority.root.stamp) == Pass
    ensures var authority := w.session.authority;
      var outcome := Unload(authority, id, Guarded(w, UnloadSection(id, exempt, pinFree)).exempt, pinFree).1;
      && (outcome == Ok(true) <==>
            && id in authority.root.directory && authority.root.directory[id].Ready?
            && !HasOutstanding(w.session.log, id)
            && exempt && IsFreeOfPins(w, id) && pinFree && authority.nextTokenId + 1 < U64_LIMIT)
      && ((&& id in authority.root.directory && authority.root.directory[id].Ready?
           && !HasOutstanding(w.session.log, id) && !IsFreeOfPins(w, id))
          ==> outcome == Err(PinnedSectionEvicted))
  {
    NoEditIsLost(w.session.log, first, w.session.authority.root, id);
    hide Leads;
    hide LedgerOk;
    hide TokenOk;
    hide Completed;
    hide Receipts;
    hide ParseSection;
    hide Replay;
    hide PublishedEdits;
    hide IsFreeOfPins;
    assert Guarded(w, UnloadSection(id, exempt, pinFree)).exempt == (exempt && IsFreeOfPins(w, id)) by {
      GuardIsPolicy(w, id, exempt, pinFree);
    }
    hide Guarded;
    assert IsSectionKey(id) && ParseSection(id).Ok?;
  }

  lemma GuardIsPolicy(w: World, id: string, exempt: bool, pinFree: bool)
    ensures Guarded(w, UnloadSection(id, exempt, pinFree)).exempt == (exempt && IsFreeOfPins(w, id))
  {
  }

  /**
   Over any run of a world, an unload of a canonical key goes through exactly when the section is Ready, none of its
   published edits is outstanding, the caller exempts it, no unreleased pin covers it, whether that pin is ready or
   not, and a token id and a revision pin are left. A clean Ready section under a pin is refused by name.
   */
  lemma PinsGuardUnloads(start: Session, actions: seq<WorldAction>, id: string, exempt: bool, pinFree: bool)
    requires IsClean(start) && IsSectionKey(id)
    requires CheckStamp(start.authority, start.authority.root.stamp) == Pass
    ensures var w := WorldRun(World(start, None), actions);
      var authority := w.session.authority;
      var outcome := Unload(authority, id, Guarded(w, UnloadSection(id, exempt, pinFree)).exempt, pinFree).1;
      && (outcome == Ok(true) <==>
            && id in authority.root.directory && authority.root.directory[id].Ready?
            && !HasOutstanding(w.session.log, id)
            && exempt && IsFreeOfPins(w, id) && pinFree && authority.nextTokenId + 1 < U64_LIMIT)
      && ((&& id in authority.root.directory && authority.root.directory[id].Ready?
           && !HasOutstanding(w.session.log, id) && !IsFreeOfPins(w, id))
          ==> outcome == Err(PinnedSectionEvicted))
  {
    var w := WorldRun(World(start, None), actions);
    OwnStampInWorld(start, actions);
    hide WorldRun;
    hide Sound;
    hide ParseSection;
    UnloadsExactly(start.authority.root, w, id, exempt, pinFree);
  }

  lemma OwnStampInWorld(start: Session, actions: seq<WorldAction>)
    requires IsClean(start) && CheckStamp(start.authority, start.authority.root.stamp) == Pass
    ensures var w := WorldRun(World(start, None), actions);
      && WorldSound(start.authority.root, w)
      && CheckStamp(w.session.authority, w.session.authority.root.stamp) == Pass
  {
    CleanIsSound(start);
    WorldRunKeeps(start.authority.root, World(start, None), actions);
    WorldRunKeepsOwner(World(start, None), actions);
    var w := WorldRun(World(start, None), actions);
    WorldRevisionCountsPublications(w.session.log, start.authority.root, w.session.authority.root);
  }

  /** A section covered by a declared pin, ready or not yet, is not free to leave. */
  lemma DeclaredPinHolds(w: World, pin: U64, id: string)
    requires w.pins.Some? && pin in w.pins.value.pins && id in w.pins.value.pins[pin].sections
    requires w.pins.value.pins[pin].readiness == Pins.NotReady || w.pins.value.pins[pin].readiness == Pins.ReadyPin
    ensures !IsFreeOfPins(w, id)
  {
    assert Pins.IsPinned(w.pins.value, id);
  }

  lemma ReleaseFrees(w: World, pin: U64, id: string)
    requires w.pins.Some? && Pins.Release(w.pins.value, pin).Ok? && id in w.pins.value.pins[pin].sections
    requires !Pins.PinnedByOther(w.pins.value, pin, id)
    ensures var released := WorldStep(w, ReleasePin(pin));
      released.session == w.session && IsFreeOfPins(released, id) && !IsFreeOfPins(w, id)
  {
    var m := w.pins.value;
    Pins.ReleaseIsExact(m, pin, id);
    hide Step;
    assert Pins.IsPinned(m, id);
  }

  /**
   Over any run of a world, a clean Ready section that one last pin covers is kept by that pin and can leave as soon
   as the pin is released.
   */
  lemma LastReleaseFreesTheSection(start: Session, actions: seq<WorldAction>, pin: U64, id: string)
    requires IsClean(start) && IsSectionKey(id)
    requires CheckStamp(start.authority, start.authority.root.stamp) == Pass
    requires var w := WorldRun(World(start, None), actions);
      && w.pins.Some? && Pins.Release(w.pins.value, pin).Ok? && id in w.pins.value.pins[pin].sections
      && !Pins.PinnedByOther(w.pins.value, pin, id)
      && id in w.session.authority.root.directory && w.session.authority.root.directory[id].Ready?
      && !HasOutstanding(w.session.log, id) && w.session.authority.nextTokenId + 1 < U64_LIMIT
    ensures var w := WorldRun(World(start, None), actions);
      var unload := OfSession(UnloadSection(id, true, true));
      var released := WorldStep(w, ReleasePin(pin));
      && WorldStep(w, unload) == w
      && released.session == w.session
      && WorldStep(released, unload).session.authority.root.directory
         == w.session.authority.root.directory[id := Unchanged]
  {
    var w := WorldRun(World(start, None), actions);
    OwnStampInWorld(start, actions);
    ReleaseFrees(w, pin, id);
    var released := WorldStep(w, ReleasePin(pin));
    hide WorldRun;
    hide ParseSection;
    hide IsFreeOfPins;
    hide WorldStep;
    hide Guarded;
    hide Pins.Release;
    hide Sound;
    UnloadsExactly(start.authority.root, w, id, true, true);
    UnloadsExactly(start.authority.root, released, id, true, true);
    UnloadIsUnload(released.session.authority, id, true, true);
    hide Leads;
    hide HasOutstanding;
    hide ManagerOk;
    hide Pins.PinnedByOther;
    hide Pins.ActiveSections;
    UnloadStepRoot(w, id);
    UnloadStepRoot(released, id);
  }

  /** What a guarded unload does to the world. */
  lemma UnloadStepRoot(w: World, id: string)
    ensures var exempt := Guarded(w, UnloadSection(id, true, true)).exempt;
      var (after, result) := Unload(w.session.authority, id, exempt, true);
      && (result == Ok(true) ==> WorldStep(w, OfSession(UnloadSection(id, true, true))).session.authority == after)
      && (result == Err(PinnedSectionEvicted) ==> WorldStep(w, OfSession(UnloadSection(id, true, true))) == w)
  {
    hide ParseSection;
  }
}
