/** Revision pins: slots counted by the handles that name them, over every run of a publication. */
module RevisionPins {
  import opened Collections
  import opened Wrappers
  import opened Protocol

  datatype PinFailure = InvalidPin | PinBudgetExceeded | HandleDoubleRelease

  datatype LivePin = LivePin(stamp: RevisionStamp, refs: nat)

  datatype Registry = Registry(
    contextId: string, generation: U64, maxPins: nat, destroyed: bool, nextId: U64, slots: map<U64, LivePin>)

  // ---- one registry operation

  function PinStamp(r: Registry, stamp: RevisionStamp): Result<(Registry, U64), PinFailure> {
    if r.destroyed then Err(InvalidPin)
    else if stamp.contextId != r.contextId || stamp.generation != r.generation then Err(InvalidPin)
    else if |r.slots| >= r.maxPins then Err(PinBudgetExceeded)
    else if r.nextId + 1 >= U64_LIMIT then Err(InvalidPin)
    else Ok((r.(nextId := r.nextId + 1, slots := r.slots[r.nextId := LivePin(stamp, 1)]), r.nextId))
  }

  /** A handle is cloned: its slot, if it has one, counts one more. */
  function CloneRef(r: Registry, id: U64): Registry {
    if id in r.slots then r.(slots := r.slots[id := r.slots[id].(refs := r.slots[id].refs + 1)]) else r
  }

  /** A handle is dropped: the last one takes its slot with it. */
  function DropRef(r: Registry, id: U64): Registry {
    if id !in r.slots then r
    else if r.slots[id].refs <= 1 then r.(slots := r.slots - {id})
    else r.(slots := r.slots[id := r.slots[id].(refs := r.slots[id].refs - 1)])
  }

  // ---- a publication and every handle alive

  /** `current` is the publication's own handle; `held` are the handles of views, tokens and other owners. */
  datatype Pinned = Pinned(registry: Registry, current: U64, live: RevisionStamp, held: multiset<U64>)

  function Handles(p: Pinned): multiset<U64> {
    p.held + multiset{p.current}
  }

  datatype PinAction =
    | SealAction(stamp: RevisionStamp)
    | CloneAction(id: U64)
    | DropAction(id: U64)
    | PublishAction(id: U64)
    | DestroyAction

  /** Sealing pins a stamp; publishing swaps the token's pin in, clones it for the view and retires the old one. */
  function Step(p: Pinned, a: PinAction): Pinned {
    match a
    case SealAction(stamp) =>
      var r := PinStamp(p.registry, stamp);
      if r.Ok? then p.(registry := r.value.0, held := p.held + multiset{r.value.1}) else p
    case CloneAction(id) =>
      if id in Handles(p) then p.(registry := CloneRef(p.registry, id), held := p.held + multiset{id}) else p
    case DropAction(id) =>
      if id in p.held then p.(registry := DropRef(p.registry, id), held := p.held - multiset{id}) else p
    case PublishAction(id) =>
      if id in p.held && id in p.registry.slots
      then Pinned(DropRef(CloneRef(p.registry, id), p.current), id, p.registry.slots[id].stamp, p.held)
      else p
    case DestroyAction => p.(registry := p.registry.(destroyed := true))
  }

  function Run(p: Pinned, actions: seq<PinAction>): Pinned {
    if actions == [] then p else Step(Run(p, actions[..|actions| - 1]), actions[|actions| - 1])
  }

  /** Slots and handles agree. */
  ghost predicate Counts(r: Registry, handles: multiset<U64>) {
    && (forall id :: id in r.slots <==> id in handles)
    && (forall id :: id in r.slots ==> r.slots[id].refs == handles[id])
    && (forall id :: id in r.slots ==> id < r.nextId)
    && |r.slots| <= r.maxPins
  }

  ghost predicate Accounted(p: Pinned) {
    && Counts(p.registry, Handles(p))
    && p.registry.slots[p.current].stamp == p.live
  }

  lemma PinCounts(r: Registry, handles: multiset<U64>, stamp: RevisionStamp)
    requires Counts(r, handles) && PinStamp(r, stamp).Ok?
    ensures Counts(PinStamp(r, stamp).value.0, handles + multiset{PinStamp(r, stamp).value.1})
  {
    assert r.nextId !in handles;
  }

  lemma CloneCounts(r: Registry, handles: multiset<U64>, id: U64)
    requires Counts(r, handles) && id in handles
    ensures Counts(CloneRef(r, id), handles + multiset{id})
  {
    assert CloneRef(r, id).slots.Keys == r.slots.Keys;
    assert |CloneRef(r, id).slots.Keys| == |r.slots.Keys|;
    assert |CloneRef(r, id).slots| == |r.slots|;
  }

  lemma OneLess(handles: multiset<U64>, id: U64, x: U64)
    requires id in handles
    ensures (handles - multiset{id})[x] == if x == id then handles[x] - 1 else handles[x]
  {
  }

  lemma DropCounts(r: Registry, handles: multiset<U64>, id: U64)
    requires Counts(r, handles) && id in handles
    ensures Counts(DropRef(r, id), handles - multiset{id})
  {
    var after, left := DropRef(r, id), handles - multiset{id};
    FewerKeys(after.slots, r.slots);
    assert r.slots[id].refs == handles[id];
    forall x ensures (x in after.slots <==> left[x] > 0) && (x in after.slots ==> after.slots[x].refs == left[x]) {
      OneLess(handles, id, x);
      assert x in r.slots ==> r.slots[x].refs == handles[x];
    }
  }

  lemma PinnedSlotsStay(r: Registry, handles: multiset<U64>, stamp: RevisionStamp, id: U64)
    requires Counts(r, handles) && id in handles && PinStamp(r, stamp).Ok?
    ensures id in r.slots && id in PinStamp(r, stamp).value.0.slots
    ensures PinStamp(r, stamp).value.0.slots[id] == r.slots[id]
  {
  }

  lemma SealKeeps(p: Pinned, stamp: RevisionStamp)
    requires Accounted(p)
    ensures Accounted(Step(p, SealAction(stamp)))
  {
    hide Counts;
    hide PinStamp;
    if PinStamp(p.registry, stamp).Ok? {
      var id := PinStamp(p.registry, stamp).value.1;
      PinCounts(p.registry, Handles(p), stamp);
      assert p.held + multiset{id} + multiset{p.current} == Handles(p) + multiset{id};
      PinnedSlotsStay(p.registry, Handles(p), stamp, p.current);
    }
  }

  lemma CloneKeeps(p: Pinned, id: U64)
    requires Accounted(p) && id in Handles(p)
    ensures Accounted(Step(p, CloneAction(id)))
  {
    CloneCounts(p.registry, Handles(p), id);
    hide Counts;
    assert p.held + multiset{id} + multiset{p.current} == Handles(p) + multiset{id};
  }

  lemma DropKeeps(p: Pinned, id: U64)
    requires Accounted(p) && id in p.held
    ensures Accounted(Step(p, DropAction(id)))
  {
    DropCounts(p.registry, Handles(p), id);
    var left := p.held - multiset{id} + multiset{p.current};
    assert left == Handles(p) - multiset{id};
    assert p.current in left;
    assert p.current in DropRef(p.registry, id).slots;
    hide Counts;
  }

  lemma PublishKeeps(p: Pinned, id: U64)
    requires Accounted(p) && id in p.held && id in p.registry.slots
    ensures Accounted(Step(p, PublishAction(id)))
  {
    var cloned := CloneRef(p.registry, id);
    CloneCounts(p.registry, Handles(p), id);
    DropCounts(cloned, Handles(p) + multiset{id}, p.current);
    assert Handles(p) + multiset{id} - multiset{p.current} == p.held + multiset{id};
    assert id in p.held + multiset{id};
    assert id in DropRef(cloned, p.current).slots;
    hide Counts;
  }

  lemma StepKeepsAccounts(p: Pinned, a: PinAction)
    requires Accounted(p)
    ensures Accounted(Step(p, a))
  {
    if a.SealAction? {
      SealKeeps(p, a.stamp);
    } else if a.CloneAction? && a.id in Handles(p) {
      CloneKeeps(p, a.id);
    } else if a.DropAction? && a.id in p.held {
      DropKeeps(p, a.id);
    } else if a.PublishAction? && a.id in p.held && a.id in p.registry.slots {
      PublishKeeps(p, a.id);
    }
  }

  lemma StepKeepsBound(p: Pinned, a: PinAction)
    ensures Step(p, a).registry.maxPins == p.registry.maxPins
  {
    hide Handles;
  }

  /** A publication starts by pinning its first stamp on an empty registry. */
  function Start(contextId: string, generation: U64, maxPins: nat, first: RevisionStamp): Result<Pinned, PinFailure> {
    match PinStamp(Registry(contextId, generation, maxPins, false, 0, map[]), first)
    case Err(e) => Err(e)
    case Ok((registry, id)) => Ok(Pinned(registry, id, first, multiset{}))
  }

  /**
   Pin accounting over every run: a slot exists exactly while some live handle names it and counts those
   handles, the publication's own included; live slots never exceed the bound; the publication's slot pins
   exactly the live stamp.
   */
  lemma {:induction false} PinAccounting(contextId: string, generation: U64, maxPins: nat, first: RevisionStamp,
                                         actions: seq<PinAction>)
    requires Start(contextId, generation, maxPins, first).Ok?
    ensures var p := Run(Start(contextId, generation, maxPins, first).value, actions);
      && Accounted(p) && |p.registry.slots| <= maxPins
  {
    if actions != [] {
      hide Step;
      hide Accounted;
      PinAccounting(contextId, generation, maxPins, first, actions[..|actions| - 1]);
      RunKeepsBound(contextId, generation, maxPins, first, actions);
      StepKeepsAccounts(Run(Start(contextId, generation, maxPins, first).value, actions[..|actions| - 1]),
                        actions[|actions| - 1]);
      AccountedWithinBound(Run(Start(contextId, generation, maxPins, first).value, actions));
    } else {
      PinCounts(Registry(contextId, generation, maxPins, false, 0, map[]), multiset{}, first);
      var p := Start(contextId, generation, maxPins, first).value;
      assert Handles(p) == multiset{} + multiset{p.current};
    }
  }

  lemma AccountedWithinBound(p: Pinned)
    requires Accounted(p)
    ensures |p.registry.slots| <= p.registry.maxPins
  {
  }

  lemma {:induction false} RunKeepsBound(contextId: string, generation: U64, maxPins: nat, first: RevisionStamp,
                                         actions: seq<PinAction>)
    requires Start(contextId, generation, maxPins, first).Ok?
    ensures Run(Start(contextId, generation, maxPins, first).value, actions).registry.maxPins == maxPins
  {
    if actions != [] {
      hide Step;
      RunKeepsBound(contextId, generation, maxPins, first, actions[..|actions| - 1]);
      StepKeepsBound(Run(Start(contextId, generation, maxPins, first).value, actions[..|actions| - 1]),
                     actions[|actions| - 1]);
    }
  }

  /**
   Sealing the next root succeeds exactly when the registry lives, the stamp is of its context and generation,
   an id is left, and fewer slots than the bound are live; with a bound of two and no slot but the
   publication's own, there is always room.
   */
  lemma SealingSucceeds(p: Pinned, stamp: RevisionStamp)
    requires Accounted(p)
    ensures PinStamp(p.registry, stamp).Ok? <==>
      && !p.registry.destroyed
      && stamp.contextId == p.registry.contextId && stamp.generation == p.registry.generation
      && |p.registry.slots| < p.registry.maxPins && p.registry.nextId + 1 < U64_LIMIT
    ensures PinStamp(p.registry, stamp).Err? ==>
      PinStamp(p.registry, stamp).error ==
        if !p.registry.destroyed && stamp.contextId == p.registry.contextId && stamp.generation == p.registry.generation
           && |p.registry.slots| >= p.registry.maxPins then PinBudgetExceeded else InvalidPin
    ensures p.registry.maxPins >= 2 && (forall id :: id in p.held ==> id == p.current)
      ==> |p.registry.slots| < p.registry.maxPins
  {
    if forall id :: id in p.held ==> id == p.current {
      assert p.registry.slots.Keys == {p.current};
      assert |p.registry.slots.Keys| == 1;
    }
  }

  // ---- what each step does to what is pinned

  /** The stamp a slot pins. */
  function StampAt(r: Registry, id: U64): Option<RevisionStamp> {
    if id in r.slots then Some(r.slots[id].stamp) else None
  }

  /** The slots other than this one pin what they did. */
  predicate OtherSlotsStay(before: Registry, after: Registry, id: U64) {
    forall x: U64 :: x != id ==> StampAt(after, x) == StampAt(before, x)
  }

  /** A sealed stamp gets a slot and a handle of its own that no live handle has had, or nothing changes. */
  lemma SealIsExact(p: Pinned, stamp: RevisionStamp)
    requires Accounted(p)
    ensures var after := Step(p, SealAction(stamp));
      if PinStamp(p.registry, stamp).Err? then after == p
      else
        var id := PinStamp(p.registry, stamp).value.1;
        && id !in Handles(p) && after.held == p.held + multiset{id}
        && StampAt(after.registry, id) == Some(stamp) && OtherSlotsStay(p.registry, after.registry, id)
        && after.current == p.current && after.live == p.live
  {
    hide Handles;
  }

  /** Cloning a live handle adds one handle of the same slot and pins nothing new. */
  lemma CloneIsExact(p: Pinned, id: U64, x: U64)
    requires Accounted(p) && id in Handles(p)
    ensures var after := Step(p, CloneAction(id));
      && after.held == p.held + multiset{id} && StampAt(after.registry, x) == StampAt(p.registry, x)
      && after.current == p.current && after.live == p.live
  {
  }

  /**
   Dropping a held handle takes one handle away. Its slot goes with it exactly when it was the last handle of that
   slot, and no other slot does.
   */
  lemma DropIsExact(p: Pinned, id: U64)
    requires Accounted(p) && id in p.held
    ensures var after := Step(p, DropAction(id));
      && after.held == p.held - multiset{id}
      && StampAt(after.registry, id) == (if Handles(p)[id] > 1 then StampAt(p.registry, id) else None)
      && OtherSlotsStay(p.registry, after.registry, id)
      && after.current == p.current && after.live == p.live
  {
    assert p.registry.slots[id].refs == Handles(p)[id];
  }

  /**
   Publishing a held pin makes its stamp the live one and keeps the holder's handle. The slot published before goes
   exactly when nothing else holds it, and every other slot stays.
   */
  lemma PublishIsExact(p: Pinned, id: U64)
    requires Accounted(p) && id in p.held
    ensures var after := Step(p, PublishAction(id));
      && id in p.registry.slots
      && after.current == id && after.live == p.registry.slots[id].stamp && after.held == p.held
      && StampAt(after.registry, p.current) == (if p.current in p.held then Some(p.live) else None)
      && OtherSlotsStay(p.registry, after.registry, p.current)
  {
    assert p.registry.slots[p.current].refs == Handles(p)[p.current];
    assert Handles(p)[p.current] == p.held[p.current] + 1;
  }

  // ---- the registry object and the one-shot seal

  class PinRegistry {
    const contextId: string
    const generation: U64
    const maxPins: nat
    var destroyed: bool
    var nextId: U64
    var slots: map<U64, LivePin>

    ghost function Model(): Registry
      reads this
    {
      Registry(contextId, generation, maxPins, destroyed, nextId, slots)
    }

    constructor (contextId: string, generation: U64, maxPins: nat)
      ensures Model() == Registry(contextId, generation, maxPins, false, 0, map[])
    {
      this.contextId := contextId;
      this.generation := generation;
      this.maxPins := maxPins;
      destroyed := false;
      nextId := 0;
      slots := map[];
    }

    method TryPin(stamp: RevisionStamp) returns (r: Result<U64, PinFailure>)
      modifies this
      ensures var spec := PinStamp(old(Model()), stamp);
        if spec.Ok? then Model() == spec.value.0 && r == Ok(spec.value.1)
        else Model() == old(Model()) && r == Err(spec.error)
    {
      if destroyed {
        return Err(InvalidPin);
      }
      if stamp.contextId != contextId || stamp.generation != generation {
        return Err(InvalidPin);
      }
      if |slots| >= maxPins {
        return Err(PinBudgetExceeded);
      }
      var id := nextId;
      if nextId + 1 >= U64_LIMIT {
        return Err(InvalidPin);
      }
      nextId := nextId + 1;
      slots := slots[id := LivePin(stamp, 1)];
      r := Ok(id);
    }

    method CloneHandle(id: U64)
      modifies this`slots
      ensures Model() == CloneRef(old(Model()), id)
    {
      if id in slots {
        var slot := slots[id];
        slots := slots[id := slot.(refs := slot.refs + 1)];
      }
    }

    method DropHandle(id: U64)
      modifies this`slots
      ensures Model() == DropRef(old(Model()), id)
    {
      if id !in slots {
        return;
      }
      var slot := slots[id];
      if slot.refs <= 1 {
        slots := slots - {id};
      } else {
        slots := slots[id := slot.(refs := slot.refs - 1)];
      }
    }
  }

  /** A bound cut; its token can be taken once. */
  class PreparedCut {
    const stamp: RevisionStamp
    const pins: PinRegistry
    var isSealed: bool

    constructor (stamp: RevisionStamp, pins: PinRegistry)
      ensures this.stamp == stamp && this.pins == pins && !isSealed
    {
      this.stamp := stamp;
      this.pins := pins;
      isSealed := false;
    }

    /** Only a successful seal uses the cut up; a refused pin leaves it open for another try. */
    method Seal() returns (r: Result<U64, PinFailure>)
      modifies this, pins
      ensures var spec := PinStamp(old(pins.Model()), stamp);
        if old(isSealed) then r == Err(HandleDoubleRelease) && pins.Model() == old(pins.Model())
        else if spec.Ok? then pins.Model() == spec.value.0 && r == Ok(spec.value.1)
        else pins.Model() == old(pins.Model()) && r == Err(spec.error)
      ensures isSealed <==> old(isSealed) || r.Ok?
    {
      if isSealed {
        return Err(HandleDoubleRelease);
      }
      r := pins.TryPin(stamp);
      if r.Ok? {
        isSealed := true;
      }
    }
  }
}
