/** The region-pin manager as the object the world attaches; every method is one step of `RegionPins`. */
module RegionPinManagers {
  import opened Wrappers
  import opened Keys
  import opened RegionPins
  import Protocol

  lemma {:induction false} AdmitStops(ids: seq<string>, limit: nat, i: nat)
    requires i <= |ids| && Admit(ids[..i], limit).Err?
    ensures Admit(ids, limit) == Err(Admit(ids[..i], limit).error)
    decreases |ids|
  {
    hide IsSectionKey;
    if i == |ids| {
      assert ids[..i] == ids;
    } else {
      assert ids[..|ids| - 1][..i] == ids[..i];
      AdmitStops(ids[..|ids| - 1], limit, i);
    }
  }

  lemma AdmitFits(ids: seq<string>, limit: nat)
    requires Admit(ids, limit).Ok?
    ensures |Admit(ids, limit).value| <= limit
  {
    AdmitIsExact(ids, limit);
  }

  /** Admit the keys one by one; the limit is checked before each. */
  method AdmitSections(ids: seq<string>, limit: nat) returns (r: Result<set<string>, PinError>)
    ensures r == Admit(ids, limit)
  {
    hide ParseSection;
    var sections: set<string> := {};
    for i := 0 to |ids|
      invariant Admit(ids[..i], limit) == Ok(sections)
    {
      assert ids[..i + 1][..i] == ids[..i];
      var raw := ids[i];
      if |sections| >= limit {
        AdmitStops(ids, limit, i + 1);
        return Err(BudgetExceeded);
      }
      if ParseSection(raw).Err? || raw in sections {
        AdmitStops(ids, limit, i + 1);
        return Err(InvalidHandle);
      }
      sections := sections + {raw};
    }
    assert ids[..|ids|] == ids;
    r := Ok(sections);
  }

  class RegionPinManager {
    const budget: PinBudget
    var nextPinId: U64
    var pins: map<U64, RegionPin>

    ghost function Model(): Manager
      reads this
    {
      Manager(budget, nextPinId, pins)
    }

    constructor (budget: PinBudget)
      ensures Model() == Manager(budget, 1, map[])
    {
      this.budget := budget;
      nextPinId := 1;
      pins := map[];
    }

    method DeclarePinWithBudget(ids: seq<string>, requested: PinBudget) returns (r: Result<U64, PinError>)
      modifies this
      ensures (Model(), r) == Declare(old(Model()), ids, requested)
      ensures r.Err? ==> Model() == old(Model())
      ensures WithinBudget(old(Model())) ==> WithinBudget(Model())
    {
      hide Admit;
      hide ActiveSections;
      hide WithinBudget;
      if WithinBudget(Model()) {
        DeclareKeepsBudget(Model(), ids, requested);
      }
      var granted := PinBudget(Min(requested.callerSections, budget.callerSections),
                               Min(requested.hostSections, budget.hostSections));
      var sections := AdmitSections(ids, Min(granted.callerSections, granted.hostSections));
      if sections.Err? {
        return Err(sections.error);
      }
      if sections.value == {} {
        return Err(InvalidHandle);
      }
      AdmitFits(ids, Limit(granted));
      r := Insert(sections.value, granted);
    }

    method Insert(sections: set<string>, granted: PinBudget) returns (r: Result<U64, PinError>)
      requires sections != {} && |sections| <= Limit(granted)
      modifies this
      ensures r == (if |ActiveSections(old(Model())) + sections| > Limit(granted) then Err(BudgetExceeded)
                    else if old(nextPinId) + 1 >= U64_LIMIT then Err(InvalidHandle)
                    else Ok(old(nextPinId)))
      ensures Model() == if r.Err? then old(Model()) else old(Model()).(
        nextPinId := old(nextPinId) + 1, pins := old(pins)[old(nextPinId) := RegionPin(sections, NotReady)])
    {
      var pinned := set id, s | id in pins && pins[id].readiness != Released && s in pins[id].sections :: s;
      var additional := sections - pinned;
      assert pinned == ActiveSections(Model());
      hide ActiveSections;
      assert pinned + sections == pinned + additional;
      var total := |pinned| + |additional|;
      if |sections| > granted.callerSections || |sections| > granted.hostSections
         || total > granted.callerSections || total > granted.hostSections {
        return Err(BudgetExceeded);
      }
      var pinId := nextPinId;
      if nextPinId + 1 >= U64_LIMIT {
        return Err(InvalidHandle);
      }
      nextPinId := nextPinId + 1;
      pins := pins[pinId := RegionPin(sections, NotReady)];
      r := Ok(pinId);
    }

    method MarkReady(pin: U64) returns (r: Outcome<PinError>)
      modifies this
      ensures r.Pass? <==> RegionPins.MarkReady(old(Model()), pin).Ok?
      ensures r.Pass? ==> Model() == RegionPins.MarkReady(old(Model()), pin).value
      ensures r.Fail? ==> Model() == old(Model()) && RegionPins.MarkReady(Model(), pin) == Err(r.error)
    {
      if pin !in pins {
        return Fail(InvalidHandle);
      }
      if pins[pin].readiness != NotReady {
        return Fail(InvalidHandle);
      }
      pins := pins[pin := pins[pin].(readiness := ReadyPin)];
      r := Pass;
    }

    /** Ready only if every declared section is Ready in the current cut. */
    method MarkReadyFromWorld(pin: U64, directory: Protocol.Directory) returns (r: Outcome<PinError>)
      modifies this
      ensures r.Pass? <==>
        && RegionPins.MarkReady(old(Model()), pin).Ok?
        && Protocol.AllReady(old(Model()).pins[pin].sections, directory)
      ensures r.Pass? ==> Model() == RegionPins.MarkReady(old(Model()), pin).value
      ensures r.Fail? ==> Model() == old(Model())
      ensures r.Fail? ==> (r.error == PinRegionNotReady
        <==> pin in old(Model()).pins && !Protocol.AllReady(old(Model()).pins[pin].sections, directory))
      ensures r.Fail? ==> r.error == PinRegionNotReady || r.error == InvalidHandle
    {
      if pin !in pins {
        return Fail(InvalidHandle);
      }
      var allReady := forall id :: id in pins[pin].sections ==> id in directory && directory[id].Ready?;
      if !allReady {
        return Fail(PinRegionNotReady);
      }
      r := MarkReady(pin);
    }

    method ReleasePin(pin: U64) returns (r: Outcome<PinError>)
      modifies this
      ensures r.Pass? <==> RegionPins.Release(old(Model()), pin).Ok?
      ensures r.Pass? ==> Model() == RegionPins.Release(old(Model()), pin).value
      ensures r.Fail? ==> Model() == old(Model()) && RegionPins.Release(Model(), pin) == Err(r.error)
    {
      if pin !in pins {
        return Fail(InvalidHandle);
      }
      if pins[pin].readiness == Released {
        return Fail(InvalidHandle);
      }
      pins := pins[pin := pins[pin].(readiness := Released)];
      r := Pass;
    }

    method IsPinned(id: string) returns (r: Result<bool, PinError>)
      ensures r == if IsSectionKey(id) then Ok(RegionPins.IsPinned(Model(), id)) else Err(InvalidHandle)
    {
      hide ParseSection;
      var parsed := ParseSection(id);
      if parsed.Err? {
        return Err(InvalidHandle);
      }
      var pinned := exists pin :: pin in pins && pins[pin].readiness != Released && id in pins[pin].sections;
      r := Ok(pinned);
    }

    /** The read gate over every active pin that covers the section. */
    method ValidatePresence(id: string, isReady: bool) returns (r: Outcome<PinError>)
      ensures r == RegionPins.ValidatePresence(Model(), id, isReady)
    {
      hide ParseSection;
      var parsed := ParseSection(id);
      if parsed.Err? {
        return Fail(InvalidHandle);
      }
      var covered := exists pin :: pin in pins && pins[pin].readiness == ReadyPin && id in pins[pin].sections;
      if covered && !isReady {
        return Fail(PinnedReadReturnedPending);
      }
      r := Pass;
    }
  }
}
