/** Region pins: admission budgets, readiness and the read gate. */
module RegionPins {
  import opened Collections
  import opened Wrappers
  import opened Text
  import opened Keys

  datatype PinError = InvalidHandle | BudgetExceeded | PinRegionNotReady | PinnedReadReturnedPending | WorldYOutOfRange

  datatype Readiness = NotReady | ReadyPin | Released

  datatype PinBudget = PinBudget(callerSections: nat, hostSections: nat)

  datatype RegionPin = RegionPin(sections: set<string>, readiness: Readiness)

  datatype Manager = Manager(budget: PinBudget, nextPinId: U64, pins: map<U64, RegionPin>)

  function Min(a: nat, b: nat): nat {
    if a < b then a else b
  }

  function Limit(budget: PinBudget): nat {
    Min(budget.callerSections, budget.hostSections)
  }

  function ActiveSections(m: Manager): set<string> {
    set id, s | id in m.pins && m.pins[id].readiness != Released && s in m.pins[id].sections :: s
  }

  /** Admission of the requested keys, one by one, under a limit. */
  function Admit(ids: seq<string>, limit: nat): Result<set<string>, PinError> {
    if ids == [] then Ok({}) else
    var before :- Admit(ids[..|ids| - 1], limit);
    var id := ids[|ids| - 1];
    if |before| >= limit then Err(BudgetExceeded)
    else if !IsSectionKey(id) || id in before then Err(InvalidHandle)
    else Ok(before + {id})
  }

  /** A rejected declaration changes nothing. */
  function Declare(m: Manager, ids: seq<string>, requested: PinBudget): (Manager, Result<U64, PinError>) {
    var budget := PinBudget(Min(requested.callerSections, m.budget.callerSections),
                            Min(requested.hostSections, m.budget.hostSections));
    match Admit(ids, Limit(budget))
    case Err(e) => (m, Err(e))
    case Ok(sections) =>
      if sections == {} then (m, Err(InvalidHandle))
      else if |ActiveSections(m) + sections| > Limit(budget) then (m, Err(BudgetExceeded))
      else if m.nextPinId + 1 >= U64_LIMIT then (m, Err(InvalidHandle))
      else (m.(nextPinId := m.nextPinId + 1, pins := m.pins[m.nextPinId := RegionPin(sections, NotReady)]),
            Ok(m.nextPinId))
  }

  function MarkReady(m: Manager, pin: U64): Result<Manager, PinError> {
    if pin !in m.pins || m.pins[pin].readiness != NotReady then Err(InvalidHandle)
    else Ok(m.(pins := m.pins[pin := m.pins[pin].(readiness := ReadyPin)]))
  }

  function Release(m: Manager, pin: U64): Result<Manager, PinError> {
    if pin !in m.pins || m.pins[pin].readiness == Released then Err(InvalidHandle)
    else Ok(m.(pins := m.pins[pin := m.pins[pin].(readiness := Released)]))
  }

  predicate IsPinned(m: Manager, id: string) {
    exists pin :: pin in m.pins && m.pins[pin].readiness != Released && id in m.pins[pin].sections
  }

  /** The gate every read passes: once a covering pin is ready, only `Ready` is admissible. */
  function ValidatePresence(m: Manager, id: string, isReady: bool): Outcome<PinError> {
    if !IsSectionKey(id) then Fail(InvalidHandle)
    else if !isReady && exists pin :: pin in m.pins && m.pins[pin].readiness == ReadyPin && id in m.pins[pin].sections
    then Fail(PinnedReadReturnedPending)
    else Pass
  }

  // ---- what each step does to what is pinned and gated

  /** An unreleased pin other than this one covers the section. */
  predicate PinnedByOther(m: Manager, pin: U64, id: string) {
    exists other ::
      other in m.pins && other != pin && m.pins[other].readiness != Released && id in m.pins[other].sections
  }

  /** A ready pin other than this one covers the section. */
  predicate GatedByOther(m: Manager, pin: U64, id: string) {
    exists other ::
      other in m.pins && other != pin && m.pins[other].readiness == ReadyPin && id in m.pins[other].sections
  }

  /** Nothing but the one pin differs. */
  predicate OthersStay(m: Manager, after: Manager, pin: U64) {
    && after.budget == m.budget && after.nextPinId == m.nextPinId
    && pin in m.pins && after.pins.Keys == m.pins.Keys && after.pins[pin].sections == m.pins[pin].sections
    && forall other :: other in m.pins && other != pin ==> after.pins[other] == m.pins[other]
  }

  lemma OthersStayPinned(m: Manager, after: Manager, pin: U64, id: string)
    requires OthersStay(m, after, pin)
    ensures PinnedByOther(after, pin, id) <==> PinnedByOther(m, pin, id)
    ensures GatedByOther(after, pin, id) <==> GatedByOther(m, pin, id)
    ensures IsPinned(after, id) <==>
      PinnedByOther(m, pin, id) || (after.pins[pin].readiness != Released && id in m.pins[pin].sections)
    ensures ValidatePresence(after, id, false) == PinnedReadOf(m, pin, id, after.pins[pin].readiness == ReadyPin)
    ensures ValidatePresence(after, id, true) == if IsSectionKey(id) then Pass else Fail(InvalidHandle)
  {
    hide IsSectionKey;
  }

  /** The gate for a section that is not Ready, when `ready` says whether this pin is. */
  function PinnedReadOf(m: Manager, pin: U64, id: string, ready: bool): Outcome<PinError>
    requires pin in m.pins
  {
    if !IsSectionKey(id) then Fail(InvalidHandle)
    else if GatedByOther(m, pin, id) || (ready && id in m.pins[pin].sections) then Fail(PinnedReadReturnedPending)
    else Pass
  }

  /**
   A declared pin is released exactly once, whether ready or not. Afterwards a section is pinned, counted against
   the budget or gated only if another pin does it; no other pin changes, and this one cannot be used again.
   */
  lemma ReleaseIsExact(m: Manager, pin: U64, id: string)
    ensures Release(m, pin).Ok? <==> pin in m.pins && m.pins[pin].readiness != Released
    ensures Release(m, pin).Err? ==> Release(m, pin) == Err(InvalidHandle)
    ensures Release(m, pin).Ok? ==>
      var after := Release(m, pin).value;
      && OthersStay(m, after, pin)
      && (IsPinned(after, id) <==> PinnedByOther(m, pin, id))
      && (id in ActiveSections(after) <==> PinnedByOther(m, pin, id))
      && ValidatePresence(after, id, false) == PinnedReadOf(m, pin, id, false)
      && ValidatePresence(after, id, true) == (if IsSectionKey(id) then Pass else Fail(InvalidHandle))
      && Release(after, pin) == Err(InvalidHandle) && MarkReady(after, pin) == Err(InvalidHandle)
  {
    hide ValidatePresence;
    hide PinnedByOther;
    if Release(m, pin).Ok? {
      var after := Release(m, pin).value;
      OthersStayPinned(m, after, pin, id);
      assert id in ActiveSections(after) <==> IsPinned(after, id);
    }
  }

  /**
   A declared pin becomes ready exactly once and only before its release. What is pinned stays as it is, and from
   then on a section it covers is readable only as Ready.
   */
  lemma MarkReadyIsExact(m: Manager, pin: U64, id: string)
    ensures MarkReady(m, pin).Ok? <==> pin in m.pins && m.pins[pin].readiness == NotReady
    ensures MarkReady(m, pin).Err? ==> MarkReady(m, pin) == Err(InvalidHandle)
    ensures MarkReady(m, pin).Ok? ==>
      var after := MarkReady(m, pin).value;
      && OthersStay(m, after, pin)
      && (IsPinned(after, id) <==> IsPinned(m, id))
      && ValidatePresence(after, id, false) == PinnedReadOf(m, pin, id, true)
      && ValidatePresence(after, id, true) == (if IsSectionKey(id) then Pass else Fail(InvalidHandle))
      && MarkReady(after, pin) == Err(InvalidHandle) && Release(after, pin).Ok?
  {
    hide ValidatePresence;
    hide PinnedByOther;
    if MarkReady(m, pin).Ok? {
      var after := MarkReady(m, pin).value;
      OthersStayPinned(m, after, pin, id);
      OthersStayPinned(m, m, pin, id);
    }
  }

  /** A declaration pins its sections at once, beside what was pinned before, and gates nothing yet. */
  lemma DeclaredIsPinned(m: Manager, ids: seq<string>, requested: PinBudget, id: string)
    requires WithinBudget(m) && Declare(m, ids, requested).1.Ok?
    ensures var after := Declare(m, ids, requested).0;
      && (IsPinned(after, id) <==> id in ids || IsPinned(m, id))
      && (forall ready :: ValidatePresence(after, id, ready) == ValidatePresence(m, id, ready))
  {
    hide IsSectionKey;
    hide Admit;
    DeclareIsExact(m, ids, requested);
    hide Declare;
    hide ActiveSections;
    hide AllSectionKeys;
    hide NoRepeats;
    var after := Declare(m, ids, requested).0;
    assert after.pins[m.nextPinId] == RegionPin(KeySet(ids), NotReady);
    assert forall pin :: pin in m.pins ==> pin in after.pins && after.pins[pin] == m.pins[pin];
    if id in ids {
      assert id in after.pins[m.nextPinId].sections;
    }
  }

  // ---- the budget holds over every run

  datatype PinEvent =
    | DeclareEvent(ids: seq<string>, requested: PinBudget)
    | ReadyEvent(pin: U64)
    | ReleaseEvent(pin: U64)

  function PinStep(m: Manager, e: PinEvent): Manager {
    match e
    case DeclareEvent(ids, requested) => Declare(m, ids, requested).0
    case ReadyEvent(pin) => var r := MarkReady(m, pin); if r.Ok? then r.value else m
    case ReleaseEvent(pin) => var r := Release(m, pin); if r.Ok? then r.value else m
  }

  function PinRun(m: Manager, events: seq<PinEvent>): Manager {
    if events == [] then m else PinStep(PinRun(m, events[..|events| - 1]), events[|events| - 1])
  }

  /** Identifiers in use are below the next one, and the active sections fit the budget. */
  predicate WithinBudget(m: Manager) {
    && (forall pin :: pin in m.pins ==> pin < m.nextPinId)
    && |ActiveSections(m)| <= Limit(m.budget)
  }

  lemma DeclareKeepsBudget(m: Manager, ids: seq<string>, requested: PinBudget)
    requires WithinBudget(m)
    ensures WithinBudget(Declare(m, ids, requested).0) && Declare(m, ids, requested).0.budget == m.budget
  {
    hide Admit;
    var (after, result) := Declare(m, ids, requested);
    if result.Ok? {
      ActiveAfterDeclare(m, after, after.pins[m.nextPinId].sections);
    }
  }

  lemma ActiveAfterDeclare(m: Manager, after: Manager, sections: set<string>)
    requires m.nextPinId !in m.pins && after.pins == m.pins[m.nextPinId := RegionPin(sections, NotReady)]
    ensures ActiveSections(after) == ActiveSections(m) + sections
  {
    forall s | s in ActiveSections(m) ensures s in ActiveSections(after) {
      var pin :| pin in m.pins && m.pins[pin].readiness != Released && s in m.pins[pin].sections;
      assert pin in after.pins && after.pins[pin] == m.pins[pin];
    }
    forall s | s in sections ensures s in ActiveSections(after) {
      assert m.nextPinId in after.pins;
    }
  }

  /** Readiness changes never add an active section. */
  lemma FewerActive(m: Manager, after: Manager)
    requires after.pins.Keys == m.pins.Keys
    requires forall pin :: pin in m.pins ==>
      && after.pins[pin].sections == m.pins[pin].sections
      && (after.pins[pin].readiness != Released ==> m.pins[pin].readiness != Released)
    ensures ActiveSections(after) <= ActiveSections(m)
  {
    forall s | s in ActiveSections(after) ensures s in ActiveSections(m) {
      var pin :| pin in after.pins && after.pins[pin].readiness != Released && s in after.pins[pin].sections;
      assert pin in m.pins;
    }
  }

  lemma StepKeepsBudget(m: Manager, e: PinEvent)
    requires WithinBudget(m)
    ensures WithinBudget(PinStep(m, e)) && PinStep(m, e).budget == m.budget
  {
    if e.DeclareEvent? {
      hide Declare;
      hide WithinBudget;
      DeclareKeepsBudget(m, e.ids, e.requested);
    } else {
      hide ActiveSections;
      FewerActive(m, PinStep(m, e));
      SubsetSize(ActiveSections(PinStep(m, e)), ActiveSections(m));
    }
  }

  /** Over any run, the distinct sections actively pinned exceed neither of the two budgets. */
  lemma {:induction false} BudgetHoldsOverRuns(budget: PinBudget, events: seq<PinEvent>)
    ensures var m := PinRun(Manager(budget, 1, map[]), events);
      && WithinBudget(m) && m.budget == budget
      && |ActiveSections(m)| <= budget.callerSections && |ActiveSections(m)| <= budget.hostSections
  {
    if events == [] {
      assert ActiveSections(Manager(budget, 1, map[])) == {};
    } else {
      BudgetHoldsOverRuns(budget, events[..|events| - 1]);
      StepKeepsBudget(PinRun(Manager(budget, 1, map[]), events[..|events| - 1]), events[|events| - 1]);
    }
  }

  // ---- admission is exact

  predicate AllSectionKeys(ids: seq<string>) {
    forall i :: 0 <= i < |ids| ==> IsSectionKey(ids[i])
  }

  function KeySet(ids: seq<string>): set<string> {
    set id | id in ids
  }

  lemma SnocSectionKeys(init: seq<string>, last: string)
    ensures AllSectionKeys(init + [last]) <==> AllSectionKeys(init) && IsSectionKey(last)
  {
    hide IsSectionKey;
    var ids := init + [last];
    if AllSectionKeys(ids) {
      forall i | 0 <= i < |init| ensures IsSectionKey(init[i]) {
        assert IsSectionKey(ids[i]);
      }
      assert IsSectionKey(ids[|init|]);
    }
  }

  /** A list is admitted exactly when it is made of distinct section keys and fits the limit. */
  lemma {:induction false} AdmitIsExact(ids: seq<string>, limit: nat)
    ensures Admit(ids, limit).Ok? <==> AllSectionKeys(ids) && NoRepeats(ids) && |ids| <= limit
    ensures Admit(ids, limit).Ok? ==> Admit(ids, limit).value == KeySet(ids) && |KeySet(ids)| == |ids|
  {
    hide IsSectionKey;
    hide AllSectionKeys;
    hide NoRepeats;
    if ids == [] {
      assert AllSectionKeys([]) && NoRepeats([]) by { EmptyIsAdmissible(); }
    } else {
      var init, last := ids[..|ids| - 1], ids[|ids| - 1];
      AdmitIsExact(init, limit);
      assert ids == init + [last];
      assert KeySet(ids) == KeySet(init) + {last};
      SnocNoRepeats(init, last);
      SnocSectionKeys(init, last);
    }
  }

  lemma EmptyIsAdmissible()
    ensures AllSectionKeys([]) && NoRepeats([])
  {
    hide IsSectionKey;
  }

  /** Within the requested budget and the manager's own, each on the caller's and on the host's side. */
  predicate Fits(n: nat, requested: PinBudget, own: PinBudget) {
    && n <= requested.callerSections && n <= requested.hostSections
    && n <= own.callerSections && n <= own.hostSections
  }

  /**
   A declaration is accepted exactly when the keys are distinct section keys, at least one, and they alone and the
   active sections with them fit every budget; a rejected one changes nothing.
   */
  lemma DeclareIsExact(m: Manager, ids: seq<string>, requested: PinBudget)
    ensures var (after, result) := Declare(m, ids, requested);
      && (result.Ok? <==>
            && ids != [] && AllSectionKeys(ids) && NoRepeats(ids)
            && Fits(|ids|, requested, m.budget) && Fits(|ActiveSections(m) + KeySet(ids)|, requested, m.budget)
            && m.nextPinId + 1 < U64_LIMIT)
      && (result.Ok? ==>
            && result.value == m.nextPinId
            && after.pins == m.pins[m.nextPinId := RegionPin(KeySet(ids), NotReady)])
      && (result.Err? ==> after == m)
  {
    hide AllSectionKeys;
    hide NoRepeats;
    hide Admit;
    hide ActiveSections;
    var limit := Min(Min(requested.callerSections, m.budget.callerSections),
                     Min(requested.hostSections, m.budget.hostSections));
    AdmitIsExact(ids, limit);
    assert ids != [] ==> ids[0] in KeySet(ids);
  }

  /** A refused list exceeds the limit exactly when everything within it is admissible. */
  lemma {:induction false} AdmitRefusals(ids: seq<string>, limit: nat)
    requires Admit(ids, limit).Err?
    ensures Admit(ids, limit).error
         == if |ids| > limit && Admit(ids[..limit], limit).Ok? then BudgetExceeded else InvalidHandle
  {
    hide IsSectionKey;
    var n := |ids| - 1;
    var init := ids[..n];
    if Admit(init, limit).Err? {
      AdmitRefusals(init, limit);
      if limit <= n {
        assert init[..limit] == ids[..limit];
        if limit == n {
          assert ids[..limit] == init;
        }
      }
    } else {
      AdmitIsExact(init, limit);
      if limit <= n {
        assert n == limit && ids[..limit] == init;
      }
    }
  }

  lemma PrefixIsAdmitted(ids: seq<string>, limit: nat)
    requires AllSectionKeys(ids) && NoRepeats(ids) && limit <= |ids|
    ensures Admit(ids[..limit], limit).Ok?
  {
    hide IsSectionKey;
    AdmitIsExact(ids[..limit], limit);
  }

  /** Which refusal a declaration gets, in the order in which the source looks. */
  lemma DeclareRefusals(m: Manager, ids: seq<string>, requested: PinBudget)
    requires Declare(m, ids, requested).1.Err?
    ensures var limit := Min(Min(requested.callerSections, m.budget.callerSections),
                             Min(requested.hostSections, m.budget.hostSections));
      Declare(m, ids, requested).1.error ==
        if |ids| > limit && Admit(ids[..limit], limit).Ok? then BudgetExceeded
        else if !AllSectionKeys(ids) || !NoRepeats(ids) || ids == [] then InvalidHandle
        else if !Fits(|ActiveSections(m) + KeySet(ids)|, requested, m.budget) then BudgetExceeded
        else InvalidHandle
  {
    hide ActiveSections;
    hide AllSectionKeys;
    hide NoRepeats;
    var limit := Min(Min(requested.callerSections, m.budget.callerSections),
                     Min(requested.hostSections, m.budget.hostSections));
    AdmitIsExact(ids, limit);
    if Admit(ids, limit).Err? {
      AdmitRefusals(ids, limit);
      if AllSectionKeys(ids) && NoRepeats(ids) {
        PrefixIsAdmitted(ids, limit);
      }
    }
    hide Admit;
    assert ids != [] ==> ids[0] in KeySet(ids);
  }

  predicate PinsSectionKeys(m: Manager) {
    forall pin, id :: pin in m.pins && id in m.pins[pin].sections ==> IsSectionKey(id)
  }

  lemma KeySetIsKeys(ids: seq<string>)
    requires AllSectionKeys(ids)
    ensures forall id :: id in KeySet(ids) ==> IsSectionKey(id)
  {
    hide IsSectionKey;
  }

  lemma StepPinsSectionKeys(m: Manager, e: PinEvent)
    requires PinsSectionKeys(m)
    ensures PinsSectionKeys(PinStep(m, e))
  {
    hide IsSectionKey;
    if e.DeclareEvent? {
      DeclareIsExact(m, e.ids, e.requested);
      hide Declare;
      if Declare(m, e.ids, e.requested).1.Ok? {
        KeySetIsKeys(e.ids);
      }
      hide AllSectionKeys;
      hide NoRepeats;
      hide ActiveSections;
      hide KeySet;
    }
  }

  /** Only canonical section keys are ever pinned. */
  lemma {:induction false} RunPinsSectionKeys(budget: PinBudget, events: seq<PinEvent>)
    ensures PinsSectionKeys(PinRun(Manager(budget, 1, map[]), events))
  {
    hide PinStep;
    if events != [] {
      hide PinsSectionKeys;
      RunPinsSectionKeys(budget, events[..|events| - 1]);
      StepPinsSectionKeys(PinRun(Manager(budget, 1, map[]), events[..|events| - 1]), events[|events| - 1]);
    }
  }
}
