/** The private builder that collects staged sections and freezes them into a replacement. */
module SectionDelta {
  import opened Wrappers
  import opened Text
  import opened Keys
  import opened Blocks
  import opened Protocol
  import opened SectionSlots

  /** Occupancy names are present and not repeated. */
  predicate AreOccupancyNames(names: seq<string>) {
    NoRepeats(names) && forall i :: 0 <= i < |names| ==> names[i] != ""
  }

  function PayloadOf(slot: SectionSlot): Option<SectionPayload> {
    if slot.Ready? then Some(slot.payload) else None
  }

  /** The bound root allows the staged slot. */
  predicate MayReplace(base: Directory, id: string, slot: SectionSlot) {
    id in base ==> TryConvert(base[id], PresenceOf(slot), PayloadOf(slot)).Ok?
  }

  /** The names of different offsets, each once. */
  lemma OffsetNames(touched: seq<CellOffset>, names: seq<string>)
    requires |names| == |touched| && forall i :: 0 <= i < |touched| ==> names[i] == Decimal(touched[i])
    requires forall i, j :: 0 <= i < j < |touched| ==> touched[i] != touched[j]
    ensures AreOccupancyNames(names)
  {
    hide Decimal;
    forall i, j | 0 <= i < j < |names| ensures names[i] != names[j] {
      if names[i] == names[j] {
        DecimalInjective(touched[i], touched[j]);
        assert false;
      }
    }
    forall i | 0 <= i < |names| ensures names[i] != "" {
      DecimalRoundTrip(touched[i]);
    }
  }

  method CheckOccupancyNames(names: seq<string>) returns (ok: bool)
    ensures ok <==> AreOccupancyNames(names)
  {
    var seen: set<string> := {};
    for i := 0 to |names|
      invariant seen == set k | k in names[..i]
      invariant AreOccupancyNames(names[..i])
    {
      assert names[..i + 1] == names[..i] + [names[i]];
      if names[i] == "" || names[i] in seen {
        RepeatedName(names, i);
        return false;
      }
      seen := seen + {names[i]};
    }
    assert names[..|names|] == names;
    ok := true;
  }

  lemma RepeatedName(names: seq<string>, i: nat)
    requires i < |names| && (names[i] == "" || names[i] in names[..i])
    ensures !AreOccupancyNames(names)
  {
    if names[i] != "" {
      var k :| 0 <= k < |names[..i]| && names[..i][k] == names[i];
      assert names[k] == names[i];
    }
  }

  class SectionDeltaBuilder {
    const base: Directory
    var staged: Directory

    constructor (base: Directory)
      ensures this.base == base && staged == map[]
    {
      this.base := base;
      staged := map[];
    }

    /** A section is staged once, under its canonical key, with occupancy names that do not repeat. */
    method Stage(id: string, names: seq<string>, slot: SectionSlot) returns (r: Outcome<ProtocolError>)
      modifies this`staged
      ensures r.Pass? <==> IsSectionKey(id) && AreOccupancyNames(names) && id !in old(staged)
      ensures staged == if r.Pass? then old(staged)[id := slot] else old(staged)
      ensures r.Fail? ==>
        r.error == if ParseSection(id).Err? then BadKey(ParseSection(id).error) else InvalidHandle
    {
      hide ParseSection;
      hide AreOccupancyNames;
      var parsed := ParseSection(id);
      if parsed.Err? {
        return Fail(BadKey(parsed.error));
      }
      var distinct := CheckOccupancyNames(names);
      if !distinct {
        return Fail(InvalidHandle);
      }
      if id in staged {
        return Fail(InvalidHandle);
      }
      staged := staged[id := slot];
      r := Pass;
    }

    /** The staged slots are frozen exactly when the bound root allows each of them. */
    method Freeze() returns (r: Result<Directory, ProtocolError>)
      ensures r.Ok? <==> forall id :: id in staged ==> MayReplace(base, id, staged[id])
      ensures r.Ok? ==> r.value == staged
      ensures r.Err? ==> exists id ::
        && id in staged && id in base
        && TryConvert(base[id], PresenceOf(staged[id]), PayloadOf(staged[id])) == Err(r.error)
    {
      hide TryConvert;
      var ids := SortedNames(staged.Keys);
      hide SortedNames;
      for i := 0 to |ids|
        invariant forall k :: 0 <= k < i ==> ids[k] in staged && MayReplace(base, ids[k], staged[ids[k]])
      {
        var id := ids[i];
        assert id in staged.Keys;
        if id in base {
          var next := TryConvert(base[id], PresenceOf(staged[id]), PayloadOf(staged[id]));
          if next.Err? {
            assert !MayReplace(base, id, staged[id]);
            return Err(next.error);
          }
        }
      }
      r := Ok(staged);
    }
  }
}
