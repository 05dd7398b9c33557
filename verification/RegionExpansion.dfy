/** The section keys of a block region: exactly the sections that hold a block of the box, each once. */
module RegionExpansion {
  import opened Wrappers
  import opened Text
  import opened Keys
  import opened Blocks
  import opened RegionPins

  /** Inclusive block bounds, not yet checked. */
  datatype Box = Box(minX: Coord, maxX: Coord, minY: int, maxY: int, minZ: Coord, maxZ: Coord)

  /** Inclusive section bounds. */
  datatype Span = Span(x0: Coord, x1: Coord, y0: Layer, y1: Layer, z0: Coord, z1: Coord)

  predicate Ordered(b: Box) {
    b.minX <= b.maxX && b.minY <= b.maxY && b.minZ <= b.maxZ
  }

  predicate WellFormed(b: Box) {
    Ordered(b) && 0 <= b.minY && b.maxY <= WORLD_Y_MAX
  }

  predicate Holds(b: Box, x: Coord, y: WorldY, z: Coord) {
    b.minX <= x <= b.maxX && b.minY <= y <= b.maxY && b.minZ <= z <= b.maxZ
  }

  /** The section contains at least one block of the box. */
  ghost predicate Touches(s: SectionId, b: Box) {
    exists x: Coord, y: WorldY, z: Coord :: Holds(b, x, y, z) && SectionAt(x, y, z) == s
  }

  function SpanOf(b: Box): Span
    requires WellFormed(b)
  {
    Span(FloorDiv(b.minX), FloorDiv(b.maxX), b.minY / SECTION_EXTENT, b.maxY / SECTION_EXTENT,
         FloorDiv(b.minZ), FloorDiv(b.maxZ))
  }

  predicate Within(s: SectionId, p: Span) {
    p.x0 <= s.x <= p.x1 && p.y0 <= s.y <= p.y1 && p.z0 <= s.z <= p.z1
  }

  function Width(lo: int, hi: int): nat {
    if lo <= hi then hi - lo + 1 else 0
  }

  function Count(p: Span): nat {
    Width(p.x0, p.x1) * Width(p.y0, p.y1) * Width(p.z0, p.z1)
  }

  lemma TouchesIsWithin(s: SectionId, b: Box)
    requires WellFormed(b)
    ensures Touches(s, b) <==> Within(s, SpanOf(b))
  {
    if Within(s, SpanOf(b)) {
      var x := if b.minX > 16 * s.x then b.minX else 16 * s.x;
      var y := if b.minY > 16 * s.y then b.minY else 16 * s.y;
      var z := if b.minZ > 16 * s.z then b.minZ else 16 * s.z;
      assert Holds(b, x, y, z) && SectionAt(x, y, z) == s;
    }
  }

  // ---- what the nested loops have visited

  predicate Earlier(s: SectionId, x: int, y: int, z: int) {
    s.x < x || (s.x == x && (s.y < y || (s.y == y && s.z < z)))
  }

  ghost predicate Visited(ids: set<SectionId>, p: Span, x: int, y: int, z: int) {
    && (forall s :: s in ids <==> Within(s, p) && Earlier(s, x, y, z))
    && |ids| == ((x - p.x0) * Width(p.y0, p.y1) + (y - p.y0)) * Width(p.z0, p.z1) + (z - p.z0)
  }

  predicate Forward(p: Span) {
    p.x0 <= p.x1 && p.y0 <= p.y1 && p.z0 <= p.z1
  }

  lemma VisitOne(ids: set<SectionId>, p: Span, s: SectionId)
    requires Within(s, p) && Visited(ids, p, s.x, s.y, s.z)
    ensures Visited(ids + {s}, p, s.x, s.y, s.z + 1) && s !in ids
  {
  }

  lemma RowDone(ids: set<SectionId>, p: Span, x: int, y: int)
    requires Forward(p) && Visited(ids, p, x, y, p.z1 + 1)
    ensures Visited(ids, p, x, y + 1, p.z0)
  {
    Distribute(x - p.x0, y - p.y0, Width(p.y0, p.y1), Width(p.z0, p.z1));
  }

  lemma Distribute(a: int, b: int, m: int, n: int)
    ensures (a * m + (b + 1)) * n == (a * m + b) * n + n
  {
  }

  lemma LayerDone(ids: set<SectionId>, p: Span, x: int)
    requires Forward(p) && Visited(ids, p, x, p.y1 + 1, p.z0)
    ensures Visited(ids, p, x + 1, p.y0, p.z0)
  {
    assert (x - p.x0) * Width(p.y0, p.y1) + Width(p.y0, p.y1) == (x + 1 - p.x0) * Width(p.y0, p.y1);
  }

  lemma AllVisited(ids: set<SectionId>, p: Span)
    requires Forward(p) && Visited(ids, p, p.x1 + 1, p.y0, p.z0)
    ensures forall s :: s in ids <==> Within(s, p)
    ensures |ids| == Count(p)
  {
  }

  /** The keys of the sections visited. */
  predicate KeysOf(keys: set<string>, ids: set<SectionId>) {
    && (forall s :: s in ids ==> SectionKey(s) in keys)
    && (forall k :: k in keys ==> ParseSection(k).Ok? && ParseSection(k).value in ids)
    && |keys| == |ids|
  }

  lemma KeyOneMore(keys: set<string>, ids: set<SectionId>, s: SectionId)
    requires KeysOf(keys, ids) && s !in ids
    ensures KeysOf(keys + {SectionKey(s)}, ids + {s})
  {
    ParseSectionIsExact(SectionKey(s), s);
    hide ParseSection;
    hide SectionKey;
  }

  /** Does this key name a section holding a block of the box? */
  ghost predicate KeyTouches(key: string, b: Box) {
    exists s :: Touches(s, b) && key == SectionKey(s)
  }

  lemma KeysAreTheTouched(keys: set<string>, ids: set<SectionId>, b: Box)
    requires WellFormed(b) && KeysOf(keys, ids)
    requires forall s :: s in ids <==> Within(s, SpanOf(b))
    ensures forall k :: k in keys <==> KeyTouches(k, b)
  {
    hide ParseSection;
    hide SectionKey;
    forall k | k in keys ensures KeyTouches(k, b) {
      var s := ParseSection(k).value;
      ParseSectionIsExact(k, s);
      TouchesIsWithin(s, b);
    }
    forall k | KeyTouches(k, b) ensures k in keys {
      var s :| Touches(s, b) && k == SectionKey(s);
      TouchesIsWithin(s, b);
    }
  }

  // ---- the nested loops

  method VisitSpan(p: Span, ghost b: Box) returns (keys: set<string>)
    requires WellFormed(b) && p == SpanOf(b)
    ensures forall k :: k in keys <==> KeyTouches(k, b)
    ensures |keys| == Count(p)
  {
    hide ParseSection;
    hide SectionKey;
    hide Visited;
    hide KeysOf;
    hide KeyTouches;
    hide Earlier;
    keys := {};
    ghost var ids: set<SectionId> := {};
    StartVisit(p);
    for x: int := p.x0 to p.x1 + 1
      invariant KeysOf(keys, ids) && Visited(ids, p, x, p.y0, p.z0)
    {
      for y: int := p.y0 to p.y1 + 1
        invariant KeysOf(keys, ids) && Visited(ids, p, x, y, p.z0)
      {
        for z: int := p.z0 to p.z1 + 1
          invariant KeysOf(keys, ids) && Visited(ids, p, x, y, z)
        {
          var s := SectionId(x, y, z);
          VisitOne(ids, p, s);
          KeyOneMore(keys, ids, s);
          keys := keys + {SectionKey(s)};
          ids := ids + {s};
        }
        RowDone(ids, p, x, y);
      }
      LayerDone(ids, p, x);
    }
    AllVisited(ids, p);
    KeysAreTheTouched(keys, ids, b);
    KeysCount(keys, ids);
  }

  lemma KeysCount(keys: set<string>, ids: set<SectionId>)
    requires KeysOf(keys, ids)
    ensures |keys| == |ids|
  {
  }

  lemma StartVisit(p: Span)
    requires Forward(p)
    ensures Visited({}, p, p.x0, p.y0, p.z0) && KeysOf({}, {})
  {
  }

  /**
   Region expansion is exact: an ordered box inside the world height is refused exactly when the number of
   sections exceeds the smaller budget; otherwise the result lists, sorted and without duplicates, the keys of
   precisely the sections holding a block of the box, as many as the span product.
   */
  method SectionKeysForRegion(b: Box, budget: PinBudget) returns (r: Result<seq<string>, PinError>)
    ensures r == Err(InvalidHandle) <==> !Ordered(b)
    ensures r == Err(WorldYOutOfRange) <==> Ordered(b) && !WellFormed(b)
    ensures r == Err(BudgetExceeded) <==>
      WellFormed(b) && (Count(SpanOf(b)) > budget.callerSections || Count(SpanOf(b)) > budget.hostSections)
    ensures r.Ok? <==>
      WellFormed(b) && Count(SpanOf(b)) <= budget.callerSections && Count(SpanOf(b)) <= budget.hostSections
    ensures r.Ok? ==> forall k :: k in r.value <==> KeyTouches(k, b)
    ensures r.Ok? ==> |r.value| == Count(SpanOf(b)) && NoRepeats(r.value)
    ensures r.Ok? ==> forall i, j :: 0 <= i < j < |r.value| ==> Before(r.value[i], r.value[j])
  {
    hide KeyTouches;
    hide Before;
    hide NoRepeats;
    hide Count;
    if b.minX > b.maxX || b.minY > b.maxY || b.minZ > b.maxZ {
      return Err(InvalidHandle);
    }
    if b.minY < 0 || b.minY > WORLD_Y_MAX || b.maxY < 0 || b.maxY > WORLD_Y_MAX {
      return Err(WorldYOutOfRange);
    }
    var p := SpanOf(b);
    if Count(p) > Limit(budget) {
      return Err(BudgetExceeded);
    }
    var keys := VisitSpan(p, b);
    SortedNamesAreDistinct(keys);
    r := Ok(SortedNames(keys));
  }
}
