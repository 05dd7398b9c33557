/** Block reads over an immutable cut: single cells, buffered boxes and columns, and grouped results. */
module BlockRead {
  import opened Wrappers
  import opened Keys
  import opened Blocks

  const MAX_CELLS_PER_READ: nat := 262144

  datatype ReadError = InvalidHandle | WorldYOutOfRange | ReadBudgetExceeded

  datatype Presence = Ready | Unchanged | Pending | Unavailable

  datatype ReadSection = ReadSection(presence: Presence, revision: U64, storage: Option<Cells>)

  type ReadWorld = map<SectionId, ReadSection>

  /** World coordinates; the height is not checked yet. */
  datatype Point = Point(x: Coord, y: int, z: Coord)

  /** What distinguishes one segment from the next. */
  datatype Header = Header(section: SectionId, presence: Presence, revision: U64)

  datatype Observed = Observed(header: Header, offset: CellOffset, block: Option<BlockId>)

  datatype Segment = Segment(header: Header, first: nat, count: nat)

  datatype Summary = Summary(cells: nat, segments: nat, fullyResolved: bool)

  // ---- one cell

  /** A section the world does not hold reads as unavailable at revision zero. */
  function CellAt(world: ReadWorld, p: Point): Result<Observed, ReadError> {
    if p.y < 0 || p.y > WORLD_Y_MAX then Err(WorldYOutOfRange)
    else
      var section, offset := SectionAt(p.x, p.y, p.z), OffsetAt(p.x, p.y, p.z);
      if section !in world then Ok(Observed(Header(section, Unavailable, 0), offset, None))
      else
        var held := world[section];
        if held.storage.None? then Ok(Observed(Header(section, held.presence, held.revision), offset, None))
        else if held.presence != Ready && held.presence != Unchanged then Err(InvalidHandle)
        else Ok(Observed(Header(section, held.presence, held.revision), offset, Some(held.storage.value[offset])))
  }

  /**
   A read of a world cell is decided by the section that holds the cell: its stored block at the cell's own offset
   when the section is Ready or Unchanged, no block when it has no storage, unavailable at revision zero when the
   world does not hold it, and a refusal when it has storage in any other state.
   */
  lemma ReadIsOfItsCell(world: ReadWorld, section: SectionId, o: CellOffset, p: Point)
    requires WorldCell(section, o) == (p.x, p.y, p.z)
    ensures section !in world ==> CellAt(world, p) == Ok(Observed(Header(section, Unavailable, 0), o, None))
    ensures section in world ==>
      var held := world[section];
      var header := Header(section, held.presence, held.revision);
      && (held.storage.None? ==> CellAt(world, p) == Ok(Observed(header, o, None)))
      && (held.storage.Some? && (held.presence.Ready? || held.presence.Unchanged?) ==>
            CellAt(world, p) == Ok(Observed(header, o, Some(held.storage.value[o]))))
      && (held.storage.Some? && (held.presence.Pending? || held.presence.Unavailable?) ==>
            CellAt(world, p) == Err(InvalidHandle))
  {
    AddressOfWorldCell(section, o);
  }

  /** A read outside the world's heights is refused, and any other is of a cell some section addresses. */
  lemma ReadableHeights(world: ReadWorld, p: Point)
    ensures p.y < 0 || p.y > 255 <==> CellAt(world, p) == Err(WorldYOutOfRange)
    ensures 0 <= p.y <= 255 ==> exists section, o :: WorldCell(section, o) == (p.x, p.y, p.z)
  {
    if 0 <= p.y <= 255 {
      WorldCellOfAddress(p.x, p.y, p.z);
    }
  }

  /** Different points read different cells, each under the address of its own point. */
  lemma DistinctPointsDistinctCells(world: ReadWorld, p: Point, q: Point)
    requires CellAt(world, p).Ok? && CellAt(world, q).Ok? && p != q
    ensures var a, b := CellAt(world, p).value, CellAt(world, q).value;
      && WorldCell(a.header.section, a.offset) == (p.x, p.y, p.z)
      && WorldCell(b.header.section, b.offset) == (q.x, q.y, q.z)
      && (a.header.section != b.header.section || a.offset != b.offset)
  {
    WorldCellOfAddress(p.x, p.y, p.z);
    WorldCellOfAddress(q.x, q.y, q.z);
  }

  predicate AllReadable(world: ReadWorld, cells: seq<Point>) {
    forall i :: 0 <= i < |cells| ==> CellAt(world, cells[i]).Ok?
  }

  /** The first cell that cannot be read fails with this error. */
  predicate FirstUnreadable(world: ReadWorld, cells: seq<Point>, error: ReadError) {
    exists i :: 0 <= i < |cells| && CellAt(world, cells[i]) == Err(error) && AllReadable(world, cells[..i])
  }

  function Headers(world: ReadWorld, cells: seq<Point>): (headers: seq<Header>)
    requires AllReadable(world, cells)
    ensures |headers| == |cells|
    ensures forall i :: 0 <= i < |cells| ==> headers[i] == CellAt(world, cells[i]).value.header
  {
    seq(|cells|, i requires 0 <= i < |cells| => CellAt(world, cells[i]).value.header)
  }

  // ---- maximal runs

  /** The runs of equal headers, in order. */
  function RunsOf(headers: seq<Header>): seq<Segment> {
    if headers == [] then [] else
    var runs, n, h := RunsOf(headers[..|headers| - 1]), |headers| - 1, headers[|headers| - 1];
    if runs != [] && runs[|runs| - 1].header == h
    then runs[..|runs| - 1] + [runs[|runs| - 1].(count := runs[|runs| - 1].count + 1)]
    else runs + [Segment(h, n, 1)]
  }

  /** How often the header changes, counting the first one. */
  function Changes(headers: seq<Header>): nat {
    if headers == [] then 0
    else
      var n := |headers| - 1;
      Changes(headers[..n]) + if n == 0 || headers[n - 1] != headers[n] then 1 else 0
  }

  predicate SameHeader(run: Segment, headers: seq<Header>) {
    && run.count > 0 && run.first + run.count <= |headers|
    && forall i :: run.first <= i < run.first + run.count ==> headers[i] == run.header
  }

  /** The runs cover the positions without gap or overlap, each is uniform, and neighbours differ. */
  predicate Tile(runs: seq<Segment>, headers: seq<Header>) {
    && (runs == [] <==> headers == [])
    && (runs != [] ==> runs[0].first == 0 && runs[|runs| - 1].first + runs[|runs| - 1].count == |headers|)
    && (forall k :: 0 <= k < |runs| ==> SameHeader(runs[k], headers))
    && (forall k :: 0 < k < |runs| ==>
          runs[k].first == runs[k - 1].first + runs[k - 1].count && runs[k].header != runs[k - 1].header)
  }

  lemma RunGrows(run: Segment, headers: seq<Header>, h: Header)
    requires SameHeader(run, headers)
    ensures SameHeader(run, headers + [h])
    ensures run.first + run.count == |headers| && run.header == h
        ==> SameHeader(run.(count := run.count + 1), headers + [h])
  {
  }

  lemma AllRunsGrow(runs: seq<Segment>, headers: seq<Header>, h: Header)
    requires forall k :: 0 <= k < |runs| ==> SameHeader(runs[k], headers)
    ensures forall k :: 0 <= k < |runs| ==> SameHeader(runs[k], headers + [h])
  {
    forall k | 0 <= k < |runs| ensures SameHeader(runs[k], headers + [h]) {
      RunGrows(runs[k], headers, h);
    }
  }

  lemma TileExtends(runs: seq<Segment>, headers: seq<Header>, h: Header)
    requires Tile(runs, headers) && runs != [] && runs[|runs| - 1].header == h
    ensures Tile(runs[..|runs| - 1] + [runs[|runs| - 1].(count := runs[|runs| - 1].count + 1)], headers + [h])
  {
    hide SameHeader;
    AllRunsGrow(runs, headers, h);
    RunGrows(runs[|runs| - 1], headers, h);
  }

  lemma TileAppends(runs: seq<Segment>, headers: seq<Header>, h: Header)
    requires Tile(runs, headers) && (runs != [] ==> runs[|runs| - 1].header != h)
    ensures Tile(runs + [Segment(h, |headers|, 1)], headers + [h])
  {
    AllRunsGrow(runs, headers, h);
    OneCellRun(headers + [h], |headers|);
    hide SameHeader;
  }

  /** The runs tile the positions maximally, and there are as many as header changes. */
  lemma {:induction false} RunsTile(headers: seq<Header>)
    ensures Tile(RunsOf(headers), headers)
    ensures |RunsOf(headers)| == Changes(headers)
  {
    hide Tile;
    if headers == [] {
      NothingTiles();
    } else {
      var n := |headers| - 1;
      var init, h := headers[..n], headers[n];
      RunsTile(init);
      assert headers == init + [h];
      var before := RunsOf(init);
      LastRunHolds(before, init);
      if before != [] && before[|before| - 1].header == h {
        TileExtends(before, init, h);
      } else {
        TileAppends(before, init, h);
      }
    }
  }

  lemma NothingTiles()
    ensures Tile([], [])
  {
  }

  lemma OneCellRun(headers: seq<Header>, n: nat)
    requires n < |headers|
    ensures SameHeader(Segment(headers[n], n, 1), headers)
  {
  }

  lemma LastRunHolds(runs: seq<Segment>, headers: seq<Header>)
    requires Tile(runs, headers)
    ensures runs == [] <==> headers == []
    ensures runs != [] ==> runs[|runs| - 1].header == headers[|headers| - 1]
  {
    if runs != [] {
      assert SameHeader(runs[|runs| - 1], headers);
    }
  }

  // ---- the order of a box

  datatype Box = Box(min: Point, max: Point)

  predicate Ordered(b: Box) {
    b.min.x <= b.max.x && b.min.y <= b.max.y && b.min.z <= b.max.z
  }

  predicate WellFormed(b: Box) {
    Ordered(b) && 0 <= b.min.y && b.max.y <= WORLD_Y_MAX
  }

  function Width(b: Box): nat requires Ordered(b) { b.max.x - b.min.x + 1 }
  function Height(b: Box): nat requires Ordered(b) { b.max.y - b.min.y + 1 }
  function Depth(b: Box): nat requires Ordered(b) { b.max.z - b.min.z + 1 }

  /** The number of cells of a box; the source's overflow is refused like any other excess. */
  function BoxCellCount(b: Box): Result<nat, ReadError> {
    if !Ordered(b) then Err(InvalidHandle)
    else if b.min.y < 0 || b.min.y > WORLD_Y_MAX || b.max.y < 0 || b.max.y > WORLD_Y_MAX then Err(WorldYOutOfRange)
    else Ok(Width(b) * Height(b) * Depth(b))
  }

  function Row(b: Box, y: int, z: Coord): (row: seq<Point>)
    requires Ordered(b)
    ensures |row| == Width(b)
  {
    seq(Width(b), i requires 0 <= i < Width(b) => Point(b.min.x + i, y, z))
  }

  /** The first rows of one height. */
  function Rows(b: Box, y: int, n: nat): seq<Point>
    requires Ordered(b) && n <= Depth(b)
  {
    if n == 0 then [] else Rows(b, y, n - 1) + Row(b, y, b.min.z + n - 1)
  }

  /** The first layers, y outermost. */
  function Layers(b: Box, n: nat): seq<Point>
    requires Ordered(b) && n <= Height(b)
  {
    if n == 0 then [] else Layers(b, n - 1) + Rows(b, b.min.y + n - 1, Depth(b))
  }

  /** Every cell of the box: y outer, z middle, x inner. */
  function BoxCells(b: Box): seq<Point>
    requires Ordered(b)
  {
    Layers(b, Height(b))
  }

  lemma {:induction false} RowsIndex(b: Box, y: int, n: nat, k: nat, i: nat)
    requires Ordered(b) && n <= Depth(b)
    ensures |Rows(b, y, n)| == Width(b) * n
    ensures k < n && i < Width(b) ==>
      Width(b) * k + i < |Rows(b, y, n)| && Rows(b, y, n)[Width(b) * k + i] == Point(b.min.x + i, y, b.min.z + k)
  {
    if n > 0 {
      RowsIndex(b, y, n - 1, k, i);
      Distribute(Width(b), n - 1);
      if k < n && i < Width(b) {
        Below(Width(b), k, i, n);
      }
    }
  }

  lemma Distribute(w: nat, n: nat)
    ensures w * (n + 1) == w * n + w
  {
  }

  lemma Below(w: nat, k: nat, i: nat, n: nat)
    requires k < n && i < w
    ensures w * k + i < w * n
  {
    Distribute(w, k);
    if k + 1 < n {
      Below(w, k, i, n - 1);
      Distribute(w, n - 1);
    }
  }

  /** The position of a cell of the box in the reading order. */
  function Position(b: Box, p: Point): int
    requires Ordered(b)
  {
    Width(b) * Depth(b) * (p.y - b.min.y) + (Width(b) * (p.z - b.min.z) + (p.x - b.min.x))
  }

  predicate InBox(b: Box, p: Point) {
    b.min.x <= p.x <= b.max.x && b.min.y <= p.y <= b.max.y && b.min.z <= p.z <= b.max.z
  }

  lemma RowsHold(b: Box, p: Point)
    requires Ordered(b) && InBox(b, p)
    ensures var at := Width(b) * (p.z - b.min.z) + (p.x - b.min.x);
      && |Rows(b, p.y, Depth(b))| == Width(b) * Depth(b)
      && 0 <= at < |Rows(b, p.y, Depth(b))| && Rows(b, p.y, Depth(b))[at] == p
  {
    RowsIndex(b, p.y, Depth(b), p.z - b.min.z, p.x - b.min.x);
    Below(Width(b), p.z - b.min.z, p.x - b.min.x, Depth(b));
    NonNegative(Width(b), p.z - b.min.z);
  }

  lemma NonNegative(a: nat, b: nat)
    ensures a * b >= 0
  {
  }

  lemma {:induction false} LayersSize(b: Box, n: nat)
    requires Ordered(b) && n <= Height(b)
    ensures |Layers(b, n)| == Width(b) * Depth(b) * n
  {
    if n > 0 {
      LayersSize(b, n - 1);
      RowsIndex(b, b.min.y + n - 1, Depth(b), 0, 0);
      hide Rows;
      Distribute(Width(b) * Depth(b), n - 1);
    }
  }

  /** Layer y starts at its share of the planes before it. */
  lemma {:induction false} LayerHolds(b: Box, n: nat, y: int, at: nat)
    requires Ordered(b) && n <= Height(b) && b.min.y <= y < b.min.y + n
    requires at < |Rows(b, y, Depth(b))|
    ensures var start := |Layers(b, y - b.min.y)|;
      start + at < |Layers(b, n)| && Layers(b, n)[start + at] == Rows(b, y, Depth(b))[at]
  {
    hide Rows;
    if y < b.min.y + n - 1 {
      LayerHolds(b, n - 1, y, at);
    }
  }

  lemma BoxHolds(b: Box, p: Point)
    requires Ordered(b) && InBox(b, p)
    ensures 0 <= Position(b, p) < |BoxCells(b)| && BoxCells(b)[Position(b, p)] == p
  {
    RowsHold(b, p);
    LayersSize(b, p.y - b.min.y);
    LayerHolds(b, Height(b), p.y, Width(b) * (p.z - b.min.z) + (p.x - b.min.x));
  }

  lemma {:induction false} LayersInBox(b: Box, n: nat)
    requires Ordered(b) && n <= Height(b)
    ensures forall p :: p in Layers(b, n) ==> InBox(b, p)
  {
    if n > 0 {
      LayersInBox(b, n - 1);
      RowsInBox(b, b.min.y + n - 1, Depth(b));
    }
  }

  lemma {:induction false} RowsInBox(b: Box, y: int, n: nat)
    requires Ordered(b) && n <= Depth(b) && b.min.y <= y <= b.max.y
    ensures forall p :: p in Rows(b, y, n) ==> InBox(b, p)
  {
    if n > 0 {
      RowsInBox(b, y, n - 1);
    }
  }

  /** The reading order lists exactly the cells of the box, as many as the count, each at its position. */
  lemma BoxOrder(b: Box, p: Point)
    requires WellFormed(b)
    ensures BoxCellCount(b) == Ok(|BoxCells(b)|)
    ensures p in BoxCells(b) <==> InBox(b, p)
    ensures InBox(b, p) ==> 0 <= Position(b, p) < |BoxCells(b)| && BoxCells(b)[Position(b, p)] == p
  {
    LayersSize(b, Height(b));
    LayersInBox(b, Height(b));
    Reorder(Width(b), Height(b), Depth(b));
    if InBox(b, p) {
      BoxHolds(b, p);
    }
  }

  lemma Reorder(w: nat, h: nat, d: nat)
    ensures w * d * h == w * h * d
  {
    assert w * d * h == w * (d * h) && w * h * d == w * (h * d) by { Assoc(w, d, h); Assoc(w, h, d); }
    assert d * h == h * d;
  }

  lemma Assoc(a: nat, b: nat, c: nat)
    ensures a * b * c == a * (b * c)
  {
  }

  predicate ComesBefore(p: Point, q: Point) {
    p.y < q.y || (p.y == q.y && (p.z < q.z || (p.z == q.z && p.x < q.x)))
  }

  lemma Further(w: nat, a: nat, i: nat, b: nat, j: nat)
    requires a < b && i < w
    ensures w * a + i < w * b + j
  {
    Below(w, a, i, b);
  }

  /** The reading order is y, then z, then x. */
  lemma OrderIsHeightFirst(b: Box, p: Point, q: Point)
    requires Ordered(b) && InBox(b, p) && InBox(b, q)
    ensures Position(b, p) < Position(b, q) <==> ComesBefore(p, q)
  {
    if ComesBefore(p, q) {
      EarlierCell(b, p, q);
    } else if p != q {
      EarlierCell(b, q, p);
    }
  }

  lemma EarlierCell(b: Box, p: Point, q: Point)
    requires Ordered(b) && InBox(b, p) && InBox(b, q) && ComesBefore(p, q)
    ensures Position(b, p) < Position(b, q)
  {
    var w, d := Width(b), Depth(b);
    if p.y == q.y {
      if p.z < q.z {
        Further(w, p.z - b.min.z, p.x - b.min.x, q.z - b.min.z, q.x - b.min.x);
      }
    } else {
      Below(w, p.z - b.min.z, p.x - b.min.x, d);
      NonNegative(w, p.z - b.min.z);
      NonNegative(w, q.z - b.min.z);
      Further(w * d, p.y - b.min.y, w * (p.z - b.min.z) + (p.x - b.min.x),
              q.y - b.min.y, w * (q.z - b.min.z) + (q.x - b.min.x));
    }
  }

  // ---- buffered reads

  /** A whole pass over the cells before anything is written. */
  method PreflightCells(world: ReadWorld, cells: seq<Point>) returns (r: Result<Summary, ReadError>)
    ensures r.Ok? <==> |cells| <= MAX_CELLS_PER_READ && AllReadable(world, cells)
    ensures r.Ok? ==>
      && r.value.cells == |cells|
      && r.value.segments == |RunsOf(Headers(world, cells))|
      && (r.value.fullyResolved <==> forall i :: 0 <= i < |cells| ==> CellAt(world, cells[i]).value.block.Some?)
    ensures |cells| > MAX_CELLS_PER_READ ==> r == Err(ReadBudgetExceeded)
    ensures r.Err? && |cells| <= MAX_CELLS_PER_READ ==> FirstUnreadable(world, cells, r.error)
  {
    hide CellAt;
    hide Changes;
    hide RunsOf;
    if |cells| > MAX_CELLS_PER_READ {
      return Err(ReadBudgetExceeded);
    }
    NoHeaders(world, cells[..0]);
    var segmentCount := 0;
    var previous: Option<Header> := None;
    var fullyResolved := true;
    for i := 0 to |cells|
      invariant AllReadable(world, cells[..i])
      invariant segmentCount == Changes(Headers(world, cells[..i]))
      invariant previous == if i == 0 then None else Some(CellAt(world, cells[i - 1]).value.header)
      invariant fullyResolved <==> forall k :: 0 <= k < i ==> CellAt(world, cells[k]).value.block.Some?
    {
      assert cells[i] in cells;
      var observed := CellAt(world, cells[i]);
      if observed.Err? {
        return Err(observed.error);
      }
      HeadersGrow(world, cells, i);
      if previous != Some(observed.value.header) {
        segmentCount := segmentCount + 1;
        previous := Some(observed.value.header);
      }
      fullyResolved := fullyResolved && observed.value.block.Some?;
    }
    assert cells[..|cells|] == cells;
    RunsTile(Headers(world, cells));
    r := Ok(Summary(|cells|, segmentCount, fullyResolved));
  }

  lemma NoHeaders(world: ReadWorld, none: seq<Point>)
    requires none == []
    ensures AllReadable(world, none) && Changes(Headers(world, none)) == 0
  {
  }

  lemma HeadersGrow(world: ReadWorld, cells: seq<Point>, i: nat)
    requires i < |cells| && AllReadable(world, cells[..i]) && CellAt(world, cells[i]).Ok?
    ensures AllReadable(world, cells[..i + 1])
    ensures Headers(world, cells[..i + 1]) == Headers(world, cells[..i]) + [CellAt(world, cells[i]).value.header]
    ensures Changes(Headers(world, cells[..i + 1])) == Changes(Headers(world, cells[..i]))
        + if i == 0 || CellAt(world, cells[i - 1]).value.header != CellAt(world, cells[i]).value.header then 1 else 0
  {
    hide CellAt;
    var next := cells[..i + 1];
    forall k | 0 <= k < |next| ensures CellAt(world, next[k]).Ok? {
      assert k < i ==> next[k] == cells[..i][k];
    }
    var before, after := Headers(world, cells[..i]), Headers(world, cells[..i + 1]);
    assert after == before + [CellAt(world, cells[i]).value.header];
    assert after[..i] == before;
    if i > 0 {
      assert after[i - 1] == CellAt(world, cells[i - 1]).value.header;
    }
  }

  /** The emitted runs, plus the one still open. */
  function Emitted(runs: seq<Segment>, current: Option<Segment>): seq<Segment> {
    if current.None? then runs else runs + [current.value]
  }

  lemma RunsStep(headers: seq<Header>, h: Header, runs: seq<Segment>, current: Option<Segment>)
    requires RunsOf(headers) == Emitted(runs, current) && (current.None? ==> runs == [])
    ensures RunsOf(headers + [h]) ==
      if current.Some? && current.value.header == h
      then runs + [current.value.(count := current.value.count + 1)]
      else Emitted(runs, current) + [Segment(h, |headers|, 1)]
  {
    assert (headers + [h])[..|headers|] == headers;
    var before := RunsOf(headers);
    if current.Some? {
      assert before[..|before| - 1] == runs;
    }
  }

  /** A segment buffer after its first slots received the runs. */
  function Filled(before: seq<Option<Segment>>, runs: seq<Segment>): (after: seq<Option<Segment>>)
    requires |runs| <= |before|
    ensures |after| == |before|
    ensures forall k :: 0 <= k < |runs| ==> after[k] == Some(runs[k])
    ensures forall k :: |runs| <= k < |before| ==> after[k] == before[k]
  {
    seq(|before|, k requires 0 <= k < |before| => if k < |runs| then Some(runs[k]) else before[k])
  }

  method EmitSegment(segments: array<Option<Segment>>, run: Segment, ghost before: seq<Option<Segment>>,
                     ghost runs: seq<Segment>, index: nat)
    requires index == |runs| < segments.Length == |before| && segments[..] == Filled(before, runs)
    modifies segments
    ensures segments[..] == Filled(before, runs + [run])
  {
    segments[index] := Some(run);
    assert forall k :: 0 <= k < segments.Length ==> k != index ==> segments[k] == Filled(before, runs)[k];
  }

  /** Fill the caller's buffers; the preflight has shown that nothing can fail any more. */
  method VisitCells(world: ReadWorld, cells: seq<Point>, blocks: array<Option<BlockId>>,
                    segments: array<Option<Segment>>)
    requires AllReadable(world, cells) && blocks.Length == |cells|
    requires |RunsOf(Headers(world, cells))| <= segments.Length
    modifies blocks, segments
    ensures forall i :: 0 <= i < |cells| ==> blocks[i] == CellAt(world, cells[i]).value.block
    ensures segments[..] == Filled(old(segments[..]), RunsOf(Headers(world, cells)))
  {
    hide CellAt;
    hide RunsOf;
    hide Filled;
    hide Changes;
    ghost var before := segments[..];
    ghost var runs: seq<Segment> := [];
    var current: Option<Segment> := None;
    var segmentIndex := 0;
    NoRuns();
    NothingFilled(before);
    assert Headers(world, cells[..0]) == [];
    for position := 0 to |cells|
      invariant AllReadable(world, cells[..position])
      invariant segmentIndex == |runs| <= segments.Length
      invariant current.None? ==> runs == []
      invariant RunsOf(Headers(world, cells[..position])) == Emitted(runs, current)
      invariant forall i :: 0 <= i < position ==> blocks[i] == CellAt(world, cells[i]).value.block
      invariant segments[..] == Filled(before, runs)
    {
      var observed := CellAt(world, cells[position]).value;
      blocks[position] := observed.block;
      assert segments[..] == Filled(before, runs);
      HeadersGrow(world, cells, position);
      RunsStep(Headers(world, cells[..position]), observed.header, runs, current);
      if current.Some? && current.value.header == observed.header {
        current := Some(current.value.(count := current.value.count + 1));
      } else {
        if current.Some? {
          RunsNeverShrink(world, cells, position + 1);
          EmitSegment(segments, current.value, before, runs, segmentIndex);
          segmentIndex := segmentIndex + 1;
          runs := runs + [current.value];
        }
        current := Some(Segment(observed.header, position, 1));
      }
    }
    assert cells[..|cells|] == cells;
    if current.Some? {
      EmitSegment(segments, current.value, before, runs, segmentIndex);
    }
  }

  lemma NothingFilled(before: seq<Option<Segment>>)
    ensures Filled(before, []) == before
  {
  }

  lemma NoRuns()
    ensures RunsOf([]) == []
  {
  }

  lemma ReadablePrefix(world: ReadWorld, cells: seq<Point>, n: nat)
    requires AllReadable(world, cells) && n <= |cells|
    ensures AllReadable(world, cells[..n])
    ensures n < |cells| ==> CellAt(world, cells[n]).Ok?
  {
    hide CellAt;
  }

  lemma {:induction false} RunsNeverShrink(world: ReadWorld, cells: seq<Point>, n: nat)
    requires AllReadable(world, cells) && n <= |cells|
    ensures AllReadable(world, cells[..n])
    ensures |RunsOf(Headers(world, cells[..n]))| <= |RunsOf(Headers(world, cells))|
    decreases |cells| - n
  {
    hide CellAt;
    hide RunsOf;
    hide Changes;
    hide Tile;
    ReadablePrefix(world, cells, n);
    if n < |cells| {
      RunsNeverShrink(world, cells, n + 1);
      HeadersGrow(world, cells, n);
      RunsTile(Headers(world, cells[..n]));
      RunsTile(Headers(world, cells[..n + 1]));
    } else {
      assert cells[..n] == cells;
    }
  }

  /**
   Buffered reads refine single-cell reads: slot i holds the block a single read returns for the i-th cell, the
   segments are the maximal runs, and any error leaves both buffers untouched.
   */
  method ReadCellsIntoBuffers(world: ReadWorld, cells: seq<Point>, blocks: array<Option<BlockId>>,
                              segments: array<Option<Segment>>)
    returns (r: Result<Summary, ReadError>)
    modifies blocks, segments
    ensures r.Ok? <==>
      && |cells| <= MAX_CELLS_PER_READ && AllReadable(world, cells)
      && blocks.Length == |cells| && segments.Length >= |RunsOf(Headers(world, cells))|
    ensures r.Err? ==> blocks[..] == old(blocks[..]) && segments[..] == old(segments[..])
    ensures r.Ok? ==> forall i :: 0 <= i < |cells| ==> blocks[i] == CellAt(world, cells[i]).value.block
    ensures r.Ok? ==>
      var runs := RunsOf(Headers(world, cells));
      && r.value.cells == |cells| && r.value.segments == |runs|
      && (r.value.fullyResolved <==> forall i :: 0 <= i < |cells| ==> blocks[i].Some?)
      && (forall k :: 0 <= k < |runs| ==> segments[k] == Some(runs[k]))
      && forall k :: |runs| <= k < segments.Length ==> segments[k] == old(segments[k])
    ensures |cells| > 262144 ==> r == Err(ReadBudgetExceeded)
    ensures |cells| <= MAX_CELLS_PER_READ && AllReadable(world, cells) && r.Err? ==> r.error == InvalidHandle
    ensures |cells| <= MAX_CELLS_PER_READ && !AllReadable(world, cells) ==> FirstUnreadable(world, cells, r.error)
  {
    hide CellAt;
    hide RunsOf;
    hide AllReadable;
    hide Headers;
    var summary := PreflightCells(world, cells);
    if summary.Err? {
      return Err(summary.error);
    }
    if blocks.Length != |cells| {
      return Err(InvalidHandle);
    }
    if segments.Length < summary.value.segments {
      return Err(InvalidHandle);
    }
    VisitCells(world, cells, blocks, segments);
    r := Ok(summary.value);
  }

  /**
   A box read into buffers is the buffered read of its cells in reading order: it succeeds exactly when the box is
   well formed, within the limit and readable and the buffers fit; the slot at a cell's position holds what a single
   read of it returns, and the segments are the maximal runs.
   */
  method ReadBoxInto(world: ReadWorld, b: Box, blocks: array<Option<BlockId>>, segments: array<Option<Segment>>)
    returns (r: Result<Summary, ReadError>)
    modifies blocks, segments
    ensures r.Err? ==> blocks[..] == old(blocks[..]) && segments[..] == old(segments[..])
    ensures r.Ok? <==>
      && WellFormed(b) && |BoxCells(b)| <= MAX_CELLS_PER_READ && AllReadable(world, BoxCells(b))
      && blocks.Length == |BoxCells(b)| && segments.Length >= |RunsOf(Headers(world, BoxCells(b)))|
    ensures r.Ok? ==>
      var runs := RunsOf(Headers(world, BoxCells(b)));
      && r.value.cells == |BoxCells(b)| && r.value.segments == |runs|
      && (forall k :: 0 <= k < |runs| ==> segments[k] == Some(runs[k]))
      && forall k :: |runs| <= k < segments.Length ==> segments[k] == old(segments[k])
    ensures r.Ok? ==> forall p :: InBox(b, p) ==>
      && 0 <= Position(b, p) < blocks.Length
      && CellAt(world, p).Ok? && blocks[Position(b, p)] == CellAt(world, p).value.block
    ensures !Ordered(b) ==> r == Err(InvalidHandle)
    ensures Ordered(b) && !WellFormed(b) ==> r == Err(WorldYOutOfRange)
    ensures WellFormed(b) && |BoxCells(b)| > MAX_CELLS_PER_READ ==> r == Err(ReadBudgetExceeded)
  {
    hide CellAt;
    hide RunsOf;
    hide Position;
    hide BoxCells;
    hide Layers;
    hide Width;
    hide Height;
    hide Depth;
    var count := BoxCellCount(b);
    if count.Err? {
      return Err(count.error);
    }
    BoxOrder(b, b.min);
    if count.value > MAX_CELLS_PER_READ {
      return Err(ReadBudgetExceeded);
    }
    r := ReadCellsIntoBuffers(world, BoxCells(b), blocks, segments);
    if r.Ok? {
      forall p | InBox(b, p)
        ensures 0 <= Position(b, p) < blocks.Length
        ensures CellAt(world, p).Ok? && blocks[Position(b, p)] == CellAt(world, p).value.block
      {
        BoxOrder(b, p);
      }
    }
  }

  /** A single read of the point succeeds and returns this block. */
  predicate Reads(world: ReadWorld, p: Point, block: Option<BlockId>) {
    CellAt(world, p).Ok? && CellAt(world, p).value.block == block
  }

  /** One column of cells from the lower height upward. */
  function ColumnCells(x: Coord, z: Coord, low: int, high: int): (cells: seq<Point>)
    requires low <= high
    ensures |cells| == high - low + 1
    ensures forall i :: 0 <= i < |cells| ==> cells[i] == Point(x, low + i, z)
  {
    seq(high - low + 1, i requires 0 <= i < high - low + 1 => Point(x, low + i, z))
  }

  /**
   A column read into buffers: slot i holds what a single read at height `low + i` returns, the segments are the
   maximal runs, and it succeeds exactly when the heights are in the world and ordered and the buffers fit.
   */
  method ReadColumnInto(world: ReadWorld, x: Coord, z: Coord, low: int, high: int,
                        blocks: array<Option<BlockId>>, segments: array<Option<Segment>>)
    returns (r: Result<Summary, ReadError>)
    modifies blocks, segments
    ensures r.Err? ==> blocks[..] == old(blocks[..]) && segments[..] == old(segments[..])
    ensures low > high ==> r == Err(InvalidHandle)
    ensures low <= high && (low < 0 || high > WORLD_Y_MAX) ==> r == Err(WorldYOutOfRange)
    ensures r.Ok? <==>
      && 0 <= low <= high <= WORLD_Y_MAX
      && AllReadable(world, ColumnCells(x, z, low, high)) && blocks.Length == high - low + 1
      && segments.Length >= |RunsOf(Headers(world, ColumnCells(x, z, low, high)))|
    ensures r.Ok? ==>
      var runs := RunsOf(Headers(world, ColumnCells(x, z, low, high)));
      && r.value.cells == high - low + 1 && r.value.segments == |runs|
      && (forall k :: 0 <= k < |runs| ==> segments[k] == Some(runs[k]))
      && forall k :: |runs| <= k < segments.Length ==> segments[k] == old(segments[k])
    ensures r.Ok? ==> forall i :: 0 <= i < blocks.Length ==> Reads(world, Point(x, low + i, z), blocks[i])
  {
    hide CellAt;
    hide RunsOf;
    if low > high {
      return Err(InvalidHandle);
    }
    if low < 0 || high > WORLD_Y_MAX {
      return Err(WorldYOutOfRange);
    }
    var cells := ColumnCells(x, z, low, high);
    r := ReadCellsIntoBuffers(world, cells, blocks, segments);
    if r.Ok? {
      forall i | 0 <= i < blocks.Length ensures Reads(world, Point(x, low + i, z), blocks[i]) {
        assert cells[i] == Point(x, low + i, z);
      }
    }
  }

  // ---- grouped reads

  datatype ReadCell = ReadCell(offset: CellOffset, block: Option<BlockId>)

  datatype Group = Group(header: Header, cells: seq<ReadCell>, blocks: Option<seq<BlockId>>)

  /** The cells of one section in reading order. */
  function CellsOf(observed: seq<Observed>, section: SectionId): seq<ReadCell> {
    if observed == [] then [] else
    var last := observed[|observed| - 1];
    CellsOf(observed[..|observed| - 1], section)
      + if last.header.section == section then [ReadCell(last.offset, last.block)] else []
  }

  /** The blocks of cells that all resolve. */
  function BlocksOf(cells: seq<ReadCell>): seq<BlockId> {
    if cells == [] then [] else
    var last := cells[|cells| - 1];
    BlocksOf(cells[..|cells| - 1]) + if last.block.Some? then [last.block.value] else []
  }

  /** Sections in the order of their first cell. */
  function FirstEncounters(observed: seq<Observed>): seq<SectionId> {
    if observed == [] then [] else
    var before, section := FirstEncounters(observed[..|observed| - 1]), observed[|observed| - 1].header.section;
    if section in before then before else before + [section]
  }

  predicate SectionResolves(world: ReadWorld, section: SectionId) {
    section in world && world[section].storage.Some?
  }

  /** Groups follow the first encounters, and each holds exactly its section's cells in reading order. */
  predicate StablyGrouped(world: ReadWorld, groups: seq<Group>, observed: seq<Observed>) {
    && |groups| == |FirstEncounters(observed)|
    && forall k :: 0 <= k < |groups| ==>
      && groups[k].header.section == FirstEncounters(observed)[k]
      && groups[k].header == HeaderOf(world, groups[k].header.section)
      && groups[k].cells == CellsOf(observed, groups[k].header.section)
      && groups[k].blocks == if SectionResolves(world, groups[k].header.section)
                             then Some(BlocksOf(groups[k].cells)) else None
  }

  function HeaderOf(world: ReadWorld, section: SectionId): Header {
    if section in world then Header(section, world[section].presence, world[section].revision)
    else Header(section, Unavailable, 0)
  }

  lemma HeaderOfCell(world: ReadWorld, p: Point)
    requires CellAt(world, p).Ok?
    ensures CellAt(world, p).value.header == HeaderOf(world, CellAt(world, p).value.header.section)
    ensures CellAt(world, p).value.block.Some? <==> SectionResolves(world, CellAt(world, p).value.header.section)
  {
  }

  function Observations(world: ReadWorld, cells: seq<Point>): (observed: seq<Observed>)
    requires AllReadable(world, cells)
    ensures |observed| == |cells|
    ensures forall i :: 0 <= i < |cells| ==> observed[i] == CellAt(world, cells[i]).value
  {
    seq(|cells|, i requires 0 <= i < |cells| => CellAt(world, cells[i]).value)
  }

  lemma {:induction false} EncountersAreDistinct(observed: seq<Observed>)
    ensures forall i, j :: 0 <= i < j < |FirstEncounters(observed)| ==>
      FirstEncounters(observed)[i] != FirstEncounters(observed)[j]
    ensures forall o :: o in observed ==> o.header.section in FirstEncounters(observed)
  {
    if observed != [] {
      var init, last := observed[..|observed| - 1], observed[|observed| - 1];
      EncountersAreDistinct(init);
      assert observed == init + [last];
    }
  }

  /** The section's first cell is the i-th. */
  predicate FirstSeen(observed: seq<Observed>, section: SectionId, i: nat) {
    && i < |observed| && observed[i].header.section == section
    && forall k :: 0 <= k < i ==> observed[k].header.section != section
  }

  lemma {:induction false} EncountersAreSeen(observed: seq<Observed>, k: nat) returns (i: nat)
    requires k < |FirstEncounters(observed)|
    ensures FirstSeen(observed, FirstEncounters(observed)[k], i)
  {
    var n := |observed| - 1;
    var init := observed[..n];
    if k < |FirstEncounters(init)| {
      i := EncountersAreSeen(init, k);
      assert forall j :: 0 <= j <= i ==> observed[j] == init[j];
    } else {
      i := n;
      EncountersAreDistinct(init);
      forall j | 0 <= j < n ensures observed[j].header.section != observed[n].header.section {
        assert observed[j] == init[j] && init[j] in init;
      }
    }
  }

  /** Sections are encountered in the order of their first cells. */
  lemma {:induction false} EncountersFollowCells(observed: seq<Observed>, a: nat, b: nat, i: nat, j: nat)
    requires a < b < |FirstEncounters(observed)|
    requires FirstSeen(observed, FirstEncounters(observed)[a], i)
    requires FirstSeen(observed, FirstEncounters(observed)[b], j)
    ensures i < j
  {
    var n := |observed| - 1;
    var init := observed[..n];
    assert forall k :: 0 <= k < n ==> observed[k] == init[k];
    if b < |FirstEncounters(init)| {
      var i' := EncountersAreSeen(init, a);
      var j' := EncountersAreSeen(init, b);
      assert i == i' && j == j';
      EncountersFollowCells(init, a, b, i, j);
    } else {
      var i' := EncountersAreSeen(init, a);
      assert i == i' < n;
      EncountersAreDistinct(init);
    }
  }

  /** The group of a section lists its cells, each after those read before it. */
  lemma {:induction false} CellsAreListed(observed: seq<Observed>, section: SectionId, i: nat)
    requires i < |observed| && observed[i].header.section == section
    ensures var at := |CellsOf(observed[..i], section)|;
      && at < |CellsOf(observed, section)|
      && CellsOf(observed, section)[at] == ReadCell(observed[i].offset, observed[i].block)
  {
    var n := |observed| - 1;
    if i < n {
      assert observed[..n][..i] == observed[..i];
      CellsAreListed(observed[..n], section, i);
    }
  }

  /** Every listed cell was read, so the group holds nothing else. */
  lemma {:induction false} ListedWasRead(observed: seq<Observed>, section: SectionId, k: nat) returns (i: nat)
    requires k < |CellsOf(observed, section)|
    ensures i < |observed| && observed[i].header.section == section && |CellsOf(observed[..i], section)| == k
  {
    var n := |observed| - 1;
    if k < |CellsOf(observed[..n], section)| {
      i := ListedWasRead(observed[..n], section, k);
      assert observed[..n][..i] == observed[..i];
    } else {
      i := n;
    }
  }

  lemma GroupSnoc(observed: seq<Observed>, o: Observed, section: SectionId)
    ensures CellsOf(observed + [o], section)
        == CellsOf(observed, section) + if o.header.section == section then [ReadCell(o.offset, o.block)] else []
    ensures FirstEncounters(observed + [o]) ==
      if o.header.section in FirstEncounters(observed) then FirstEncounters(observed)
      else FirstEncounters(observed) + [o.header.section]
  {
    assert (observed + [o])[..|observed|] == observed;
  }

  lemma BlocksSnoc(cells: seq<ReadCell>, c: ReadCell)
    ensures BlocksOf(cells + [c]) == BlocksOf(cells) + if c.block.Some? then [c.block.value] else []
  {
    assert (cells + [c])[..|cells|] == cells;
  }

  lemma {:induction false} UnseenHasNoCells(observed: seq<Observed>, section: SectionId)
    requires section !in FirstEncounters(observed)
    ensures CellsOf(observed, section) == []
  {
    if observed != [] {
      UnseenHasNoCells(observed[..|observed| - 1], section);
    }
  }

  /** One more cell joins the group of its section. */
  lemma JoinGroup(world: ReadWorld, groups: seq<Group>, observed: seq<Observed>, o: Observed, k: nat)
    requires StablyGrouped(world, groups, observed) && k < |groups| && groups[k].header.section == o.header.section
    requires o.block.Some? <==> SectionResolves(world, o.header.section)
    ensures StablyGrouped(world, groups[k := Joined(groups[k], o)], observed + [o])
  {
    hide CellsOf;
    hide BlocksOf;
    hide FirstEncounters;
    hide HeaderOf;
    hide SectionResolves;
    EncountersAreDistinct(observed);
    BlocksSnoc(groups[k].cells, ReadCell(o.offset, o.block));
    GroupSnoc(observed, o, o.header.section);
    forall j | 0 <= j < |groups| ensures j != k ==>
      CellsOf(observed + [o], groups[j].header.section) == CellsOf(observed, groups[j].header.section)
    {
      GroupSnoc(observed, o, groups[j].header.section);
    }
  }

  function Joined(g: Group, o: Observed): Group {
    Group(g.header, g.cells + [ReadCell(o.offset, o.block)],
          if g.blocks.Some? && o.block.Some? then Some(g.blocks.value + [o.block.value]) else g.blocks)
  }

  /** The first cell of a section opens its group. */
  lemma OpenGroup(world: ReadWorld, groups: seq<Group>, observed: seq<Observed>, o: Observed)
    requires StablyGrouped(world, groups, observed) && o.header.section !in FirstEncounters(observed)
    requires o.header == HeaderOf(world, o.header.section)
    requires o.block.Some? <==> SectionResolves(world, o.header.section)
    ensures StablyGrouped(world, groups + [Joined(Group(o.header, [], if o.block.Some? then Some([]) else None), o)],
                          observed + [o])
  {
    hide CellsOf;
    hide BlocksOf;
    hide FirstEncounters;
    hide HeaderOf;
    hide SectionResolves;
    UnseenHasNoCells(observed, o.header.section);
    GroupSnoc(observed, o, o.header.section);
    BlocksSnoc([], ReadCell(o.offset, o.block));
    NoBlocks();
    assert [] + [ReadCell(o.offset, o.block)] == [ReadCell(o.offset, o.block)];
    forall j | 0 <= j < |groups|
      ensures CellsOf(observed + [o], groups[j].header.section) == CellsOf(observed, groups[j].header.section)
    {
      assert groups[j].header.section in FirstEncounters(observed);
      GroupSnoc(observed, o, groups[j].header.section);
    }
  }

  lemma NoBlocks()
    ensures BlocksOf([]) == []
  {
  }

  method FindGroup(groups: seq<Group>, section: SectionId) returns (index: Option<nat>)
    ensures index.Some? ==> index.value < |groups| && groups[index.value].header.section == section
    ensures index.None? ==> forall k :: 0 <= k < |groups| ==> groups[k].header.section != section
  {
    for k := 0 to |groups|
      invariant forall j :: 0 <= j < k ==> groups[j].header.section != section
    {
      if groups[k].header.section == section {
        return Some(k);
      }
    }
    index := None;
  }

  /** Grouped reads: the same cells, stably grouped by section; a request over the limit is refused whole. */
  method ReadCells(world: ReadWorld, cells: seq<Point>) returns (r: Result<seq<Group>, ReadError>)
    ensures r.Ok? <==> |cells| <= MAX_CELLS_PER_READ && AllReadable(world, cells)
    ensures r.Ok? ==> StablyGrouped(world, r.value, Observations(world, cells))
    ensures |cells| > MAX_CELLS_PER_READ ==> r == Err(ReadBudgetExceeded)
    ensures |cells| <= MAX_CELLS_PER_READ && r.Err? ==> FirstUnreadable(world, cells, r.error)
  {
    hide CellAt;
    hide StablyGrouped;
    if |cells| > MAX_CELLS_PER_READ {
      return Err(ReadBudgetExceeded);
    }
    var groups: seq<Group> := [];
    NoGroups(world);
    assert Observations(world, cells[..0]) == [];
    for i := 0 to |cells|
      invariant AllReadable(world, cells[..i])
      invariant StablyGrouped(world, groups, Observations(world, cells[..i]))
    {
      var observed := CellAt(world, cells[i]);
      if observed.Err? {
        return Err(observed.error);
      }
      var o := observed.value;
      HeaderOfCell(world, cells[i]);
      ObservationsGrow(world, cells, i);
      var index := FindGroup(groups, o.header.section);
      if index.Some? {
        GroupHeader(world, groups, Observations(world, cells[..i]), index.value);
        if groups[index.value].header.presence != o.header.presence
           || groups[index.value].header.revision != o.header.revision {
          assert false;
          return Err(InvalidHandle);
        }
        JoinGroup(world, groups, Observations(world, cells[..i]), o, index.value);
        groups := groups[index.value := Joined(groups[index.value], o)];
      } else {
        UnseenGroup(world, groups, Observations(world, cells[..i]), o.header.section);
        OpenGroup(world, groups, Observations(world, cells[..i]), o);
        groups := groups + [Joined(Group(o.header, [], if o.block.Some? then Some([]) else None), o)];
      }
    }
    assert cells[..|cells|] == cells;
    r := Ok(groups);
  }

  lemma NoGroups(world: ReadWorld)
    ensures StablyGrouped(world, [], [])
  {
  }

  lemma ObservationsGrow(world: ReadWorld, cells: seq<Point>, i: nat)
    requires i < |cells| && AllReadable(world, cells[..i]) && CellAt(world, cells[i]).Ok?
    ensures AllReadable(world, cells[..i + 1])
    ensures Observations(world, cells[..i + 1]) == Observations(world, cells[..i]) + [CellAt(world, cells[i]).value]
  {
    hide CellAt;
    var next := cells[..i + 1];
    forall k | 0 <= k < |next| ensures CellAt(world, next[k]).Ok? {
      assert k < i ==> next[k] == cells[..i][k];
    }
  }

  lemma GroupHeader(world: ReadWorld, groups: seq<Group>, observed: seq<Observed>, k: nat)
    requires StablyGrouped(world, groups, observed) && k < |groups|
    ensures groups[k].header == HeaderOf(world, groups[k].header.section)
  {
  }

  lemma UnseenGroup(world: ReadWorld, groups: seq<Group>, observed: seq<Observed>, section: SectionId)
    requires StablyGrouped(world, groups, observed)
    requires forall k :: 0 <= k < |groups| ==> groups[k].header.section != section
    ensures section !in FirstEncounters(observed)
  {
    hide CellsOf;
    hide BlocksOf;
    hide HeaderOf;
    hide FirstEncounters;
    var sections := FirstEncounters(observed);
    forall k | 0 <= k < |sections| ensures sections[k] != section {
      assert groups[k].header.section == sections[k];
    }
  }

  /** A grouped box read holds the cells of the box in reading order, stably grouped by section. */
  method ReadBox(world: ReadWorld, b: Box) returns (r: Result<seq<Group>, ReadError>)
    ensures !Ordered(b) ==> r == Err(InvalidHandle)
    ensures Ordered(b) && !WellFormed(b) ==> r == Err(WorldYOutOfRange)
    ensures r.Ok? <==> WellFormed(b) && |BoxCells(b)| <= MAX_CELLS_PER_READ && AllReadable(world, BoxCells(b))
    ensures r.Ok? ==> StablyGrouped(world, r.value, Observations(world, BoxCells(b)))
    ensures WellFormed(b) && |BoxCells(b)| > MAX_CELLS_PER_READ ==> r == Err(ReadBudgetExceeded)
    ensures WellFormed(b) && |BoxCells(b)| <= MAX_CELLS_PER_READ && r.Err?
      ==> FirstUnreadable(world, BoxCells(b), r.error)
  {
    hide CellAt;
    hide StablyGrouped;
    hide BoxCells;
    hide Width;
    hide Height;
    hide Depth;
    var count := BoxCellCount(b);
    if count.Err? {
      return Err(count.error);
    }
    BoxOrder(b, b.min);
    if count.value > MAX_CELLS_PER_READ {
      return Err(ReadBudgetExceeded);
    }
    r := ReadCells(world, BoxCells(b));
  }
}
