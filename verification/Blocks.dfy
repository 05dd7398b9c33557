/** Block identities, cell offsets and the world coordinates they come from. */
module Blocks {
  import opened Keys

  const SECTION_EXTENT: int := 16
  const SECTION_CELLS: nat := 4096
  const WORLD_Y_MAX: int := 255

  /** A full 32-bit block identity. */
  type BlockId = n: nat | n < 0x1_0000_0000 witness 0

  /** A cell inside one section, in y/z/x order. */
  type CellOffset = n: nat | n < SECTION_CELLS witness 0

  /** All cells of one section. */
  type Cells = cells: seq<BlockId> | |cells| == SECTION_CELLS witness seq(SECTION_CELLS, _ => 0)

  lemma SameCells(a: Cells, b: Cells)
    requires forall c: CellOffset :: a[c] == b[c]
    ensures a == b
  {
    forall i | 0 <= i < |a| ensures a[i] == b[i] {
      var c: CellOffset := i;
      assert a[c] == b[c];
    }
  }

  type WorldY = n: int | 0 <= n <= WORLD_Y_MAX witness 0

  function FloorDiv(n: int): int {
    n / SECTION_EXTENT
  }

  /** The low four bits of a coordinate, also of a negative one. */
  function Low(n: int): (r: nat)
    ensures r < 16
  {
    n % SECTION_EXTENT
  }

  function SectionAt(x: Coord, y: WorldY, z: Coord): SectionId {
    SectionId(FloorDiv(x), y / SECTION_EXTENT, FloorDiv(z))
  }

  function OffsetAt(x: Coord, y: WorldY, z: Coord): CellOffset {
    256 * Low(y) + 16 * Low(z) + Low(x)
  }

  /** The world cell that a section and an offset address. */
  function WorldCell(section: SectionId, offset: CellOffset): (int, int, int) {
    (SECTION_EXTENT * section.x + offset % 16,
     SECTION_EXTENT * section.y + offset / 256,
     SECTION_EXTENT * section.z + offset / 16 % 16)
  }

  /** Section and offset determine the world cell, on both sides of the origin. */
  lemma WorldCellOfAddress(x: Coord, y: WorldY, z: Coord)
    ensures WorldCell(SectionAt(x, y, z), OffsetAt(x, y, z)) == (x, y, z)
  {
    var offset := OffsetAt(x, y, z);
    assert offset / 256 == Low(y) && offset / 16 == 16 * Low(y) + Low(z) && offset % 16 == Low(x);
  }

  /** Every address whose cell lies in the coordinate domain is the address of that cell. */
  lemma AddressOfWorldCell(section: SectionId, offset: CellOffset)
    requires var cell := WorldCell(section, offset);
      COORD_MIN <= cell.0 <= COORD_MAX && COORD_MIN <= cell.2 <= COORD_MAX
    ensures var cell := WorldCell(section, offset);
      && 0 <= cell.1 <= WORLD_Y_MAX
      && SectionAt(cell.0, cell.1, cell.2) == section
      && OffsetAt(cell.0, cell.1, cell.2) == offset
  {
    var q := offset / 16;
    assert q / 16 == offset / 256 && offset == 16 * q + offset % 16 && q == 16 * (q / 16) + q % 16;
  }

  /** A section is a cube of sixteen blocks each way, aligned to the origin on both sides of it. */
  lemma SectionHoldsItsCells(x: Coord, y: WorldY, z: Coord, section: SectionId)
    ensures SectionAt(x, y, z) == section <==>
      && 16 * section.x <= x < 16 * section.x + 16
      && 16 * section.y <= y < 16 * section.y + 16
      && 16 * section.z <= z < 16 * section.z + 16
  {
  }

  /** Inside a section, offsets run by height, then z, then x. */
  lemma OffsetsAreHeightFirst(x: Coord, y: WorldY, z: Coord, x': Coord, y': WorldY, z': Coord)
    requires SectionAt(x, y, z) == SectionAt(x', y', z')
    ensures OffsetAt(x, y, z) < OffsetAt(x', y', z') <==> y < y' || (y == y' && (z < z' || (z == z' && x < x')))
  {
    assert y - y' == Low(y) - Low(y') && z - z' == Low(z) - Low(z') && x - x' == Low(x) - Low(x');
  }
}
