/** Region-based assignment with simple sequential placement. A `Region`
    collects the cells, selector bits and copy links its body writes, in
    offsets relative to its own first row; the `Layouter` opens each region at
    the next free row and commits it once the body has returned successfully. */
module Layout {
  import opened Field
  import opened Plonk

  /** A row of `width` unassigned cells with its selector off. */
  function Blank(width: nat): (r: Row)
    ensures |r.cells| == width && !r.enabled
    ensures forall c :: 0 <= c < width ==> r.cells[c] == Unassigned
  {
    Row(seq(width, _ => Unassigned), false)
  }

  /** `rows` extended with blank rows until it has at least `n` of them. */
  function Pad(rows: seq<Row>, n: nat, width: nat): (r: seq<Row>)
    ensures |r| == Max(|rows|, n)
    ensures r[..|rows|] == rows
    ensures forall i :: |rows| <= i < |r| ==> r[i] == Blank(width)
    decreases n - |rows|
  {
    if n <= |rows| then rows else Pad(rows + [Blank(width)], n, width)
  }

  /** `rows` with the cell at (offset, column) replaced by `c`. */
  function Write(rows: seq<Row>, offset: nat, column: nat, c: CellState): (r: seq<Row>)
    requires offset < |rows| && column < |rows[offset].cells|
    ensures |r| == |rows|
    ensures |r[offset].cells| == |rows[offset].cells|
    ensures r[offset].cells[column] == c && r[offset].enabled == rows[offset].enabled
    ensures forall k :: 0 <= k < |rows[offset].cells| && k != column ==> r[offset].cells[k] == rows[offset].cells[k]
    ensures forall i :: 0 <= i < |rows| && i != offset ==> r[i] == rows[i]
  {
    rows[offset := rows[offset].(cells := rows[offset].cells[column := c])]
  }

  /** `rows` with the selector bit at `offset` turned on. */
  function Enable(rows: seq<Row>, offset: nat): (r: seq<Row>)
    requires offset < |rows|
    ensures |r| == |rows|
    ensures r[offset].enabled && r[offset].cells == rows[offset].cells
    ensures forall i :: 0 <= i < |rows| && i != offset ==> r[i] == rows[i]
  {
    rows[offset := rows[offset].(enabled := true)]
  }

  /** Every row has exactly `width` cells. */
  ghost predicate Rectangular(rows: seq<Row>, width: nat)
  {
    forall i :: 0 <= i < |rows| ==> |rows[i].cells| == width
  }

  /** A region being assigned (halo2's `Region`). */
  class Region {
    const name: string
    /** The absolute row of offset 0, fixed when the layouter opens the region. */
    const start: nat
    const width: nat
    /** The columns that may take part in copy links. */
    const equality: set<nat>
    /** The region's rows; offset `o` is `rows[o]`. */
    var rows: seq<Row>
    var links: seq<Link>

    ghost predicate Valid()
      reads this
    {
      Rectangular(rows, width)
    }

    constructor (name: string, start: nat, width: nat, equality: set<nat>)
      ensures Valid()
      ensures this.name == name && this.start == start && this.width == width && this.equality == equality
      ensures rows == [] && links == []
    {
      this.name := name;
      this.start := start;
      this.width := width;
      this.equality := equality;
      rows := [];
      links := [];
    }

    /** Turns the selector on at `offset` (halo2's `Selector::enable`). */
    method EnableSelector(offset: nat)
      requires Valid()
      modifies this
      ensures Valid()
      ensures rows == Enable(Pad(old(rows), offset + 1, width), offset)
      ensures links == old(links)
    {
      rows := Enable(Pad(rows, offset + 1, width), offset);
    }

    /** Assigns `value` to the cell at (`column`, `offset`) and returns its handle. */
    method AssignAdvice(column: nat, offset: nat, value: Value) returns (cell: ACell)
      requires Valid() && column < width
      modifies this
      ensures Valid()
      ensures rows == Write(Pad(old(rows), offset + 1, width), offset, column, Assigned(value))
      ensures links == old(links)
      ensures cell == ACell(value, CellRef(column, start + offset))
    {
      var padded := Pad(rows, offset + 1, width);
      rows := Write(padded, offset, column, Assigned(value));
      cell := ACell(value, CellRef(column, start + offset));
    }

    /** Assigns the value of `from` to the cell at (`column`, `offset`) and links
        the two cells; both columns must take part in copy links. */
    method CopyAdvice(from: ACell, column: nat, offset: nat) returns (res: Result<ACell>)
      requires Valid() && column < width
      modifies this
      ensures Valid()
      ensures rows == Write(Pad(old(rows), offset + 1, width), offset, column, Assigned(from.value))
      ensures res.Ok? <==> column in equality && from.cell.column in equality
      ensures res.Err? ==> res.error == ColumnNotInPermutation && links == old(links)
      ensures res.Ok? ==> res.value == ACell(from.value, CellRef(column, start + offset))
                          && links == old(links) + [(res.value.cell, from.cell)]
    {
      var cell := AssignAdvice(column, offset, from.value);
      if column !in equality || from.cell.column !in equality {
        return Err(ColumnNotInPermutation);
      }
      links := links + [(cell.cell, from.cell)];
      res := Ok(cell);
    }
  }

  /** The table under construction, with sequential region placement: the next
      region starts at the first row no earlier region uses. */
  class Layouter {
    const width: nat
    const equality: set<nat>
    var rows: seq<Row>
    var regions: seq<RegionInfo>
    var copies: seq<Link>

    /** Every row has `width` cells, and regions start in placement order at
        rows the table already reaches. */
    ghost predicate Valid()
      reads this
    {
      && Rectangular(rows, width)
      && (forall i :: 0 <= i < |regions| ==> regions[i].start <= |rows|)
      && (forall i, j :: 0 <= i < j < |regions| ==> regions[i].start <= regions[j].start)
    }

    function State(): Assignment
      reads this
    {
      Assignment(rows, regions, copies)
    }

    /** An empty table for the configured circuit. */
    constructor (cs: ConstraintSystem)
      ensures Valid()
      ensures width == cs.advice && equality == cs.equality
      ensures State() == Assignment([], [], [])
    {
      width := cs.advice;
      equality := cs.equality;
      rows := [];
      regions := [];
      copies := [];
    }

    /** Opens a region at the next free row. */
    method OpenRegion(name: string) returns (region: Region)
      ensures fresh(region) && region.Valid()
      ensures region.name == name && region.start == |rows|
      ensures region.width == width && region.equality == equality
      ensures region.rows == [] && region.links == []
    {
      region := new Region(name, |rows|, width, equality);
    }

    /** Places a region's rows after the table's, records it and its copy links. */
    method Commit(region: Region)
      requires Valid() && region.Valid()
      requires region.width == width && region.start == |rows|
      modifies this
      ensures Valid()
      ensures rows == old(rows) + region.rows
      ensures regions == old(regions) + [RegionInfo(region.name, region.start)]
      ensures copies == old(copies) + region.links
    {
      rows := rows + region.rows;
      regions := regions + [RegionInfo(region.name, region.start)];
      copies := copies + region.links;
    }
  }
}
