/** The map: per cell, an optional revealed ore count and a hole flag,
    overwritten every turn from the driver's row-major cell records. */
module Grid {
  import opened Wrappers
  import opened FixedWidth

  datatype Cell = Cell(ore: Option<U8>, hasHole: bool)

  /** The cell every map starts with: nothing revealed, no hole. */
  const EmptyCell := Cell(None, false)

  /** The ore word of one cell record: "?" when the cell is not revealed,
      otherwise the unsigned number the word spells. */
  datatype OreToken = Unknown | Number(value: nat)

  /** One cell record of the turn's input: the ore word, then the single
      character extracted for the hole field. */
  datatype CellToken = CellToken(ore: OreToken, hole: char)

  /** The ore count stored for a cell. The parsed number is assigned to an
      8-bit optional, so it is kept modulo 256. */
  function OreOf(t: OreToken): (r: Option<U8>)
    ensures r.None? <==> t.Unknown?
    ensures t.Number? ==> r.value == t.value % 256
    ensures t.Number? && t.value < 256 ==> r == Some(t.value)
  {
    match t
    case Unknown => None
    case Number(v) => Some(v % 256)
  }

  /** The hole flag as the bot computes it: the extracted character is
      compared with the number 1, not with the digit '1'. */
  function HoleFlagAsWritten(c: char): (r: bool)
  {
    c as int == 1
  }

  /** Neither of the driver's hole words "0" and "1" ever sets the flag as
      written; only the control character U+0001 would. */
  lemma HoleFlagAsWrittenMissesDigitOne()
    ensures !HoleFlagAsWritten('1') && !HoleFlagAsWritten('0')
    ensures forall c: char :: HoleFlagAsWritten(c) <==> c as int == 1
  {
  }

  /** The hole flag as intended: set exactly by the hole word "1". */
  function HoleFlag(c: char): (r: bool)
    ensures r <==> c == '1'
    ensures r ==> !HoleFlagAsWritten(c)
  {
    c == '1'
  }

  /** The cell one record describes. */
  function DecodeCell(t: CellToken): (c: Cell)
    ensures c.ore.None? <==> t.ore.Unknown?
    ensures c.hasHole <==> t.hole == '1'
  {
    Cell(OreOf(t.ore), HoleFlag(t.hole))
  }

  class Map {
    /** `cells[i, j]` is row i, column j. */
    var cells: array2<Cell>

    ghost predicate Valid()
      reads this
    {
      cells.Length0 < TWO_TO_32 && cells.Length1 < TWO_TO_32
    }

    constructor (width: U32, height: U32)
      ensures Valid() && fresh(cells)
      ensures cells.Length0 == height && cells.Length1 == width
      ensures forall i, j :: 0 <= i < height && 0 <= j < width ==> cells[i, j] == EmptyCell
    {
      cells := new Cell[height, width]((i, j) => EmptyCell);
    }

    function Height(): (h: U32)
      requires Valid()
      reads this
    {
      cells.Length0
    }

    /** The width is that of the first row, so the map must have one. */
    function Width(): (w: U32)
      requires Valid() && cells.Length0 > 0
      reads this
    {
      cells.Length1
    }

    predicate HasOreCount(i: nat, j: nat)
      requires i < cells.Length0 && j < cells.Length1
      reads this, cells
    {
      cells[i, j].ore.Some?
    }

    /** The revealed count of a cell: a byte widened to 32 bits. */
    function GetOreCount(i: nat, j: nat): (r: U32)
      requires i < cells.Length0 && j < cells.Length1
      requires HasOreCount(i, j)
      reads this, cells
      ensures r < 256
    {
      cells[i, j].ore.value
    }

    /** `Map::readUpdate`: consumes the turn's records row by row, one per
        cell from left to right, and overwrites each cell with its record.
        `rows[i][j]` is the record read for row i, column j. */
    method ReadUpdate(rows: seq<seq<CellToken>>)
      requires |rows| == cells.Length0
      requires forall i :: 0 <= i < |rows| ==> |rows[i]| == cells.Length1
      modifies cells
      ensures forall i, j :: 0 <= i < cells.Length0 && 0 <= j < cells.Length1 ==>
        cells[i, j] == DecodeCell(rows[i][j])
      ensures forall i, j :: 0 <= i < cells.Length0 && 0 <= j < cells.Length1 ==>
        (HasOreCount(i, j) <==> rows[i][j].ore.Number?)
    {
      for i := 0 to cells.Length0
        invariant forall r, c :: 0 <= r < i && 0 <= c < cells.Length1 ==>
          cells[r, c] == DecodeCell(rows[r][c])
      {
        for j := 0 to cells.Length1
          invariant forall r, c :: 0 <= r < i && 0 <= c < cells.Length1 ==>
            cells[r, c] == DecodeCell(rows[r][c])
          invariant forall c :: 0 <= c < j ==> cells[i, c] == DecodeCell(rows[i][c])
        {
          cells[i, j] := DecodeCell(rows[i][j]);
        }
      }
    }
  }
}
