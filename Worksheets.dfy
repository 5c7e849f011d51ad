/**
 * The slice of a spreadsheet worksheet the timesheet writes to: a map from
 * (row, column) to a cell's value and named style. Reading a cell that was
 * never written gives a blank, normally styled cell, and writing one creates it.
 */
module Worksheets {
  import opened Dates

  /** The built-in named styles the timesheet applies. */
  datatype Style = Normal | Title | Accent1 | Accent2 | Accent6

  /** A cell value. A formula is a `Text` that starts with '='. */
  datatype Value = Blank | Text(text: string) | Number(number: real) | DateValue(date: Date)

  datatype Cell = Cell(value: Value, style: Style)

  /** (row, column), both counted from 1. */
  type Pos = (int, int)

  const EmptyCell := Cell(Blank, Normal)

  /** The cell at `p`; a cell never written reads as blank with the normal style. Reading
      creates nothing: only PutValue and PutStyle add a cell. */
  function CellAt(cells: map<Pos, Cell>, p: Pos): (c: Cell)
    ensures p !in cells ==> c == EmptyCell
  {
    if p in cells then cells[p] else EmptyCell
  }

  /** `ws.cell(row, column, value=v)`: the cell exists afterwards and holds `v`; its style stays. */
  function PutValue(cells: map<Pos, Cell>, p: Pos, v: Value): (r: map<Pos, Cell>)
    ensures p in r && r[p] == Cell(v, CellAt(cells, p).style)
    ensures r - {p} == cells - {p}
  {
    cells[p := Cell(v, CellAt(cells, p).style)]
  }

  /** `ws.cell(row, column).style = s`: the cell exists afterwards with style `s`; its value stays. */
  function PutStyle(cells: map<Pos, Cell>, p: Pos, s: Style): (r: map<Pos, Cell>)
    ensures p in r && r[p] == Cell(CellAt(cells, p).value, s)
    ensures r - {p} == cells - {p}
  {
    cells[p := Cell(CellAt(cells, p).value, s)]
  }

  /** `max_row`: 1 for a sheet without cells, else the largest row that holds a cell. */
  ghost predicate IsMaxRow(cells: map<Pos, Cell>, r: int) {
    && (cells == map[] ==> r == 1)
    && (cells != map[] ==> (exists p :: p in cells && p.0 == r) && (forall p :: p in cells ==> p.0 <= r))
  }

  /** At most one number is the sheet's `max_row`. */
  lemma MaxRowUnique(cells: map<Pos, Cell>, r: int, r': int)
    requires IsMaxRow(cells, r) && IsMaxRow(cells, r')
    ensures r == r'
  {
    if cells != map[] {
      var p :| p in cells && p.0 == r;
      var p' :| p' in cells && p'.0 == r';
    }
  }

  class Worksheet {
    var cells: map<Pos, Cell>

    constructor ()
      ensures cells == map[]
    {
      cells := map[];
    }

    method SetValue(row: int, column: int, v: Value)
      requires row >= 1 && column >= 1
      modifies this
      ensures cells == PutValue(old(cells), (row, column), v)
    {
      cells := PutValue(cells, (row, column), v);
    }

    method SetStyle(row: int, column: int, s: Style)
      requires row >= 1 && column >= 1
      modifies this
      ensures cells == PutStyle(old(cells), (row, column), s)
    {
      cells := PutStyle(cells, (row, column), s);
    }

    /** `max_row`, by a scan over the positions that hold a cell. */
    method MaxRow() returns (r: int)
      ensures IsMaxRow(cells, r)
    {
      r := 1;
      if cells == map[] {
        return;
      }
      var first :| first in cells.Keys;
      r := first.0;
      var todo := cells.Keys - {first};
      while todo != {}
        invariant todo <= cells.Keys
        invariant exists p :: p in cells && p.0 == r
        invariant forall p :: p in cells && p !in todo ==> p.0 <= r
        decreases todo
      {
        var p :| p in todo;
        if p.0 > r {
          r := p.0;
        }
        todo := todo - {p};
      }
    }
  }
}
