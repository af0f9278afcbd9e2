/**
 The part of the spreadsheet library the converter uses: a workbook that
 holds named sheets and can be saved, and a sheet that records the text
 written at each (row, column). The binary file format itself is not modelled;
 saving is modelled as taking a snapshot of every sheet's cells.
 */
module Workbooks {

  datatype Option<T> = None | Some(value: T)

  /** A zero-based (row index, column index) position in a sheet. */
  type Coord = (nat, nat)

  predicate NoDuplicates<T(==)>(s: seq<T>) {
    forall i, j | 0 <= i < j < |s| :: s[i] != s[j]
  }

  class Sheet {
    const name: string
    var cells: map<Coord, string>
    /** The positions written so far, in the order they were written. */
    ghost var written: seq<Coord>

    /** Every cell present was written exactly once, and only those cells. */
    ghost predicate Valid()
      reads this
    {
      NoDuplicates(written) && forall p :: p in cells <==> p in written
    }

    constructor (name: string)
      ensures Valid()
      ensures this.name == name && cells == map[] && written == []
    {
      this.name := name;
      cells := map[];
      written := [];
    }

    /**
     Writes `text` at (row, col). A sheet refuses to overwrite a cell:
     writing a position a second time fails (`ok` is false) and changes nothing.
     */
    method Write(row: nat, col: nat, text: string) returns (ok: bool)
      requires Valid()
      modifies this
      ensures Valid()
      ensures ok <==> (row, col) !in old(cells)
      ensures cells == if ok then old(cells)[(row, col) := text] else old(cells)
      ensures written == if ok then old(written) + [(row, col)] else old(written)
    {
      ok := (row, col) !in cells;
      if ok {
        cells := cells[(row, col) := text];
        written := written + [(row, col)];
      }
    }
  }

  class Workbook {
    var sheets: seq<Sheet>
    /** What the last save serialised: each sheet's name and cells; None before any save. */
    var saved: Option<seq<(string, map<Coord, string>)>>

    constructor ()
      ensures sheets == [] && saved == None
    {
      sheets := [];
      saved := None;
    }

    /** Appends a fresh, empty sheet called `name`. */
    method AddSheet(name: string) returns (sheet: Sheet)
      modifies this
      ensures fresh(sheet) && sheet.Valid()
      ensures sheet.name == name && sheet.cells == map[] && sheet.written == []
      ensures sheets == old(sheets) + [sheet] && saved == old(saved)
    {
      sheet := new Sheet(name);
      sheets := sheets + [sheet];
    }

    /** Each sheet's name and cells, in the order the sheets were added. */
    function Snapshot(): seq<(string, map<Coord, string>)>
      reads this`sheets, sheets
    {
      var all := sheets;
      seq(|all|, i reads all requires 0 <= i < |all| => (all[i].name, all[i].cells))
    }

    method Save()
      modifies this`saved
      ensures saved == Some(Snapshot())
    {
      saved := Some(Snapshot());
    }
  }
}
