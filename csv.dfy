/** A CSV file as a header of column names and rows of text cells. A cell is
    the text of the file, or `None` where pandas found nothing (NaN); a row
    shorter than the header reads as missing in the columns it lacks. Every
    cell stays text: the column types `read_csv` would infer are not modelled. */
module Csv {
  import opened Wrappers

  type Cell = Option<string>

  datatype RawTable = RawTable(header: seq<string>, rows: seq<seq<Cell>>)

  function CellAt(row: seq<Cell>, i: nat): Cell {
    if i < |row| then row[i] else None
  }

  /** The first column with the given name; `df[name]` selects it. */
  function IndexOf(header: seq<string>, name: string): (i: nat)
    requires name in header
    ensures i < |header| && header[i] == name
    ensures forall j :: 0 <= j < i ==> header[j] != name
  {
    if header[0] == name then 0
    else
      assert name in header[1..];
      1 + IndexOf(header[1..], name)
  }
}
