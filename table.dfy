/**
 * The table built by `parse` in src/Google/Spreadsheet/Sheet.php: the first
 * row of the grid is the header, and every later row `i` becomes the item
 * with key `i` mapping each header name to the row's cell in that column.
 */
module Table {

  /** The `values` the Sheets API returns: a list of rows of cells. */
  type Grid = seq<seq<string>>

  /** One entry of `items`: its key (the row's position in `values`) and its record. */
  datatype Row = Row(index: nat, fields: map<string, string>)

  /** `header` after `parse`: the first row, or empty when there is none. */
  function HeaderOf(values: Grid): (h: seq<string>)
    ensures |values| == 0 ==> h == []
    ensures |values| > 0 ==> h == values[0]
  {
    if |values| == 0 then [] else values[0]
  }

  /** The cell in column `j`, or '' when the row is shorter. */
  function Cell(row: seq<string>, j: int): string
  {
    if 0 <= j < |row| then row[j] else ""
  }

  /**
   * The record of one data row: the header names assigned left to right,
   * so a later column of a repeated name overwrites an earlier one.
   */
  function RowRecord(header: seq<string>, row: seq<string>): (r: map<string, string>)
    ensures forall name :: name in r <==> name in header
    decreases |header|
  {
    if |header| == 0 then map[]
    else RowRecord(header[..|header| - 1], row)[header[|header| - 1] := Cell(row, |header| - 1)]
  }

  /** Keys strictly increase along the sequence (the order PHP keeps). */
  predicate Ascending(rows: seq<Row>)
  {
    forall a, b :: 0 <= a < b < |rows| ==> rows[a].index < rows[b].index
  }

  /** `items` after `parse`: keys 1 .. |values| - 1 in order, each row zipped with the header. */
  function ParsedItems(values: Grid): (items: seq<Row>)
    ensures |items| == if |values| == 0 then 0 else |values| - 1
    ensures forall k :: 0 <= k < |items| ==> items[k].index == k + 1
    ensures forall k, name :: 0 <= k < |items| ==>
      (name in items[k].fields <==> name in HeaderOf(values))
    ensures Ascending(items)
  {
    if |values| <= 1 then []
    else
      seq(|values| - 1, k requires 0 <= k < |values| - 1 =>
        Row(k + 1, RowRecord(values[0], values[k + 1])))
  }

  /** The value under a header name comes from that name's last column. */
  lemma {:induction false} RowRecordLastColumnWins(header: seq<string>, row: seq<string>, j: int)
    requires 0 <= j < |header|
    requires forall j' :: j < j' < |header| ==> header[j'] != header[j]
    ensures header[j] in RowRecord(header, row)
    ensures RowRecord(header, row)[header[j]] == Cell(row, j)
  {
    var n := |header|;
    if j < n - 1 {
      var prefix := header[..n - 1];
      assert prefix[j] == header[j];
      RowRecordLastColumnWins(prefix, row, j);
    }
  }

  /** A name that occurs once takes the value of its own column. */
  lemma RowRecordUniqueName(header: seq<string>, row: seq<string>, j: int)
    requires 0 <= j < |header|
    requires forall j' :: 0 <= j' < |header| && j' != j ==> header[j'] != header[j]
    ensures RowRecord(header, row)[header[j]] == Cell(row, j)
  {
    RowRecordLastColumnWins(header, row, j);
  }

  /** Cells to the right of the header's last column do not reach the record. */
  lemma {:induction false} RowRecordDropsExtraCells(header: seq<string>, row: seq<string>)
    requires |row| > |header|
    ensures RowRecord(header, row) == RowRecord(header, row[..|header|])
  {
    if |header| > 0 {
      var n := |header|;
      RowRecordDropsExtraCellsPrefix(header[..n - 1], row, row[..n]);
    }
  }

  lemma {:induction false} RowRecordDropsExtraCellsPrefix(header: seq<string>, row: seq<string>, shorter: seq<string>)
    requires |header| < |shorter| <= |row| && shorter == row[..|shorter|]
    ensures RowRecord(header, row) == RowRecord(header, shorter)
  {
    if |header| > 0 {
      RowRecordDropsExtraCellsPrefix(header[..|header| - 1], row, shorter);
    }
  }

  /** The value of item `k` under the name in column `j`, when that name is not repeated later. */
  lemma ParsedItemValue(values: Grid, k: int, j: int)
    requires 0 <= k < |values| - 1
    requires 0 <= j < |values[0]|
    requires forall j' :: j < j' < |values[0]| ==> values[0][j'] != values[0][j]
    ensures ParsedItems(values)[k].fields[values[0][j]] == Cell(values[k + 1], j)
  {
    RowRecordLastColumnWins(values[0], values[k + 1], j);
  }
}
