/**
 * The write payloads of `insert` and `update` in
 * src/Google/Spreadsheet/Sheet.php: the single row appended by `insert`,
 * and the list of single-cell ranges sent in one batch by `update`.
 */
module Writes {
  import opened Wrappers
  import opened ColumnAddress

  /** One `Google_Service_Sheets_ValueRange` of the batch: a range and its cells. */
  datatype CellWrite = CellWrite(range: string, values: seq<seq<string>>)

  /**
   * The row `insert` appends: one entry per header name, in header order,
   * the given value for that name or '' when none is given.
   */
  method BuildAppendRow(header: seq<string>, vars: map<string, string>) returns (row: seq<string>)
    ensures |row| == |header|
    ensures forall j :: 0 <= j < |header| ==>
      row[j] == if header[j] in vars then vars[header[j]] else ""
  {
    row := [];
    for j := 0 to |header|
      invariant |row| == j
      invariant forall j' :: 0 <= j' < j ==>
        row[j'] == if header[j'] in vars then vars[header[j']] else ""
    {
      var key := header[j];
      row := row + [if key in vars then vars[key] else ""];
    }
  }

  /** `array_search` on the header: the first column holding `key`, if any. */
  function FirstIndex(header: seq<string>, key: string): (r: Option<nat>)
    ensures r.None? <==> key !in header
    ensures r.Some? ==> r.value < |header| && header[r.value] == key
    ensures r.Some? ==> forall j :: 0 <= j < r.value ==> header[j] != key
  {
    if header == [] then None
    else if header[0] == key then Some(0)
    else
      match FirstIndex(header[1..], key)
      case None => None
      case Some(c) => Some(c + 1)
  }

  /** The decimal digits of a number, as PHP interpolates an integer into a string. */
  function Decimal(n: nat): (s: string)
    ensures |s| >= 1
    ensures forall k :: 0 <= k < |s| ==> '0' <= s[k] <= '9'
    ensures n > 0 ==> s[0] != '0'
  {
    if n < 10 then [(48 + n) as char] else Decimal(n / 10) + [(48 + n % 10) as char]
  }

  /** The number a string of decimal digits denotes. */
  ghost function DigitsValue(s: string): int
  {
    if s == [] then 0 else 10 * DigitsValue(s[..|s| - 1]) + (s[|s| - 1] as int - 48)
  }

  /** The row number in an address reads back as the number itself. */
  lemma {:induction false} DecimalDenotesNumber(n: nat)
    ensures DigitsValue(Decimal(n)) == n
  {
    if n >= 10 {
      var p := Decimal(n / 10);
      DecimalDenotesNumber(n / 10);
      assert (p + [(48 + n % 10) as char])[..|p|] == p;
    }
  }

  /**
   * The range of one cell: `<sheet>!<column letters><row number>`, where the
   * column is the 0-based header position plus one and the row number is the
   * item's key plus one (row 1 of the sheet is the header).
   */
  function Address(sheetName: string, column: nat, rowKey: nat): string
  {
    sheetName + "!" + ColumnLetters(column + 1) + Decimal(rowKey + 1)
  }

  /** The writes for one known field: one per matched row key, in order. */
  function FieldWrites(sheetName: string, column: nat, value: string, rowKeys: seq<nat>): (w: seq<CellWrite>)
    ensures |w| == |rowKeys|
  {
    seq(|rowKeys|, q requires 0 <= q < |rowKeys| =>
      CellWrite(Address(sheetName, column, rowKeys[q]), [[value]]))
  }

  /**
   * The `$data` list `update` builds: for each field of `vars` in order that
   * the header holds, the writes of that field to every matched row.
   */
  function WriteList(sheetName: string, header: seq<string>, vars: seq<(string, string)>, rowKeys: seq<nat>): seq<CellWrite>
    decreases |vars|
  {
    if vars == [] then []
    else
      var prior := WriteList(sheetName, header, vars[..|vars| - 1], rowKeys);
      var (key, value) := vars[|vars| - 1];
      match FirstIndex(header, key)
      case None => prior
      case Some(c) => prior + FieldWrites(sheetName, c, value, rowKeys)
  }

  /** The fields of `vars` the header holds, in the order of `vars`. */
  function KnownFields(header: seq<string>, vars: seq<(string, string)>): (known: seq<(string, string)>)
    ensures |known| <= |vars|
    ensures forall p :: p in known <==> p in vars && p.0 in header
    ensures InOrderOf(known, vars)
    decreases |vars|
  {
    if vars == [] then []
    else
      var prior := KnownFields(header, vars[..|vars| - 1]);
      assert forall p :: p in vars <==> p in vars[..|vars| - 1] || p == vars[|vars| - 1];
      SubsequenceSnoc(prior, vars);
      if vars[|vars| - 1].0 in header then prior + [vars[|vars| - 1]] else prior
  }

  /** `x` occurs in `vars` before some occurrence of `y`. */
  predicate PairInOrder(x: (string, string), y: (string, string), vars: seq<(string, string)>)
  {
    exists i, j :: 0 <= i < j < |vars| && x == vars[i] && y == vars[j]
  }

  /** `sub` lists some of the pairs of `vars`, in the order of `vars`. */
  predicate InOrderOf(sub: seq<(string, string)>, vars: seq<(string, string)>)
  {
    forall a, b :: 0 <= a < b < |sub| ==> PairInOrder(sub[a], sub[b], vars)
  }

  /** Keeping the order of `vars[..|vars| - 1]`, with or without its last pair, keeps the order of `vars`. */
  lemma SubsequenceSnoc(prior: seq<(string, string)>, vars: seq<(string, string)>)
    requires vars != [] && forall p :: p in prior ==> p in vars[..|vars| - 1]
    requires InOrderOf(prior, vars[..|vars| - 1])
    ensures InOrderOf(prior, vars)
    ensures InOrderOf(prior + [vars[|vars| - 1]], vars)
  {
    var front := vars[..|vars| - 1];
    var known := prior + [vars[|vars| - 1]];
    forall a, b | 0 <= a < b < |known|
      ensures PairInOrder(known[a], known[b], vars)
    {
      if b < |prior| {
        assert PairInOrder(prior[a], prior[b], front);
        var i, j :| 0 <= i < j < |front| && prior[a] == front[i] && prior[b] == front[j];
        assert known[a] == vars[i] && known[b] == vars[j];
      } else {
        assert known[a] == prior[a] && prior[a] in prior;
        var i :| 0 <= i < |front| && front[i] == prior[a];
        assert known[a] == vars[i] && known[b] == vars[|vars| - 1];
      }
    }
    forall a, b | 0 <= a < b < |prior|
      ensures PairInOrder(prior[a], prior[b], vars)
    {
      assert prior[a] == known[a] && prior[b] == known[b];
    }
  }

  /** The outer loop of `update` that fills `$data`, one field of `vars` at a time. */
  method BuildWrites(sheetName: string, header: seq<string>, vars: seq<(string, string)>, rowKeys: seq<nat>)
    returns (data: seq<CellWrite>)
    ensures data == WriteList(sheetName, header, vars, rowKeys)
  {
    data := [];
    for i := 0 to |vars|
      invariant data == WriteList(sheetName, header, vars[..i], rowKeys)
    {
      WriteListSnoc(sheetName, header, vars, rowKeys, i);
      var c := FirstIndex(header, vars[i].0);
      if c.Some? {
        data := AppendFieldWrites(data, sheetName, c.value, vars[i].1, rowKeys);
      }
    }
    assert vars[..|vars|] == vars;
  }

  /** The inner loop of `update`: one write of `value` per matched row, appended to `data`. */
  method AppendFieldWrites(data: seq<CellWrite>, sheetName: string, column: nat, value: string, rowKeys: seq<nat>)
    returns (extended: seq<CellWrite>)
    ensures extended == data + FieldWrites(sheetName, column, value, rowKeys)
  {
    var col := GetColumnLetter(column + 1);
    extended := data;
    for q := 0 to |rowKeys|
      invariant extended == data + FieldWrites(sheetName, column, value, rowKeys[..q])
    {
      var r := rowKeys[q] + 1;
      FieldWritesSnoc(sheetName, column, value, rowKeys, q);
      extended := extended + [CellWrite(sheetName + "!" + col + Decimal(r), [[value]])];
    }
    assert rowKeys[..|rowKeys|] == rowKeys;
  }

  /** One step of the outer loop of `update`. */
  lemma WriteListSnoc(sheetName: string, header: seq<string>, vars: seq<(string, string)>, rowKeys: seq<nat>, i: nat)
    requires i < |vars|
    ensures WriteList(sheetName, header, vars[..i + 1], rowKeys)
      == match FirstIndex(header, vars[i].0)
         case None => WriteList(sheetName, header, vars[..i], rowKeys)
         case Some(c) => WriteList(sheetName, header, vars[..i], rowKeys) + FieldWrites(sheetName, c, vars[i].1, rowKeys)
  {
    assert vars[..i + 1][..i] == vars[..i];
  }

  /** One step of the inner loop of `update`. */
  lemma FieldWritesSnoc(sheetName: string, column: nat, value: string, rowKeys: seq<nat>, q: nat)
    requires q < |rowKeys|
    ensures FieldWrites(sheetName, column, value, rowKeys[..q + 1])
      == FieldWrites(sheetName, column, value, rowKeys[..q])
         + [CellWrite(sheetName + "!" + ColumnLetters(column + 1) + Decimal(rowKeys[q] + 1), [[value]])]
  {
  }

  /** One write per pair of a known field and a matched row. */
  lemma {:induction false} WriteListLength(sheetName: string, header: seq<string>, vars: seq<(string, string)>, rowKeys: seq<nat>)
    ensures |WriteList(sheetName, header, vars, rowKeys)| == |KnownFields(header, vars)| * |rowKeys|
    decreases |vars|
  {
    if vars != [] {
      var front := vars[..|vars| - 1];
      WriteListLength(sheetName, header, front, rowKeys);
      MulSucc(|KnownFields(header, front)|, |rowKeys|);
    }
  }

  /** No write is produced exactly when no row matched or no field is in the header. */
  lemma WriteListEmptyIff(sheetName: string, header: seq<string>, vars: seq<(string, string)>, rowKeys: seq<nat>)
    ensures WriteList(sheetName, header, vars, rowKeys) == []
      <==> rowKeys == [] || forall p :: p in vars ==> p.0 !in header
  {
    WriteListLength(sheetName, header, vars, rowKeys);
    var known := KnownFields(header, vars);
    if known != [] && rowKeys != [] {
      assert known[0] in known;
      MulSucc(|known| - 1, |rowKeys|);
    }
  }

  lemma MulSucc(k: nat, n: nat)
    ensures (k + 1) * n == k * n + n
  {
  }

  lemma {:induction false} MulMonotone(a: nat, b: nat, n: nat)
    requires a <= b
    ensures a * n <= b * n
    decreases b - a
  {
    if a < b {
      MulMonotone(a, b - 1, n);
      MulSucc(b - 1, n);
    }
  }

  lemma MulStep(i: nat, q: nat, n: nat, k: nat)
    requires i < k && q < n
    ensures i * n + q < k * n
  {
    MulSucc(i, n);
    MulMonotone(i + 1, k, n);
  }

  /**
   * Order and content of the write list: entry `i * |rowKeys| + q` writes
   * the value of the i-th known field to the cell at that field's first
   * header column and the q-th matched row.
   */
  lemma {:induction false} WriteListAt(sheetName: string, header: seq<string>, vars: seq<(string, string)>, rowKeys: seq<nat>, i: nat, q: nat)
    requires i < |KnownFields(header, vars)| && q < |rowKeys|
    ensures var known := KnownFields(header, vars);
      && known[i] in known
      && i * |rowKeys| + q < |WriteList(sheetName, header, vars, rowKeys)|
      && WriteList(sheetName, header, vars, rowKeys)[i * |rowKeys| + q]
         == CellWrite(Address(sheetName, FirstIndex(header, known[i].0).value, rowKeys[q]), [[known[i].1]])
    decreases |vars|
  {
    var known := KnownFields(header, vars);
    assert known[i] in known;
    var n := |vars|;
    var front := vars[..n - 1];
    var priorKnown := KnownFields(header, front);
    var prior := WriteList(sheetName, header, front, rowKeys);
    WriteListLength(sheetName, header, front, rowKeys);
    if i < |priorKnown| {
      WriteListAt(sheetName, header, front, rowKeys, i, q);
      MulStep(i, q, |rowKeys|, |priorKnown|);
      assert known[i] == priorKnown[i];
    } else {
      assert i == |priorKnown| && vars[n - 1].0 in header;
      assert known[i] == vars[n - 1];
    }
  }
}
