/**
 * The `Google_Spreadsheet_Sheet` object of src/Google/Spreadsheet/Sheet.php:
 * its options, the raw `values` last fetched, and the `header` and `items`
 * parsed from them. The Sheets API calls, the cache file and the clock are
 * parameters: `remote` is what `spreadsheets_values->get` returned, `file`
 * what the cache file holds, `now` the time; what is sent or saved is
 * returned.
 */
module SheetModel {
  import opened Wrappers
  import opened Table
  import opened Query
  import opened Writes
  import opened Cache

  /**
   * The outcome of `spreadsheets_values->get`: an object whose `values` is
   * an array; anything else it returns (null, false, a non-object, `values`
   * not an array); or an exception thrown by the API client, such as on an
   * HTTP error.
   */
  datatype Remote = Malformed | Values(grid: Grid) | Failed(error: string)

  /** The inner loop of `parse`: assign each header name its cell of `row`, left to right. */
  method ZipRow(header: seq<string>, row: seq<string>) returns (record: map<string, string>)
    ensures record == RowRecord(header, row)
  {
    record := map[];
    for j := 0 to |header|
      invariant record == RowRecord(header[..j], row)
    {
      assert header[..j + 1][..j] == header[..j];
      record := record[header[j] := if j < |row| then row[j] else ""];
    }
    assert header[..|header|] == header;
  }

  class Sheet {
    const name: string
    const id: string
    var values: Grid
    var header: seq<string>
    var items: seq<Row>
    var options: Options

    /** `config` never adds or removes an option. */
    ghost predicate Valid()
      reads this
    {
      options.Keys == DefaultOptions().Keys
    }

    /** `header` and `items` are what `parse` makes of `values`. */
    ghost predicate Synced()
      reads this
    {
      header == HeaderOf(values) && items == ParsedItems(values)
    }

    constructor (name: string, id: string)
      ensures this.name == name && this.id == id
      ensures options == DefaultOptions() && values == [] && header == [] && items == []
      ensures Valid() && Synced()
    {
      this.name := name;
      this.id := id;
      values := [];
      header := [];
      items := [];
      options := DefaultOptions();
    }

    /** `config($options)`: overwrite the known options in the order given. */
    method Config(given: seq<(string, OptionValue)>)
      modifies this`options
      ensures options == Configure(old(options), given)
      ensures options.Keys == old(options).Keys
      ensures old(Valid()) ==> Valid()
    {
      for i := 0 to |given|
        invariant options == Configure(old(options), given[..i])
      {
        assert given[..i + 1][..i] == given[..i];
        var (key, value) := given[i];
        if key in options {
          options := options[key := value];
        }
      }
      assert given[..|given|] == given;
    }

    /** `parse()`: rebuild `header` and `items` from `values`. */
    method Parse()
      modifies this`header, this`items
      ensures header == HeaderOf(values) && items == ParsedItems(values)
      ensures Synced()
    {
      var hdr: seq<string> := [];
      var rows: seq<Row> := [];
      for i := 0 to |values|
        invariant hdr == if i == 0 then [] else values[0]
        invariant |rows| == if i == 0 then 0 else i - 1
        invariant forall k :: 0 <= k < |rows| ==>
          rows[k] == Row(k + 1, RowRecord(values[0], values[k + 1]))
      {
        if i == 0 {
          hdr := values[i];
          continue;
        }
        var record := ZipRow(hdr, values[i]);
        rows := rows + [Row(i, record)];
      }
      header := hdr;
      items := rows;
    }

    /**
     * `fetch($force)`: load from the remote unless the cache is fresh and
     * not forced; `requested` says whether the remote was asked, `saved`
     * what was written to the cache file, `thrown` the exception the remote
     * call raised, which leaves `fetch` before anything changes.
     */
    method Fetch(force: bool, remote: Remote, file: CacheFile, now: int)
      returns (requested: bool, saved: Option<Grid>, thrown: Option<string>)
      requires Valid()
      modifies this`values, this`header, this`items
      ensures requested <==> force || !IsFresh(options, file, now)
      ensures !requested ==> file.Stored? && values == file.values && Synced()
      ensures requested && remote.Values? ==> values == remote.grid && Synced()
      ensures requested && !remote.Values? ==>
        values == old(values) && header == old(header) && items == old(items)
      ensures thrown == if requested && remote.Failed? then Some(remote.error) else None
      ensures saved == if requested && remote.Values? && Truthy(options["cache"]) then Some(remote.grid) else None
    {
      saved, thrown := None, None;
      if force || !IsFresh(options, file, now) {
        requested := true;
        match remote
        case Failed(error) =>
          thrown := Some(error);
        case Malformed =>
        case Values(grid) =>
          values := grid;
          Parse();
          if Truthy(options["cache"]) {
            saved := Some(values);
          }
      } else {
        requested := false;
        var cache := GetCache(options, file, now);
        values := cache.value;
        Parse();
      }
    }

    /**
     * `insert($vars)`: force a fetch, then append one row aligned to the
     * header; `appended` is the row sent, or the exception of the fetch,
     * in which case nothing is sent.
     */
    method Insert(vars: map<string, string>, remote: Remote, file: CacheFile, now: int)
      returns (appended: Outcome<seq<string>>, saved: Option<Grid>)
      requires Valid()
      modifies this`values, this`header, this`items
      ensures remote.Values? ==> values == remote.grid && Synced()
      ensures !remote.Values? ==>
        values == old(values) && header == old(header) && items == old(items)
      ensures saved == if remote.Values? && Truthy(options["cache"]) then Some(remote.grid) else None
      ensures appended.Thrown? <==> remote.Failed?
      ensures remote.Failed? ==> appended == Thrown(remote.error)
      ensures appended.Returned? ==> |appended.value| == |header|
      ensures appended.Returned? ==> forall j :: 0 <= j < |header| ==>
        appended.value[j] == if header[j] in vars then vars[header[j]] else ""
    {
      var _, s, thrown := Fetch(true, remote, file, now);
      saved := s;
      if thrown.Some? {
        return Thrown(thrown.value), saved;
      }
      var row := BuildAppendRow(header, vars);
      appended := Returned(row);
    }

    /**
     * `update($vars, $condition)`: force a fetch, select the matching rows,
     * and send every cell write in one batch, or nothing (null) when there
     * is no write; an exception of the fetch ends the call with nothing sent.
     */
    method Update(vars: seq<(string, string)>, condition: Condition, remote: Remote, file: CacheFile, now: int)
      returns (batch: Outcome<Option<seq<CellWrite>>>, saved: Option<Grid>)
      requires Valid()
      modifies this`values, this`header, this`items
      ensures remote.Values? ==> values == remote.grid && Synced()
      ensures !remote.Values? ==>
        values == old(values) && header == old(header) && items == old(items)
      ensures saved == if remote.Values? && Truthy(options["cache"]) then Some(remote.grid) else None
      ensures batch.Thrown? <==> remote.Failed?
      ensures remote.Failed? ==> batch == Thrown(remote.error)
      ensures batch.Returned? ==>
        var writes := WriteList(name, header, vars, MatchedKeys(items, condition));
        batch.value == if writes == [] then None else Some(writes)
    {
      var _, s, thrown := Fetch(true, remote, file, now);
      saved := s;
      if thrown.Some? {
        return Thrown(thrown.value), saved;
      }
      var rows := MatchedKeys(items, condition);
      var data := BuildWrites(name, header, vars, rows);
      if |data| > 0 {
        batch := Returned(Some(data));
      } else {
        batch := Returned(None);
      }
    }
  }
}
