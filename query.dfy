/**
 * `select` of src/Google/Spreadsheet/Sheet.php: an `array_filter` over
 * `items` that keeps the matching rows under their own keys and in order.
 */
module Query {
  import opened Wrappers
  import opened Table

  /**
   * The condition handed to `select`: a callable applied to each record,
   * an array of field => value pairs, or anything else.
   */
  datatype Condition =
    | Callback(keep: map<string, string> -> bool)
    | FieldsEqual(expected: map<string, string>)
    | Unsupported

  /** Every listed field is present in the record and strictly equal to the given value. */
  predicate MatchesAll(expected: map<string, string>, fields: map<string, string>)
  {
    forall key :: key in expected ==> key in fields && fields[key] == expected[key]
  }

  /** Whether `select` keeps a row with this record. */
  predicate Keeps(condition: Condition, fields: map<string, string>)
  {
    match condition
    case Callback(keep) => keep(fields)
    case FieldsEqual(expected) => MatchesAll(expected, fields)
    case Unsupported => false
  }

  /** `array_filter`: the rows whose record satisfies `keep`, in their original order. */
  function Filter(items: seq<Row>, keep: map<string, string> -> bool): (r: seq<Row>)
    ensures |r| <= |items|
    ensures forall x :: x in r <==> x in items && keep(x.fields)
    ensures Ascending(items) ==> Ascending(r)
  {
    if items == [] then []
    else
      var rest := Filter(items[1..], keep);
      assert forall x :: x in items <==> x == items[0] || x in items[1..];
      if keep(items[0].fields) then
        FirstBeforeRest(items, rest);
        [items[0]] + rest
      else
        AscendingTail(items);
        rest
  }

  lemma AscendingTail(items: seq<Row>)
    requires items != []
    ensures Ascending(items) ==> Ascending(items[1..])
  {
  }

  /** Putting the first item in front of rows drawn from the later items keeps the keys ascending. */
  lemma FirstBeforeRest(items: seq<Row>, rest: seq<Row>)
    requires items != []
    requires forall x :: x in rest ==> x in items[1..]
    requires Ascending(items) ==> Ascending(rest)
    ensures Ascending(items) ==> Ascending([items[0]] + rest)
  {
    if Ascending(items) {
      var r := [items[0]] + rest;
      forall a, b | 0 <= a < b < |r|
        ensures r[a].index < r[b].index
      {
        if a == 0 {
          assert r[b] in items[1..];
        }
      }
    }
  }

  /**
   * `select($condition)`: null for a condition that is neither callable nor
   * an array; otherwise the rows of `items` the condition keeps.
   */
  function Select(items: seq<Row>, condition: Condition): (r: Option<seq<Row>>)
    ensures r.None? <==> condition.Unsupported?
    ensures r.Some? ==> |r.value| <= |items|
    ensures r.Some? ==> forall x :: x in r.value <==> x in items && Keeps(condition, x.fields)
    ensures r.Some? && Ascending(items) ==> Ascending(r.value)
  {
    match condition
    case Callback(keep) => Some(Filter(items, keep))
    case FieldsEqual(expected) => Some(Filter(items, fields => MatchesAll(expected, fields)))
    case Unsupported => None
  }

  /** `array_keys` of a selection: the keys of the rows, in order. */
  function Keys(rows: seq<Row>): (keys: seq<nat>)
    ensures |keys| == |rows|
    ensures forall k :: 0 <= k < |rows| ==> keys[k] == rows[k].index
  {
    seq(|rows|, k requires 0 <= k < |rows| => rows[k].index)
  }

  /**
   * The row keys `update` takes from `select`: the keys of the kept rows in
   * order; a null selection (an unsupported condition) gives no keys.
   */
  function MatchedKeys(items: seq<Row>, condition: Condition): (keys: seq<nat>)
    ensures |keys| <= |items|
    ensures forall k :: k in keys <==>
      exists x :: x in items && x.index == k && Keeps(condition, x.fields)
    ensures Ascending(items) ==> forall a, b :: 0 <= a < b < |keys| ==> keys[a] < keys[b]
  {
    match Select(items, condition)
    case None => []
    case Some(rows) =>
      var keys := Keys(rows);
      assert forall k :: k in keys <==> exists x :: x in rows && x.index == k by {
        forall k | k in keys
          ensures exists x :: x in rows && x.index == k
        {
          var q :| 0 <= q < |keys| && keys[q] == k;
          assert rows[q] in rows;
        }
      }
      keys
  }

  /** A filter that rejects nothing returns the rows unchanged. */
  lemma {:induction false} FilterKeepingAll(items: seq<Row>, keep: map<string, string> -> bool)
    requires forall k :: 0 <= k < |items| ==> keep(items[k].fields)
    ensures Filter(items, keep) == items
  {
    if items != [] {
      FilterKeepingAll(items[1..], keep);
    }
  }

  /** An empty array condition selects every row. */
  lemma SelectEmptyConditionKeepsAll(items: seq<Row>)
    ensures Select(items, FieldsEqual(map[])) == Some(items)
  {
    FilterKeepingAll(items, fields => MatchesAll(map[], fields));
  }

  /** A filter that keeps nothing returns no rows. */
  lemma {:induction false} FilterKeepingNone(items: seq<Row>, keep: map<string, string> -> bool)
    requires forall k :: 0 <= k < |items| ==> !keep(items[k].fields)
    ensures Filter(items, keep) == []
  {
    if items != [] {
      FilterKeepingNone(items[1..], keep);
    }
  }

  /**
   * The selection is a sub-map of `items`: each selected row is an item with
   * the same key and record, and the keys keep their order; over the items
   * `parse` builds, at most one row carries a given key.
   */
  lemma SelectIsSubMap(values: Grid, condition: Condition)
    requires condition != Unsupported
    ensures var r := Select(ParsedItems(values), condition).value;
      && Ascending(r)
      && (forall x :: x in r ==> 1 <= x.index < |values| && ParsedItems(values)[x.index - 1] == x)
  {
    var items := ParsedItems(values);
    var r := Select(items, condition).value;
    forall x | x in r
      ensures 1 <= x.index < |values| && items[x.index - 1] == x
    {
      var k :| 0 <= k < |items| && items[k] == x;
    }
  }
}
