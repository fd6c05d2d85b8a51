/** Worked cases of parsing, selecting and addressing on a small sheet. */
module Scenarios {
  import opened Wrappers
  import opened Table
  import opened Query
  import opened Writes
  import ColumnAddress

  function People(): Grid
  {
    [["name", "age"], ["Alice", "30"], ["Bob"]]
  }

  /** A short row gets '' for its missing trailing cell. */
  lemma ParsePeople()
    ensures HeaderOf(People()) == ["name", "age"]
    ensures ParsedItems(People()) == [
      Row(1, map["name" := "Alice", "age" := "30"]),
      Row(2, map["name" := "Bob", "age" := ""])]
  {
    var g := People();
    assert RowRecord(g[0], g[1]) == map["name" := "Alice", "age" := "30"] by {
      assert g[0][..1] == ["name"];
      assert RowRecord(g[0][..1], g[1]) == map["name" := "Alice"];
    }
    assert RowRecord(g[0], g[2]) == map["name" := "Bob", "age" := ""] by {
      assert g[0][..1] == ["name"];
      assert RowRecord(g[0][..1], g[2]) == map["name" := "Bob"];
    }
  }

  /** A repeated header name keeps the value of its last column. */
  lemma DuplicateHeaderLastWins()
    ensures RowRecord(["a", "a"], ["x", "y"]) == map["a" := "y"]
  {
    assert ["a", "a"][..1] == ["a"];
    assert RowRecord(["a"], ["x", "y"]) == map["a" := "x"];
  }

  /** Of two rows, a filter accepting only the first keeps the first alone. */
  lemma FilterFirstOfTwo(first: Row, second: Row, keep: map<string, string> -> bool)
    requires keep(first.fields) && !keep(second.fields)
    ensures Filter([first, second], keep) == [first]
  {
    assert [first, second][1..] == [second];
    assert [second][1..] == [];
  }

  /** Selecting Alice gives her row alone, under its key 1. */
  lemma SelectAlice()
    ensures Select(ParsedItems(People()), FieldsEqual(map["name" := "Alice"]))
      == Some([Row(1, map["name" := "Alice", "age" := "30"])])
  {
    ParsePeople();
    var alice := map["name" := "Alice"];
    var first := Row(1, map["name" := "Alice", "age" := "30"]);
    var second := Row(2, map["name" := "Bob", "age" := ""]);
    var keep := fields => MatchesAll(alice, fields);
    assert Select([first, second], FieldsEqual(alice)) == Some(Filter([first, second], keep));
    assert "name" in alice && second.fields["name"] == "Bob" && "Bob"[0] != "Alice"[0];
    FilterFirstOfTwo(first, second, keep);
  }

  /** A condition nobody meets selects nothing, which is not an error. */
  lemma SelectNobody()
    ensures Select(ParsedItems(People()), FieldsEqual(map["name" := "Carol"])) == Some([])
    ensures MatchedKeys(ParsedItems(People()), FieldsEqual(map["name" := "Carol"])) == []
  {
    ParsePeople();
    var items := ParsedItems(People());
    var carol := map["name" := "Carol"];
    assert items[0].fields["name"] == "Alice" && items[1].fields["name"] == "Bob";
    assert "Alice"[0] != "Carol"[0] && "Bob"[0] != "Carol"[0];
    FilterKeepingNone(items, fields => MatchesAll(carol, fields));
  }

  /** Updating Alice's age writes one cell, B2: column 2, sheet row 1 + 1. */
  lemma UpdateAlicesAge()
    ensures WriteList("Sheet1", ["name", "age"], [("age", "31")], [1])
      == [CellWrite("Sheet1!B2", [["31"]])]
  {
    assert FirstIndex(["name", "age"], "age") == Some(1);
    assert Decimal(2) == "2";
    assert ColumnAddress.ColumnLetters(2) == "B";
    assert Address("Sheet1", 1, 1) == "Sheet1!B2";
    assert FieldWrites("Sheet1", 1, "31", [1]) == [CellWrite("Sheet1!B2", [["31"]])];
    assert [("age", "31")][..0] == [];
  }
}
