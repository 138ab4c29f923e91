/**
 * The primary-key checks written inline in the exercise tests: keep the
 * `SHOW INDEXES` rows of the `primary` index that are key columns (their
 * direction is not `N/A`), then either assert each is the single `id` key
 * column, or compare the map column name -> position with the expected map.
 */
module PrimaryKey {
  import opened Values

  const PrimaryIndex: Value := Str("primary")
  const NotApplicable: Value := Str("N/A")

  /** A `SHOW INDEXES` row carrying every field the checks read. */
  predicate IsIndexRow(row: Row)
  {
    "index_name" in row && "direction" in row && "column_name" in row && "seq_in_index" in row && "storing" in row
  }

  predicate AllIndexRows(rows: seq<Row>)
  {
    forall i :: 0 <= i < |rows| ==> IsIndexRow(rows[i])
  }

  /** The row is a key column of the primary index. */
  predicate KeyPart(row: Row)
  {
    "index_name" in row && row["index_name"] == PrimaryIndex && "direction" in row && row["direction"] != NotApplicable
  }

  /**
   * `key['index_name'] == 'primary' and key['direction'] != 'N/A'`: the
   * direction is read only for rows of the primary index.
   */
  function InPrimaryKey(row: Row): (r: Result<bool>)
    ensures r.Ok? ==> r.value == KeyPart(row)
    ensures IsIndexRow(row) ==> r.Ok?
  {
    if "index_name" !in row then Err(KeyError("index_name"))
    else if row["index_name"] != PrimaryIndex then Ok(false)
    else if "direction" !in row then Err(KeyError("direction"))
    else Ok(row["direction"] != NotApplicable)
  }

  /** The list comprehension: exactly the key-column rows, in their order. */
  function PrimaryKeyRows(indexes: seq<Row>): (r: Result<seq<Row>>)
    ensures AllIndexRows(indexes) ==> r.Ok?
    ensures r.Ok? ==> forall row :: row in r.value <==> row in indexes && KeyPart(row)
  {
    if indexes == [] then Ok([])
    else
      match InPrimaryKey(indexes[0])
      case Err(f) => Err(f)
      case Ok(keep) =>
        match PrimaryKeyRows(indexes[1..])
        case Err(f) => Err(f)
        case Ok(rest) => Ok(if keep then [indexes[0]] + rest else rest)
  }

  // ---------------------------------------------------------------------------
  // Single key column: `id`
  // ---------------------------------------------------------------------------

  /** The row describes `id` as the first ascending key column, not a stored one. */
  predicate IsIdKey(row: Row)
  {
    && "column_name" in row && row["column_name"] == Str("id")
    && "seq_in_index" in row && row["seq_in_index"] == Int(1)
    && "direction" in row && row["direction"] == Str("ASC")
    && "storing" in row && row["storing"] == Bool(false)
  }

  /** The four asserts of the loop over the key columns, in order. */
  function CheckIdKeyRow(key: Row): Outcome
  {
    if "column_name" !in key then Fail(KeyError("column_name"))
    else if key["column_name"] != Str("id") then Fail(PrimaryKeyMismatch("column_name"))
    else if "seq_in_index" !in key then Fail(KeyError("seq_in_index"))
    else if key["seq_in_index"] != Int(1) then Fail(PrimaryKeyMismatch("seq_in_index"))
    else if "direction" !in key then Fail(KeyError("direction"))
    else if key["direction"] != Str("ASC") then Fail(PrimaryKeyMismatch("direction"))
    else if "storing" !in key then Fail(KeyError("storing"))
    else if key["storing"] != Bool(false) then Fail(PrimaryKeyMismatch("storing"))
    else Pass
  }

  function CheckIdKeyRows(keys: seq<Row>): Outcome
  {
    if keys == [] then Pass
    else
      match CheckIdKeyRow(keys[0])
      case Fail(f) => Fail(f)
      case Pass => CheckIdKeyRows(keys[1..])
  }

  /** The single-column primary-key check of the `id` tables. */
  function CheckIdPrimaryKey(indexes: seq<Row>): Outcome
  {
    match PrimaryKeyRows(indexes)
    case Err(f) => Fail(f)
    case Ok(keys) => CheckIdKeyRows(keys)
  }

  lemma {:induction false} CheckIdKeyRowsIff(keys: seq<Row>)
    ensures CheckIdKeyRows(keys) == Pass <==> forall row :: row in keys ==> IsIdKey(row)
  {
    if keys != [] {
      CheckIdKeyRowsIff(keys[1..]);
      assert keys == [keys[0]] + keys[1..];
      assert CheckIdKeyRow(keys[0]) == Pass <==> IsIdKey(keys[0]);
      if CheckIdKeyRows(keys) == Pass {
        assert CheckIdKeyRows(keys[1..]) == Pass;
      }
    }
  }

  /**
   * On well-formed index rows the single-key check passes exactly when every
   * key column of the primary index is `id`, position 1, ascending, not stored.
   */
  lemma IdPrimaryKeyIff(indexes: seq<Row>)
    requires AllIndexRows(indexes)
    ensures CheckIdPrimaryKey(indexes) == Pass <==>
            forall i :: 0 <= i < |indexes| && KeyPart(indexes[i]) ==> IsIdKey(indexes[i])
  {
    CheckIdKeyRowsIff(PrimaryKeyRows(indexes).value);
  }

  /** The loop asserts nothing when no row survives the filter, so the check passes vacuously. */
  lemma IdPrimaryKeyVacuous(indexes: seq<Row>)
    requires AllIndexRows(indexes)
    requires forall i :: 0 <= i < |indexes| ==> !KeyPart(indexes[i])
    ensures CheckIdPrimaryKey(indexes) == Pass
  {
    IdPrimaryKeyIff(indexes);
  }

  // ---------------------------------------------------------------------------
  // Composite key: `{'make': 1, 'model': 2}`
  // ---------------------------------------------------------------------------

  /** Row `i` is a key column whose name no later key column repeats. */
  predicate LastWithName(indexes: seq<Row>, i: int)
    requires AllIndexRows(indexes)
  {
    && 0 <= i < |indexes| && KeyPart(indexes[i])
    && forall j :: i < j < |indexes| && KeyPart(indexes[j]) ==> indexes[j]["column_name"] != indexes[i]["column_name"]
  }

  /** Some key column is named `name`. */
  predicate NamedKeyPart(indexes: seq<Row>, name: Value)
    requires AllIndexRows(indexes)
  {
    exists i :: 0 <= i < |indexes| && KeyPart(indexes[i]) && indexes[i]["column_name"] == name
  }

  /**
   * `{key['column_name']: key['seq_in_index'] for key in indexes if ...}`,
   * starting from `acc`: a name maps to the position of the LAST key column
   * carrying it; names no key column carries keep their entry in `acc`.
   */
  function KeyColumns(indexes: seq<Row>, acc: map<Value, Value>): (r: Result<map<Value, Value>>)
    ensures AllIndexRows(indexes) ==> r.Ok?
    ensures AllIndexRows(indexes) ==>
              (forall k :: k in r.value <==> k in acc || NamedKeyPart(indexes, k)) &&
              (forall k :: k in acc && !NamedKeyPart(indexes, k) ==> r.value[k] == acc[k]) &&
              (forall i :: LastWithName(indexes, i) ==> r.value[indexes[i]["column_name"]] == indexes[i]["seq_in_index"])
  {
    if indexes == [] then Ok(acc)
    else
      var row := indexes[0];
      match InPrimaryKey(row)
      case Err(f) => Err(f)
      case Ok(keep) =>
        if !keep then
          var r := KeyColumns(indexes[1..], acc);
          KeyColumnsShift(indexes, r);
          r
        else if "column_name" !in row then Err(KeyError("column_name"))
        else if "seq_in_index" !in row then Err(KeyError("seq_in_index"))
        else
          var r := KeyColumns(indexes[1..], acc[row["column_name"] := row["seq_in_index"]]);
          KeyColumnsShift(indexes, r);
          r
  }

  /** Facts about the first row and the tail that the recursion of `KeyColumns` rests on. */
  lemma KeyColumnsShift(indexes: seq<Row>, r: Result<map<Value, Value>>)
    requires |indexes| > 0
    ensures AllIndexRows(indexes) ==> AllIndexRows(indexes[1..])
    ensures AllIndexRows(indexes) ==>
              forall k :: NamedKeyPart(indexes, k) <==>
                (KeyPart(indexes[0]) && indexes[0]["column_name"] == k) || NamedKeyPart(indexes[1..], k)
    ensures AllIndexRows(indexes) ==>
              forall i :: 1 <= i < |indexes| ==> (LastWithName(indexes, i) <==> LastWithName(indexes[1..], i - 1))
  {
    if AllIndexRows(indexes) {
      var tail := indexes[1..];
      assert forall i :: 1 <= i < |indexes| ==> indexes[i] == tail[i - 1];
      forall k | NamedKeyPart(indexes, k)
        ensures (KeyPart(indexes[0]) && indexes[0]["column_name"] == k) || NamedKeyPart(tail, k)
      {
        var i :| 0 <= i < |indexes| && KeyPart(indexes[i]) && indexes[i]["column_name"] == k;
        if i > 0 {
          assert KeyPart(tail[i - 1]) && tail[i - 1]["column_name"] == k;
        }
      }
      forall k | NamedKeyPart(tail, k)
        ensures NamedKeyPart(indexes, k)
      {
        var i :| 0 <= i < |tail| && KeyPart(tail[i]) && tail[i]["column_name"] == k;
        assert KeyPart(indexes[i + 1]) && indexes[i + 1]["column_name"] == k;
      }
      assert forall k :: KeyPart(indexes[0]) && indexes[0]["column_name"] == k ==> NamedKeyPart(indexes, k);
    }
  }

  /** The composite-key check: the built map must equal the expected map exactly. */
  function CheckCompositeKey(indexes: seq<Row>, expected: map<Value, Value>): Outcome
  {
    match KeyColumns(indexes, map[])
    case Err(f) => Fail(f)
    case Ok(columns) => if columns == expected then Pass else Fail(PrimaryKeyMismatch("column_name"))
  }

  /**
   * On well-formed index rows the composite check passes exactly when the key
   * columns carry exactly the expected names, and the last key column of each
   * name sits at the expected position.
   */
  lemma CompositeKeyIff(indexes: seq<Row>, expected: map<Value, Value>)
    requires AllIndexRows(indexes)
    ensures CheckCompositeKey(indexes, expected) == Pass <==>
            (forall k :: k in expected <==> NamedKeyPart(indexes, k)) &&
            (forall i :: LastWithName(indexes, i) ==> indexes[i]["seq_in_index"] == expected[indexes[i]["column_name"]])
  {
    var columns := KeyColumns(indexes, map[]).value;
    if (forall k :: k in expected <==> NamedKeyPart(indexes, k)) &&
       (forall i :: LastWithName(indexes, i) ==> indexes[i]["seq_in_index"] == expected[indexes[i]["column_name"]]) {
      forall k | k in columns
        ensures columns[k] == expected[k]
      {
        var i := LastIndexNamed(indexes, k);
      }
    }
  }

  /** Every name a key column carries has a last key column carrying it. */
  lemma LastIndexNamed(indexes: seq<Row>, name: Value) returns (i: int)
    requires AllIndexRows(indexes) && NamedKeyPart(indexes, name)
    ensures LastWithName(indexes, i) && indexes[i]["column_name"] == name
  {
    var j :| 0 <= j < |indexes| && KeyPart(indexes[j]) && indexes[j]["column_name"] == name;
    i := j;
    var k := j + 1;
    while k < |indexes|
      invariant i < k <= |indexes|
      invariant KeyPart(indexes[i]) && indexes[i]["column_name"] == name
      invariant forall m :: i < m < k && KeyPart(indexes[m]) ==> indexes[m]["column_name"] != name
    {
      if KeyPart(indexes[k]) && indexes[k]["column_name"] == name {
        i := k;
      }
      k := k + 1;
    }
  }

  /** An empty filter result fails against a non-empty expectation. */
  lemma CompositeKeyEmptyFails(indexes: seq<Row>, expected: map<Value, Value>)
    requires AllIndexRows(indexes) && expected != map[]
    requires forall i :: 0 <= i < |indexes| ==> !KeyPart(indexes[i])
    ensures CheckCompositeKey(indexes, expected) != Pass
  {
    CompositeKeyIff(indexes, expected);
    var k :| k in expected;
  }

  /** An extra key column (a name the expectation lacks) fails. */
  lemma CompositeKeyExtraColumnFails(indexes: seq<Row>, expected: map<Value, Value>, i: int)
    requires AllIndexRows(indexes) && 0 <= i < |indexes| && KeyPart(indexes[i])
    requires indexes[i]["column_name"] !in expected
    ensures CheckCompositeKey(indexes, expected) != Pass
  {
    CompositeKeyIff(indexes, expected);
  }

  /** A missing key column (an expected name no key column carries) fails. */
  lemma CompositeKeyMissingColumnFails(indexes: seq<Row>, expected: map<Value, Value>, name: Value)
    requires AllIndexRows(indexes) && name in expected
    requires forall i :: 0 <= i < |indexes| && KeyPart(indexes[i]) ==> indexes[i]["column_name"] != name
    ensures CheckCompositeKey(indexes, expected) != Pass
  {
    CompositeKeyIff(indexes, expected);
  }
}
