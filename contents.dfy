/**
 * Row-content checks: `check_table_contents_by_id` (keyed lookup of the
 * first row carrying each expected identifier) and `check_table_contents`
 * (one filtered `SELECT` per expected record, each needing at least one row).
 * The rows the database returns are inputs; the filtered `SELECT` is
 * modelled as per-field equality over those rows.
 */
module Contents {
  import opened Values
  import opened Text
  import opened Scripts

  // ---------------------------------------------------------------------------
  // Keyed lookup
  // ---------------------------------------------------------------------------

  /** Every row carries the search field. */
  predicate AllHave(rows: seq<Row>, field: string)
  {
    forall j :: 0 <= j < |rows| ==> field in rows[j]
  }

  /** `[row[field] for row in rows]`. */
  function Ids(rows: seq<Row>, field: string): (ids: seq<Value>)
    requires AllHave(rows, field)
    ensures |ids| == |rows|
    ensures forall j :: 0 <= j < |rows| ==> ids[j] == rows[j][field]
  {
    if rows == [] then [] else [rows[0][field]] + Ids(rows[1..], field)
  }

  /**
   * `for field in expected: assert row[field] == expected[field]`: passes
   * exactly when the row carries every listed field with the listed value;
   * a missing field raises, a different value fails naming that field.
   */
  function CompareFields(row: Row, key: Value, fields: Record): (r: Outcome)
    ensures r == Pass <==> MatchesAll(row, fields)
    ensures r.Fail? ==> (exists k :: 0 <= k < |fields| &&
                          (r.failure == KeyError(fields[k].0) || r.failure == FieldMismatch(key, fields[k].0)))
  {
    if fields == [] then Pass
    else if fields[0].0 !in row then Fail(KeyError(fields[0].0))
    else if row[fields[0].0] != fields[0].1 then Fail(FieldMismatch(key, fields[0].0))
    else
      var rest := CompareFields(row, key, fields[1..]);
      assert forall k :: 1 <= k < |fields| ==> fields[k] == fields[1..][k - 1];
      rest
  }

  /** Row `i` is the first row whose search field holds `key`. */
  predicate FirstWith(rows: seq<Row>, field: string, key: Value, i: int)
  {
    && 0 <= i < |rows|
    && field in rows[i] && rows[i][field] == key
    && forall j :: 0 <= j < i ==> field in rows[j] && rows[j][field] != key
  }

  /** The first row carrying `key` exists and agrees with `fields` (other fields ignored). */
  ghost predicate FoundAndMatches(rows: seq<Row>, field: string, key: Value, fields: Record)
  {
    exists i :: FirstWith(rows, field, key, i) && MatchesAll(rows[i], fields)
  }

  /** check_table_contents_by_id, on the rows that `SELECT *` returned. */
  function CheckTableContentsById(rows: seq<Row>, expected: seq<(Value, Record)>, searchField: string): Outcome
  {
    if expected == [] then Pass
    else if !AllHave(rows, searchField) then Fail(KeyError(searchField))
    else
      var ids := Ids(rows, searchField);
      var key := expected[0].0;
      if key !in ids then Fail(MissingRow(key))
      else
        match CompareFields(rows[IndexOf(ids, key)], key, expected[0].1)
        case Fail(f) => Fail(f)
        case Pass => CheckTableContentsById(rows, expected[1..], searchField)
  }

  /**
   * `check_table_contents_by_id` as a whole: run the answer script, then
   * check the rows that `SELECT *` returns afterwards.
   */
  function CheckByIdAfterScript(env: Env, script: string, rows: seq<Row>, expected: seq<(Value, Record)>, searchField: string): Outcome
  {
    AfterScript(env, script, CheckTableContentsById(rows, expected, searchField))
  }

  lemma FirstIndexIsFirstWith(rows: seq<Row>, field: string, key: Value)
    requires AllHave(rows, field) && key in Ids(rows, field)
    ensures FirstWith(rows, field, key, IndexOf(Ids(rows, field), key))
  {
  }

  lemma FirstWithUnique(rows: seq<Row>, field: string, key: Value, i: int, i': int)
    requires FirstWith(rows, field, key, i) && FirstWith(rows, field, key, i')
    ensures i == i'
  {
  }

  /**
   * The keyed check passes exactly when (for a non-empty expectation) every
   * row has the search field and, for every expected key, the first row
   * carrying that key exists and agrees on the listed fields.
   */
  lemma {:induction false} CheckByIdIff(rows: seq<Row>, expected: seq<(Value, Record)>, searchField: string)
    ensures CheckTableContentsById(rows, expected, searchField) == Pass <==>
            (|expected| > 0 ==> AllHave(rows, searchField)) &&
            forall k :: 0 <= k < |expected| ==> FoundAndMatches(rows, searchField, expected[k].0, expected[k].1)
  {
    if expected != [] && AllHave(rows, searchField) {
      var ids := Ids(rows, searchField);
      var key := expected[0].0;
      CheckByIdIff(rows, expected[1..], searchField);
      assert forall k :: 1 <= k < |expected| ==> expected[k] == expected[1..][k - 1];
      if key in ids {
        var i := IndexOf(ids, key);
        FirstIndexIsFirstWith(rows, searchField, key);
        if FoundAndMatches(rows, searchField, key, expected[0].1) {
          var i' :| FirstWith(rows, searchField, key, i') && MatchesAll(rows[i'], expected[0].1);
          FirstWithUnique(rows, searchField, key, i, i');
        }
        if CheckTableContentsById(rows, expected, searchField) == Pass {
          assert FoundAndMatches(rows, searchField, key, expected[0].1);
        }
      } else {
        forall i | 0 <= i < |rows|
          ensures rows[i][searchField] != key
        {
          assert ids[i] == rows[i][searchField];
        }
      }
    }
  }

  /**
   * The keyed helper passes exactly when the script exists and is accepted
   * and the rows pass the keyed check; a missing script is reported before
   * any row is read.
   */
  lemma ByIdAfterScriptIff(env: Env, script: string, rows: seq<Row>, expected: seq<(Value, Record)>, searchField: string)
    ensures CheckByIdAfterScript(env, script, rows, expected, searchField) == Pass <==>
            && Runnable(env, script)
            && (|expected| > 0 ==> AllHave(rows, searchField))
            && forall k :: 0 <= k < |expected| ==> FoundAndMatches(rows, searchField, expected[k].0, expected[k].1)
    ensures script !in env.files ==>
            CheckByIdAfterScript(env, script, rows, expected, searchField) == Fail(ScriptNotFound(script))
  {
    CheckByIdIff(rows, expected, searchField);
  }

  /**
   * Rows appended after the existing ones never make a passing keyed check
   * fail, as long as each of them carries the search field.
   */
  lemma ExtraRowsIgnoredById(rows: seq<Row>, more: seq<Row>, expected: seq<(Value, Record)>, searchField: string)
    requires AllHave(more, searchField)
    requires CheckTableContentsById(rows, expected, searchField) == Pass
    ensures CheckTableContentsById(rows + more, expected, searchField) == Pass
  {
    CheckByIdIff(rows, expected, searchField);
    CheckByIdIff(rows + more, expected, searchField);
    forall k | 0 <= k < |expected|
      ensures FoundAndMatches(rows + more, searchField, expected[k].0, expected[k].1)
    {
      var i :| FirstWith(rows, searchField, expected[k].0, i) && MatchesAll(rows[i], expected[k].1);
      assert FirstWith(rows + more, searchField, expected[k].0, i);
    }
  }

  /** A row without the search field, anywhere in the table, makes a non-empty keyed check raise `KeyError`. */
  lemma RowWithoutSearchFieldRaises(rows: seq<Row>, row: Row, more: seq<Row>, expected: seq<(Value, Record)>, searchField: string)
    requires |expected| > 0 && searchField !in row
    ensures CheckTableContentsById(rows + [row] + more, expected, searchField) == Fail(KeyError(searchField))
  {
    assert (rows + [row] + more)[|rows|] == row;
  }


  // ---------------------------------------------------------------------------
  // Filtered matching
  // ---------------------------------------------------------------------------

  /** The text a value takes inside an f-string (Python's `str`). */
  function Render(v: Value): string
  {
    match v
    case Null => "None"
    case Bool(b) => if b then "True" else "False"
    case Int(i) => IntToString(i)
    case Str(s) => s
    case Date(y, m, d) =>
      ZeroPad(NatToString(y), 4) + "-" + ZeroPad(NatToString(m), 2) + "-" + ZeroPad(NatToString(d), 2)
  }

  /** `f"{field} = '{value}'"`. */
  function Term(field: string, v: Value): string
  {
    field + " = '" + Render(v) + "'"
  }

  function Terms(rec: Record): (ts: seq<string>)
    ensures |ts| == |rec|
  {
    seq(|rec|, k requires 0 <= k < |rec| => Term(rec[k].0, rec[k].1))
  }

  /** `' AND '.join(f"{field} = '{record[field]}'" for field in record)`. */
  function Condition(rec: Record): string
  {
    Join(" AND ", Terms(rec))
  }

  /** The condition is empty exactly for the empty record. */
  lemma ConditionEmptyIff(rec: Record)
    ensures Condition(rec) == "" <==> rec == []
  {
    if rec != [] {
      JoinPartAt(" AND ", Terms(rec), 0);
      assert |Terms(rec)[0]| > 0;
    }
  }

  /** A one-field record renders as a single equality term. */
  lemma ConditionSingle(field: string, v: Value)
    ensures Condition([(field, v)]) == field + " = '" + Render(v) + "'"
  {
  }

  /** The terms follow the record's key order, conjoined by `AND`. */
  lemma ConditionAppend(r1: Record, r2: Record)
    requires r1 != [] && r2 != []
    ensures Condition(r1 + r2) == Condition(r1) + " AND " + Condition(r2)
  {
    assert Terms(r1 + r2) == Terms(r1) + Terms(r2);
    JoinAppend(" AND ", Terms(r1), Terms(r2));
  }

  /** The rows (in order) that satisfy per-field equality with `rec`. */
  function Filter(rows: seq<Row>, rec: Record): (kept: seq<Row>)
    ensures forall row :: row in kept <==> row in rows && MatchesAll(row, rec)
    ensures |kept| <= |rows|
  {
    if rows == [] then []
    else if MatchesAll(rows[0], rec) then [rows[0]] + Filter(rows[1..], rec)
    else Filter(rows[1..], rec)
  }

  /**
   * `select_condition(condition)`: with a non-empty condition the table
   * filtered by it, otherwise the whole table.
   */
  function Select(rows: seq<Row>, rec: Record): seq<Row>
  {
    if Condition(rec) != "" then Filter(rows, rec) else rows
  }

  /** The filtered select returns a row exactly when some row agrees with the record. */
  lemma SelectNonEmptyIff(rows: seq<Row>, rec: Record)
    ensures |Select(rows, rec)| > 0 <==> exists j :: 0 <= j < |rows| && MatchesAll(rows[j], rec)
  {
    ConditionEmptyIff(rec);
    var sel := Select(rows, rec);
    if exists j :: 0 <= j < |rows| && MatchesAll(rows[j], rec) {
      var j :| 0 <= j < |rows| && MatchesAll(rows[j], rec);
      assert rows[j] in sel;
    }
    if |sel| > 0 {
      assert sel[0] in sel;
    }
  }

  /** check_table_contents: every expected record must select at least one row. */
  function CheckTableContents(rows: seq<Row>, expected: seq<Record>): Outcome
  {
    if expected == [] then Pass
    else if |Select(rows, expected[0])| > 0 then CheckTableContents(rows, expected[1..])
    else Fail(NoMatchingRow(expected[0]))
  }

  /**
   * `check_table_contents` as a whole: run the answer script, then one
   * filtered `SELECT` per expected record on the table as it is afterwards.
   */
  function CheckContentsAfterScript(env: Env, script: string, rows: seq<Row>, expected: seq<Record>): Outcome
  {
    AfterScript(env, script, CheckTableContents(rows, expected))
  }

  /** The filtered check passes exactly when every expected record agrees with some row. */
  lemma {:induction false} CheckContentsIff(rows: seq<Row>, expected: seq<Record>)
    ensures CheckTableContents(rows, expected) == Pass <==>
            forall k :: 0 <= k < |expected| ==> exists j :: 0 <= j < |rows| && MatchesAll(rows[j], expected[k])
  {
    if expected != [] {
      SelectNonEmptyIff(rows, expected[0]);
      CheckContentsIff(rows, expected[1..]);
      assert forall k :: 1 <= k < |expected| ==> expected[k] == expected[1..][k - 1];
    }
  }
  /**
   * The filtered helper passes exactly when the script exists and is
   * accepted and every expected record agrees with some row; a missing
   * script is reported before any query is made.
   */
  lemma ContentsAfterScriptIff(env: Env, script: string, rows: seq<Row>, expected: seq<Record>)
    ensures CheckContentsAfterScript(env, script, rows, expected) == Pass <==>
            && Runnable(env, script)
            && forall k :: 0 <= k < |expected| ==> exists j :: 0 <= j < |rows| && MatchesAll(rows[j], expected[k])
    ensures script !in env.files ==> CheckContentsAfterScript(env, script, rows, expected) == Fail(ScriptNotFound(script))
  {
    CheckContentsIff(rows, expected);
  }


  /** A failing filtered check names an expected record that no row agrees with. */
  lemma {:induction false} CheckContentsFailure(rows: seq<Row>, expected: seq<Record>)
    requires CheckTableContents(rows, expected) != Pass
    ensures CheckTableContents(rows, expected).failure.NoMatchingRow?
    ensures CheckTableContents(rows, expected).failure.record in expected
    ensures forall j :: 0 <= j < |rows| ==> !MatchesAll(rows[j], CheckTableContents(rows, expected).failure.record)
  {
    SelectNonEmptyIff(rows, expected[0]);
    if |Select(rows, expected[0])| > 0 {
      CheckContentsFailure(rows, expected[1..]);
    }
  }

  /** Surplus live rows never cause failure: a passing check still passes on any table holding those rows. */
  lemma SurplusRowsTolerated(rows: seq<Row>, live: seq<Row>, expected: seq<Record>)
    requires forall j :: 0 <= j < |rows| ==> rows[j] in live
    requires CheckTableContents(rows, expected) == Pass
    ensures CheckTableContents(live, expected) == Pass
  {
    CheckContentsIff(rows, expected);
    CheckContentsIff(live, expected);
    forall k | 0 <= k < |expected|
      ensures exists j :: 0 <= j < |live| && MatchesAll(live[j], expected[k])
    {
      var j :| 0 <= j < |rows| && MatchesAll(rows[j], expected[k]);
      var j' :| 0 <= j' < |live| && live[j'] == rows[j];
    }
  }
}
