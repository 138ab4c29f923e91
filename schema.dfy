/**
 * Schema checks: `check_table` (run a script, find the table in
 * `SHOW TABLES`, then check its columns), `check_columns` (the rows of
 * `SHOW COLUMNS` against four parallel expectation lists, matched by column
 * name) and
 * `check_foreign_key` (the canonical constraint text looked up among the
 * foreign-key rows of `SHOW CONSTRAINTS`).
 */
module Schema {
  import opened Values
  import opened Text
  import opened Scripts

  // ---------------------------------------------------------------------------
  // Columns
  // ---------------------------------------------------------------------------

  /** One column as a (name, type, default, nullable) tuple. */
  datatype ColumnSpec = ColumnSpec(name: Value, dataType: Value, default: Value, nullable: Value)

  /** A `SHOW COLUMNS` row carrying the four fields the check reads. */
  predicate IsColumnRow(row: Row)
  {
    "column_name" in row && "data_type" in row && "column_default" in row && "is_nullable" in row
  }

  predicate AllColumnRows(rows: seq<Row>)
  {
    forall i :: 0 <= i < |rows| ==> IsColumnRow(rows[i])
  }

  function SpecOf(row: Row): ColumnSpec
    requires IsColumnRow(row)
  {
    ColumnSpec(row["column_name"], row["data_type"], row["column_default"], row["is_nullable"])
  }

  /** The tuples of the live columns, in the order the database lists them. */
  function ActualSpecs(rows: seq<Row>): (specs: seq<ColumnSpec>)
    requires AllColumnRows(rows)
    ensures |specs| == |rows|
  {
    seq(|rows|, i requires 0 <= i < |rows| && AllColumnRows(rows) => SpecOf(rows[i]))
  }

  /** The four expectation lists must be parallel for their tuples to be defined. */
  predicate Parallel(names: seq<Value>, types: seq<Value>, defaults: seq<Value>, nullable: seq<Value>)
  {
    |types| == |names| && |defaults| == |names| && |nullable| == |names|
  }

  /** The expected tuples, zipped from the four parallel lists. */
  function ExpectedSpecs(names: seq<Value>, types: seq<Value>, defaults: seq<Value>, nullable: seq<Value>): (specs: seq<ColumnSpec>)
    requires Parallel(names, types, defaults, nullable)
    ensures |specs| == |names|
  {
    seq(|names|, i requires 0 <= i < |names| && Parallel(names, types, defaults, nullable) =>
      ColumnSpec(names[i], types[i], defaults[i], nullable[i]))
  }

  /**
   * The body of the loop in check_columns for one row: the name must be
   * expected; type, default and nullability are compared with the entries at
   * the first index carrying that name. A missing field raises `KeyError`, an
   * expectation list too short for that index raises `IndexError`.
   */
  function CheckColumn(row: Row, names: seq<Value>, types: seq<Value>, defaults: seq<Value>, nullable: seq<Value>): Outcome
  {
    if "column_name" !in row then Fail(KeyError("column_name"))
    else
      var name := row["column_name"];
      if name !in names then Fail(UnexpectedColumn(name))
      else
        var ind := IndexOf(names, name);
        if "data_type" !in row then Fail(KeyError("data_type"))
        else if ind >= |types| then Fail(IndexError(ind))
        else if row["data_type"] != types[ind] then Fail(TypeMismatch(name))
        else if "column_default" !in row then Fail(KeyError("column_default"))
        else if ind >= |defaults| then Fail(IndexError(ind))
        else if row["column_default"] != defaults[ind] then Fail(DefaultMismatch(name))
        else if "is_nullable" !in row then Fail(KeyError("is_nullable"))
        else if ind >= |nullable| then Fail(IndexError(ind))
        else if row["is_nullable"] != nullable[ind] then Fail(NullabilityMismatch(name))
        else Pass
  }

  function CheckEachColumn(rows: seq<Row>, names: seq<Value>, types: seq<Value>, defaults: seq<Value>, nullable: seq<Value>): Outcome
  {
    if rows == [] then Pass
    else
      match CheckColumn(rows[0], names, types, defaults, nullable)
      case Fail(f) => Fail(f)
      case Pass => CheckEachColumn(rows[1..], names, types, defaults, nullable)
  }

  /** check_columns: the counts must agree, then every live column must check. */
  function CheckColumns(rows: seq<Row>, names: seq<Value>, types: seq<Value>, defaults: seq<Value>, nullable: seq<Value>): Outcome
  {
    if |rows| != |names| then Fail(CardinalityMismatch)
    else CheckEachColumn(rows, names, types, defaults, nullable)
  }

  /** With distinct expected names, one live column checks exactly when its tuple is an expected tuple. */
  lemma CheckColumnIff(row: Row, names: seq<Value>, types: seq<Value>, defaults: seq<Value>, nullable: seq<Value>)
    requires IsColumnRow(row) && Parallel(names, types, defaults, nullable) && Distinct(names)
    ensures CheckColumn(row, names, types, defaults, nullable) == Pass <==>
            SpecOf(row) in ExpectedSpecs(names, types, defaults, nullable)
  {
    var expected := ExpectedSpecs(names, types, defaults, nullable);
    var name := row["column_name"];
    if name in names {
      var ind := IndexOf(names, name);
      assert expected[ind].name == name;
      if SpecOf(row) in expected {
        var j :| 0 <= j < |expected| && expected[j] == SpecOf(row);
        assert names[j] == name;
        assert j == ind;
      }
    } else {
      forall j | 0 <= j < |expected|
        ensures expected[j] != SpecOf(row)
      {
        assert expected[j].name == names[j];
      }
    }
  }

  /**
   * check_columns passes exactly when the counts agree and every live
   * column's tuple is one of the expected tuples (expected names distinct).
   */
  lemma {:induction false} CheckColumnsIff(rows: seq<Row>, names: seq<Value>, types: seq<Value>, defaults: seq<Value>, nullable: seq<Value>)
    requires AllColumnRows(rows) && Parallel(names, types, defaults, nullable) && Distinct(names)
    ensures CheckColumns(rows, names, types, defaults, nullable) == Pass <==>
            |rows| == |names| &&
            forall i :: 0 <= i < |rows| ==> SpecOf(rows[i]) in ExpectedSpecs(names, types, defaults, nullable)
  {
    EachColumnIff(rows, names, types, defaults, nullable);
  }

  lemma {:induction false} EachColumnIff(rows: seq<Row>, names: seq<Value>, types: seq<Value>, defaults: seq<Value>, nullable: seq<Value>)
    requires AllColumnRows(rows) && Parallel(names, types, defaults, nullable) && Distinct(names)
    ensures CheckEachColumn(rows, names, types, defaults, nullable) == Pass <==>
            forall i :: 0 <= i < |rows| ==> SpecOf(rows[i]) in ExpectedSpecs(names, types, defaults, nullable)
  {
    if rows != [] {
      CheckColumnIff(rows[0], names, types, defaults, nullable);
      EachColumnIff(rows[1..], names, types, defaults, nullable);
      assert forall i :: 1 <= i < |rows| ==> rows[i] == rows[1..][i - 1];
    }
  }

  function Elems<T>(s: seq<T>): set<T>
  {
    set x | x in s
  }

  lemma {:induction false} DistinctCard<T>(s: seq<T>)
    requires Distinct(s)
    ensures |Elems(s)| == |s|
  {
    if s != [] {
      DistinctCard(s[1..]);
      assert Elems(s) == {s[0]} + Elems(s[1..]);
      assert s[0] !in Elems(s[1..]);
    }
  }

  lemma SubsetSameSize<T>(a: set<T>, b: set<T>)
    requires a <= b && |a| == |b|
    ensures a == b
  {
    assert b == a + (b - a);
    assert a * (b - a) == {};
  }

  /** The names of the live columns. */
  function ActualNames(rows: seq<Row>): (ns: seq<Value>)
    requires AllColumnRows(rows)
    ensures |ns| == |rows|
  {
    seq(|rows|, i requires 0 <= i < |rows| && AllColumnRows(rows) => rows[i]["column_name"])
  }

  /**
   * With distinct names on both sides, check_columns passes exactly when the
   * live and the expected columns are equal as sets of
   * (name, type, default, nullable) tuples, whatever their order.
   */
  lemma CheckColumnsIsSetEquality(rows: seq<Row>, names: seq<Value>, types: seq<Value>, defaults: seq<Value>, nullable: seq<Value>)
    requires AllColumnRows(rows) && Parallel(names, types, defaults, nullable)
    requires Distinct(names) && Distinct(ActualNames(rows))
    ensures CheckColumns(rows, names, types, defaults, nullable) == Pass <==>
            Elems(ActualSpecs(rows)) == Elems(ExpectedSpecs(names, types, defaults, nullable))
  {
    var actual := ActualSpecs(rows);
    var expected := ExpectedSpecs(names, types, defaults, nullable);
    CheckColumnsIff(rows, names, types, defaults, nullable);
    assert Distinct(actual) by {
      forall i, j | 0 <= i < j < |actual| ensures actual[i] != actual[j] {
        assert actual[i].name == ActualNames(rows)[i];
        assert actual[j].name == ActualNames(rows)[j];
      }
    }
    assert Distinct(expected) by {
      forall i, j | 0 <= i < j < |expected| ensures expected[i] != expected[j] {
        assert expected[i].name == names[i];
        assert expected[j].name == names[j];
      }
    }
    DistinctCard(actual);
    DistinctCard(expected);
    if CheckColumns(rows, names, types, defaults, nullable) == Pass {
      assert Elems(actual) <= Elems(expected) by {
        forall x | x in Elems(actual) ensures x in Elems(expected) {
          var i :| 0 <= i < |actual| && actual[i] == x;
        }
      }
      SubsetSameSize(Elems(actual), Elems(expected));
    }
    if Elems(actual) == Elems(expected) {
      forall i | 0 <= i < |rows| ensures SpecOf(rows[i]) in expected {
        assert actual[i] in Elems(actual);
      }
    }
  }

  /**
   * Changing the default of `id` from `gen_random_uuid()` to
   * `uuid_generate_v4()` makes the check fail with a default mismatch on `id`.
   */
  lemma AlteredDefaultIsReported()
    ensures CheckColumns(
              [ map["column_name" := Str("id"), "data_type" := Str("UUID"),
                    "column_default" := Str("uuid_generate_v4()"), "is_nullable" := Bool(false)],
                map["column_name" := Str("name"), "data_type" := Str("STRING"),
                    "column_default" := Null, "is_nullable" := Bool(true)] ],
              [Str("id"), Str("name")], [Str("UUID"), Str("STRING")],
              [Str("gen_random_uuid()"), Null], [Bool(false), Bool(true)])
            == Fail(DefaultMismatch(Str("id")))
  {
  }

  // ---------------------------------------------------------------------------
  // Tables
  // ---------------------------------------------------------------------------

  /** A row of `SHOW TABLES` as the plain cursor returns it: a tuple of fields. */
  type TupleRow = seq<Value>

  /**
   * `show_tables`: `[row[1] for row in all_tables]`, the second field of every
   * row in order; the first row with fewer than two fields raises `IndexError`.
   */
  function TableNames(rows: seq<TupleRow>): (r: Result<seq<Value>>)
    ensures r.Ok? <==> forall i :: 0 <= i < |rows| ==> |rows[i]| >= 2
    ensures r.Err? ==> r.failure == IndexError(1)
    ensures r.Ok? ==> |r.value| == |rows| && forall i :: 0 <= i < |rows| ==> r.value[i] == rows[i][1]
  {
    if rows == [] then Ok([])
    else if |rows[0]| < 2 then Err(IndexError(1))
    else
      match TableNames(rows[1..])
      case Err(f) => Err(f)
      case Ok(names) => Ok([rows[0][1]] + names)
  }

  /** `assert table in show_tables(...)`. */
  function CheckTableListed(rows: seq<TupleRow>, table: string): Outcome
  {
    match TableNames(rows)
    case Err(f) => Fail(f)
    case Ok(names) => if Str(table) in names then Pass else Fail(TableNotFound(table))
  }

  /**
   * On rows of two or more fields the table is found exactly when some row
   * names it in its second field; otherwise the failure names the table.
   */
  lemma TableListedIff(rows: seq<TupleRow>, table: string)
    requires forall i :: 0 <= i < |rows| ==> |rows[i]| >= 2
    ensures CheckTableListed(rows, table) == Pass <==> exists i :: 0 <= i < |rows| && rows[i][1] == Str(table)
    ensures CheckTableListed(rows, table) != Pass ==> CheckTableListed(rows, table) == Fail(TableNotFound(table))
  {
    var names := TableNames(rows).value;
    if Str(table) in names {
      var i :| 0 <= i < |names| && names[i] == Str(table);
      assert rows[i][1] == Str(table);
    }
  }

  /**
   * `check_table`: run the script, then assert that the table is listed, then
   * check its columns. The rows of `SHOW TABLES` and `SHOW COLUMNS` are the
   * ones the database returns after the script ran.
   */
  function CheckTable(env: Env, script: string, tables: seq<TupleRow>, table: string,
                      columns: seq<Row>, names: seq<Value>, types: seq<Value>, defaults: seq<Value>, nullable: seq<Value>): Outcome
  {
    AfterScript(env, script,
      match CheckTableListed(tables, table)
      case Fail(f) => Fail(f)
      case Pass => CheckColumns(columns, names, types, defaults, nullable))
  }

  /**
   * On well-formed rows, check_table passes exactly when the script exists and
   * the server accepts its text, the table is listed, and the live columns
   * equal the expected ones as a set of tuples; a script that cannot run is
   * reported before anything about the table.
   */
  lemma CheckTableIff(env: Env, script: string, tables: seq<TupleRow>, table: string,
                      columns: seq<Row>, names: seq<Value>, types: seq<Value>, defaults: seq<Value>, nullable: seq<Value>)
    requires forall i :: 0 <= i < |tables| ==> |tables[i]| >= 2
    requires AllColumnRows(columns) && Parallel(names, types, defaults, nullable)
    requires Distinct(names) && Distinct(ActualNames(columns))
    ensures CheckTable(env, script, tables, table, columns, names, types, defaults, nullable) == Pass <==>
            && script in env.files && Spaced(env.files[script]) !in env.rejected
            && (exists i :: 0 <= i < |tables| && tables[i][1] == Str(table))
            && Elems(ActualSpecs(columns)) == Elems(ExpectedSpecs(names, types, defaults, nullable))
    ensures script !in env.files ==>
            CheckTable(env, script, tables, table, columns, names, types, defaults, nullable) == Fail(ScriptNotFound(script))
  {
    TableListedIff(tables, table);
    CheckColumnsIsSetEquality(columns, names, types, defaults, nullable);
  }

  // ---------------------------------------------------------------------------
  // Foreign keys
  // ---------------------------------------------------------------------------

  const ForeignKeyType: Value := Str("FOREIGN KEY")

  /** A `SHOW CONSTRAINTS` row carrying what the check reads from it. */
  predicate IsConstraintRow(row: Row)
  {
    "constraint_type" in row && (row["constraint_type"] == ForeignKeyType ==> "details" in row)
  }

  /** The constraint is a foreign key whose definition text is `details`. */
  predicate ForeignKeyWith(row: Row, details: Value)
  {
    "constraint_type" in row && row["constraint_type"] == ForeignKeyType && "details" in row && row["details"] == details
  }

  /**
   * `[r['details'] for r in constraints if r['constraint_type'] == 'FOREIGN KEY']`:
   * the definition texts of exactly the foreign-key constraints.
   */
  function ForeignKeyDetails(constraints: seq<Row>): (r: Result<seq<Value>>)
    ensures r.Ok? <==> forall i :: 0 <= i < |constraints| ==> IsConstraintRow(constraints[i])
    ensures r.Ok? ==> forall d :: d in r.value <==> exists i :: 0 <= i < |constraints| && ForeignKeyWith(constraints[i], d)
  {
    if constraints == [] then Ok([])
    else
      var c := constraints[0];
      assert forall i :: 1 <= i < |constraints| ==> constraints[i] == constraints[1..][i - 1];
      if "constraint_type" !in c then Err(KeyError("constraint_type"))
      else if c["constraint_type"] != ForeignKeyType then ForeignKeyDetails(constraints[1..])
      else if "details" !in c then Err(KeyError("details"))
      else
        match ForeignKeyDetails(constraints[1..])
        case Err(f) => Err(f)
        case Ok(ds) => Ok([c["details"]] + ds)
  }

  /**
   * `f"FOREIGN KEY ({column}) REFERENCES {ref_table}({ref_column})"`, followed,
   * when there are actions, by a space and the actions space-joined and upper-cased.
   */
  function ExpectedForeignKey(column: string, refTable: string, refColumn: string, actions: seq<string>): string
  {
    var base := "FOREIGN KEY (" + column + ") REFERENCES " + refTable + "(" + refColumn + ")";
    if |actions| > 0 then base + " " + Upper(Join(" ", actions)) else base
  }

  /** check_foreign_key, on the rows that `SHOW CONSTRAINTS` returned. */
  function CheckForeignKey(constraints: seq<Row>, column: string, refTable: string, refColumn: string, actions: seq<string>): Outcome
  {
    var expected := ExpectedForeignKey(column, refTable, refColumn, actions);
    match ForeignKeyDetails(constraints)
    case Err(f) => Fail(f)
    case Ok(details) => if Str(expected) in details then Pass else Fail(ForeignKeyMismatch(expected))
  }

  /**
   * On well-formed constraint rows the check passes exactly when some
   * foreign-key constraint has the expected text verbatim.
   */
  lemma ForeignKeyIff(constraints: seq<Row>, column: string, refTable: string, refColumn: string, actions: seq<string>)
    requires forall i :: 0 <= i < |constraints| ==> IsConstraintRow(constraints[i])
    ensures CheckForeignKey(constraints, column, refTable, refColumn, actions) == Pass <==>
            exists i :: 0 <= i < |constraints| &&
              ForeignKeyWith(constraints[i], Str(ExpectedForeignKey(column, refTable, refColumn, actions)))
  {
  }

  /**
   * `check_foreign_key` as a whole: run the answer script, then look the
   * expected text up among the foreign-key constraints.
   */
  function CheckForeignKeyAfterScript(env: Env, script: string, constraints: seq<Row>,
                                      column: string, refTable: string, refColumn: string, actions: seq<string>): Outcome
  {
    AfterScript(env, script, CheckForeignKey(constraints, column, refTable, refColumn, actions))
  }

  /**
   * On well-formed constraint rows the helper passes exactly when the script
   * exists and is accepted and some foreign-key constraint has the expected
   * text verbatim; a missing script is reported before any constraint is read.
   */
  lemma ForeignKeyAfterScriptIff(env: Env, script: string, constraints: seq<Row>,
                                 column: string, refTable: string, refColumn: string, actions: seq<string>)
    requires forall i :: 0 <= i < |constraints| ==> IsConstraintRow(constraints[i])
    ensures CheckForeignKeyAfterScript(env, script, constraints, column, refTable, refColumn, actions) == Pass <==>
            && Runnable(env, script)
            && exists i :: 0 <= i < |constraints| &&
                 ForeignKeyWith(constraints[i], Str(ExpectedForeignKey(column, refTable, refColumn, actions)))
    ensures script !in env.files ==>
            CheckForeignKeyAfterScript(env, script, constraints, column, refTable, refColumn, actions) == Fail(ScriptNotFound(script))
  {
    ForeignKeyIff(constraints, column, refTable, refColumn, actions);
  }

  /** Only foreign-key constraints are considered: a constraint of another kind changes nothing. */
  lemma {:induction false} OtherConstraintsIgnored(before: seq<Row>, other: Row, after: seq<Row>)
    requires "constraint_type" in other && other["constraint_type"] != ForeignKeyType
    ensures ForeignKeyDetails(before + [other] + after) == ForeignKeyDetails(before + after)
  {
    if before == [] {
      assert before + [other] + after == [other] + after;
      assert before + after == after;
      assert ([other] + after)[1..] == after;
    } else {
      assert (before + [other] + after)[1..] == before[1..] + [other] + after;
      assert (before + after)[1..] == before[1..] + after;
      OtherConstraintsIgnored(before[1..], other, after);
    }
  }

  /** The actions extend the action-less text by one space and their upper-cased join. */
  lemma ForeignKeyActionsSuffix(column: string, refTable: string, refColumn: string, actions: seq<string>)
    requires |actions| > 0
    ensures ExpectedForeignKey(column, refTable, refColumn, actions) ==
            ExpectedForeignKey(column, refTable, refColumn, []) + " " + Upper(Join(" ", actions))
  {
  }

  /**
   * The actions are upper-cased as a whole, so their spelling case does not
   * matter: two non-empty action lists whose joins agree letter by letter up
   * to upper-casing give the same expected text.
   */
  lemma ForeignKeyActionsCase(column: string, refTable: string, refColumn: string, actions: seq<string>, spelled: seq<string>)
    requires |actions| > 0 && |spelled| > 0
    requires |Join(" ", actions)| == |Join(" ", spelled)|
    requires forall i :: 0 <= i < |Join(" ", actions)| ==> UpperChar(Join(" ", actions)[i]) == UpperChar(Join(" ", spelled)[i])
    ensures ExpectedForeignKey(column, refTable, refColumn, actions) ==
            ExpectedForeignKey(column, refTable, refColumn, spelled)
  {
    UpperEqualIff(Join(" ", actions), Join(" ", spelled));
  }

  /** `on delete cascade` and `ON DELETE CASCADE` expect the same constraint text. */
  lemma CascadeSpelledEitherWay(column: string, refTable: string, refColumn: string)
    ensures ExpectedForeignKey(column, refTable, refColumn, ["on delete", "cascade"]) ==
            ExpectedForeignKey(column, refTable, refColumn, ["ON DELETE", "CASCADE"])
  {
    var lower, upper := ["on delete", "cascade"], ["ON DELETE", "CASCADE"];
    assert Join(" ", lower) == "on delete cascade" by {
      assert lower[1..] == ["cascade"];
    }
    assert Join(" ", upper) == "ON DELETE CASCADE" by {
      assert upper[1..] == ["CASCADE"];
    }
    ForeignKeyActionsCase(column, refTable, refColumn, lower, upper);
  }
}
