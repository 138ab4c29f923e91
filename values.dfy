/**
 * The data that the verification helpers exchange with the database driver:
 * field values, result rows, ordered expectation records, and the failures
 * that the helpers' `assert`s and lookups raise.
 */
module Values {

  /** A field value as the driver hands it over (NULL, boolean, integer, text, calendar date). */
  datatype Value =
    | Null
    | Bool(b: bool)
    | Int(i: int)
    | Str(s: string)
    | Date(year: nat, month: nat, day: nat)

  /** A row fetched through a dictionary cursor: field name to value. */
  type Row = map<string, Value>

  /** A dictionary literal of the tests, kept in its insertion order. */
  type Record = seq<(string, Value)>

  /** Why a check or a lifecycle step did not succeed. */
  datatype Failure =
    // schema checks
    | TableNotFound(table: string)
    | CardinalityMismatch
    | UnexpectedColumn(column: Value)
    | TypeMismatch(column: Value)
    | DefaultMismatch(column: Value)
    | NullabilityMismatch(column: Value)
    | PrimaryKeyMismatch(field: string)
    | ForeignKeyMismatch(expected: string)
    // content checks
    | MissingRow(key: Value)
    | FieldMismatch(key: Value, field: string)
    | NoMatchingRow(record: Record)
    // Python lookups that raise instead of asserting
    | KeyError(field: string)
    | IndexError(index: nat)
    // scripts and lifecycle
    | ScriptNotFound(name: string)
    | StatementError(sql: string)
    | EnvironmentConflict
    | ConnectionRefused
    | ShutdownTimeout

  /** The result of a check: every assertion held, or the first one that did not. */
  datatype Outcome = Pass | Fail(failure: Failure)

  /** A computed value, or the failure raised while computing it. */
  datatype Result<T> = Ok(value: T) | Err(failure: Failure)

  /** The elements of a sequence are pairwise distinct. */
  predicate Distinct<T(==)>(s: seq<T>)
  {
    forall i, j :: 0 <= i < j < |s| ==> s[i] != s[j]
  }

  /** `row` carries every field of `rec` with the value `rec` gives it (the other fields are free). */
  predicate MatchesAll(row: Row, rec: Record)
  {
    forall k :: 0 <= k < |rec| ==> rec[k].0 in row && row[rec[k].0] == rec[k].1
  }

  /** Index of the first occurrence of `x` in `s` (Python's `list.index`). */
  function IndexOf<T(==)>(s: seq<T>, x: T): (i: nat)
    requires x in s
    ensures i < |s| && s[i] == x
    ensures forall j :: 0 <= j < i ==> s[j] != x
  {
    if s[0] == x then 0 else 1 + IndexOf(s[1..], x)
  }
}
