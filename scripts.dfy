/**
 * Reading answer files and sending SQL text to the server: `read_answer_file`
 * (the file's lines with their line endings), `run_sql_script` (those lines
 * joined by single spaces, executed once), `run_command`, `create_database`,
 * `create_table`, `set_up_db_and_table` and the setup loop of the tests that
 * runs several scripts before the one under test.
 *
 * The file system and the server are inputs: `Env.files` maps a file name to
 * its text, and `Env.rejected` holds the statements the server refuses (the
 * driver raises for them). A `Run` records the statements sent, in order.
 */
module Scripts {
  import opened Values
  import opened Text

  /** What the helpers can see of the outside world. */
  datatype Env = Env(files: map<string, string>, rejected: set<string>)

  /** The statements sent to the server, in order, and what the helper returned or raised. */
  datatype Run = Run(sent: seq<string>, result: Result<bool>)

  // ---------------------------------------------------------------------------
  // Lines of a file
  // ---------------------------------------------------------------------------

  /** The lines put back together. */
  function Concat(ls: seq<string>): string
  {
    if ls == [] then "" else ls[0] + Concat(ls[1..])
  }

  /**
   * `list(file)`: the text cut after every newline; putting the lines back
   * together gives the text again.
   */
  function Lines(c: string): (ls: seq<string>)
    ensures Concat(ls) == c
    ensures c == [] <==> ls == []
  {
    if c == [] then []
    else
      var rest := Lines(c[1..]);
      if c[0] == '\n' || rest == [] then
        var ls := [[c[0]]] + rest;
        assert ls[1..] == rest;
        ls
      else
        var ls := [[c[0]] + rest[0]] + rest[1..];
        assert Concat(rest) == rest[0] + Concat(rest[1..]);
        assert ls[1..] == rest[1..];
        ls
  }

  /**
   * The pieces are the lines of a text: no piece is empty, a newline only
   * ever ends a piece, and every piece but the last ends with one.
   */
  predicate LineShaped(ls: seq<string>)
  {
    && (forall i :: 0 <= i < |ls| ==> |ls[i]| > 0)
    && (forall i :: 0 <= i < |ls| - 1 ==> ls[i][|ls[i]| - 1] == '\n')
    && (forall i, j :: 0 <= i < |ls| && 0 <= j < |ls[i]| - 1 ==> ls[i][j] != '\n')
  }

  /** `list(file)` cuts the text exactly at its newlines. */
  lemma {:induction false} LinesShape(c: string)
    ensures LineShaped(Lines(c))
  {
    if c != [] {
      LinesShape(c[1..]);
      var rest := Lines(c[1..]);
      var ls := Lines(c);
      if c[0] == '\n' || rest == [] {
        assert ls == [[c[0]]] + rest;
        forall i | 1 <= i < |ls|
          ensures ls[i] == rest[i - 1]
        {
        }
      } else {
        var first := [c[0]] + rest[0];
        assert ls == [first] + rest[1..];
        forall i | 1 <= i < |ls|
          ensures ls[i] == rest[i]
        {
        }
        forall j | 0 <= j < |first| - 1
          ensures first[j] != '\n'
        {
          if j > 0 {
            assert first[j] == rest[0][j - 1];
          }
        }
        assert |rest| > 1 ==> first[|first| - 1] == '\n';
      }
    }
  }

  /** The text with a space put after every newline that is not its last character. */
  function Spaced(c: string): string
  {
    if c == [] then []
    else if c[0] == '\n' && |c| > 1 then "\n " + Spaced(c[1..])
    else [c[0]] + Spaced(c[1..])
  }

  lemma JoinExtendFirst(sep: string, x: string, p: string, ps: seq<string>)
    ensures Join(sep, [x + p] + ps) == x + Join(sep, [p] + ps)
  {
    assert ([x + p] + ps)[1..] == ps;
    assert ([p] + ps)[1..] == ps;
  }

  /**
   * The script text `' '.join(list(file))` is the file's text with one space
   * added after each newline that some further text follows.
   */
  lemma {:induction false} ScriptTextIsSpaced(c: string)
    ensures Join(" ", Lines(c)) == Spaced(c)
  {
    if c != [] {
      var rest := Lines(c[1..]);
      ScriptTextIsSpaced(c[1..]);
      if c[0] == '\n' {
        if |c| > 1 {
          assert ([[c[0]]] + rest)[1..] == rest;
        }
      } else if rest != [] {
        JoinExtendFirst(" ", [c[0]], rest[0], rest[1..]);
        assert [rest[0]] + rest[1..] == rest;
      }
    }
  }

  /** A file without newlines is sent as it is. */
  lemma SingleLineScript(c: string)
    requires '\n' !in c
    ensures Join(" ", Lines(c)) == c
  {
    ScriptTextIsSpaced(c);
    SpacedWithoutNewline(c);
  }

  lemma {:induction false} SpacedWithoutNewline(c: string)
    requires '\n' !in c
    ensures Spaced(c) == c
  {
    if c != [] {
      assert c[0] in c;
      assert forall x :: x in c[1..] ==> x in c;
      SpacedWithoutNewline(c[1..]);
    }
  }

  // ---------------------------------------------------------------------------
  // Sending statements
  // ---------------------------------------------------------------------------

  /** `read_answer_file`: the file's lines; a missing file raises. */
  function ReadAnswerFile(env: Env, name: string): (r: Result<seq<string>>)
    ensures r.Ok? <==> name in env.files
    ensures r.Ok? ==> r.value == Lines(env.files[name]) && Concat(r.value) == env.files[name]
  {
    if name in env.files then Ok(Lines(env.files[name])) else Err(ScriptNotFound(name))
  }

  /**
   * `run_command`: the statement is sent once; the helper returns True
   * unless the server refuses the statement, in which case it raises.
   */
  function RunCommand(env: Env, sql: string): (r: Run)
    ensures r.sent == [sql]
    ensures r.result.Ok? <==> sql !in env.rejected
    ensures r.result.Ok? ==> r.result.value
    ensures r.result.Err? ==> r.result.failure == StatementError(sql)
  {
    if sql in env.rejected then Run([sql], Err(StatementError(sql))) else Run([sql], Ok(true))
  }

  /**
   * `run_sql_script`: a missing file raises before anything is sent;
   * otherwise the spaced script text is sent once and the result is True.
   */
  function RunSqlScript(env: Env, name: string): (r: Run)
    ensures name !in env.files ==> r == Run([], Err(ScriptNotFound(name)))
    ensures name in env.files ==> r.sent == [Spaced(env.files[name])]
    ensures name in env.files ==> (r.result.Ok? <==> Spaced(env.files[name]) !in env.rejected)
    ensures name in env.files && r.result.Err? ==> r.result.failure == StatementError(Spaced(env.files[name]))
    ensures r.result.Ok? ==> r.result.value
  {
    match ReadAnswerFile(env, name)
    case Err(f) => Run([], Err(f))
    case Ok(lines) =>
      ScriptTextIsSpaced(env.files[name]);
      RunCommand(env, Join(" ", lines))
  }

  /** `f"CREATE DATABASE {db};"`. */
  function CreateDatabaseQuery(db: string): string
  {
    "CREATE DATABASE " + db + ";"
  }

  function CreateDatabase(env: Env, db: string): Run
  {
    RunCommand(env, CreateDatabaseQuery(db))
  }

  /** The text in front of the column list of `CREATE TABLE`. */
  function CreateTableHead(db: string, table: string): string
  {
    "CREATE TABLE " + db + "." + table + " ("
  }

  /** `f"CREATE TABLE {db}.{table} ({', '.join(columns)});"`. */
  function CreateTableQuery(db: string, table: string, columns: seq<string>): string
  {
    CreateTableHead(db, table) + Join(", ", columns) + ");"
  }

  /** A slice of the middle operand of a three-way concatenation. */
  lemma SliceMiddle(head: string, body: string, tail: string, x: nat, y: nat)
    requires x <= y <= |body|
    ensures (head + body + tail)[|head| + x..|head| + y] == body[x..y]
  {
    assert head + body + tail == head + (body + tail);
    SliceRight(head, body + tail, |head| + x, |head| + y);
  }

  /** A piece found in the middle operand of a three-way concatenation is found there, shifted. */
  lemma PieceInMiddle(head: string, body: string, tail: string, x: nat, piece: string)
    requires x + |piece| <= |body| && body[x..x + |piece|] == piece
    ensures |head| + x + |piece| <= |head + body + tail|
    ensures (head + body + tail)[|head| + x..|head| + x + |piece|] == piece
  {
    SliceMiddle(head, body, tail, x, x + |piece|);
  }

  /** A part of a join keeps its place when the join is framed by a head and a tail. */
  lemma FramedPartAt(head: string, sep: string, tail: string, parts: seq<string>, i: nat)
    requires i < |parts|
    ensures |head| + PartStart(sep, parts, i) + |parts[i]| <= |head + Join(sep, parts) + tail|
    ensures (head + Join(sep, parts) + tail)[|head| + PartStart(sep, parts, i)..|head| + PartStart(sep, parts, i) + |parts[i]|] == parts[i]
  {
    JoinPartAt(sep, parts, i);
    PieceInMiddle(head, Join(sep, parts), tail, PartStart(sep, parts, i), parts[i]);
  }

  /** The separator between two parts of a join keeps its place in a framed join. */
  lemma FramedSeparatorAt(head: string, sep: string, tail: string, parts: seq<string>, i: nat)
    requires i + 1 < |parts|
    ensures var q, h := head + Join(sep, parts) + tail, |head|;
            h + PartStart(sep, parts, i + 1) <= |q| &&
            q[h + PartStart(sep, parts, i) + |parts[i]|..h + PartStart(sep, parts, i + 1)] == sep
  {
    var body := Join(sep, parts);
    var s, s' := PartStart(sep, parts, i), PartStart(sep, parts, i + 1);
    JoinSepAt(sep, parts, i);
    assert body[s + |parts[i]|..s'] == sep;
    SliceMiddle(head, body, tail, s + |parts[i]|, s');
  }

  /**
   * The column definitions appear intact and in the given order: column `i`
   * starts where column `i - 1` and a `, ` end.
   */
  lemma CreateTableColumnAt(db: string, table: string, columns: seq<string>, i: nat)
    requires i < |columns|
    ensures var q, at := CreateTableQuery(db, table, columns), |CreateTableHead(db, table)| + PartStart(", ", columns, i);
            at + |columns[i]| <= |q| && q[at..at + |columns[i]|] == columns[i]
  {
    FramedPartAt(CreateTableHead(db, table), ", ", ");", columns, i);
  }

  /** Exactly `, ` separates neighbouring column definitions. */
  lemma CreateTableSeparatorAt(db: string, table: string, columns: seq<string>, i: nat)
    requires i + 1 < |columns|
    ensures var q, h := CreateTableQuery(db, table, columns), |CreateTableHead(db, table)|;
            h + PartStart(", ", columns, i + 1) <= |q| &&
            q[h + PartStart(", ", columns, i) + |columns[i]|..h + PartStart(", ", columns, i + 1)] == ", "
  {
    FramedSeparatorAt(CreateTableHead(db, table), ", ", ");", columns, i);
  }

  /** The column list of the vehicles table that `create_table` uses by default. */
  const DefaultVehicleColumns: seq<string> := [
    "id UUID PRIMARY KEY DEFAULT gen_random_uuid()",
    "purchase_date TIMESTAMPTZ DEFAULT now()",
    "serial_number STRING NOT NULL",
    "make STRING NOT NULL",
    "model STRING NOT NULL",
    "year INT2 NOT NULL",
    "color STRING NOT NULL",
    "description STRING"
  ]

  function CreateTable(env: Env, db: string, table: string, columns: seq<string>): Run
  {
    RunCommand(env, CreateTableQuery(db, table, columns))
  }

  /**
   * `create_database(...) and create_table(...)`: the table statement is
   * sent only when creating the database returned a true value; an error of
   * the first statement propagates.
   */
  function SetUpDbAndTable(env: Env, db: string, table: string): Run
  {
    var first := CreateDatabase(env, db);
    if first.result.Err? || !first.result.value then first
    else
      var second := CreateTable(env, db, table, DefaultVehicleColumns);
      Run(first.sent + second.sent, second.result)
  }

  /**
   * Setting up sends the database statement and then, exactly when the server
   * accepted it, the table statement; it returns True when both are accepted.
   */
  lemma SetUpDbAndTableOrder(env: Env, db: string, table: string)
    ensures var r, cd, ct := SetUpDbAndTable(env, db, table), CreateDatabaseQuery(db), CreateTableQuery(db, table, DefaultVehicleColumns);
            && (cd in env.rejected ==> r == Run([cd], Err(StatementError(cd))))
            && (cd !in env.rejected ==> r.sent == [cd, ct])
            && (r.result == Ok(true) <==> cd !in env.rejected && ct !in env.rejected)
  {
  }

  // ---------------------------------------------------------------------------
  // Several scripts in a row
  // ---------------------------------------------------------------------------

  /** Runs `b` after `a` unless `a` raised; the result is the last one. */
  function Then(a: Run, b: Run): Run
  {
    if a.result.Err? then a else Run(a.sent + b.sent, b.result)
  }

  /** `for script in setup_files: run_sql_script(conn, script)`. */
  function RunScripts(env: Env, names: seq<string>): Run
  {
    if names == [] then Run([], Ok(true))
    else Then(RunSqlScript(env, names[0]), RunScripts(env, names[1..]))
  }

  /** The setup scripts, then the script under test. */
  function RunSetupThen(env: Env, setup: seq<string>, query: string): Run
  {
    Then(RunScripts(env, setup), RunSqlScript(env, query))
  }

  /** A script can be run: its file exists and the server accepts its text. */
  predicate Runnable(env: Env, name: string)
  {
    name in env.files && Spaced(env.files[name]) !in env.rejected
  }

  /**
   * A check helper that first runs its answer script: when the script cannot
   * run, `run_sql_script` raises before anything is checked; otherwise the
   * check that follows decides.
   */
  function AfterScript(env: Env, name: string, check: Outcome): (r: Outcome)
    ensures r == Pass <==> Runnable(env, name) && check == Pass
    ensures Runnable(env, name) ==> r == check
    ensures name !in env.files ==> r == Fail(ScriptNotFound(name))
    ensures name in env.files && !Runnable(env, name) ==> r == Fail(StatementError(Spaced(env.files[name])))
  {
    match RunSqlScript(env, name).result
    case Err(f) => Fail(f)
    case Ok(_) => check
  }

  /** The statements that running the named scripts sends when none raises. */
  function Texts(env: Env, names: seq<string>): seq<string>
    requires forall i :: 0 <= i < |names| ==> names[i] in env.files
  {
    seq(|names|, i requires 0 <= i < |names| => Spaced(env.files[names[i]]))
  }

  /** The texts of a list are the first script's text followed by the rest's. */
  lemma TextsCons(env: Env, names: seq<string>)
    requires names != [] && forall i :: 0 <= i < |names| ==> names[i] in env.files
    ensures forall i :: 0 <= i < |names| - 1 ==> names[1..][i] in env.files
    ensures Texts(env, names) == [Spaced(env.files[names[0]])] + Texts(env, names[1..])
  {
    assert forall i :: 1 <= i < |names| ==> names[i] == names[1..][i - 1];
  }

  /** When every script can be run, they are sent one by one in list order and the run returns True. */
  lemma {:induction false} RunScriptsInOrder(env: Env, names: seq<string>)
    requires forall i :: 0 <= i < |names| ==> Runnable(env, names[i])
    ensures forall i :: 0 <= i < |names| ==> names[i] in env.files
    ensures RunScripts(env, names) == Run(Texts(env, names), Ok(true))
  {
    if names != [] {
      assert forall i :: 1 <= i < |names| ==> names[i] == names[1..][i - 1];
      RunScriptsInOrder(env, names[1..]);
      assert Texts(env, names) == [Spaced(env.files[names[0]])] + Texts(env, names[1..]);
    }
  }

  /** A runnable first script sends its text and hands over to the rest. */
  lemma RunScriptsHeadRuns(env: Env, names: seq<string>)
    requires names != [] && Runnable(env, names[0])
    ensures RunScripts(env, names) ==
              Run([Spaced(env.files[names[0]])] + RunScripts(env, names[1..]).sent, RunScripts(env, names[1..]).result)
  {
  }

  /** A first script that cannot be run ends the run with an error. */
  lemma RunScriptsHeadFails(env: Env, names: seq<string>)
    requires names != [] && !Runnable(env, names[0])
    ensures RunScripts(env, names).result.Err?
    ensures RunScripts(env, names).sent == if names[0] in env.files then [Spaced(env.files[names[0]])] else []
  {
  }

  /**
   * When script `k` is the first that cannot be run, the run raises after
   * sending the texts of the scripts before it (and its own text, when its
   * file exists); no later script is sent.
   */
  lemma {:induction false} RunScriptsStopsAt(env: Env, names: seq<string>, k: nat)
    requires k < |names| && !Runnable(env, names[k])
    requires forall i :: 0 <= i < k ==> Runnable(env, names[i])
    ensures forall i :: 0 <= i < k ==> names[i] in env.files
    ensures RunScripts(env, names).result.Err?
    ensures RunScripts(env, names).sent ==
              Texts(env, names[..k]) + (if names[k] in env.files then [Spaced(env.files[names[k]])] else [])
  {
    if k > 0 {
      assert forall i :: 1 <= i < |names| ==> names[i] == names[1..][i - 1];
      RunScriptsStopsAt(env, names[1..], k - 1);
      RunScriptsHeadRuns(env, names);
      var before := names[..k];
      assert before[1..] == names[1..][..k - 1];
      assert forall i :: 0 <= i < |before| ==> before[i] in env.files;
      TextsCons(env, before);
    } else {
      RunScriptsHeadFails(env, names);
      assert Texts(env, names[..0]) == [];
    }
  }

  /**
   * The script under test runs only after every setup script has run, and
   * the setup scripts run in list order before it.
   */
  lemma SetupRunsFirst(env: Env, setup: seq<string>, query: string)
    requires forall i :: 0 <= i < |setup| ==> Runnable(env, setup[i])
    requires query in env.files
    ensures forall i :: 0 <= i < |setup| ==> setup[i] in env.files
    ensures RunSetupThen(env, setup, query).sent == Texts(env, setup) + [Spaced(env.files[query])]
    ensures RunSetupThen(env, setup, query).result.Ok? <==> Runnable(env, query)
  {
    RunScriptsInOrder(env, setup);
  }
}
