/**
 * `is_port_26257_free`: scans the lines of a `ps -ef | grep cockroach`
 * listing for a CockroachDB daemon that listens on the default port 26257.
 * The listing is an input; running `ps` is not part of this model.
 */
module Ports {
  import opened Text

  /** The line is the command of a `cockroach start` or `cockroach demo` daemon. */
  predicate IsDaemon(line: string)
  {
    Contains(line, "cockroach start") || Contains(line, "cockroach demo")
  }

  /**
   * The line is a daemon on port 26257: it names no port at all (the default
   * is 26257), or it mentions 26257.
   */
  predicate Occupies(line: string)
  {
    IsDaemon(line) && (!Contains(line, "port") || Contains(line, "26257"))
  }

  /**
   * The scan with early return: the first daemon line that names no port or
   * names 26257 makes the port busy. Lines mentioning `grep` get no special
   * treatment (that branch of the loop does nothing).
   */
  function IsPortFree(lines: seq<string>): bool
  {
    if lines == [] then true
    else if IsDaemon(lines[0]) && !Contains(lines[0], "port") then false
    else if IsDaemon(lines[0]) && Contains(lines[0], "26257") then false
    else IsPortFree(lines[1..])
  }

  /** The port reads busy exactly when some line of the listing is a daemon on port 26257. */
  lemma {:induction false} PortBusyIff(lines: seq<string>)
    ensures !IsPortFree(lines) <==> exists i :: 0 <= i < |lines| && Occupies(lines[i])
  {
    if lines != [] {
      PortBusyIff(lines[1..]);
      assert forall i :: 1 <= i < |lines| ==> lines[i] == lines[1..][i - 1];
      if exists i :: 0 <= i < |lines[1..]| && Occupies(lines[1..][i]) {
        var i :| 0 <= i < |lines[1..]| && Occupies(lines[1..][i]);
        assert Occupies(lines[i + 1]);
      }
    }
  }

  /** Only the lines matter, not their order: appending lines never frees a busy port. */
  lemma MoreLinesStayBusy(lines: seq<string>, more: seq<string>)
    requires !IsPortFree(lines)
    ensures !IsPortFree(lines + more) && !IsPortFree(more + lines)
  {
    PortBusyIff(lines);
    PortBusyIff(lines + more);
    PortBusyIff(more + lines);
    var i :| 0 <= i < |lines| && Occupies(lines[i]);
    assert (lines + more)[i] == lines[i];
    assert (more + lines)[|more| + i] == lines[i];
  }

  /** A one-line listing reads free exactly when that line is no daemon on port 26257. */
  lemma SingleLineListing(line: string)
    ensures IsPortFree([line]) <==> !Occupies(line)
  {
    PortBusyIff([line]);
  }

  /** An empty listing reads free. */
  lemma EmptyListingFree()
    ensures IsPortFree([])
  {
  }

  /** A default single-node daemon (no port flag) holds the port. */
  lemma DefaultDaemonBusy()
    ensures !IsPortFree(["cockroach start-single-node --insecure"])
  {
    DefaultDaemonIsDaemon();
    DefaultDaemonNamesNoPort();
    SingleLineListing("cockroach start-single-node --insecure");
  }

  lemma DefaultDaemonIsDaemon()
    ensures IsDaemon("cockroach start-single-node --insecure")
  {
    var line := "cockroach start-single-node --insecure";
    assert OccursAt(line, "cockroach start", 0);
    ContainsAt(line, "cockroach start", 0);
  }

  lemma DefaultDaemonNamesNoPort()
    ensures !Contains("cockroach start-single-node --insecure", "port")
  {
    var line := "cockroach start-single-node --insecure";
    assert 'p' !in line;
    MissingCharNotContained(line, "port", 0);
  }

  /** A daemon started on another port leaves 26257 free. */
  lemma OtherPortDaemonFree()
    ensures !Occupies("cockroach start-single-node --insecure --port=26258")
  {
    var daemon, flag := "cockroach start-single-node --insecure", " --port=26258";
    var line := daemon + flag;
    assert line == "cockroach start-single-node --insecure --port=26258";
    assert OccursAt(line, "port", 41);
    ContainsAt(line, "port", 41);
    assert '7' !in daemon && '7' !in flag;
    MissingCharNotContained(line, "26257", 4);
  }

  /** The `grep cockroach` process that the listing itself contains is no daemon. */
  lemma GrepLineFree()
    ensures !IsDaemon("grep cockroach")
  {
    var line := "grep cockroach";
    assert 's' !in line && 'd' !in line;
    MissingCharNotContained(line, "cockroach start", 10);
    MissingCharNotContained(line, "cockroach demo", 10);
  }
}
