/**
 * The life cycle of the single-node server the tests run against:
 * `spawn_cockroach_single_node_background` (start the daemon, then probe
 * for a connection with exponential back-off and one last unguarded try)
 * and `CockroachSingleNodeInsecure` (refuse to start when port 26257 is
 * taken, spawn and connect; `stop()` kills the daemon, waits for the port
 * and removes the data directory).
 *
 * The outside world is given as inputs: `probes[i]` says whether the `i`-th
 * connection attempt succeeds (an attempt beyond the list fails), and a
 * process listing (or a list of them, one per poll) stands for `ps`. Waiting
 * is recorded as a `Sleep` event rather than taken.
 */
module Lifecycle {
  import opened Values
  import opened Ports

  /** What the helpers do to the outside world, in order. */
  datatype Event =
    | ReadProcessTable(free: bool)
    | SpawnServer
    | Connect(ok: bool)
    | Sleep(seconds: nat)
    | SetAutocommit
    | KillServers
    | RemoveDataDir

  function Pow2(k: nat): (p: nat)
    ensures p >= 1
  {
    if k == 0 then 1 else 2 * Pow2(k - 1)
  }

  /** Whether connection attempt `i` succeeds. */
  predicate Attempt(probes: seq<bool>, i: nat)
  {
    i < |probes| && probes[i]
  }

  /** The delays requested, in order. */
  function Sleeps(events: seq<Event>): seq<nat>
  {
    if events == [] then []
    else (if events[0].Sleep? then [events[0].seconds] else []) + Sleeps(events[1..])
  }

  lemma {:induction false} SleepsAppend(a: seq<Event>, b: seq<Event>)
    ensures Sleeps(a + b) == Sleeps(a) + Sleeps(b)
  {
    if a != [] {
      var head := if a[0].Sleep? then [a[0].seconds] else [];
      assert (a + b)[0] == a[0];
      assert (a + b)[1..] == a[1..] + b;
      assert Sleeps(a + b) == head + Sleeps(a[1..] + b);
      SleepsAppend(a[1..], b);
      assert Sleeps(a) == head + Sleeps(a[1..]);
    } else {
      assert a + b == b;
    }
  }

  /** The back-off schedule `2**from, 2**(from + 1), ...`, `k` entries long. */
  function Backoff(from: nat, k: nat): (ds: seq<nat>)
    ensures |ds| == k
    ensures forall i :: 0 <= i < k ==> ds[i] == Pow2(from + i)
    decreases k
  {
    if k == 0 then [] else [Pow2(from)] + Backoff(from + 1, k - 1)
  }

  function Sum(ds: seq<nat>): nat
  {
    if ds == [] then 0 else ds[0] + Sum(ds[1..])
  }

  lemma {:induction false} BackoffSum(from: nat, k: nat)
    ensures Sum(Backoff(from, k)) + Pow2(from) == Pow2(from + k)
    decreases k
  {
    if k > 0 {
      BackoffSum(from + 1, k - 1);
    }
  }

  /** At most four waits happen, of 1, 2, 4 and 8 seconds: 15 seconds in all at most. */
  lemma BackoffBound(k: nat)
    requires k <= 4
    ensures Backoff(0, 4) == [1, 2, 4, 8]
    ensures Sum(Backoff(0, k)) == Pow2(k) - 1 <= 15
  {
    BackoffSum(0, k);
    assert Pow2(4) == 16;
    if k < 4 {
      PowMonotone(k, 4);
    }
  }

  lemma {:induction false} PowMonotone(a: nat, b: nat)
    requires a <= b
    ensures Pow2(a) <= Pow2(b)
  {
    if a < b {
      PowMonotone(a, b - 1);
    }
  }

  // ---------------------------------------------------------------------------
  // Startup probe
  // ---------------------------------------------------------------------------

  /** How many attempts, from attempt `tries` on and before the fourth, fail in a row. */
  function Failures(probes: seq<bool>, tries: nat): (n: nat)
    requires tries <= 4
    ensures tries + n <= 4
    ensures forall i :: tries <= i < tries + n ==> !Attempt(probes, i)
    ensures tries + n < 4 ==> Attempt(probes, tries + n)
    decreases 4 - tries
  {
    if tries == 4 || Attempt(probes, tries) then 0 else 1 + Failures(probes, tries + 1)
  }

  /** The number of attempts the probe loop makes: up to the first success, four at most. */
  function LoopAttempts(probes: seq<bool>): (n: nat)
    ensures 1 <= n <= 4
  {
    if Failures(probes, 0) == 4 then 4 else Failures(probes, 0) + 1
  }

  /** What the probe loop does from try `tries` on: an attempt, and a wait after each failure. */
  function ProbeTrace(probes: seq<bool>, tries: nat): seq<Event>
    requires tries <= 4
    decreases 4 - tries
  {
    if tries == 4 then []
    else if Attempt(probes, tries) then [Connect(true)]
    else [Connect(false), Sleep(Pow2(tries))] + ProbeTrace(probes, tries + 1)
  }

  /** The waits of the probe loop are the back-off schedule, one entry per failure. */
  lemma {:induction false} ProbeTraceSleeps(probes: seq<bool>, tries: nat)
    requires tries <= 4
    ensures Sleeps(ProbeTrace(probes, tries)) == Backoff(tries, Failures(probes, tries))
    decreases 4 - tries
  {
    if tries < 4 && !Attempt(probes, tries) {
      ProbeTraceSleeps(probes, tries + 1);
      var rest := ProbeTrace(probes, tries + 1);
      SleepsAppend([Connect(false), Sleep(Pow2(tries))], rest);
      assert Sleeps([Connect(false), Sleep(Pow2(tries))]) == [Pow2(tries)];
    }
  }

  /**
   * `spawn_cockroach_single_node_background`: start the daemon, then try to
   * connect while it is still starting and fewer than four tries failed,
   * sleeping `2**tries` after each failure; then make one last attempt whose
   * failure propagates (`ok` is false).
   */
  method SpawnSingleNodeBackground(probes: seq<bool>) returns (trace: seq<Event>, attempts: nat, ok: bool)
    ensures trace == [SpawnServer] + ProbeTrace(probes, 0) + [Connect(ok)]
    ensures attempts == LoopAttempts(probes)
    ensures forall i :: 0 <= i < attempts - 1 ==> !Attempt(probes, i)
    ensures attempts < 4 ==> Attempt(probes, attempts - 1)
    ensures ok == Attempt(probes, attempts)
    ensures Sleeps(trace) == Backoff(0, Failures(probes, 0))
  {
    trace := [SpawnServer];
    var stillStarting := true;
    var tries := 0;
    attempts := 0;
    while stillStarting && tries <= 3
      invariant tries <= 4
      invariant stillStarting ==> attempts == tries && forall i :: 0 <= i < tries ==> !Attempt(probes, i)
      invariant stillStarting ==> trace + ProbeTrace(probes, tries) == [SpawnServer] + ProbeTrace(probes, 0)
      invariant !stillStarting ==> trace == [SpawnServer] + ProbeTrace(probes, 0)
      invariant !stillStarting ==> attempts == tries + 1 && tries < 4 && Attempt(probes, tries) &&
                                   forall i :: 0 <= i < tries ==> !Attempt(probes, i)
      decreases 4 - tries, stillStarting
    {
      var connected := Attempt(probes, attempts);
      attempts := attempts + 1;
      if connected {
        ProbeSucceeds(trace, probes, tries);
        trace := trace + [Connect(true)];
        stillStarting := false;
      } else {
        ProbeFails(trace, probes, tries);
        trace := trace + [Connect(false), Sleep(Pow2(tries))];
        tries := tries + 1;
      }
    }
    FailuresCount(probes, tries, stillStarting);
    ok := Attempt(probes, attempts);
    trace := trace + [Connect(ok)];
    SpawnSleeps(probes, ok);
  }

  /** A failed attempt and its wait move the loop's trace one try further. */
  lemma ProbeFails(done: seq<Event>, probes: seq<bool>, tries: nat)
    requires tries < 4 && !Attempt(probes, tries)
    ensures done + ProbeTrace(probes, tries) ==
            (done + [Connect(false), Sleep(Pow2(tries))]) + ProbeTrace(probes, tries + 1)
  {
  }

  /** A successful attempt ends the loop's trace. */
  lemma ProbeSucceeds(done: seq<Event>, probes: seq<bool>, tries: nat)
    requires tries < 4 && Attempt(probes, tries)
    ensures done + ProbeTrace(probes, tries) == done + [Connect(true)]
  {
  }

  /** The waits of a whole spawn are the back-off schedule of the probe loop. */
  lemma SpawnSleeps(probes: seq<bool>, ok: bool)
    ensures Sleeps([SpawnServer] + ProbeTrace(probes, 0) + [Connect(ok)]) == Backoff(0, Failures(probes, 0))
  {
    ProbeTraceSleeps(probes, 0);
    SleepsAppend([SpawnServer] + ProbeTrace(probes, 0), [Connect(ok)]);
    SleepsAppend([SpawnServer], ProbeTrace(probes, 0));
  }

  /** The log after a spawn whose last attempt failed: the process-table reading, then the spawn's trace. */
  lemma SpawnRefusedLog(log: seq<Event>, probes: seq<bool>, trace: seq<Event>)
    requires trace == [SpawnServer] + ProbeTrace(probes, 0) + [Connect(false)]
    ensures log + [ReadProcessTable(true)] + trace ==
            log + [ReadProcessTable(true), SpawnServer] + ProbeTrace(probes, 0) + [Connect(false)]
  {
  }

  /** The log after a successful spawn: the reading, the spawn's trace, the connection and, if it links, autocommit. */
  lemma SpawnedLog(log: seq<Event>, probes: seq<bool>, trace: seq<Event>, linked: bool)
    requires trace == [SpawnServer] + ProbeTrace(probes, 0) + [Connect(true)]
    ensures log + [ReadProcessTable(true)] + trace + [Connect(linked)] + (if linked then [SetAutocommit] else []) ==
            log + [ReadProcessTable(true), SpawnServer] + ProbeTrace(probes, 0) + [Connect(true), Connect(linked)]
            + (if linked then [SetAutocommit] else [])
  {
  }

  /** How the loop's exit state determines the number of failures. */
  lemma FailuresCount(probes: seq<bool>, tries: nat, stillStarting: bool)
    requires tries <= 4
    requires forall i :: 0 <= i < tries ==> !Attempt(probes, i)
    requires stillStarting ==> tries == 4
    requires !stillStarting ==> tries < 4 && Attempt(probes, tries)
    ensures Failures(probes, 0) == tries
  {
  }

  // ---------------------------------------------------------------------------
  // Waiting for the port after a kill
  // ---------------------------------------------------------------------------

  /** Some listing from poll `k` on reads free. */
  predicate FreesLater(snapshots: seq<seq<string>>, k: nat)
  {
    exists i :: k <= i < |snapshots| && IsPortFree(snapshots[i])
  }

  lemma FreesLaterStep(snapshots: seq<seq<string>>, k: nat)
    requires FreesLater(snapshots, k) && !IsPortFree(snapshots[k])
    ensures FreesLater(snapshots, k + 1)
  {
    var i :| k <= i < |snapshots| && IsPortFree(snapshots[i]);
    assert i != k;
  }

  /** The first poll from `k` on that reads free. */
  function FirstFree(snapshots: seq<seq<string>>, k: nat): (i: nat)
    requires FreesLater(snapshots, k)
    ensures k <= i < |snapshots| && IsPortFree(snapshots[i])
    ensures forall j :: k <= j < i ==> !IsPortFree(snapshots[j])
    decreases |snapshots| - k
  {
    if IsPortFree(snapshots[k]) then k
    else
      FreesLaterStep(snapshots, k);
      FirstFree(snapshots, k + 1)
  }

  /**
   * The poll loop of `stop()` as written: `tries` stays 0, so every busy
   * reading is followed by a one-second wait, and only a free reading ends it.
   */
  function PollAsWritten(snapshots: seq<seq<string>>, k: nat): seq<Event>
    requires FreesLater(snapshots, k)
    decreases |snapshots| - k
  {
    if IsPortFree(snapshots[k]) then [ReadProcessTable(true)]
    else
      FreesLaterStep(snapshots, k);
      [ReadProcessTable(false), Sleep(Pow2(0))] + PollAsWritten(snapshots, k + 1)
  }

  /**
   * The as-written poll waits one second per busy reading before the first
   * free one, however many there are: no retry budget bounds it, and it can
   * only end with a free reading.
   */
  lemma {:induction false} PollAsWrittenSleeps(snapshots: seq<seq<string>>, k: nat)
    requires FreesLater(snapshots, k)
    ensures Sleeps(PollAsWritten(snapshots, k)) == seq(FirstFree(snapshots, k) - k, i => 1)
    ensures PollAsWritten(snapshots, k)[|PollAsWritten(snapshots, k)| - 1] == ReadProcessTable(true)
    decreases |snapshots| - k
  {
    if !IsPortFree(snapshots[k]) {
      FreesLaterStep(snapshots, k);
      PollAsWrittenSleeps(snapshots, k + 1);
      SleepsAppend([ReadProcessTable(false), Sleep(1)], PollAsWritten(snapshots, k + 1));
      assert Sleeps([ReadProcessTable(false), Sleep(1)]) == [1];
    }
  }

  /** Which poll reads free decides the outcome of the corrected poll. */
  predicate FreeAt(snapshots: seq<seq<string>>, i: nat)
  {
    i < |snapshots| && IsPortFree(snapshots[i])
  }

  /** Events of a poll and how it ended. */
  datatype Poll = Poll(events: seq<Event>, outcome: Outcome)

  /**
   * The poll loop with the retry budget its error message announces:
   * `tries` grows after every wait, so after four busy readings (and a fifth
   * reading) the loop gives up with the timeout error.
   */
  function PollWithRetryBudget(snapshots: seq<seq<string>>, tries: nat): Poll
    requires tries <= 4
    decreases 4 - tries
  {
    var free := FreeAt(snapshots, tries);
    if !free && tries <= 3 then
      var rest := PollWithRetryBudget(snapshots, tries + 1);
      Poll([ReadProcessTable(false), Sleep(Pow2(tries))] + rest.events, rest.outcome)
    else Poll([ReadProcessTable(free)], if tries > 3 then Fail(ShutdownTimeout) else Pass)
  }

  /**
   * The corrected poll always ends: it succeeds exactly when one of the
   * first four readings (from `tries` on) is free, fails with the timeout
   * otherwise, and its waits follow the back-off schedule.
   */
  lemma {:induction false} RetryBudgetOutcome(snapshots: seq<seq<string>>, tries: nat)
    requires tries <= 4
    ensures var p := PollWithRetryBudget(snapshots, tries);
            && (p.outcome == Pass <==> exists i :: tries <= i < 4 && FreeAt(snapshots, i))
            && (p.outcome != Pass ==> p.outcome == Fail(ShutdownTimeout))
            && exists n :: 0 <= n <= 4 - tries && Sleeps(p.events) == Backoff(tries, n)
    decreases 4 - tries
  {
    var p := PollWithRetryBudget(snapshots, tries);
    if !FreeAt(snapshots, tries) && tries <= 3 {
      RetryBudgetOutcome(snapshots, tries + 1);
      var rest := PollWithRetryBudget(snapshots, tries + 1);
      var n :| 0 <= n <= 4 - (tries + 1) && Sleeps(rest.events) == Backoff(tries + 1, n);
      SleepsAppend([ReadProcessTable(false), Sleep(Pow2(tries))], rest.events);
      assert Sleeps([ReadProcessTable(false), Sleep(Pow2(tries))]) == [Pow2(tries)];
      assert Sleeps(p.events) == Backoff(tries, n + 1);
    } else {
      assert Sleeps(p.events) == Backoff(tries, 0);
    }
  }

  /** Five busy readings and then a free one. */
  function SlowShutdown(busy: seq<string>): seq<seq<string>>
  {
    [busy, busy, busy, busy, busy, []]
  }

  /**
   * On five busy readings followed by a free one, the poll as written waits
   * five times (past the four-retry budget) and reports success, while the
   * corrected poll gives up with the timeout error. A default single-node
   * daemon is such a busy listing.
   */
  lemma SlowShutdownDiffers(busy: seq<string>)
    requires !IsPortFree(busy)
    ensures FreesLater(SlowShutdown(busy), 0)
    ensures |Sleeps(PollAsWritten(SlowShutdown(busy), 0))| == 5
    ensures PollWithRetryBudget(SlowShutdown(busy), 0).outcome == Fail(ShutdownTimeout)
  {
    var s := SlowShutdown(busy);
    EmptyListingFree();
    assert IsPortFree(s[5]);
    assert FreesLater(s, 0);
    PollAsWrittenSleeps(s, 0);
    var f := FirstFree(s, 0);
    assert forall j :: 0 <= j < 5 ==> s[j] == busy;
    RetryBudgetOutcome(s, 0);
  }

  /** A default single-node daemon is a listing that keeps the slow shutdown busy. */
  lemma DefaultDaemonSlowShutdown()
    ensures FreesLater(SlowShutdown(["cockroach start-single-node --insecure"]), 0)
    ensures |Sleeps(PollAsWritten(SlowShutdown(["cockroach start-single-node --insecure"]), 0))| == 5
  {
    DefaultDaemonBusy();
    SlowShutdownDiffers(["cockroach start-single-node --insecure"]);
  }

  /** One busy reading of the as-written poll: a one-second wait, then the next reading. */
  lemma PollAsWrittenStep(snapshots: seq<seq<string>>, k: nat)
    requires FreesLater(snapshots, k) && !IsPortFree(snapshots[k])
    ensures FreesLater(snapshots, k + 1)
    ensures PollAsWritten(snapshots, k)[1..] == [Sleep(1)] + PollAsWritten(snapshots, k + 1)
    ensures PollAsWritten(snapshots, k + 1) ==
            [ReadProcessTable(IsPortFree(snapshots[k + 1]))] + PollAsWritten(snapshots, k + 1)[1..]
  {
    FreesLaterStep(snapshots, k);
  }

  /** One busy reading within the budget: a `2**tries` wait, then the poll goes on with one more try. */
  lemma RetryBudgetStep(snapshots: seq<seq<string>>, tries: nat)
    requires tries <= 3 && !FreeAt(snapshots, tries)
    ensures var p, q := PollWithRetryBudget(snapshots, tries), PollWithRetryBudget(snapshots, tries + 1);
            p.events[1..] == [Sleep(Pow2(tries))] + q.events && p.outcome == q.outcome
  {
  }

  /** A poll that ends: the last reading, then success within the budget or the timeout beyond it. */
  lemma RetryBudgetEnd(snapshots: seq<seq<string>>, tries: nat)
    requires tries <= 4 && (FreeAt(snapshots, tries) || tries == 4)
    ensures var p := PollWithRetryBudget(snapshots, tries);
            p.events[1..] == [] && p.outcome == (if tries > 3 then Fail(ShutdownTimeout) else Pass)
  {
  }

  /** The as-written loop's events so far, followed by what is left, stay the whole poll after one more turn. */
  lemma PollAsWrittenAdvance(polled: seq<Event>, snapshots: seq<seq<string>>, k: nat)
    requires FreesLater(snapshots, k) && !IsPortFree(snapshots[k])
    ensures FreesLater(snapshots, k + 1)
    ensures polled + PollAsWritten(snapshots, k)[1..] ==
            (polled + [Sleep(Pow2(0))] + [ReadProcessTable(IsPortFree(snapshots[k + 1]))]) + PollAsWritten(snapshots, k + 1)[1..]
  {
    PollAsWrittenStep(snapshots, k);
  }

  /** The budgeted loop's events so far, followed by what is left, stay the whole poll after one more turn. */
  lemma RetryBudgetAdvance(polled: seq<Event>, snapshots: seq<seq<string>>, tries: nat)
    requires tries <= 3 && !FreeAt(snapshots, tries)
    ensures polled + PollWithRetryBudget(snapshots, tries).events[1..] ==
            (polled + [Sleep(Pow2(tries))] + [ReadProcessTable(FreeAt(snapshots, tries + 1))]) +
            PollWithRetryBudget(snapshots, tries + 1).events[1..]
    ensures PollWithRetryBudget(snapshots, tries).outcome == PollWithRetryBudget(snapshots, tries + 1).outcome
  {
    RetryBudgetStep(snapshots, tries);
    RetryBudgetHead(snapshots, tries + 1);
  }

  /** A poll with the retry budget starts by reading the process table. */
  lemma RetryBudgetHead(snapshots: seq<seq<string>>, tries: nat)
    requires tries <= 4
    ensures var p := PollWithRetryBudget(snapshots, tries);
            p.events == [ReadProcessTable(FreeAt(snapshots, tries))] + p.events[1..]
  {
  }

  // ---------------------------------------------------------------------------
  // The server handle
  // ---------------------------------------------------------------------------

  /** `CockroachSingleNodeInsecure`: a handle on a spawned single-node server. */
  class SingleNodeInsecure {
    /** `self.process` has been assigned. */
    var process: bool
    /** `self.connection` has been assigned. */
    var connected: bool
    /** The `cockroach-data` directory has been removed. */
    var dataDirRemoved: bool
    /** Everything done to the outside world so far. */
    var log: seq<Event>

    constructor ()
      ensures !process && !connected && !dataDirRemoved && log == []
    {
      process, connected, dataDirRemoved, log := false, false, false, [];
    }

    /**
     * The body of `__init__`: with the port taken it raises without spawning
     * or connecting; otherwise it spawns the daemon (whose last probe may
     * raise), connects to `defaultdb` (which may raise) and turns on
     * autocommit.
     */
    method Init(ps: seq<string>, probes: seq<bool>) returns (r: Outcome)
      modifies this
      ensures dataDirRemoved == old(dataDirRemoved)
      ensures !IsPortFree(ps) ==>
                && r == Fail(EnvironmentConflict)
                && log == old(log) + [ReadProcessTable(false)]
                && process == old(process) && connected == old(connected)
      ensures IsPortFree(ps) && !Attempt(probes, LoopAttempts(probes)) ==>
                && r == Fail(ConnectionRefused)
                && log == old(log) + [ReadProcessTable(true), SpawnServer] + ProbeTrace(probes, 0) + [Connect(false)]
                && process == old(process) && connected == old(connected)
      ensures IsPortFree(ps) && Attempt(probes, LoopAttempts(probes)) ==>
                var linked := Attempt(probes, LoopAttempts(probes) + 1);
                && process
                && log == old(log) + [ReadProcessTable(true), SpawnServer] + ProbeTrace(probes, 0) + [Connect(true), Connect(linked)]
                          + (if linked then [SetAutocommit] else [])
                && connected == (linked || old(connected))
                && r == (if linked then Pass else Fail(ConnectionRefused))
    {
      if !IsPortFree(ps) {
        log := log + [ReadProcessTable(false)];
        r := Fail(EnvironmentConflict);
      } else {
        var trace, attempts, ok := SpawnSingleNodeBackground(probes);
        if !ok {
          SpawnRefusedLog(log, probes, trace);
          log := log + [ReadProcessTable(true)] + trace;
          r := Fail(ConnectionRefused);
        } else {
          process := true;
          var linked := Attempt(probes, attempts + 1);
          SpawnedLog(log, probes, trace, linked);
          log := log + [ReadProcessTable(true)] + trace + [Connect(linked)] + (if linked then [SetAutocommit] else []);
          connected := linked || connected;
          r := if linked then Pass else Fail(ConnectionRefused);
        }
      }
    }

    /**
     * `stop()` as written: kill every daemon, then poll the process table
     * until it reads free, waiting `2**tries` seconds between polls; `tries`
     * is never changed, so the timeout branch cannot be taken and the data
     * directory is removed right after the first free reading. The loop only
     * ends if some reading is free, which the caller must supply.
     */
    method Stop(snapshots: seq<seq<string>>) returns (r: Outcome)
      requires FreesLater(snapshots, 0)
      modifies this
      ensures r == Pass && dataDirRemoved
      ensures log == old(log) + [KillServers] + PollAsWritten(snapshots, 0) + [RemoveDataDir]
      ensures process == old(process) && connected == old(connected)
    {
      var tries := 0;
      var k := 0;
      var free := IsPortFree(snapshots[k]);
      var polled := [ReadProcessTable(free)];
      while !free && tries <= 3
        invariant tries == 0
        modifies {}
        invariant k <= FirstFree(snapshots, 0)
        invariant FreesLater(snapshots, k) && free == IsPortFree(snapshots[k])
        invariant polled + PollAsWritten(snapshots, k)[1..] == PollAsWritten(snapshots, 0)
        decreases FirstFree(snapshots, 0) - k
      {
        PollAsWrittenAdvance(polled, snapshots, k);
        free := IsPortFree(snapshots[k + 1]);
        polled := polled + [Sleep(Pow2(tries))] + [ReadProcessTable(free)];
        k := k + 1;
      }
      if tries > 3 {
        assert false;
      }
      assert PollAsWritten(snapshots, k)[1..] == [];
      log := log + [KillServers] + polled + [RemoveDataDir];
      dataDirRemoved := true;
      r := Pass;
    }

    /**
     * `stop()` with the retry budget counted: after four busy readings and
     * their waits it fails with the timeout error and leaves the data
     * directory in place.
     */
    method StopWithRetryBudget(snapshots: seq<seq<string>>) returns (r: Outcome)
      modifies this
      ensures r == PollWithRetryBudget(snapshots, 0).outcome
      ensures dataDirRemoved == (r == Pass || old(dataDirRemoved))
      ensures log == old(log) + [KillServers] + PollWithRetryBudget(snapshots, 0).events + (if r == Pass then [RemoveDataDir] else [])
      ensures process == old(process) && connected == old(connected)
    {
      var tries := 0;
      var free := FreeAt(snapshots, tries);
      var polled := [ReadProcessTable(free)];
      RetryBudgetHead(snapshots, 0);
      while !free && tries <= 3
        invariant tries <= 4 && free == FreeAt(snapshots, tries)
        modifies {}
        invariant polled + PollWithRetryBudget(snapshots, tries).events[1..] == PollWithRetryBudget(snapshots, 0).events
        invariant PollWithRetryBudget(snapshots, tries).outcome == PollWithRetryBudget(snapshots, 0).outcome
        decreases 4 - tries
      {
        RetryBudgetAdvance(polled, snapshots, tries);
        free := FreeAt(snapshots, tries + 1);
        polled := polled + [Sleep(Pow2(tries))] + [ReadProcessTable(free)];
        tries := tries + 1;
      }
      RetryBudgetEnd(snapshots, tries);
      if tries > 3 {
        log := log + [KillServers] + polled;
        return Fail(ShutdownTimeout);
      }
      log := log + [KillServers] + polled + [RemoveDataDir];
      dataDirRemoved := true;
      r := Pass;
    }
  }
}
