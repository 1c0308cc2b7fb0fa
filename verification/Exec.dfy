/** Running one command: the attempt under the remote `timeout`, the client's backstop behind it,
    and the single attempt without it on a host that has none. */
module Exec {
  import opened Text
  import opened Shell
  import opened Output
  import opened Connections

  const DEFAULT_EXEC_TIMEOUT := 120 * SECOND
  const DEFAULT_EXEC_MAX_OUTPUT := 0x10_0000
  const TEARDOWN_GRACE: nat := 3 * SECOND
  const CLIENT_DEADLINE_LEAD: nat := (REMOTE_KILL_AFTER_SECONDS + 5) * SECOND
  const REMOTE_TIMEOUT_EXIT_CODE := 124
  const REMOTE_KILL_EXIT_CODE := 137
  const COMMAND_NOT_FOUND_EXIT_CODE := 127

  // ---------------------------------------------------------------- settings

  /** The deadline for one command in nanoseconds, from a setting in milliseconds. */
  function ExecTimeout(setting: Option<int>): int {
    if setting.Some? && setting.value > 0 then Wrap64(setting.value * MILLISECOND) else DEFAULT_EXEC_TIMEOUT
  }

  function ExecMaxOutputBytes(setting: Option<int>): (limit: int)
    ensures limit > 0
  {
    if setting.Some? && setting.value > 0 then setting.value else DEFAULT_EXEC_MAX_OUTPUT
  }

  /** Without a positive setting, two minutes and one mebibyte; otherwise what is set. */
  lemma SettingsInForce(setting: Option<int>)
    ensures (setting.None? || setting.value <= 0) ==>
              ExecTimeout(setting) == 120_000_000_000 && ExecMaxOutputBytes(setting) == 1_048_576
    ensures setting.Some? && setting.value > 0 ==> ExecMaxOutputBytes(setting) == setting.value
    ensures setting.Some? && 0 < setting.value <= 9_223_372_036_854 ==> ExecTimeout(setting) == setting.value * 1_000_000
  {
  }

  /** The setting is the deadline exactly when it fits 64 bits of nanoseconds; beyond that it wraps
      around. */
  lemma TimeoutAsConfigured(setting: int)
    requires 0 < setting <= MAX_INT64
    ensures ExecTimeout(Some(setting)) == setting * MILLISECOND <==> setting <= MAX_INT64 / MILLISECOND
  {
  }

  /** How long the client waits for one attempt. A sum that has wrapped around lies in the past, and
      a timer for the past fires at once. */
  function ClientWait(timeout: int): (wait: nat)
    ensures wait <= MAX_INT64
  {
    var sum := Wrap64(timeout + CLIENT_DEADLINE_LEAD);
    if sum > 0 then sum else 0
  }

  /** The deadline and the lead on it fit 64 bits of nanoseconds. */
  predicate TimeoutFits(setting: Option<int>) {
    setting.Some? && setting.value > 0 ==> setting.value * MILLISECOND + CLIENT_DEADLINE_LEAD <= MAX_INT64
  }

  /** The client waits for the configured time and its lead exactly when their sum fits; a setting
      that fits alone but not with the lead leaves no time at all. */
  lemma WaitAsConfigured(setting: int)
    requires 0 < setting <= MAX_INT64
    ensures ClientWait(ExecTimeout(Some(setting))) == setting * MILLISECOND + CLIENT_DEADLINE_LEAD <==>
            TimeoutFits(Some(setting))
    ensures setting <= MAX_INT64 / MILLISECOND && !TimeoutFits(Some(setting)) ==> ClientWait(ExecTimeout(Some(setting))) == 0
  {
  }

  lemma WaitWhenItFits(setting: Option<int>)
    requires TimeoutFits(setting)
    ensures ExecTimeout(setting) > 0 && ClientWait(ExecTimeout(setting)) == ExecTimeout(setting) + CLIENT_DEADLINE_LEAD
  {
  }

  /** The remote side is done well before the client: its rounded-up deadline and its kill-after
      window end more than four seconds before the client stops waiting, exactly when the client's
      deadline fits 64 bits. */
  lemma RemoteEndsFirst(timeout: int)
    requires 0 < timeout <= MAX_INT64
    ensures (TimeoutSeconds(timeout) + REMOTE_KILL_AFTER_SECONDS) * SECOND + 4 * SECOND < ClientWait(timeout) <==>
            timeout + CLIENT_DEADLINE_LEAD <= MAX_INT64
  {
  }

  // ---------------------------------------------------------------- notices

  const NOTICES: seq<string> := [
    "timeout: not found",
    "timeout: command not found",
    "timeout: no such file",
    "command not found: timeout"
  ]

  predicate Mentions(text: string, notices: seq<string>) {
    exists k | 0 <= k < |notices| :: Contains(text, notices[k])
  }

  /** The host says that it has no `timeout`, in whatever case. */
  predicate SaysNoTimeout(stderr: string) {
    Mentions(Lower(stderr), NOTICES)
  }

  /** What the common shells say, in lower case. */
  predicate HasNotice(stderr: string) {
    var lower := Lower(stderr);
    || Contains(lower, "timeout: not found") || Contains(lower, "timeout: command not found")
    || Contains(lower, "timeout: no such file") || Contains(lower, "command not found: timeout")
  }

  lemma NoticesAre(stderr: string)
    ensures SaysNoTimeout(stderr) <==> HasNotice(stderr)
  {
    var lower := Lower(stderr);
    assert NOTICES[0] == "timeout: not found" && NOTICES[1] == "timeout: command not found";
    assert NOTICES[2] == "timeout: no such file" && NOTICES[3] == "command not found: timeout";
  }

  lemma NoticesHaveNoNewline()
    ensures forall k | 0 <= k < |NOTICES| :: '\n' !in NOTICES[k]
  {
  }

  predicate LineMentions(lines: seq<string>, notices: seq<string>) {
    exists i | 0 <= i < |lines| :: Mentions(Lower(lines[i]), notices)
  }

  /** Looking line by line finds what looking through the whole text would: no notice spans lines. */
  lemma MentionedInLine(stderr: string, notices: seq<string>)
    requires forall k | 0 <= k < |notices| :: '\n' !in notices[k]
    ensures Mentions(Lower(stderr), notices) <==>
            LineMentions(Lines(stderr), notices)
  {
    var lines := Lines(stderr);
    forall k | 0 <= k < |notices| ensures Contains(Lower(stderr), notices[k]) <==> InSomeLine(lines, notices[k]) {
      ContainsInLine(stderr, notices[k]);
    }
    if Mentions(Lower(stderr), notices) {
      var k :| 0 <= k < |notices| && Contains(Lower(stderr), notices[k]);
      var i :| 0 <= i < |lines| && Contains(Lower(lines[i]), notices[k]);
      assert Mentions(Lower(lines[i]), notices);
    }
    if LineMentions(lines, notices) {
      var i :| 0 <= i < |lines| && Mentions(Lower(lines[i]), notices);
      var k :| 0 <= k < |notices| && Contains(Lower(lines[i]), notices[k]);
      assert InSomeLine(lines, notices[k]);
    }
  }

  method MissingRemoteTimeout(stderr: string) returns (missing: bool)
    ensures missing == SaysNoTimeout(stderr) == HasNotice(stderr)
  {
    NoticesAre(stderr);
    NoticesHaveNoNewline();
    missing := FindNotice(stderr, NOTICES);
  }

  /** The loops of MissingRemoteTimeout, over any notices. */
  method FindNotice(stderr: string, notices: seq<string>) returns (found: bool)
    requires forall k | 0 <= k < |notices| :: '\n' !in notices[k]
    ensures found == Mentions(Lower(stderr), notices)
  {
    MentionedInLine(stderr, notices);
    var lines := Lines(stderr);
    for i := 0 to |lines|
      invariant forall j | 0 <= j < i :: !Mentions(Lower(lines[j]), notices)
    {
      var lower := Lower(lines[i]);
      for k := 0 to |notices|
        invariant forall m | 0 <= m < k :: !Contains(lower, notices[m])
      {
        if Contains(lower, notices[k]) {
          return true;
        }
      }
    }
    return false;
  }

  // ---------------------------------------------------------------- one attempt

  /** How a session ended: without an error, with a reported status, or in some other way. */
  datatype WaitError = NoError | ExitError(status: int) | OtherError

  function ExitCodeOf(wait: WaitError): int {
    match wait
    case NoError => 0
    case ExitError(status) => status
    case OtherError => -1
  }

  /** When an event comes, in nanoseconds. One that comes at the very end of a wait may miss it: a
      select with two channels ready takes either. */
  datatype Delay = Never | In(time: nat, misses: bool)

  /** What the server and the network do during one attempt. `late` output
      arrives between reading the text and reading the count, from a drain that has not ended. */
  datatype Attempt = Attempt(
    setupFails: bool,
    startedAfter: Delay,
    startFails: bool,
    finishedAfter: Delay,
    wait: WaitError,
    killedAfter: Delay,
    droppedAfter: Delay,
    drainedAfter: Delay,
    stdout: seq<string>,
    stderr: seq<string>,
    lateStdout: seq<string>,
    lateStderr: seq<string>)

  datatype Outcome = Outcome(
    host: string,
    stdout: string,
    stderr: string,
    exitCode: int,
    timedOut: bool,
    timeout: int,
    remoteKilled: bool,
    noRemoteTimeout: bool,
    connectionClosed: bool,
    stdoutBytes: nat,
    stderrBytes: nat)

  predicate Arrives(after: Delay, limit: nat) {
    after.In? && (after.time < limit || (after.time == limit && !after.misses))
  }

  /** The server has answered the exec request by the client's deadline. */
  predicate Answered(a: Attempt, timeout: int) {
    Arrives(a.startedAfter, ClientWait(timeout))
  }

  /** The command has been started and its end delivered by the client's deadline. */
  predicate Delivered(a: Attempt, timeout: int) {
    && Answered(a, timeout) && !a.startFails && a.finishedAfter.In?
    && Arrives(In(a.startedAfter.time + a.finishedAfter.time, a.finishedAfter.misses), ClientWait(timeout))
  }

  /** With a deadline that fits: everything in before the timeout and ten seconds are over is
      delivered, and nothing after. */
  lemma DeliveredByDeadline(a: Attempt, setting: Option<int>)
    requires TimeoutFits(setting)
    ensures var limit := ExecTimeout(setting) + 10_000_000_000;
            && (a.startedAfter.Never? || a.finishedAfter.Never? || a.startFails ==> !Delivered(a, ExecTimeout(setting)))
            && (a.startedAfter.In? && a.finishedAfter.In? && !a.startFails ==>
                  && (a.startedAfter.time + a.finishedAfter.time < limit ==> Delivered(a, ExecTimeout(setting)))
                  && (a.startedAfter.time + a.finishedAfter.time > limit ==> !Delivered(a, ExecTimeout(setting))))
  {
    WaitWhenItFits(setting);
  }

  /** The attempt ends in an error rather than an outcome. */
  predicate Errs(a: Attempt, timeout: int) {
    a.setupFails || (Answered(a, timeout) && a.startFails)
  }

  /** The stuck session did not even unwind after it was killed, or never began. */
  predicate Stuck(a: Attempt, timeout: int) {
    !Answered(a, timeout) || (!Delivered(a, timeout) && !Arrives(a.killedAfter, TEARDOWN_GRACE))
  }

  /** A command still running at the deadline gets three seconds to unwind once it has been killed. */
  lemma StuckByGrace(a: Attempt, timeout: int)
    requires Answered(a, timeout) && !Delivered(a, timeout)
    ensures a.killedAfter.Never? ==> Stuck(a, timeout)
    ensures a.killedAfter.In? && a.killedAfter.time < 3_000_000_000 ==> !Stuck(a, timeout)
    ensures a.killedAfter.In? && a.killedAfter.time > 3_000_000_000 ==> Stuck(a, timeout)
  {
  }

  /** `timeout` reported that it killed the command. */
  predicate KilledRemotely(a: Attempt, timeout: int, wrapped: bool) {
    wrapped && Delivered(a, timeout) && a.wait in {ExitError(124), ExitError(137)}
  }

  /** The text is the beginning of the stream, as much as the limit allows, and the count that goes
      with it covers it and, perhaps, output that came later. */
  ghost predicate Reports(limit: int, chunks: seq<string>, late: seq<string>, text: string, bytes: nat) {
    && text == Kept(limit, Concat(chunks))
    && (bytes == |Concat(chunks)| || bytes == |Concat(chunks) + Concat(late)|)
  }

  /** The result tells what happened in the attempt; None stands for an error. */
  ghost predicate Tells(result: Option<Outcome>, host: string, a: Attempt, timeout: int, limit: int, wrapped: bool) {
    match result
    case None => Errs(a, timeout)
    case Some(o) =>
      && !Errs(a, timeout)
      && o.host == host && o.timeout == timeout
      && (o.timedOut <==> !Delivered(a, timeout) || KilledRemotely(a, timeout, wrapped))
      && (o.remoteKilled <==> KilledRemotely(a, timeout, wrapped))
      && (o.connectionClosed <==> Stuck(a, timeout))
      && (match a.wait
          case ExitError(status) => o.exitCode == (if Delivered(a, timeout) then status else 0)
          case NoError => o.exitCode == 0
          case OtherError => o.exitCode == (if Delivered(a, timeout) then -1 else 0))
      && (if Answered(a, timeout)
          then Reports(limit, a.stdout, a.lateStdout, o.stdout, o.stdoutBytes) && Reports(limit, a.stderr, a.lateStderr, o.stderr, o.stderrBytes)
          else o.stdout == o.stderr == "" && o.stdoutBytes == o.stderrBytes == 0)
  }

  /** The call is reported to the client as failed. */
  predicate IsError(o: Outcome) {
    o.timedOut || o.exitCode != 0
  }

  /** The attempt delivers status 0 in time. */
  predicate SucceedsIn(a: Attempt, timeout: int) {
    Delivered(a, timeout) && a.wait in {NoError, ExitError(0)}
  }

  /** StdoutTruncated and StderrTruncated. */
  predicate Truncated(text: string, bytes: nat) {
    bytes > |text|
  }

  /** What a text and its count say about the stream they report. */
  lemma ReportedStream(limit: int, chunks: seq<string>, late: seq<string>, text: string, bytes: nat)
    requires limit > 0 && Reports(limit, chunks, late, text, bytes)
    ensures text <= Concat(chunks) + Concat(late) && |text| <= bytes
    ensures !Truncated(text, bytes) ==> text == Concat(chunks)
    ensures Concat(late) == "" ==> (Truncated(text, bytes) <==> |Concat(chunks)| > limit)
  {
    LateDrain(limit, Concat(chunks), Concat(late));
    TruncationIsOverflow(limit, Concat(chunks));
    assert Concat(chunks) + "" == Concat(chunks);
  }

  /** An answered attempt's outcome holds the beginning of both streams; one that is not reported as
      truncated is whole as far as it was drained; and without output that came late, truncation is
      reported exactly when the stream is longer than the limit. */
  lemma OutcomeStreams(o: Outcome, host: string, a: Attempt, timeout: int, limit: int, wrapped: bool)
    requires limit > 0 && Tells(Some(o), host, a, timeout, limit, wrapped) && Answered(a, timeout)
    ensures o.stdout <= Concat(a.stdout) + Concat(a.lateStdout) && o.stderr <= Concat(a.stderr) + Concat(a.lateStderr)
    ensures |o.stdout| <= o.stdoutBytes && |o.stderr| <= o.stderrBytes
    ensures !Truncated(o.stdout, o.stdoutBytes) ==> o.stdout == Concat(a.stdout)
    ensures !Truncated(o.stderr, o.stderrBytes) ==> o.stderr == Concat(a.stderr)
    ensures Concat(a.lateStdout) == "" ==> (Truncated(o.stdout, o.stdoutBytes) <==> |Concat(a.stdout)| > limit)
    ensures Concat(a.lateStderr) == "" ==> (Truncated(o.stderr, o.stderrBytes) <==> |Concat(a.stderr)| > limit)
  {
    ReportedStream(limit, a.stdout, a.lateStdout, o.stdout, o.stdoutBytes);
    ReportedStream(limit, a.stderr, a.lateStderr, o.stderr, o.stderrBytes);
  }

  /** What an outcome that tells the truth cannot say, and when it says that the command succeeded. */
  lemma ToldOutcome(o: Outcome, host: string, a: Attempt, timeout: int, limit: int, wrapped: bool)
    requires Tells(Some(o), host, a, timeout, limit, wrapped)
    ensures o.remoteKilled ==> o.timedOut && !o.connectionClosed && wrapped
    ensures o.connectionClosed ==> o.timedOut && !o.remoteKilled
    ensures o.timedOut && !o.remoteKilled ==> !Delivered(a, timeout) && o.exitCode == 0
    ensures !IsError(o) <==> SucceedsIn(a, timeout)
    ensures o.exitCode == 127 <==> Delivered(a, timeout) && a.wait == ExitError(127)
    ensures o.exitCode == 127 ==> !o.connectionClosed
  {
  }

  /** No exit status has come back from the server. */
  predicate Unreported(a: Attempt, timeout: int) {
    !Delivered(a, timeout) || a.wait.OtherError?
  }

  /** Without a status the exit code is -1 exactly when the end of the session was delivered; on the
      client's backstop it reads 0. */
  lemma MinusOneExactly(o: Outcome, host: string, a: Attempt, timeout: int, limit: int, wrapped: bool)
    requires Tells(Some(o), host, a, timeout, limit, wrapped) && Unreported(a, timeout)
    ensures o.exitCode == -1 <==> Delivered(a, timeout)
    ensures o.exitCode != -1 ==> o.exitCode == 0 && o.timedOut && IsError(o)
  {
  }

  /** An exec request that is never answered: no status, and yet not -1. */
  lemma BackstopReadsZero(host: string, timeout: int, limit: int, wrapped: bool) returns (a: Attempt, o: Outcome)
    ensures Unreported(a, timeout) && Tells(Some(o), host, a, timeout, limit, wrapped) && o.exitCode == 0
  {
    a := Attempt(false, Never, false, Never, OtherError, Never, Never, Never, [], [], [], []);
    o := Outcome(host, "", "", 0, true, timeout, false, false, true, 0, 0);
  }

  /** One select: the event on one side, a timer on the other. */
  method Await(after: Delay, limit: nat, now: nat) returns (came: bool, later: nat)
    ensures came == Arrives(after, limit)
    ensures now <= later <= now + limit
    ensures came ==> later == now + after.time
    ensures !came ==> later == now + limit
  {
    came := Arrives(after, limit);
    later := now + if came then after.time else limit;
  }

  /** The longest an attempt keeps the caller waiting. */
  predicate Waits(a: Attempt, timeout: int, time: int) {
    time <= ClientWait(timeout) + if Delivered(a, timeout) then TEARDOWN_GRACE else 3 * TEARDOWN_GRACE
  }

  /** The shortest, unless the attempt breaks: nothing is cut short. */
  function EndsIn(a: Attempt, timeout: int): nat {
    if Delivered(a, timeout) then a.startedAfter.time + a.finishedAfter.time else ClientWait(timeout)
  }

  /** A single try at the command line; None stands for an error. By now the connection may
      have been closed, or another may be filed under the host; that one stays. */
  method Run(manager: ConnectionManager, connection: Connection, host: string, wrapped: bool, timeout: int, limit: int, a: Attempt, now: nat)
    returns (result: Option<Outcome>, later: nat)
    requires manager.Valid() && connection in manager.footprint
    requires forall h | h in manager.connections && manager.connections[h] == connection :: h == host
    modifies manager`connections, connection
    ensures manager.Valid()
    ensures Tells(result, host, a, timeout, limit, wrapped)
    ensures result.Some? ==> !result.value.noRemoteTimeout
    ensures var dropped := result.Some? && Stuck(a, timeout);
            && manager.connections ==
               (if dropped && host in old(manager.connections) && old(manager.connections)[host] == connection
                then old(manager.connections) - {host} else old(manager.connections))
            && (if dropped then connection.clientClosed && !connection.active else unchanged(connection))
    ensures now <= later && Waits(a, timeout, later - now)
    ensures result.Some? ==> EndsIn(a, timeout) <= later - now
  {
    later := now;
    if a.setupFails {
      return None, later;
    }
    var wait := ClientWait(timeout);
    var o := Outcome(host, "", "", 0, false, timeout, false, false, false, 0, 0);
    var started;
    started, later := Await(a.startedAfter, wait, later);
    if !started {
      connection.Close();
      manager.Forget(host, connection);
      return Some(o.(timedOut := true, connectionClosed := true)), later;
    }
    if a.startFails {
      return None, later;
    }

    var waitError := NoError;
    var left := wait - (later - now);
    var finished;
    finished, later := Await(a.finishedAfter, left, later);
    if finished {
      waitError := a.wait;
    } else {
      o := o.(timedOut := true);
      var unwound;
      unwound, later := Await(a.killedAfter, TEARDOWN_GRACE, later);
      if !unwound {
        connection.Close();
        manager.Forget(host, connection);
        o := o.(connectionClosed := true);
        unwound, later := Await(a.droppedAfter, TEARDOWN_GRACE, later);
      }
    }

    var drained;
    drained, later := Await(a.drainedAfter, TEARDOWN_GRACE, later);
    var out, outBytes := Read(limit, a.stdout, if drained then [] else a.lateStdout);
    var errOut, errBytes := Read(limit, a.stderr, if drained then [] else a.lateStderr);
    o := o.(stdout := out, stderr := errOut, stdoutBytes := outBytes, stderrBytes := errBytes,
            exitCode := ExitCodeOf(waitError));
    if wrapped && (o.exitCode == REMOTE_TIMEOUT_EXIT_CODE || o.exitCode == REMOTE_KILL_EXIT_CODE) {
      o := o.(remoteKilled := true, timedOut := true);
    }
    return Some(o), later;
  }

  /** Drains a stream into a buffer, then reads the text and, after whatever came late, the count. */
  method Read(limit: int, chunks: seq<string>, late: seq<string>) returns (text: string, bytes: nat)
    ensures text == Kept(limit, Concat(chunks)) && bytes == |Concat(chunks) + Concat(late)|
  {
    var buffer := new CappedBuffer(limit);
    buffer.Drain(chunks);
    text := buffer.buffer;
    assert buffer.stream == Concat(chunks);
    buffer.Drain(late);
    bytes := buffer.total;
  }

  // ---------------------------------------------------------------- a command

  /** The command is run again, as it was given, on a host that has no `timeout`. */
  predicate FallsBack(first: Attempt, timeout: int, limit: int) {
    && !Errs(first, timeout) && Delivered(first, timeout)
    && first.wait == ExitError(127)
    && SaysNoTimeout(Kept(limit, Concat(first.stderr)))
  }

  /** What a call that got as far as an attempt comes to: the command lines sent, and the outcome of
      the last attempt. */
  ghost predicate Attempted(result: Option<Outcome>, host: string, command: string, sent: seq<string>, first: Attempt, second: Attempt, timeout: int, limit: int) {
    var again := FallsBack(first, timeout, limit);
    && sent == [WrapCommand(command, timeout)] + (if again then [command] else [])
    && Tells(result, host, if again then second else first, timeout, limit, !again)
    && (result.Some? ==> (result.value.noRemoteTimeout <==> again))
  }

  /** The ways an outcome can report a timeout exclude one another, and success is reported exactly
      when the last attempt delivered status 0 in time. */
  lemma OutcomesExclude(o: Outcome, host: string, command: string, sent: seq<string>, first: Attempt, second: Attempt, timeout: int, limit: int)
    requires Attempted(Some(o), host, command, sent, first, second, timeout, limit)
    ensures o.remoteKilled ==> o.timedOut && !o.connectionClosed && !o.noRemoteTimeout
    ensures o.connectionClosed ==> o.timedOut && !o.remoteKilled
    ensures o.timedOut && !o.remoteKilled ==> o.exitCode == 0
    ensures |sent| == (if o.noRemoteTimeout then 2 else 1)
    ensures o.remoteKilled <==> |sent| == 1 && Delivered(first, timeout) && first.wait in {ExitError(124), ExitError(137)}
    ensures var last := if |sent| == 2 then second else first;
            && (!IsError(o) <==> Delivered(last, timeout) && last.wait in {NoError, ExitError(0)})
            && (Delivered(last, timeout) ==>
                  match last.wait case NoError => o.exitCode == 0 case ExitError(n) => o.exitCode == n case OtherError => o.exitCode == -1)
    // A second attempt follows exactly a first one that delivered status 127 with a notice, over a
    // connection it left open.
    ensures |sent| == 2 <==>
            && !Errs(first, timeout) && Delivered(first, timeout) && first.wait == ExitError(127)
            && HasNotice(Kept(limit, Concat(first.stderr)))
    ensures |sent| == 2 ==> !Stuck(first, timeout)
  {
    ToldOutcome(o, host, if |sent| == 2 then second else first, timeout, limit, |sent| == 1);
    NoticesAre(Kept(limit, Concat(first.stderr)));
  }

  /** `first` and `second` are what happens if an attempt is made; `sent` are the command lines that
      went to the server. None stands for an error. */
  method Execute(manager: ConnectionManager, host: string, command: string, timeoutSetting: Option<int>, outputSetting: Option<int>, first: Attempt, second: Attempt, now: nat)
    returns (result: Option<Outcome>, later: nat, ghost sent: seq<string>)
    requires manager.Valid()
    modifies manager`connections, manager.footprint
    ensures manager.Valid()
    ensures host !in old(manager.Live()) <==> sent == []
    ensures sent == [] ==> result.None?
    ensures sent != [] ==>
              Attempted(result, host, command, sent, first, second, ExecTimeout(timeoutSetting), ExecMaxOutputBytes(outputSetting))
    // A dead connection is gone, any other stays.
    ensures manager.connections == old(manager.connections) -
            if result.Some? && result.value.connectionClosed then {host} else {}
    ensures result.Some? && result.value.connectionClosed ==>
              host in old(manager.connections) && old(manager.connections[host]).clientClosed
    // The waiting.
    ensures now <= later <= now + 2 * ClientWait(ExecTimeout(timeoutSetting)) + 4 * TEARDOWN_GRACE
    ensures TimeoutFits(timeoutSetting) ==> later <= now + 2 * ExecTimeout(timeoutSetting) + 32 * SECOND
  {
    if TimeoutFits(timeoutSetting) {
      WaitWhenItFits(timeoutSetting);
    }
    sent, later := [], now;
    if host !in manager.connections || !manager.connections[host].active {
      return None, later, sent;
    }
    var connection := manager.connections[host];
    var timeout: int := ExecTimeout(timeoutSetting);
    var limit := ExecMaxOutputBytes(outputSetting);

    sent := [WrapCommand(command, timeout)];
    result, later := Run(manager, connection, host, true, timeout, limit, first, now);
    if result.None? {
      return None, later, sent;
    }
    ToldOutcome(result.value, host, first, timeout, limit, true);
    var missing := MissingRemoteTimeout(result.value.stderr);
    if result.value.exitCode != COMMAND_NOT_FOUND_EXIT_CODE || !missing {
      return result, later, sent;
    }

    sent := sent + [command];
    result, later := Run(manager, connection, host, false, timeout, limit, second, later);
    if result.Some? {
      result := Some(result.value.(noRemoteTimeout := true));
    }
  }
}
