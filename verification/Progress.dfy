/** What the calls on connections come to: by themselves, and whatever else is going on. */
module Progress {
  import opened Connections
  import opened Interleaving

  // ---------------------------------------------------------------- a call by itself

  /** Thread `t` steps alone, with these choices of the environment. */
  function Alone(s: State, t: nat, choices: seq<Choice>): State
    decreases choices
  {
    if choices == [] then s else Alone(Apply(s, Advance(t, choices[0])), t, choices[1..])
  }

  /** A run goes on. */
  lemma {:induction false} AloneIsRun(events: seq<Event>, t: nat, choices: seq<Choice>)
    ensures Alone(After(events), t, choices) == After(events + seq(|choices|, i requires 0 <= i < |choices| => Advance(t, choices[i])))
    decreases choices
  {
    if choices == [] {
      assert events + [] == events;
    } else {
      var next := events + [Advance(t, choices[0])];
      assert next[..|events|] == events;
      AloneIsRun(next, t, choices[1..]);
      var steps := seq(|choices|, i requires 0 <= i < |choices| => Advance(t, choices[i]));
      var rest := seq(|choices| - 1, i requires 0 <= i < |choices| - 1 => Advance(t, choices[1..][i]));
      assert steps == [Advance(t, choices[0])] + rest;
      assert next + rest == events + steps;
    }
  }

  function Next(s: State, t: nat, choice: Choice): State {
    Apply(s, Advance(t, choice))
  }

  lemma AloneFirst(s: State, t: nat, first: Choice, rest: seq<Choice>)
    ensures Alone(s, t, [first] + rest) == Alone(Next(s, t, first), t, rest)
  {
    assert ([first] + rest)[1..] == rest;
  }

  lemma AloneThrough(s: State, t: nat, a: Choice, b: Choice, c: Choice, d: Choice)
    ensures Alone(s, t, [a]) == Next(s, t, a)
    ensures Alone(s, t, [a, b, c]) == Next(Next(Next(s, t, a), t, b), t, c)
    ensures Alone(s, t, [a, b, c, d]) == Next(Next(Next(Next(s, t, a), t, b), t, c), t, d)
  {
    var s1 := Next(s, t, a);
    var s2 := Next(s1, t, b);
    var s3 := Next(s2, t, c);
    AloneFirst(s, t, a, []);
    AloneFirst(s2, t, c, []);
    AloneFirst(s3, t, d, []);
    AloneFirst(s1, t, b, [c]);
    AloneFirst(s2, t, c, [d]);
    AloneFirst(s1, t, b, [c, d]);
    AloneFirst(s, t, a, [b, c]);
    AloneFirst(s, t, a, [b, c, d]);
  }

  /** The connection as close leaves it. */
  function Shut(conn: Conn): Conn {
    Conn(conn.host, false, if conn.ping.Ping? && !conn.ping.onceDone then Ping(true, conn.ping.closures + 1) else conn.ping)
  }

  function AfterClose(c: nat, next: Then): Pc {
    match next case Return => Returned(true) case ForgetIt(host) => Forget(host, c)
  }

  lemma StopPingAlone(s: State, t: nat, c: nat, next: Then)
    requires t in s.threads && s.threads[t] == StopPing(c, next) && c in s.conns
    ensures Next(s, t, Plain) ==
            s.(conns := s.conns[c := s.conns[c].(ping := Shut(s.conns[c]).ping)], threads := s.threads[t := CloseClient(c, next)])
  {
  }

  lemma CloseClientAlone(s: State, t: nat, c: nat, next: Then)
    requires t in s.threads && s.threads[t] == CloseClient(c, next)
    ensures Next(s, t, Plain) == s.(clients := s.clients[c := true], threads := s.threads[t := ClearActive(c, next)])
  {
  }

  lemma ClearActiveAlone(s: State, t: nat, c: nat, next: Then)
    requires t in s.threads && s.threads[t] == ClearActive(c, next) && c in s.conns
    ensures Next(s, t, Plain) ==
            s.(conns := s.conns[c := s.conns[c].(active := false)], threads := s.threads[t := AfterClose(c, next)])
  {
  }

  lemma UpdatedTwice<K, V>(m: map<K, V>, k: K, v: V, w: V)
    ensures m[k := v][k := w] == m[k := w]
  {
  }

  /** The three statements of close. */
  lemma CloseAlone(s: State, t: nat, c: nat, next: Then)
    requires t in s.threads && s.threads[t] == StopPing(c, next) && c in s.conns
    ensures Alone(s, t, [Plain, Plain, Plain]) ==
            s.(conns := s.conns[c := Shut(s.conns[c])], clients := s.clients[c := true],
               threads := s.threads[t := AfterClose(c, next)])
  {
    AloneThrough(s, t, Plain, Plain, Plain, Plain);
    var quiet := s.conns[c].(ping := Shut(s.conns[c]).ping);
    StopPingAlone(s, t, c, next);
    var s1 := s.(conns := s.conns[c := quiet], threads := s.threads[t := CloseClient(c, next)]);
    CloseClientAlone(s1, t, c, next);
    UpdatedTwice(s.threads, t, CloseClient(c, next), ClearActive(c, next));
    var s2 := s1.(clients := s.clients[c := true], threads := s.threads[t := ClearActive(c, next)]);
    ClearActiveAlone(s2, t, c, next);
    UpdatedTwice(s.threads, t, ClearActive(c, next), AfterClose(c, next));
    UpdatedTwice(s.conns, c, quiet, Shut(s.conns[c]));
  }

  lemma {:induction false} AloneThen(s: State, t: nat, x: seq<Choice>, y: seq<Choice>)
    ensures Alone(s, t, x + y) == Alone(Alone(s, t, x), t, y)
    decreases x
  {
    if x == [] {
      assert x + y == y;
    } else {
      assert (x + y)[1..] == x[1..] + y;
      AloneThen(Apply(s, Advance(t, x[0])), t, x[1..], y);
    }
  }

  lemma ForgetAlone(s: State, t: nat, c: nat, host: string)
    requires t in s.threads && s.threads[t] == Forget(host, c)
    ensures Next(s, t, Plain) ==
            s.(table := if host in s.table && s.table[host] == c then s.table - {host} else s.table,
               threads := s.threads[t := Dropped(c)])
  {
  }

  /** A command that times out: its client is closed, the flag cleared, the stop channel closed once,
      and the host unlisted unless it has another connection by now; nothing else changes. */
  lemma TimedOutAlone(s: State, t: nat, host: string, c: nat)
    requires Inv(s) && t in s.threads && s.threads[t] == Run(host, c)
    ensures c in s.conns
    ensures Alone(s, t, [TimesOut, Plain, Plain, Plain] + [Plain]) ==
            s.(conns := s.conns[c := Shut(s.conns[c])], clients := s.clients[c := true],
               table := if host in s.table && s.table[host] == c then s.table - {host} else s.table,
               threads := s.threads[t := Dropped(c)])
    ensures s.conns[c].ping.Ping? ==> Shut(s.conns[c]).ping == Ping(true, 1)
  {
    assert PcOk(s, s.threads[t]) && ConnOk(s, c);
    var s1 := Next(s, t, TimesOut);
    assert s1 == s.(threads := s.threads[t := StopPing(c, ForgetIt(host))]);
    CloseAlone(s1, t, c, ForgetIt(host));
    AloneThrough(s, t, TimesOut, Plain, Plain, Plain);
    AloneThrough(s1, t, Plain, Plain, Plain, Plain);
    UpdatedTwice(s.threads, t, StopPing(c, ForgetIt(host)), Forget(host, c));
    var s4 := s.(conns := s.conns[c := Shut(s.conns[c])], clients := s.clients[c := true], threads := s.threads[t := Forget(host, c)]);
    assert Alone(s, t, [TimesOut, Plain, Plain, Plain]) == s4;
    AloneThen(s, t, [TimesOut, Plain, Plain, Plain], [Plain]);
    AloneThrough(s4, t, Plain, Plain, Plain, Plain);
    ForgetAlone(s4, t, c, host);
    UpdatedTwice(s.threads, t, Forget(host, c), Dropped(c));
  }

  /** A Connect to a known host without a live connection, with a client of its own. */
  lemma ConnectAlone(s: State, t: nat, host: string, c: nat)
    requires t in s.threads && s.threads[t] == ReadConfig(host)
    requires host in s.configs && !IsActive(s, host) && c !in s.clients
    ensures Alone(s, t, [Plain, Plain, Opens(c), Plain]) ==
            s.(clients := s.clients[c := false], conns := s.conns[c := NewConn(host, s.configs[host])],
               table := s.table[host := c], threads := s.threads[t := Returned(true)])
    ensures IsActive(Alone(s, t, [Plain, Plain, Opens(c), Plain]), host)
  {
    AloneThrough(s, t, Plain, Plain, Opens(c), Plain);
  }

  /** A live host is left as it is, and reported as connected; an unknown one, and one that cannot be
      dialed, as failed. */
  lemma ConnectElseAlone(s: State, t: nat, host: string, a: Choice, b: Choice)
    requires t in s.threads && s.threads[t] == ReadConfig(host)
    ensures host !in s.configs ==> Next(s, t, a) == s.(threads := s.threads[t := Returned(false)])
    ensures host in s.configs && IsActive(s, host) ==>
              Next(Next(s, t, a), t, b) == s.(threads := s.threads[t := Returned(true)])
    ensures host in s.configs && !IsActive(s, host) ==>
              Alone(s, t, [a, b, Plain]) == s.(threads := s.threads[t := Returned(false)])
  {
    AloneThrough(s, t, a, b, Plain, Plain);
    if host in s.configs && !IsActive(s, host) {
      var interval := s.configs[host];
      assert Next(s, t, a) == s.(threads := s.threads[t := CheckActive(host, interval)]);
      UpdatedTwice(s.threads, t, CheckActive(host, interval), Dial(host, interval));
      UpdatedTwice(s.threads, t, Dial(host, interval), Returned(false));
    }
  }

  /** A Connect that has lost the race closes its client, keeps the other connection and succeeds. */
  lemma LateConnect(s: State, t: nat, host: string, interval: int, c: nat)
    requires t in s.threads && s.threads[t] == Publish(host, interval, c) && IsActive(s, host)
    ensures Next(s, t, Plain) == s.(clients := s.clients[c := true], threads := s.threads[t := Returned(true)])
  {
  }

  /** A Disconnect: the host is unlisted and its client closed; nothing else changes. */
  lemma DisconnectAlone(s: State, t: nat, host: string)
    requires Inv(s) && t in s.threads && s.threads[t] == Remove(host)
    ensures host !in s.table ==> Next(s, t, Plain) == s.(threads := s.threads[t := Returned(false)])
    ensures host in s.table ==>
              && s.table[host] in s.conns
              && var c := s.table[host];
                 && Alone(s, t, [Plain, Plain, Plain, Plain]) ==
                    s.(table := s.table - {host}, clients := s.clients[c := true],
                       conns := s.conns[c := Shut(s.conns[c])], threads := s.threads[t := Returned(true)])
                 && (s.conns[c].ping.Ping? ==> Shut(s.conns[c]).ping == Ping(true, 1))
  {
    if host in s.table {
      var c, next := s.table[host], Next(s, t, Plain);
      assert InTable(s, c) && ConnOk(s, c);
      assert next == s.(table := s.table - {host}, threads := s.threads[t := StopPing(c, Return)]);
      CloseAlone(next, t, c, Return);
      AloneThrough(s, t, Plain, Plain, Plain, Plain);
      AloneThrough(next, t, Plain, Plain, Plain, Plain);
      UpdatedTwice(s.threads, t, StopPing(c, Return), Returned(true));
    }
  }

  /** An Execute runs over the connection that is live, or fails. */
  lemma ExecuteAlone(s: State, t: nat, host: string, a: Choice)
    requires t in s.threads && s.threads[t] == LookUp(host)
    ensures IsActive(s, host) ==> Next(s, t, a) == s.(threads := s.threads[t := Run(host, s.table[host])])
    ensures !IsActive(s, host) ==> Next(s, t, a) == s.(threads := s.threads[t := Returned(false)])
  {
  }

  /** An Execute that times out, from the lookup on. */
  lemma ExecuteTimesOutAlone(s: State, t: nat, host: string)
    requires Inv(s) && t in s.threads && s.threads[t] == LookUp(host) && IsActive(s, host)
    ensures var c := s.table[host];
            Alone(s, t, [Plain] + ([TimesOut, Plain, Plain, Plain] + [Plain])) ==
            s.(conns := s.conns[c := Shut(s.conns[c])], clients := s.clients[c := true],
               table := s.table - {host}, threads := s.threads[t := Dropped(c)])
  {
    var c := s.table[host];
    ExecuteAlone(s, t, host, Plain);
    StepKeeps(s, Advance(t, Plain));
    TimedOutAlone(Next(s, t, Plain), t, host, c);
    AloneFirst(s, t, Plain, [TimesOut, Plain, Plain, Plain] + [Plain]);
    UpdatedTwice(s.threads, t, Run(host, c), Dropped(c));
  }

  lemma CommandEndsAlone(s: State, t: nat, host: string, c: nat, choice: Choice)
    requires t in s.threads && s.threads[t] == Run(host, c) && !choice.TimesOut?
    ensures Next(s, t, choice) == s.(threads := s.threads[t := Returned(true)])
  {
  }

  // ---------------------------------------------------------------- whatever else is going on

  predicate Finished(pc: Pc) {
    pc.Returned? || pc.Dropped?
  }

  /** How many steps a call has before it at most. */
  function StepsLeft(pc: Pc): nat {
    match pc
    case ReadConfig(_) => 4
    case CheckActive(_, _) => 3
    case Dial(_, _) => 2
    case Publish(_, _, _) => 1
    case Remove(_) => 4
    case LookUp(_) => 6
    case Run(_, _) => 5
    case StopPing(_, next) => if next.Return? then 3 else 4
    case CloseClient(_, next) => if next.Return? then 2 else 3
    case ClearActive(_, next) => if next.Return? then 1 else 2
    case Forget(_, _) => 1
    case Returned(_) => 0
    case Dropped(_) => 0
  }

  lemma StepsFall(s: State, t: nat, choice: Choice)
    requires t in s.threads && PcOk(s, s.threads[t]) && !Finished(s.threads[t])
    ensures var s' := Advanced(s, t, s.threads[t], choice);
            t in s'.threads && StepsLeft(s'.threads[t]) < StepsLeft(s.threads[t])
  {
    match s.threads[t] {
      case ReadConfig(_) =>
      case CheckActive(_, _) =>
      case Dial(_, _) =>
      case Publish(_, _, _) =>
      case Remove(_) =>
      case LookUp(_) =>
      case Run(_, _) =>
      case StopPing(_, _) =>
      case CloseClient(_, _) =>
      case ClearActive(_, _) =>
      case Forget(_, _) =>
      case _ =>
    }
  }

  /** In every run, each step of a call brings it nearer to its end and no step of another call takes
      it back; nothing a call does ever waits for another. */
  lemma EveryStepAdvances(events: seq<Event>, e: Event, t: nat)
    requires t in After(events).threads
    ensures var s, s' := After(events), Apply(After(events), e);
            && t in s'.threads
            && (e.Advance? && e.thread == t && !Finished(s.threads[t]) ==> StepsLeft(s'.threads[t]) < StepsLeft(s.threads[t]))
            && (!(e.Advance? && e.thread == t) || Finished(s.threads[t]) ==> s'.threads[t] == s.threads[t])
  {
    var s := After(events);
    RunsKeep(events);
    assert e.Advance? && e.thread in s.threads ==> PcOk(s, s.threads[e.thread]);
    if e.Advance? && e.thread == t {
      if !Finished(s.threads[t]) {
        StepsFall(s, t, e.choice);
      }
    } else {
      OthersStay(s, e, t);
    }
  }

  /** Steps of thread `t` in a run. */
  function StepsOf(events: seq<Event>, t: nat): nat {
    if events == [] then 0
    else StepsOf(events[..|events| - 1], t) + if events[|events| - 1].Advance? && events[|events| - 1].thread == t then 1 else 0
  }

  /** The budget of a call is never exceeded. */
  predicate Within(was: Pc, now: Pc, steps: nat) {
    Finished(now) || StepsLeft(now) + steps <= StepsLeft(was)
  }

  /** So six steps of its own end any call, in every run that goes on from there. */
  lemma {:induction false} SixStepsEndACall(before: seq<Event>, events: seq<Event>, t: nat)
    requires t in After(before).threads
    ensures t in After(before + events).threads
    ensures Within(After(before).threads[t], After(before + events).threads[t], StepsOf(events, t))
    ensures StepsOf(events, t) >= 6 ==> Finished(After(before + events).threads[t])
  {
    if events == [] {
      assert before + events == before;
    } else {
      var init, e := events[..|events| - 1], events[|events| - 1];
      SixStepsEndACall(before, init, t);
      Continued(before, events);
      EveryStepAdvances(before + init, e, t);
    }
    OnlyEndsHaveNone(After(before + events).threads[t]);
  }

  lemma AfterSnoc(events: seq<Event>, e: Event)
    ensures After(events + [e]) == Apply(After(events), e)
  {
    var all := events + [e];
    assert all[..|all| - 1] == events;
  }

  lemma Continued(before: seq<Event>, events: seq<Event>)
    requires events != []
    ensures After(before + events) == Apply(After(before + events[..|events| - 1]), events[|events| - 1])
  {
    var init, e := events[..|events| - 1], events[|events| - 1];
    assert events == init + [e] && before + events == before + init + [e];
    AfterSnoc(before + init, e);
  }

  lemma OnlyEndsHaveNone(pc: Pc)
    ensures StepsLeft(pc) <= 6 && (StepsLeft(pc) == 0 <==> Finished(pc))
  {
  }

  /** What a timed-out Execute still has to do. */
  predicate Dropping(pc: Pc, host: string, c: nat) {
    || pc == StopPing(c, ForgetIt(host)) || pc == CloseClient(c, ForgetIt(host)) || pc == ClearActive(c, ForgetIt(host))
    || pc == Forget(host, c) || pc == Dropped(c)
  }

  lemma DroppingStep(s: State, e: Event, t: nat, host: string, c: nat)
    requires ThreadsOk(s) && t in s.threads && Dropping(s.threads[t], host, c)
    ensures t in Apply(s, e).threads && Dropping(Apply(s, e).threads[t], host, c)
  {
    assert PcOk(s, s.threads[t]);
    if !(e.Advance? && e.thread == t) {
      assert e.Advance? && e.thread in s.threads ==> PcOk(s, s.threads[e.thread]);
      OthersStay(s, e, t);
    }
  }

  /** In every run in which a command times out, its call is on its way to Dropped and nowhere else: once
      it is finished, its client is closed and its connection is in no entry. */
  lemma {:induction false} TimedOutIsDropped(before: seq<Event>, events: seq<Event>, t: nat, host: string, c: nat)
    requires t in After(before).threads && After(before).threads[t] == Run(host, c)
    ensures var s := After(before + [Advance(t, TimesOut)] + events);
            && t in s.threads && Dropping(s.threads[t], host, c)
            && (Finished(s.threads[t]) ==> s.threads[t] == Dropped(c) && Closed(s, c) && forall h | h in s.table :: s.table[h] != c)
  {
    var start := before + [Advance(t, TimesOut)];
    if events == [] {
      assert start + events == start && [Advance(t, TimesOut)][..0] == [] && before + [] == before;
      Continued(before, [Advance(t, TimesOut)]);
    } else {
      TimedOutIsDropped(before, events[..|events| - 1], t, host, c);
      Continued(start, events);
      RunsKeep(start + events[..|events| - 1]);
      DroppingStep(After(start + events[..|events| - 1]), events[|events| - 1], t, host, c);
    }
    if Finished(After(start + events).threads[t]) {
      DroppedIsGone(start + events, t);
    }
  }

  predicate Disconnecting(pc: Pc, c: nat) {
    || pc == StopPing(c, Return) || pc == CloseClient(c, Return) || pc == ClearActive(c, Return) || pc == Returned(true)
  }

  ghost predicate TakenOut(s: State, t: nat, c: nat) {
    && t in s.threads && Disconnecting(s.threads[t], c) && c in s.conns && !InTable(s, c)
    && (s.threads[t] == Returned(true) ==> Closed(s, c) && !s.conns[c].active)
  }

  lemma TakenOutStep(s: State, e: Event, t: nat, c: nat)
    requires ThreadsOk(s) && TakenOut(s, t, c)
    ensures TakenOut(Apply(s, e), t, c)
  {
    assert PcOk(s, s.threads[t]);
    assert e.Advance? && e.thread in s.threads ==> PcOk(s, s.threads[e.thread]);
    ConnOnward(s, e, c);
    if !(e.Advance? && e.thread == t) {
      OthersStay(s, e, t);
    }
  }

  lemma RemoveTakesOut(s: State, t: nat, host: string)
    requires TableOk(s) && t in s.threads && s.threads[t] == Remove(host) && host in s.table
    ensures TakenOut(Next(s, t, Plain), t, s.table[host])
  {
    assert InTable(s, s.table[host]) && s.conns[s.table[host]].host == host;
  }

  /** In every run in which a Disconnect takes out an entry, the entry's connection stays out, and the
      client is closed by the time the call is finished. */
  lemma {:induction false} RemovedIsClosed(before: seq<Event>, events: seq<Event>, t: nat, host: string)
    requires t in After(before).threads && After(before).threads[t] == Remove(host) && host in After(before).table
    ensures TakenOut(After(before + [Advance(t, Plain)] + events), t, After(before).table[host])
  {
    var start, c := before + [Advance(t, Plain)], After(before).table[host];
    if events == [] {
      RunsKeep(before);
      assert start + events == start && [Advance(t, Plain)][..0] == [] && before + [] == before;
      Continued(before, [Advance(t, Plain)]);
      RemoveTakesOut(After(before), t, host);
    } else {
      RemovedIsClosed(before, events[..|events| - 1], t, host);
      Continued(start, events);
      RunsKeep(start + events[..|events| - 1]);
      TakenOutStep(After(start + events[..|events| - 1]), events[|events| - 1], t, c);
    }
  }
}
