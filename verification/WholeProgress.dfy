/** What session calls come to by themselves, with every step of the connection manager. */
module WholeProgress {
  import opened Text
  import opened Session
  import opened SessionProgress
  import S = SessionInterleaving
  import M = Interleaving
  import P = Progress
  import W = WholeSystem

  ghost function Steps(w: W.State, events: seq<W.Event>): W.State
    decreases events
  {
    if events == [] then w else Steps(W.Apply(w, events[0]), events[1..])
  }

  function Inside(t: nat, choices: seq<M.Choice>): seq<W.Event> {
    seq(|choices|, i requires 0 <= i < |choices| => W.Inside(t, choices[i]))
  }

  lemma StepsFirst(w: W.State, first: W.Event, rest: seq<W.Event>)
    ensures Steps(w, [first] + rest) == Steps(W.Apply(w, first), rest)
  {
    assert ([first] + rest)[1..] == rest;
  }

  lemma {:induction false} StepsThen(w: W.State, x: seq<W.Event>, y: seq<W.Event>)
    ensures Steps(w, x + y) == Steps(Steps(w, x), y)
    decreases x
  {
    if x == [] {
      assert x + y == y;
    } else {
      assert (x + y)[1..] == x[1..] + y;
      StepsThen(W.Apply(w, x[0]), x[1..], y);
    }
  }

  /** Steps inside are steps of the manager. */
  lemma {:induction false} InsideIsAlone(w: W.State, t: nat, choices: seq<M.Choice>)
    ensures Steps(w, Inside(t, choices)) == w.(manager := P.Alone(w.manager, t, choices))
    decreases choices
  {
    if choices != [] {
      var rest := choices[1..];
      assert Inside(t, choices) == [W.Inside(t, choices[0])] + Inside(t, rest);
      StepsFirst(w, W.Inside(t, choices[0]), Inside(t, rest));
      InsideIsAlone(W.Apply(w, W.Inside(t, choices[0])), t, rest);
    }
  }

  lemma TwoSteps(w: W.State, a: W.Event, b: W.Event)
    ensures Steps(w, [a, b]) == W.Apply(W.Apply(w, a), b)
    ensures Steps(w, [a]) == W.Apply(w, a)
  {
    StepsFirst(w, a, [b]);
    StepsFirst(w, a, []);
    StepsFirst(W.Apply(w, a), b, []);
  }

  /** A new session call with its thread inside. */
  lemma Begins(w: W.State, t: nat, pc: S.Pc)
    requires t !in w.calls && t !in w.manager.threads && S.IsEntry(pc) && W.Entry(pc).Some?
    ensures W.Apply(w, W.Call(t, pc)) ==
            w.(calls := w.calls[t := pc], manager := w.manager.(threads := w.manager.threads[t := W.Entry(pc).value]))
  {
  }

  /** Connect, from the call to its return, with nothing else going on: the host is current and has an
      active connection with the new client. */
  lemma WholeConnect(w: W.State, t: nat, host: string, c: nat)
    requires t !in w.calls && t !in w.manager.threads && host != "" && w.holder.None?
    requires host in w.manager.configs && !M.IsActive(w.manager, host) && c !in w.manager.clients
    ensures var inner := [M.Plain, M.Plain, M.Opens(c), M.Plain];
            var end := Steps(w, [W.Call(t, S.Open(host))] + Inside(t, inner) + [W.Step(t), W.Step(t)]);
            && end.activeHost == host && end.calls == w.calls[t := S.Returned] && end.holder.None?
            && end.manager.table == w.manager.table[host := c]
            && end.manager.clients == w.manager.clients[c := false]
            && M.IsActive(end.manager, host)
  {
    var inner := [M.Plain, M.Plain, M.Opens(c), M.Plain];
    var called := W.Apply(w, W.Call(t, S.Open(host)));
    var x, y := Inside(t, inner), [W.Step(t), W.Step(t)];
    Begins(w, t, S.Open(host));
    assert [W.Call(t, S.Open(host))] + x + y == [W.Call(t, S.Open(host))] + (x + y);
    StepsFirst(w, W.Call(t, S.Open(host)), x + y);
    StepsThen(called, x, y);
    InsideIsAlone(called, t, inner);
    P.ConnectAlone(called.manager, t, host, c);
    var dialed := called.(manager := P.Alone(called.manager, t, inner));
    TwoSteps(dialed, W.Step(t), W.Step(t));
    UpdatedTwice(w.calls, t, S.Open(host), S.Name(host));
    assert W.Apply(dialed, W.Step(t)) == dialed.(calls := w.calls[t := S.Name(host)]);
    NameStep(dialed.(calls := w.calls[t := S.Name(host)]), t, host);
    UpdatedTwice(w.calls, t, S.Name(host), S.Returned);
  }

  lemma NameStep(w: W.State, t: nat, host: string)
    requires t in w.calls && w.calls[t] == S.Name(host) && w.holder.None?
    ensures W.Apply(w, W.Step(t)) == w.(activeHost := host, calls := w.calls[t := S.Returned])
  {
    assert W.Seen(w).threads[t] == S.Name(host);
  }

  /** An Execute that times out over the host's connection, from the call to its return: the host is
      unlisted, its client closed, and the current host left for the next GetActiveHost to find. */
  lemma WholeTimedOut(w: W.State, t: nat, host: string)
    requires t !in w.calls && t !in w.manager.threads && M.Inv(w.manager) && M.IsActive(w.manager, host)
    ensures var inner := [M.Plain] + ([M.TimesOut, M.Plain, M.Plain, M.Plain] + [M.Plain]);
            var end := Steps(w, [W.Call(t, S.Drop(host))] + Inside(t, inner) + [W.Step(t)]);
            var c := w.manager.table[host];
            && end.activeHost == w.activeHost && end.calls == w.calls[t := S.Returned]
            && end.manager.table == w.manager.table - {host}
            && end.manager.clients == w.manager.clients[c := true]
            && end.manager.conns == w.manager.conns[c := P.Shut(w.manager.conns[c])]
  {
    var inner, c := [M.Plain] + ([M.TimesOut, M.Plain, M.Plain, M.Plain] + [M.Plain]), w.manager.table[host];
    var call, x, y := W.Call(t, S.Drop(host)), Inside(t, inner), [W.Step(t)];
    var called := W.Apply(w, call);
    Begins(w, t, S.Drop(host));
    assert [call] + x + y == [call] + (x + y);
    StepsFirst(w, call, x + y);
    StepsThen(called, x, y);
    InsideIsAlone(called, t, inner);
    M.StepKeeps(w.manager, M.Call(t, M.LookUp(host)));
    P.ExecuteTimesOutAlone(called.manager, t, host);
    var dropped := called.(manager := P.Alone(called.manager, t, inner));
    TwoSteps(dropped, W.Step(t), W.Step(t));
    ReturnStep(dropped, t, host, c);
    UpdatedTwice(w.calls, t, S.Drop(host), S.Returned);
  }

  lemma ReturnStep(w: W.State, t: nat, host: string, c: nat)
    requires t in w.calls && w.calls[t] == S.Drop(host) && t in w.manager.threads && w.manager.threads[t] == M.Dropped(c)
    ensures W.Apply(w, W.Step(t)) == w.(calls := w.calls[t := S.Returned])
  {
  }

  /** A step of the session manager in the whole is one of the session's machine. */
  lemma StepIsNext(w: W.State, t: nat)
    requires t in w.calls && W.Entry(w.calls[t]).None?
    ensures var w', s' := W.Apply(w, W.Step(t)), Next(W.Seen(w), t, true);
            && W.Seen(w') == s' && w'.manager == w.manager
            && t in s'.threads && w'.calls == w.calls[t := s'.threads[t]] && W.Entry(w'.calls[t]).None?
  {
    var s := W.Seen(w);
    assert s.threads[t] == w.calls[t];
    W.OwnStep(s, t, w.calls[t], W.Inner(w, t));
    assert W.Seen(W.Apply(w, W.Step(t))).threads == Next(s, t, true).threads;
  }

  /** A Disconnect of a listed host, from the call to its return: its client is closed, and the least
      of the hosts still active takes its place if it was the current one. */
  lemma WholeDisconnect(w: W.State, t: nat, host: string) returns (end: W.State)
    requires t !in w.calls && t !in w.manager.threads && M.Inv(w.manager) && host in w.manager.table && w.holder.None?
    ensures var inner := [M.Plain, M.Plain, M.Plain, M.Plain];
            var entered := Steps(w, [W.Call(t, S.Close(host))] + Inside(t, inner) + [W.Step(t)]);
            var two := Steps(entered, [W.Step(t), W.Step(t)]);
            end == if w.activeHost == host then Steps(two, [W.Step(t), W.Step(t)]) else two
    ensures end.holder.None? && t in end.calls && end.calls[t] == S.Returned
    ensures var c := w.manager.table[host];
            && end.manager.table == w.manager.table - {host}
            && end.manager.clients == w.manager.clients[c := true]
    ensures if w.activeHost == host then Picked(end.activeHost, M.ActiveHosts(end.manager)) else end.activeHost == w.activeHost
  {
    var inner := [M.Plain, M.Plain, M.Plain, M.Plain];
    var entered := DisconnectEnters(w, t, host);
    StepIsNext(entered, t);
    var one := W.Apply(entered, W.Step(t));
    StepIsNext(one, t);
    var two := W.Apply(one, W.Step(t));
    TwoSteps(entered, W.Step(t), W.Step(t));
    assert W.Seen(entered).threads[t] == S.Enter(host, false);
    var s := SectionAlone(W.Seen(entered), t, host, false);
    end := two;
    if w.activeHost == host {
      StepIsNext(two, t);
      var three := W.Apply(two, W.Step(t));
      StepIsNext(three, t);
      end := W.Apply(three, W.Step(t));
      TwoSteps(two, W.Step(t), W.Step(t));
    }
    assert W.Seen(end) == s;
  }

  lemma DisconnectEnters(w: W.State, t: nat, host: string) returns (entered: W.State)
    requires t !in w.calls && t !in w.manager.threads && M.Inv(w.manager) && host in w.manager.table
    ensures entered == Steps(w, [W.Call(t, S.Close(host))] + Inside(t, [M.Plain, M.Plain, M.Plain, M.Plain]) + [W.Step(t)])
    ensures entered.activeHost == w.activeHost && entered.holder == w.holder && entered.calls == w.calls[t := S.Enter(host, false)]
    ensures entered.manager.table == w.manager.table - {host}
    ensures entered.manager.clients == w.manager.clients[w.manager.table[host] := true]
  {
    var inner, call := [M.Plain, M.Plain, M.Plain, M.Plain], W.Call(t, S.Close(host));
    var called, x, y := W.Apply(w, call), Inside(t, inner), [W.Step(t)];
    Begins(w, t, S.Close(host));
    assert [call] + x + y == [call] + (x + y);
    StepsFirst(w, call, x + y);
    StepsThen(called, x, y);
    InsideIsAlone(called, t, inner);
    M.StepKeeps(w.manager, M.Call(t, M.Remove(host)));
    P.DisconnectAlone(called.manager, t, host);
    var closed := called.(manager := P.Alone(called.manager, t, inner));
    TwoSteps(closed, W.Step(t), W.Step(t));
    entered := W.Apply(closed, W.Step(t));
    UpdatedTwice(w.calls, t, S.Close(host), S.Enter(host, false));
  }
}
