/** Connections under concurrency: any number of Connect, Disconnect and Execute calls whose
    lock-protected sections, and whose single statements of close, happen in any order. */
module Interleaving {
  import opened Connections

  /** The keepalive of a connection: its stop channel with the number of times it has been closed,
      and the sync.Once that guards it. */
  datatype Ping = NoPing | Ping(onceDone: bool, closures: nat)

  /** A connection is named by the client it carries: one is made for each client published. */
  datatype Conn = Conn(host: string, active: bool, ping: Ping)

  /** What follows after close. */
  datatype Then = Return | ForgetIt(host: string)

  /** Where a call stands; the names say what it is about to do. */
  datatype Pc =
    | ReadConfig(host: string)                                  // Connect
    | CheckActive(host: string, interval: int)
    | Dial(host: string, interval: int)
    | Publish(host: string, interval: int, client: nat)
    | Remove(host: string)                                      // Disconnect
    | LookUp(host: string)                                      // Execute
    | Run(host: string, client: nat)                            // one attempt or two
    | StopPing(client: nat, next: Then)                         // close, statement by statement
    | CloseClient(client: nat, next: Then)
    | ClearActive(client: nat, next: Then)
    | Forget(host: string, client: nat)                         // Execute after close
    | Returned(ok: bool)
    | Dropped(client: nat)                                      // Execute, connection closed

  /** `table` is the manager's map, `clients` says of every client ever opened whether it is closed,
      and `conns` holds every connection ever made. */
  datatype State = State(
    configs: map<string, int>,
    table: map<string, nat>,
    conns: map<nat, Conn>,
    clients: map<nat, bool>,
    threads: map<nat, Pc>)

  /** What the environment decides: a dial yields a client, a command times out, or neither. */
  datatype Choice = Plain | Opens(client: nat) | TimesOut

  datatype Event =
    | Configure(configs: map<string, int>)
    | Call(thread: nat, pc: Pc)
    | Advance(thread: nat, choice: Choice)

  const INITIAL := State(map[], map[], map[], map[], map[])

  predicate IsEntry(pc: Pc) {
    pc.ReadConfig? || pc.Remove? || pc.LookUp?
  }

  predicate IsActive(s: State, host: string) {
    host in s.table && s.table[host] in s.conns && s.conns[s.table[host]].active
  }

  function At(s: State, t: nat, pc: Pc): State {
    s.(threads := s.threads[t := pc])
  }

  function NewConn(host: string, interval: int): Conn {
    Conn(host, true, if KeepaliveArmed(interval) then Ping(false, 0) else NoPing)
  }

  function StopOnce(ping: Ping): Ping {
    if ping.Ping? && !ping.onceDone then Ping(true, ping.closures + 1) else ping
  }

  /** One step of one call. */
  function Advanced(s: State, t: nat, pc: Pc, choice: Choice): State {
    match pc
    case ReadConfig(host) =>
      At(s, t, if host in s.configs then CheckActive(host, s.configs[host]) else Returned(false))
    case CheckActive(host, interval) =>
      At(s, t, if IsActive(s, host) then Returned(true) else Dial(host, interval))
    case Dial(host, interval) =>
      if choice.Opens? && choice.client !in s.clients then
        At(s.(clients := s.clients[choice.client := false]), t, Publish(host, interval, choice.client))
      else At(s, t, Returned(false))
    case Publish(host, interval, client) =>
      if IsActive(s, host) then At(s.(clients := s.clients[client := true]), t, Returned(true))
      else
        At(s.(conns := s.conns[client := NewConn(host, interval)], table := s.table[host := client]), t, Returned(true))
    case Remove(host) =>
      if host in s.table then At(s.(table := s.table - {host}), t, StopPing(s.table[host], Return))
      else At(s, t, Returned(false))
    case LookUp(host) => At(s, t, if IsActive(s, host) then Run(host, s.table[host]) else Returned(false))
    case Run(host, client) => At(s, t, if choice.TimesOut? then StopPing(client, ForgetIt(host)) else Returned(true))
    case StopPing(client, next) =>
      if client !in s.conns then s
      else
        var conn := s.conns[client];
        At(s.(conns := s.conns[client := conn.(ping := StopOnce(conn.ping))]), t, CloseClient(client, next))
    case CloseClient(client, next) =>
      At(s.(clients := s.clients[client := true]), t, ClearActive(client, next))
    case ClearActive(client, next) =>
      if client !in s.conns then s
      else
        At(s.(conns := s.conns[client := s.conns[client].(active := false)]), t,
           match next case Return => Returned(true) case ForgetIt(host) => Forget(host, client))
    case Forget(host, client) =>
      At(if host in s.table && s.table[host] == client then s.(table := s.table - {host}) else s, t, Dropped(client))
    case Returned(_) => s
    case Dropped(_) => s
  }

  function Apply(s: State, e: Event): State {
    match e
    case Configure(configs) => s.(configs := configs)
    case Call(t, pc) => if t !in s.threads && IsEntry(pc) then At(s, t, pc) else s
    case Advance(t, choice) => if t in s.threads then Advanced(s, t, s.threads[t], choice) else s
  }

  /** The state a run ends in. */
  function After(events: seq<Event>): State {
    if events == [] then INITIAL else Apply(After(events[..|events| - 1]), events[|events| - 1])
  }

  // ---------------------------------------------------------------- what holds throughout

  predicate InTable(s: State, c: nat) {
    c in s.conns && s.conns[c].host in s.table && s.table[s.conns[c].host] == c
  }

  predicate Closed(s: State, c: nat) {
    c in s.clients && s.clients[c]
  }

  /** The keepalive, if there is one, has been told to stop. */
  predicate Quiet(conn: Conn) {
    conn.ping.Ping? ==> conn.ping.onceDone
  }

  /** A Connect has opened the client and not yet decided about it. */
  predicate HeldBy(s: State, t: nat, c: nat) {
    t in s.threads && s.threads[t].Publish? && s.threads[t].client == c
  }

  /** A call is about to close the client. */
  predicate ClosingBy(s: State, t: nat, c: nat) {
    t in s.threads && (s.threads[t].StopPing? || s.threads[t].CloseClient?) && s.threads[t].client == c
  }

  /** A call will take the client's entry out of the table. */
  predicate ForgottenBy(s: State, t: nat, c: nat) {
    t in s.threads && c in s.conns &&
    match s.threads[t]
    case StopPing(client, next) => client == c && next == ForgetIt(s.conns[c].host)
    case CloseClient(client, next) => client == c && next == ForgetIt(s.conns[c].host)
    case ClearActive(client, next) => client == c && next == ForgetIt(s.conns[c].host)
    case Forget(host, client) => client == c && host == s.conns[c].host
    case _ => false
  }

  predicate NextOk(s: State, c: nat, next: Then) {
    c in s.conns &&
    match next
    case Return => !InTable(s, c)
    case ForgetIt(host) => s.conns[c].host == host
  }

  predicate PcOk(s: State, pc: Pc) {
    match pc
    case Publish(_, _, c) => c in s.clients && !s.clients[c] && c !in s.conns
    case Run(host, c) => c in s.conns && s.conns[c].host == host
    case StopPing(c, next) => NextOk(s, c, next)
    case CloseClient(c, next) => NextOk(s, c, next) && Quiet(s.conns[c])
    case ClearActive(c, next) => NextOk(s, c, next) && Quiet(s.conns[c]) && Closed(s, c)
    case Forget(host, c) => c in s.conns && s.conns[c].host == host && Closed(s, c) && !s.conns[c].active
    case Dropped(c) => c in s.conns && Closed(s, c) && !InTable(s, c)
    case _ => true
  }

  /** The stop channel is closed once at most, before the client; the flag is cleared last. */
  predicate ConnOk(s: State, c: nat)
    requires c in s.conns
  {
    var conn := s.conns[c];
    && c in s.clients
    && (conn.ping.Ping? ==> conn.ping.closures == if conn.ping.onceDone then 1 else 0)
    && (Closed(s, c) ==> Quiet(conn))
    && (!conn.active ==> Closed(s, c))
  }

  ghost predicate TableOk(s: State) {
    forall h | h in s.table :: InTable(s, s.table[h]) && s.conns[s.table[h]].host == h
  }

  ghost predicate ConnsOk(s: State) {
    forall c | c in s.conns :: ConnOk(s, c)
  }

  ghost predicate ThreadsOk(s: State) {
    forall t | t in s.threads :: PcOk(s, s.threads[t])
  }

  ghost predicate HoldersDiffer(s: State) {
    forall t, u, c | HeldBy(s, t, c) && HeldBy(s, u, c) :: t == u
  }

  /** A client that is neither closed nor a connection is held by a Connect. */
  ghost predicate NoneLost(s: State) {
    forall c | c in s.clients && !s.clients[c] && c !in s.conns :: exists t :: HeldBy(s, t, c)
  }

  /** A connection taken out of the table with its client open is being closed. */
  ghost predicate RemovedAreClosing(s: State) {
    forall c | c in s.conns && !Closed(s, c) && !InTable(s, c) :: exists t :: ClosingBy(s, t, c)
  }

  /** The closing of the connection has begun. */
  predicate Wounded(s: State, c: nat) {
    c in s.conns && (Closed(s, c) || !s.conns[c].active || (s.conns[c].ping.Ping? && s.conns[c].ping.onceDone))
  }

  /** An entry whose connection is being closed is about to be forgotten. */
  ghost predicate WoundedAreForgotten(s: State) {
    forall c | InTable(s, c) && Wounded(s, c) :: exists t :: ForgottenBy(s, t, c)
  }

  ghost predicate InOrder(s: State) {
    TableOk(s) && ConnsOk(s) && ThreadsOk(s)
  }

  ghost predicate Inv(s: State) {
    InOrder(s) && HoldersDiffer(s) && NoneLost(s) && RemovedAreClosing(s) && WoundedAreForgotten(s)
  }

  // ---------------------------------------------------------------- every step keeps it

  /** What never goes back: connections and closed clients stay, a stopped keepalive stays stopped,
      and a connection that has left the table does not return. */
  ghost predicate Onward(s: State, s': State) {
    && (forall c | c in s.clients :: c in s'.clients && (s.clients[c] ==> s'.clients[c]))
    && (forall c | c in s.conns ::
          && c in s'.conns && s'.conns[c].host == s.conns[c].host
          && (Quiet(s.conns[c]) ==> Quiet(s'.conns[c]))
          && (s'.conns[c].active ==> s.conns[c].active)
          && (InTable(s', c) ==> InTable(s, c)))
  }

  lemma PcStaysOk(s: State, s': State, pc: Pc)
    requires PcOk(s, pc) && Onward(s, s')
    requires pc.Publish? ==> !Closed(s', pc.client) && pc.client !in s'.conns
    ensures PcOk(s', pc)
  {
  }

  /** Thread `t` has stepped: the other calls stand where they stood, and every debt is either owed
      by `t` now or was owed by another call before. */
  ghost predicate Settles(s: State, s': State, t: nat) {
    && t in s'.threads && (forall u | u != t :: u in s'.threads <==> u in s.threads)
    && (forall u | u in s.threads && u != t :: s'.threads[u] == s.threads[u])
    && (forall d :: HeldBy(s', t, d) ==> HeldBy(s, t, d) || d !in s.clients)
    && (forall d | d in s'.clients && !s'.clients[d] && d !in s'.conns ::
          HeldBy(s', t, d) || (d in s.clients && !s.clients[d] && d !in s.conns && !HeldBy(s, t, d)))
    && (forall d | d in s'.conns && !Closed(s', d) && !InTable(s', d) ::
          ClosingBy(s', t, d) || (d in s.conns && !Closed(s, d) && !InTable(s, d) && !ClosingBy(s, t, d)))
    && (forall d | InTable(s', d) && Wounded(s', d) ::
          ForgottenBy(s', t, d) || (InTable(s, d) && Wounded(s, d) && !ForgottenBy(s, t, d)))
  }

  lemma DebtsArePaid(s: State, s': State, t: nat)
    requires Inv(s) && Settles(s, s', t) && Onward(s, s')
    ensures HoldersDiffer(s') && NoneLost(s') && RemovedAreClosing(s') && WoundedAreForgotten(s')
  {
    forall u, v, c | HeldBy(s', u, c) && HeldBy(s', v, c) ensures u == v {
      assert u != t ==> HeldBy(s, u, c) && PcOk(s, s.threads[u]);
      assert v != t ==> HeldBy(s, v, c) && PcOk(s, s.threads[v]);
    }
    forall d | d in s'.clients && !s'.clients[d] && d !in s'.conns ensures exists u :: HeldBy(s', u, d) {
      if !HeldBy(s', t, d) {
        var u :| HeldBy(s, u, d);
        assert HeldBy(s', u, d);
      }
    }
    forall d | d in s'.conns && !Closed(s', d) && !InTable(s', d) ensures exists u :: ClosingBy(s', u, d) {
      if !ClosingBy(s', t, d) {
        var u :| ClosingBy(s, u, d);
        assert ClosingBy(s', u, d);
      }
    }
    forall d | InTable(s', d) && Wounded(s', d) ensures exists u :: ForgottenBy(s', u, d) {
      if !ForgottenBy(s', t, d) {
        var u :| ForgottenBy(s, u, d);
        assert ForgottenBy(s', u, d);
      }
    }
  }

  /** A step of thread `t` keeps the invariant when it settles its debts, leaves every connection in
      order, and does not take the client of a Connect away from it. */
  lemma SettledStepKeeps(s: State, s': State, t: nat)
    requires Inv(s) && Onward(s, s') && Settles(s, s', t)
    requires TableOk(s') && ConnsOk(s') && PcOk(s', s'.threads[t])
    requires forall u, d | u != t && HeldBy(s, u, d) :: !Closed(s', d) && d !in s'.conns
    ensures Inv(s')
  {
    DebtsArePaid(s, s', t);
    forall u | u in s'.threads ensures PcOk(s', s'.threads[u]) {
      if u != t {
        assert PcOk(s, s.threads[u]);
        assert s.threads[u].Publish? ==> HeldBy(s, u, s.threads[u].client);
        PcStaysOk(s, s', s.threads[u]);
      }
    }
  }

  /** A step that makes no connection and closes no client a Connect holds takes nothing away. */
  lemma TakesNothing(s: State, s': State)
    requires Inv(s) && s'.conns.Keys == s.conns.Keys
    requires forall d | Closed(s', d) && !Closed(s, d) :: d in s.conns
    ensures forall u, d | HeldBy(s, u, d) :: !Closed(s', d) && d !in s'.conns
  {
    forall u, d | HeldBy(s, u, d) ensures !Closed(s', d) && d !in s'.conns {
      assert PcOk(s, s.threads[u]);
    }
  }

  /** A step to a place that owes nothing, from one that owed nothing. */
  lemma MoveKeeps(s: State, t: nat, pc: Pc)
    requires Inv(s) && PcOk(s, pc) && !pc.Publish?
    requires t in s.threads ==>
               forall c :: !HeldBy(s, t, c) && !ClosingBy(s, t, c) && !ForgottenBy(s, t, c)
    ensures Inv(At(s, t, pc))
  {
    var s' := At(s, t, pc);
    assert forall c | c in s'.conns :: ConnOk(s, c);
    TakesNothing(s, s');
    SettledStepKeeps(s, s', t);
  }

  /** Opening a client: it is held from now on. */
  lemma DialSettles(s: State, s': State, t: nat, c: nat, pc: Pc)
    requires InOrder(s) && t in s.threads && s.threads[t].Dial? && c !in s.clients
    requires pc.Publish? && pc.client == c
    requires s' == s.(clients := s.clients[c := false], threads := s.threads[t := pc])
    ensures Settles(s, s', t)
  {
    assert HeldBy(s', t, c);
    assert forall d | d in s.conns :: ConnOk(s, d);
  }

  lemma DialKeepsOrder(s: State, s': State, t: nat, c: nat, pc: Pc)
    requires InOrder(s) && t in s.threads && c !in s.clients
    requires pc.Publish? && pc.client == c
    requires s' == s.(clients := s.clients[c := false], threads := s.threads[t := pc])
    ensures Onward(s, s') && TableOk(s') && ConnsOk(s') && PcOk(s', pc)
  {
    assert c in s.conns ==> ConnOk(s, c);
    assert forall d | d in s.conns :: ConnOk(s, d);
  }

  lemma DialKeeps(s: State, t: nat, c: nat)
    requires Inv(s) && t in s.threads && s.threads[t].Dial? && c !in s.clients
    ensures Inv(Advanced(s, t, s.threads[t], Opens(c)))
  {
    var s' := Advanced(s, t, s.threads[t], Opens(c));
    DialSettles(s, s', t, c, s'.threads[t]);
    DialKeepsOrder(s, s', t, c, s'.threads[t]);
    TakesNothing(s, s');
    SettledStepKeeps(s, s', t);
  }

  /** Losing the race: the client is closed and nothing else changes. */
  lemma DiscardSettles(s: State, s': State, t: nat, c: nat)
    requires InOrder(s) && HeldBy(s, t, c)
    requires s' == s.(clients := s.clients[c := true], threads := s.threads[t := Returned(true)])
    ensures Settles(s, s', t) && Onward(s, s')
  {
    assert PcOk(s, s.threads[t]);
  }

  lemma DiscardKeepsOrder(s: State, s': State, t: nat, c: nat)
    requires InOrder(s) && HeldBy(s, t, c)
    requires s' == s.(clients := s.clients[c := true], threads := s.threads[t := Returned(true)])
    ensures TableOk(s') && ConnsOk(s')
  {
    assert PcOk(s, s.threads[t]);
    assert forall d | d in s.conns :: ConnOk(s, d);
  }

  /** Winning it: the connection enters the table, and an entry that is overwritten is dead. */
  lemma WinSettles(s: State, s': State, t: nat, c: nat, h: string, conn: Conn)
    requires InOrder(s) && HeldBy(s, t, c) && !IsActive(s, h)
    requires conn.host == h && conn.active && (conn.ping.Ping? ==> !conn.ping.onceDone)
    requires s' == s.(conns := s.conns[c := conn], table := s.table[h := c], threads := s.threads[t := Returned(true)])
    ensures Settles(s, s', t)
  {
    assert PcOk(s, s.threads[t]);
    assert h in s.table ==> ConnOk(s, s.table[h]) && Closed(s, s.table[h]);
    assert InTable(s', c) && !Wounded(s', c);
    forall d | d in s.conns ensures InTable(s', d) <==> InTable(s, d) && s.conns[d].host != h {
      assert d != c;
    }
  }

  lemma WinKeepsOrder(s: State, s': State, t: nat, c: nat, h: string, conn: Conn)
    requires InOrder(s) && HeldBy(s, t, c)
    requires conn.host == h && conn.active && (conn.ping.Ping? ==> conn.ping == Ping(false, 0))
    requires s' == s.(conns := s.conns[c := conn], table := s.table[h := c], threads := s.threads[t := Returned(true)])
    ensures Onward(s, s') && TableOk(s') && ConnsOk(s')
  {
    assert PcOk(s, s.threads[t]);
    assert forall d | d in s.conns :: ConnOk(s, d);
  }

  lemma PublishKeeps(s: State, t: nat)
    requires Inv(s) && t in s.threads && s.threads[t].Publish?
    ensures Inv(Advanced(s, t, s.threads[t], Plain))
  {
    var pc := s.threads[t];
    var s' := Advanced(s, t, pc, Plain);
    assert PcOk(s, pc) && HeldBy(s, t, pc.client);
    if IsActive(s, pc.host) {
      DiscardSettles(s, s', t, pc.client);
      DiscardKeepsOrder(s, s', t, pc.client);
    } else {
      WinSettles(s, s', t, pc.client, pc.host, NewConn(pc.host, pc.interval));
      WinKeepsOrder(s, s', t, pc.client, pc.host, NewConn(pc.host, pc.interval));
    }
    forall u, d | u != t && HeldBy(s, u, d) ensures !Closed(s', d) && d !in s'.conns {
      assert PcOk(s, s.threads[u]);
    }
    SettledStepKeeps(s, s', t);
  }

  /** An entry leaves the table, and what follows is what closes or has closed its connection. */
  lemma UnlistSettles(s: State, s': State, t: nat, h: string, pc: Pc)
    requires InOrder(s) && t in s.threads && h in s.table
    requires (s.threads[t] == Remove(h) && pc == StopPing(s.table[h], Return))
             || (s.threads[t] == Forget(h, s.table[h]) && pc == Dropped(s.table[h]))
    requires s' == s.(table := s.table - {h}, threads := s.threads[t := pc])
    ensures Settles(s, s', t)
  {
    assert PcOk(s, s.threads[t]);
    assert forall d | d in s.conns :: InTable(s', d) <==> InTable(s, d) && d != s.table[h];
    assert pc.StopPing? ==> ClosingBy(s', t, s.table[h]);
  }

  lemma UnlistKeepsOrder(s: State, s': State, h: string, threads: map<nat, Pc>)
    requires InOrder(s) && h in s.table
    requires s' == s.(table := s.table - {h}, threads := threads)
    ensures Onward(s, s') && TableOk(s') && ConnsOk(s') && !InTable(s', s.table[h]) && s.table[h] in s.conns
  {
    assert forall d | d in s.conns :: ConnOk(s, d);
  }

  lemma RemoveKeeps(s: State, t: nat)
    requires Inv(s) && t in s.threads && s.threads[t].Remove? && s.threads[t].host in s.table
    ensures Inv(Advanced(s, t, s.threads[t], Plain))
  {
    var h, s' := s.threads[t].host, Advanced(s, t, s.threads[t], Plain);
    UnlistSettles(s, s', t, h, s'.threads[t]);
    UnlistKeepsOrder(s, s', h, s'.threads);
    TakesNothing(s, s');
    SettledStepKeeps(s, s', t);
  }

  lemma ForgetKeeps(s: State, t: nat)
    requires Inv(s) && t in s.threads && s.threads[t].Forget?
    ensures Inv(Advanced(s, t, s.threads[t], Plain))
  {
    var pc := s.threads[t];
    var h, s' := pc.host, Advanced(s, t, pc, Plain);
    assert PcOk(s, pc);
    if h in s.table && s.table[h] == pc.client {
      UnlistSettles(s, s', t, h, s'.threads[t]);
      UnlistKeepsOrder(s, s', h, s'.threads);
      TakesNothing(s, s');
      SettledStepKeeps(s, s', t);
    } else {
      assert !InTable(s, pc.client);
      LateForgetSettles(s, s', t, pc.client);
      TakesNothing(s, s');
      SettledStepKeeps(s, s', t);
    }
  }

  /** The entry is somebody else's by now: nothing happens. */
  lemma LateForgetSettles(s: State, s': State, t: nat, c: nat)
    requires InOrder(s) && t in s.threads && s.threads[t].Forget? && s.threads[t].client == c && !InTable(s, c)
    requires s' == s.(threads := s.threads[t := Dropped(c)])
    ensures Settles(s, s', t) && Onward(s, s') && TableOk(s') && ConnsOk(s') && PcOk(s', Dropped(c))
  {
    assert PcOk(s, s.threads[t]);
    assert forall d | d in s.conns :: ConnOk(s, d);
  }

  /** A statement of close: the table stays, and only this connection and its client change. */
  ghost predicate OneCloseStep(s: State, s': State, t: nat, c: nat) {
    && t in s.threads && t in s'.threads && c in s.conns && c in s'.conns
    && s'.table == s.table && s'.threads == s.threads[t := s'.threads[t]]
    && s'.conns == s.conns[c := s'.conns[c]] && s'.conns[c].host == s.conns[c].host
    && s'.clients == s.clients[c := Closed(s', c)]
    && (Closed(s, c) ==> Closed(s', c)) && (Quiet(s.conns[c]) ==> Quiet(s'.conns[c]))
    && (s'.conns[c].active ==> s.conns[c].active)
  }

  lemma CloseTouchesOne(s: State, s': State, t: nat, c: nat)
    requires OneCloseStep(s, s', t, c) && c in s.clients
    ensures Onward(s, s') && s'.conns.Keys == s.conns.Keys && s'.clients.Keys == s.clients.Keys
    ensures forall d :: InTable(s', d) == InTable(s, d)
    ensures forall d | d != c :: Closed(s', d) == Closed(s, d) && Wounded(s', d) == Wounded(s, d)
  {
  }

  lemma CloseSettles(s: State, s': State, t: nat, c: nat)
    requires OneCloseStep(s, s', t, c) && c in s.clients
    requires forall d :: !HeldBy(s, t, d) && !HeldBy(s', t, d)
    requires forall d | d != c :: !ClosingBy(s, t, d) && !ForgottenBy(s, t, d)
    requires Closed(s', c) || InTable(s, c) || ClosingBy(s', t, c)
    requires InTable(s, c) ==> ForgottenBy(s', t, c)
    ensures Settles(s, s', t) && Onward(s, s')
  {
    CloseTouchesOne(s, s', t, c);
  }

  lemma CloseKeepsOrder(s: State, s': State, t: nat, c: nat)
    requires InOrder(s) && OneCloseStep(s, s', t, c) && c in s.clients
    requires ConnOk(s', c)
    ensures TableOk(s') && ConnsOk(s')
  {
    assert forall d | d in s.conns :: ConnOk(s, d) && (InTable(s', d) <==> InTable(s, d));
  }

  lemma CloseStepKeeps(s: State, s': State, t: nat, c: nat)
    requires Inv(s) && OneCloseStep(s, s', t, c) && ConnOk(s, c) && ConnOk(s', c) && PcOk(s', s'.threads[t])
    requires forall d :: !HeldBy(s, t, d) && !HeldBy(s', t, d)
    requires forall d | d != c :: !ClosingBy(s, t, d) && !ForgottenBy(s, t, d)
    requires Closed(s', c) || InTable(s, c) || ClosingBy(s', t, c)
    requires InTable(s, c) ==> ForgottenBy(s', t, c)
    ensures Inv(s')
  {
    CloseTouchesOne(s, s', t, c);
    CloseSettles(s, s', t, c);
    CloseKeepsOrder(s, s', t, c);
    TakesNothing(s, s');
    SettledStepKeeps(s, s', t);
  }

  /** The three statements of close. */
  lemma StopPingKeeps(s: State, t: nat)
    requires Inv(s) && t in s.threads && s.threads[t].StopPing?
    ensures Inv(Advanced(s, t, s.threads[t], Plain))
  {
    var c, s' := s.threads[t].client, Advanced(s, t, s.threads[t], Plain);
    assert PcOk(s, s.threads[t]) && ConnOk(s, c);
    CloseStepKeeps(s, s', t, c);
  }

  lemma CloseClientKeeps(s: State, t: nat)
    requires Inv(s) && t in s.threads && s.threads[t].CloseClient?
    ensures Inv(Advanced(s, t, s.threads[t], Plain))
  {
    var c, s' := s.threads[t].client, Advanced(s, t, s.threads[t], Plain);
    assert PcOk(s, s.threads[t]) && ConnOk(s, c);
    CloseStepKeeps(s, s', t, c);
  }

  lemma ClearActiveKeeps(s: State, t: nat)
    requires Inv(s) && t in s.threads && s.threads[t].ClearActive?
    ensures Inv(Advanced(s, t, s.threads[t], Plain))
  {
    var c, s' := s.threads[t].client, Advanced(s, t, s.threads[t], Plain);
    assert PcOk(s, s.threads[t]) && ConnOk(s, c);
    CloseStepKeeps(s, s', t, c);
  }

  lemma ConfigureKeeps(s: State, configs: map<string, int>)
    requires Inv(s)
    ensures Inv(s.(configs := configs))
  {
    // A call that has returned steps without moving.
    var s' := s.(configs := configs);
    assert forall c | c in s.conns :: ConnOk(s, c);
    assert forall t | t in s.threads :: PcOk(s, s.threads[t]) && PcOk(s', s.threads[t]);
    assert forall t, c :: HeldBy(s', t, c) == HeldBy(s, t, c);
    assert forall t, c :: ClosingBy(s', t, c) == ClosingBy(s, t, c);
    assert forall t, c :: ForgottenBy(s', t, c) == ForgottenBy(s, t, c);
    assert forall c :: InTable(s', c) == InTable(s, c) && Closed(s', c) == Closed(s, c) && Wounded(s', c) == Wounded(s, c);
  }

  lemma AdvanceKeeps(s: State, t: nat, choice: Choice)
    requires Inv(s) && t in s.threads
    ensures Inv(Advanced(s, t, s.threads[t], choice))
  {
    var pc := s.threads[t];
    assert PcOk(s, pc);
    match pc {
      case ReadConfig(_) => MoveKeeps(s, t, Advanced(s, t, pc, choice).threads[t]);
      case CheckActive(_, _) => MoveKeeps(s, t, Advanced(s, t, pc, choice).threads[t]);
      case Dial(_, _) =>
        if choice.Opens? && choice.client !in s.clients {
          DialKeeps(s, t, choice.client);
        } else {
          MoveKeeps(s, t, Returned(false));
        }
      case Publish(_, _, _) => PublishKeeps(s, t);
      case Remove(host) =>
        if host in s.table {
          RemoveKeeps(s, t);
        } else {
          MoveKeeps(s, t, Returned(false));
        }
      case LookUp(_) => MoveKeeps(s, t, Advanced(s, t, pc, choice).threads[t]);
      case Run(_, _) => RunKeeps(s, t, choice);
      case StopPing(_, _) => StopPingKeeps(s, t);
      case CloseClient(_, _) => CloseClientKeeps(s, t);
      case ClearActive(_, _) => ClearActiveKeeps(s, t);
      case Forget(_, _) => ForgetKeeps(s, t);
      case Returned(_) =>
      case Dropped(_) =>
    }
  }

  lemma RunKeeps(s: State, t: nat, choice: Choice)
    requires Inv(s) && t in s.threads && s.threads[t].Run?
    ensures Inv(Advanced(s, t, s.threads[t], choice))
  {
    assert PcOk(s, s.threads[t]);
    MoveKeeps(s, t, Advanced(s, t, s.threads[t], choice).threads[t]);
  }

  lemma StepKeeps(s: State, e: Event)
    requires Inv(s)
    ensures Inv(Apply(s, e))
  {
    match e {
      case Configure(configs) => ConfigureKeeps(s, configs);
      case Call(t, pc) =>
        if t !in s.threads && IsEntry(pc) {
          MoveKeeps(s, t, pc);
        }
      case Advance(t, choice) =>
        if t in s.threads {
          AdvanceKeeps(s, t, choice);
        }
    }
  }

  lemma {:induction false} RunsKeep(events: seq<Event>)
    ensures Inv(After(events))
  {
    if events != [] {
      RunsKeep(events[..|events| - 1]);
      StepKeeps(After(events[..|events| - 1]), events[|events| - 1]);
    }
  }

  // ---------------------------------------------------------------- over all runs

  ghost predicate Held(s: State, c: nat) {
    !Closed(s, c) && exists t :: HeldBy(s, t, c)
  }

  ghost predicate Closing(s: State, c: nat) {
    !Closed(s, c) && exists t :: ClosingBy(s, t, c)
  }

  /** In the table under its own host, usable, and nobody is closing it. */
  ghost predicate Live(s: State, c: nat) {
    !Closed(s, c) && InTable(s, c) && s.conns[c].active && !exists t :: ClosingBy(s, t, c)
  }

  /** In every interleaving, every client ever opened is live, held by one Connect, about to be
      closed, or closed: never two of these and never none. */
  lemma EveryClientAccountedFor(events: seq<Event>, c: nat)
    requires c in After(events).clients
    ensures var s := After(events);
            && (Live(s, c) || Held(s, c) || Closing(s, c) || Closed(s, c))
            && !(Live(s, c) && Held(s, c)) && !(Live(s, c) && Closing(s, c)) && !(Held(s, c) && Closing(s, c))
            && (Closed(s, c) ==> !Live(s, c) && !Held(s, c) && !Closing(s, c))
            && (forall t, u | HeldBy(s, t, c) && HeldBy(s, u, c) :: t == u)
  {
    var s := After(events);
    RunsKeep(events);
    assert forall t | t in s.threads :: PcOk(s, s.threads[t]);
    if c in s.conns {
      assert ConnOk(s, c);
    }
  }

  predicate Idle(s: State) {
    forall t | t in s.threads :: s.threads[t].Returned? || s.threads[t].Dropped?
  }

  /** Once no call is in flight nothing has leaked: the clients ever opened are the live entries of
      the table and the closed ones, and every entry is usable. */
  lemma IdleAccounts(events: seq<Event>)
    requires Idle(After(events))
    ensures var s := After(events);
            && (forall c | c in s.clients :: Closed(s, c) != (c in s.table.Values))
            && (forall h | h in s.table ::
                  s.table[h] in s.conns && s.conns[s.table[h]].active && s.conns[s.table[h]].host == h
                  && s.table[h] in s.clients && !s.clients[s.table[h]])
  {
    var s := After(events);
    RunsKeep(events);
    assert forall t, c :: !HeldBy(s, t, c) && !ClosingBy(s, t, c) && !ForgottenBy(s, t, c);
    forall h | h in s.table ensures IsActive(s, h) && !Closed(s, s.table[h]) && s.table[h] in s.clients {
      assert InTable(s, s.table[h]) && ConnOk(s, s.table[h]);
      assert !Wounded(s, s.table[h]);
    }
    forall c | c in s.clients && !Closed(s, c) ensures c in s.table.Values {
      assert c in s.conns && InTable(s, c);
    }
  }

  /** An entry leaves the table only by a Disconnect of its host or after its client has been closed;
      a Connect overwrites only the latter; and a forget takes no entry but that of the connection
      it closed, however late it comes. */
  lemma EntriesLeaveInOrder(events: seq<Event>, e: Event, h: string)
    requires h in After(events).table
    ensures var s, s' := After(events), Apply(After(events), e);
            var c := s.table[h];
            && (h !in s'.table || s'.table[h] != c ==>
                  && e.Advance? && e.thread in s.threads
                  && (Closed(s, c) || s.threads[e.thread] == Remove(h)))
            && (h in s'.table && s'.table[h] != c ==> Closed(s, c) && c in s.conns && !s.conns[c].active)
            && (e.Advance? && e.thread in s.threads && s.threads[e.thread].Forget? && h !in s'.table ==>
                  s.threads[e.thread] == Forget(h, c))
  {
    var s := After(events);
    RunsKeep(events);
    assert InTable(s, s.table[h]) && ConnOk(s, s.table[h]);
    if e.Advance? && e.thread in s.threads {
      assert PcOk(s, s.threads[e.thread]);
    }
  }

  /** A connection an Execute reports as closed is closed and out of the table, then and for ever
      after, whatever else is going on. */
  lemma DroppedIsGone(events: seq<Event>, t: nat)
    requires t in After(events).threads && After(events).threads[t].Dropped?
    ensures var s, c := After(events), After(events).threads[t].client;
            Closed(s, c) && forall h | h in s.table :: s.table[h] != c
  {
    var s := After(events);
    RunsKeep(events);
    assert PcOk(s, s.threads[t]);
  }

  /** However many calls close a connection, its stop channel is closed once at most, always before
      its client; and only a connection that is in the table as it is made ever has one. */
  lemma StopChannelClosedOnce(events: seq<Event>, c: nat)
    requires c in After(events).conns && After(events).conns[c].ping.Ping?
    ensures After(events).conns[c].ping.closures <= 1
    ensures Closed(After(events), c) ==> After(events).conns[c].ping.closures == 1
  {
    RunsKeep(events);
    assert ConnOk(After(events), c);
  }

  /** Every connection, and with it every keepalive, was made by one step: a Connect published its
      client, and the new connection went straight into the table. */
  lemma {:induction false} EveryConnectionWasPublished(events: seq<Event>, c: nat) returns (i: nat)
    requires c in After(events).conns
    ensures i < |events| && events[i].Advance?
    ensures var s, t, s' := After(events[..i]), events[i].thread, After(events[..i + 1]);
            && c !in s.conns && Opened(s, c)
            && t in s.threads && s.threads[t].Publish? && s.threads[t].client == c && !IsActive(s, s.threads[t].host)
            && InTable(s', c) && s'.conns[c] == NewConn(s.threads[t].host, s.threads[t].interval)
  {
    var n := |events| - 1;
    var before, e := After(events[..n]), events[n];
    if c in before.conns {
      i := EveryConnectionWasPublished(events[..n], c);
      assert events[..n][..i] == events[..i] && events[..n][..i + 1] == events[..i + 1];
    } else {
      i := n;
      RunsKeep(events[..n]);
      assert events[..n + 1] == events;
      assert PcOk(before, before.threads[e.thread]);
    }
  }

  /** The client is open. */
  predicate Opened(s: State, c: nat) {
    c in s.clients && !s.clients[c]
  }

  /** A step moves its own thread only. */
  lemma StepMovesOne(s: State, t: nat, choice: Choice)
    requires t in s.threads && PcOk(s, s.threads[t])
    ensures var after := Advanced(s, t, s.threads[t], choice);
            t in after.threads && after.threads == s.threads[t := after.threads[t]]
  {
    var after := Advanced(s, t, s.threads[t], choice);
    match s.threads[t] {
      case ReadConfig(_) =>
      case CheckActive(_, _) =>
      case Dial(_, _) =>
      case Publish(_, _, _) =>
      case Remove(_) =>
      case LookUp(_) =>
      case Run(_, _) =>
      case StopPing(_, _) =>
      case CloseClient(_, _) =>
      case ClearActive(_, _) =>
      case Forget(_, _) =>
      case Returned(_) => assert after == s && s.threads == s.threads[t := s.threads[t]];
      case Dropped(_) => assert after == s && s.threads == s.threads[t := s.threads[t]];
    }
  }

  /** What one connection goes through in a step. */
  lemma ConnOnward(s: State, e: Event, c: nat)
    requires c in s.conns && (e.Advance? && e.thread in s.threads ==> PcOk(s, s.threads[e.thread]))
    ensures var s' := Apply(s, e);
            && c in s'.conns && s'.conns[c].host == s.conns[c].host
            && (Closed(s, c) ==> Closed(s', c)) && (s'.conns[c].active ==> s.conns[c].active)
            && (InTable(s', c) ==> InTable(s, c))
  {
    if e.Advance? && e.thread in s.threads {
      match s.threads[e.thread] {
        case ReadConfig(_) =>
        case CheckActive(_, _) =>
        case Dial(_, _) =>
        case Publish(_, _, _) =>
        case Remove(_) =>
        case LookUp(_) =>
        case Run(_, _) =>
        case StopPing(_, _) =>
        case CloseClient(_, _) =>
        case ClearActive(_, _) =>
        case Forget(_, _) =>
        case Returned(_) =>
        case Dropped(_) =>
      }
    }
  }

  /** The thread of another call stays where it is. */
  lemma OthersStay(s: State, e: Event, t: nat)
    requires t in s.threads && !(e.Advance? && e.thread == t)
    requires e.Advance? && e.thread in s.threads ==> PcOk(s, s.threads[e.thread])
    ensures t in Apply(s, e).threads && Apply(s, e).threads[t] == s.threads[t]
  {
    if e.Advance? && e.thread in s.threads {
      StepMovesOne(s, e.thread, e.choice);
    }
  }

  // ---------------------------------------------------------------- as the session manager sees it

  /** The hosts the connection manager reports as connected. */
  function ActiveHosts(s: State): set<string> {
    set h | h in s.table && IsActive(s, h)
  }

  lemma ActiveButFor(s: State, s': State, host: string)
    requires forall h | h != host :: IsActive(s', h) == IsActive(s, h)
    ensures ActiveHosts(s') == if IsActive(s', host) then ActiveHosts(s) + {host} else ActiveHosts(s) - {host}
    ensures IsActive(s', host) == IsActive(s, host) ==> ActiveHosts(s') == ActiveHosts(s)
  {
  }

  lemma ClearActiveTakes(s: State, c: nat, threads: map<nat, Pc>)
    requires TableOk(s) && c in s.conns
    ensures var s' := s.(conns := s.conns[c := s.conns[c].(active := false)], threads := threads);
            var before, after := ActiveHosts(s), ActiveHosts(s');
            after == if InTable(s, c) then before - {s.conns[c].host} else before
  {
    var s' := s.(conns := s.conns[c := s.conns[c].(active := false)], threads := threads);
    var host := s.conns[c].host;
    forall h | h != host ensures IsActive(s', h) == IsActive(s, h) {
      assert h in s.table ==> InTable(s, s.table[h]) && s.conns[s.table[h]].host == h;
    }
    ActiveButFor(s, s', host);
  }

  lemma PublishAdds(s: State, t: nat, choice: Choice)
    requires TableOk(s) && t in s.threads && s.threads[t].Publish? && PcOk(s, s.threads[t])
    ensures ActiveHosts(Advanced(s, t, s.threads[t], choice)) == ActiveHosts(s) + {s.threads[t].host}
  {
    var host, s' := s.threads[t].host, Advanced(s, t, s.threads[t], choice);
    forall h | h != host ensures IsActive(s', h) == IsActive(s, h) {
      assert h in s.table ==> InTable(s, s.table[h]);
    }
    ActiveButFor(s, s', host);
  }

  /** Of all steps, only that of Publish adds an active host, its own; that of Disconnect takes its own
      away, and the end of close in an Execute at most the host it ran on. */
  lemma ActiveHostsStep(s: State, t: nat, choice: Choice)
    requires TableOk(s) && t in s.threads && PcOk(s, s.threads[t])
    ensures var pc, before, after := s.threads[t], ActiveHosts(s), ActiveHosts(Advanced(s, t, s.threads[t], choice));
            match pc
            case Publish(host, _, _) => after == before + {host}
            case Remove(host) => after == before - {host}
            case ClearActive(_, ForgetIt(host)) => after == before || after == before - {host}
            case _ => after == before
  {
    var s' := Advanced(s, t, s.threads[t], choice);
    match s.threads[t] {
      case Publish(_, _, _) => PublishAdds(s, t, choice);
      case ClearActive(c, _) => ClearActiveTakes(s, c, s'.threads);
      case Remove(host) => ActiveButFor(s, s', host);
      case Forget(host, _) => ActiveButFor(s, s', host);
      case _ => ActiveButFor(s, s', "");
    }
  }
}
