/** Session calls over the connection manager with all its inner steps: the two state machines run
    together, and the session sees of the manager only which hosts are active. */
module WholeSystem {
  import opened Text
  import S = SessionInterleaving
  import M = Interleaving

  /** `calls` are the session calls; one that is inside the connection manager has the thread of the
      same number there. */
  datatype State = State(activeHost: string, holder: Option<nat>, calls: map<nat, S.Pc>, manager: M.State)

  datatype Event =
    | Configure(configs: map<string, int>)
    | Call(thread: nat, pc: S.Pc)
    | Inside(thread: nat, choice: M.Choice)   // a step in the connection manager
    | Step(thread: nat)                       // a step of the session manager

  const INITIAL := State("", None, map[], M.INITIAL)

  /** The call of the connection manager a session call is about to make. */
  function Entry(pc: S.Pc): Option<M.Pc> {
    match pc
    case Open(host) => Some(M.ReadConfig(host))
    case Close(host) => Some(M.Remove(host))
    case Drop(host) => Some(M.LookUp(host))
    case _ => None
  }

  predicate Over(inner: M.Pc) {
    inner.Returned? || inner.Dropped?
  }

  function Inner(w: State, t: nat): M.Pc {
    if t in w.manager.threads then w.manager.threads[t] else M.Returned(false)
  }

  /** Where a session call stands when the step that matters to the session has been made inside. */
  function Stands(pc: S.Pc, inner: M.Pc): S.Pc {
    match pc
    case Open(host) => if inner.Returned? then (if inner.ok then S.Name(host) else S.Returned) else pc
    case Close(host) => if inner.Remove? then pc else S.Enter(host, false)
    case Drop(_) => if Over(inner) then S.Returned else pc
    case _ => pc
  }

  /** The whole as the session sees it. */
  function Seen(w: State): S.State {
    S.State(w.activeHost, M.ActiveHosts(w.manager), w.holder, map t | t in w.calls :: Stands(w.calls[t], Inner(w, t)))
  }

  ghost function Stepped(w: State, t: nat): State
    requires t in w.calls
  {
    var pc := w.calls[t];
    if Entry(pc).Some? then
      if Over(Inner(w, t)) then w.(calls := w.calls[t := Stands(pc, Inner(w, t))]) else w
    else
      var s := S.Advanced(Seen(w), t, pc, true);
      w.(activeHost := s.activeHost, holder := s.holder, calls := w.calls[t := s.threads[t]])
  }

  ghost function Apply(w: State, e: Event): State {
    match e
    case Configure(configs) => w.(manager := M.Apply(w.manager, M.Configure(configs)))
    case Call(t, pc) =>
      if t in w.calls || !S.IsEntry(pc) then w
      else
        w.(calls := w.calls[t := pc],
           manager := if Entry(pc).Some? then M.Apply(w.manager, M.Call(t, Entry(pc).value)) else w.manager)
    case Inside(t, choice) => w.(manager := M.Apply(w.manager, M.Advance(t, choice)))
    case Step(t) => if t in w.calls then Stepped(w, t) else w
  }

  ghost function After(events: seq<Event>): State {
    if events == [] then INITIAL else Apply(After(events[..|events| - 1]), events[|events| - 1])
  }

  // ---------------------------------------------------------------- the two go together

  /** The thread inside is at a place of the call the session has made. */
  predicate Suits(pc: S.Pc, inner: M.Pc) {
    match pc
    case Open(host) =>
      inner.Returned? || ((inner.ReadConfig? || inner.CheckActive? || inner.Dial? || inner.Publish?) && inner.host == host)
    case Close(host) =>
      || inner.Returned? || inner == M.Remove(host)
      || ((inner.StopPing? || inner.CloseClient? || inner.ClearActive?) && inner.next == M.Return)
    case Drop(host) =>
      || Over(inner) || ((inner.LookUp? || inner.Run? || inner.Forget?) && inner.host == host)
      || ((inner.StopPing? || inner.CloseClient? || inner.ClearActive?) && inner.next == M.ForgetIt(host))
    case _ => Over(inner)
  }

  ghost predicate Fits(w: State) {
    && (forall t | t in w.manager.threads :: t in w.calls)
    && (forall t | t in w.calls :: Suits(w.calls[t], Inner(w, t)) && (Entry(w.calls[t]).Some? ==> t in w.manager.threads))
  }

  /** What a step inside comes to for the session: the end of a Connect, whose host is active if it has
      succeeded; a Disconnect taking its host away, with close still to come; an Execute taking its
      host away, or its end. */
  predicate Echoed(was: S.Pc, now: S.Pc, live: set<string>, live': set<string>) {
    || (was.Open? && now == S.Name(was.host) && live' == live + {was.host})
    || (was.Open? && now == S.Returned && live' == live)
    || (was.Close? && now == S.Enter(was.host, false) && live' == live - {was.host})
    || (was.Drop? && now == was && live' == live - {was.host})
    || (was.Drop? && now == S.Returned && live' == live)
  }

  /** Thread `t` of session call `pc` stays within its kind, and the session sees nothing or an echo. */
  predicate SeenInside(pc: S.Pc, m: M.State, m': M.State, t: nat)
    requires t in m.threads
  {
    t in m'.threads && Suits(pc, m'.threads[t]) &&
    var was, now := Stands(pc, m.threads[t]), Stands(pc, m'.threads[t]);
    (now == was && M.ActiveHosts(m') == M.ActiveHosts(m)) || Echoed(was, now, M.ActiveHosts(m), M.ActiveHosts(m'))
  }

  /** Connect. */
  lemma OpenInside(m: M.State, t: nat, choice: M.Choice, host: string)
    requires M.TableOk(m) && t in m.threads && M.PcOk(m, m.threads[t]) && Suits(S.Open(host), m.threads[t])
    ensures SeenInside(S.Open(host), m, M.Advanced(m, t, m.threads[t], choice), t)
  {
    M.ActiveHostsStep(m, t, choice);
  }

  /** Disconnect. */
  lemma CloseInside(m: M.State, t: nat, choice: M.Choice, host: string)
    requires M.TableOk(m) && t in m.threads && M.PcOk(m, m.threads[t]) && Suits(S.Close(host), m.threads[t])
    ensures SeenInside(S.Close(host), m, M.Advanced(m, t, m.threads[t], choice), t)
  {
    M.ActiveHostsStep(m, t, choice);
  }

  /** Execute. */
  lemma DropInside(m: M.State, t: nat, choice: M.Choice, host: string)
    requires M.TableOk(m) && t in m.threads && M.PcOk(m, m.threads[t]) && Suits(S.Drop(host), m.threads[t])
    ensures SeenInside(S.Drop(host), m, M.Advanced(m, t, m.threads[t], choice), t)
  {
    M.ActiveHostsStep(m, t, choice);
  }

  lemma EveryInside(m: M.State, t: nat, choice: M.Choice, pc: S.Pc)
    requires M.TableOk(m) && t in m.threads && M.PcOk(m, m.threads[t]) && Suits(pc, m.threads[t])
    ensures SeenInside(pc, m, M.Advanced(m, t, m.threads[t], choice), t)
  {
    match pc {
      case Open(host) => OpenInside(m, t, choice, host);
      case Close(host) => CloseInside(m, t, choice, host);
      case Drop(host) => DropInside(m, t, choice, host);
      case _ =>
    }
  }

  /** What the session sees of a step inside: nothing, or one step of its own machine. */
  lemma InsideSimulates(w: State, t: nat, m': M.State) returns (steps: seq<S.Event>)
    requires t in w.calls && t in w.manager.threads && SeenInside(w.calls[t], w.manager, m', t)
    requires m'.threads == w.manager.threads[t := m'.threads[t]]
    ensures var s' := Seen(w.(manager := m'));
            (steps == [] && s' == Seen(w)) || (|steps| == 1 && s' == S.Apply(Seen(w), steps[0]))
  {
    var was, now := Stands(w.calls[t], w.manager.threads[t]), Stands(w.calls[t], m'.threads[t]);
    SeenAfterInside(w, t, m');
    if now == was && M.ActiveHosts(m') == M.ActiveHosts(w.manager) {
      return [];
    }
    Imitates(Seen(w), t, was, now, M.ActiveHosts(m'));
    steps := [S.Advance(t, if was.Open? then now.Name? else now == was)];
  }

  /** The steps by which the session's machine stands in for the manager's. */
  lemma Imitates(s: S.State, t: nat, was: S.Pc, now: S.Pc, live: set<string>)
    requires t in s.threads && s.threads[t] == was && Echoed(was, now, s.live, live)
    ensures S.Apply(s, S.Advance(t, if was.Open? then now.Name? else now == was)) ==
            s.(live := live, threads := s.threads[t := now])
  {
  }

  lemma SeenAfterInside(w: State, t: nat, m': M.State)
    requires t in w.calls && t in w.manager.threads && t in m'.threads
    requires m'.threads == w.manager.threads[t := m'.threads[t]]
    ensures Seen(w.(manager := m')) ==
            Seen(w).(live := M.ActiveHosts(m'), threads := Seen(w).threads[t := Stands(w.calls[t], m'.threads[t])])
    ensures Seen(w).threads[t] == Stands(w.calls[t], w.manager.threads[t])
  {
    assert Seen(w.(manager := m')).threads == Seen(w).threads[t := Stands(w.calls[t], m'.threads[t])];
  }

  /** A step of the session manager: the return from the other one is not seen, the rest is a step of
      the session's own machine. */
  lemma StepSimulates(w: State, t: nat) returns (steps: seq<S.Event>)
    requires Fits(w) && t in w.calls
    ensures var w' := Stepped(w, t);
            && w'.manager == w.manager && w'.calls == w.calls[t := w'.calls[t]] && Suits(w'.calls[t], Inner(w, t))
            && (Entry(w'.calls[t]).Some? ==> t in w.manager.threads)
            && ((steps == [] && Seen(w') == Seen(w)) || (|steps| == 1 && Seen(w') == S.Apply(Seen(w), steps[0])))
  {
    var w', pc, inner := Stepped(w, t), w.calls[t], Inner(w, t);
    assert Suits(pc, inner);
    assert Seen(w).threads[t] == Stands(pc, inner);
    if Entry(pc).Some? {
      assert Seen(w').threads == Seen(w).threads;
      return [];
    }
    OwnStep(Seen(w), t, pc, inner);
    assert Seen(w').threads == S.Advanced(Seen(w), t, pc, true).threads;
    return [S.Advance(t, true)];
  }

  /** Steps outside the connection manager move their own call only, and not into it. */
  lemma OwnStep(s: S.State, t: nat, pc: S.Pc, inner: M.Pc)
    requires t in s.threads && s.threads[t] == pc && Entry(pc).None?
    ensures var s' := S.Advanced(s, t, pc, true);
            && s'.live == s.live && t in s'.threads && s'.threads == s.threads[t := s'.threads[t]]
            && Entry(s'.threads[t]).None? && Stands(s'.threads[t], inner) == s'.threads[t]
  {
  }

  lemma CallFits(w: State, t: nat, pc: S.Pc)
    requires Fits(w) && t !in w.calls && S.IsEntry(pc)
    ensures var w' := Apply(w, Call(t, pc));
            && Fits(w') && Stands(pc, Inner(w', t)) == pc
            && (forall u | u in w.calls :: Inner(w', u) == Inner(w, u))
            && w'.manager.table == w.manager.table && w'.manager.conns == w.manager.conns
  {
    var w' := Apply(w, Call(t, pc));
    assert Suits(pc, Inner(w', t));
    assert forall u | u in w.calls :: Inner(w', u) == Inner(w, u);
  }

  lemma CallSimulates(w: State, t: nat, pc: S.Pc)
    requires Fits(w) && t !in w.calls && S.IsEntry(pc)
    ensures Seen(Apply(w, Call(t, pc))) == S.Apply(Seen(w), S.Call(t, pc))
    ensures Fits(Apply(w, Call(t, pc)))
  {
    CallFits(w, t, pc);
    var w' := Apply(w, Call(t, pc));
    M.ActiveButFor(w.manager, w'.manager, "");
    assert Seen(w').threads == Seen(w).threads[t := pc];
  }

  /** Every step of the whole is a step, or none, of the session's machine and of the manager's. */
  lemma Simulates(w: State, e: Event) returns (outer: seq<S.Event>, inner: seq<M.Event>)
    requires Fits(w) && M.InOrder(w.manager)
    ensures Fits(Apply(w, e))
    ensures (outer == [] && Seen(Apply(w, e)) == Seen(w)) || (|outer| == 1 && Seen(Apply(w, e)) == S.Apply(Seen(w), outer[0]))
    ensures (inner == [] && Apply(w, e).manager == w.manager) || (|inner| == 1 && Apply(w, e).manager == M.Apply(w.manager, inner[0]))
  {
    var w' := Apply(w, e);
    outer, inner := [], [];
    match e {
      case Configure(configs) =>
        inner := [M.Configure(configs)];
        M.ActiveButFor(w.manager, w'.manager, "");
        assert forall t :: Inner(w', t) == Inner(w, t);
        assert Seen(w').threads == Seen(w).threads;
      case Call(t, pc) =>
        if t !in w.calls && S.IsEntry(pc) {
          CallSimulates(w, t, pc);
          outer := [S.Call(t, pc)];
          inner := if Entry(pc).Some? then [M.Call(t, Entry(pc).value)] else [];
        }
      case Inside(t, choice) =>
        if t in w.manager.threads {
          inner := [M.Advance(t, choice)];
          assert M.PcOk(w.manager, w.manager.threads[t]) && Suits(w.calls[t], Inner(w, t));
          M.StepMovesOne(w.manager, t, choice);
          EveryInside(w.manager, t, choice, w.calls[t]);
          outer := InsideSimulates(w, t, w'.manager);
          assert forall u | u != t :: Inner(w', u) == Inner(w, u);
        }
      case Step(t) =>
        if t in w.calls {
          outer := StepSimulates(w, t);
          assert forall u :: Inner(w', u) == Inner(w, u);
        }
    }
  }

  /** The session's machine after its first `i` steps is what is seen of the whole after its first `j`. */
  ghost predicate SameMoment(events: seq<Event>, j: nat, outer: seq<S.Event>, i: nat) {
    j <= |events| && i <= |outer| && Seen(After(events[..j])) == S.After(outer[..i])
  }

  ghost predicate AllSeen(events: seq<Event>, outer: seq<S.Event>) {
    forall i: nat | i <= |outer| :: SeenAt(events, outer, i)
  }

  ghost predicate SeenAt(events: seq<Event>, outer: seq<S.Event>, i: nat) {
    exists j: nat :: SameMoment(events, j, outer, i)
  }

  lemma MomentStays(before: seq<Event>, e: Event, j: nat, outer: seq<S.Event>, more: seq<S.Event>, i: nat)
    requires SameMoment(before, j, outer, i)
    ensures SameMoment(before + [e], j, outer + more, i)
  {
    assert (before + [e])[..j] == before[..j] && (outer + more)[..i] == outer[..i];
  }

  lemma MomentNow(events: seq<Event>, outer: seq<S.Event>)
    requires Seen(After(events)) == S.After(outer)
    ensures SameMoment(events, |events|, outer, |outer|)
  {
    assert events[..|events|] == events && outer[..|outer|] == outer;
  }

  lemma SeenOn(before: seq<Event>, e: Event, outer: seq<S.Event>, more: seq<S.Event>)
    requires AllSeen(before, outer) && |more| <= 1
    requires Seen(After(before + [e])) == S.After(outer + more)
    ensures AllSeen(before + [e], outer + more)
  {
    var events, all := before + [e], outer + more;
    MomentNow(events, all);
    forall i: nat | i <= |all| ensures SeenAt(events, all, i) {
      if i <= |outer| {
        assert SeenAt(before, outer, i);
        var j: nat :| SameMoment(before, j, outer, i);
        MomentStays(before, e, j, outer, more, i);
      } else {
        assert i == |all|;
      }
    }
  }

  /** Every run of the whole is a run of the session's machine, as seen, and one of the manager's; and
      what the session's machine goes through is what is seen along the way. */
  lemma {:induction false} RunsRefine(events: seq<Event>) returns (outer: seq<S.Event>, inner: seq<M.Event>)
    ensures Seen(After(events)) == S.After(outer) && AllSeen(events, outer)
    ensures After(events).manager == M.After(inner)
    ensures Fits(After(events))
  {
    outer, inner := [], [];
    if events == [] {
      assert M.ActiveHosts(M.INITIAL) == {};
      assert SameMoment(events, 0, outer, 0);
    } else {
      var before, e := events[..|events| - 1], events[|events| - 1];
      var o, i := RunsRefine(before);
      M.RunsKeep(i);
      outer, inner := Simulates(After(before), e);
      assert (o + outer)[..|o|] == o && (i + inner)[..|i|] == i;
      assert outer == [] ==> o + outer == o;
      assert inner == [] ==> i + inner == i;
      assert before + [e] == events;
      SeenOn(before, e, o, outer);
      outer, inner := o + outer, i + inner;
    }
  }

  /** A host that GetActiveHost answers held an active connection at a moment of the call, or a Connect
      to it had just succeeded; when it answers none, there was a moment of the call at which this
      was so of every active host. */
  lemma AnswersAreJustified(events: seq<Event>, t: nat) returns (j: nat)
    requires t in After(events).calls && After(events).calls[t].Answered?
    ensures j <= |events|
    ensures var w, host := After(events[..j]), After(events).calls[t].host;
            && S.Asking(Seen(w), t)
            && (if host == "" then forall h | h in M.ActiveHosts(w.manager) :: exists u :: S.NamedBy(Seen(w), u, h)
                else host in M.ActiveHosts(w.manager) || exists u :: S.NamedBy(Seen(w), u, host))
  {
    var outer, inner := RunsRefine(events);
    assert Seen(After(events)).threads[t] == After(events).calls[t];
    var i := S.AnswersAreJustified(outer, t);
    assert SeenAt(events, outer, i);
    j :| SameMoment(events, j, outer, i);
    var w, host, s := After(events[..j]), After(events).calls[t].host, S.After(outer[..i]);
    assert s == Seen(w) && S.Justifies(s, outer[i], host);
  }

  /** In every interleaving of session calls, with every inner step of every connection: once no call
      is in flight, no current host means that the table is empty and that every client ever opened is
      closed; and whatever the current host, the table holds the open clients and nothing else. */
  lemma IdleSystem(events: seq<Event>)
    requires forall t | t in After(events).calls :: S.Over(After(events).calls[t])
    ensures var w := After(events); var m := w.manager;
            && w.holder.None?
            && (w.activeHost == "" ==> m.table == map[] && forall c | c in m.clients :: m.clients[c])
            && (forall c | c in m.clients :: m.clients[c] != (c in m.table.Values))
            && (forall h | h in m.table :: M.IsActive(m, h))
  {
    var w := After(events);
    var outer, inner := RunsRefine(events);
    forall t | t in w.manager.threads ensures Over(w.manager.threads[t]) {
      assert Suits(w.calls[t], Inner(w, t));
    }
    M.IdleAccounts(inner);
    assert Seen(w).threads.Keys == w.calls.Keys;
    S.IdleWithoutHostIsDisconnected(outer);
    if w.activeHost == "" {
      assert forall h | h in w.manager.table :: h in M.ActiveHosts(w.manager);
    }
  }
}
