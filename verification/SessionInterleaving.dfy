/** The current host under concurrency: session calls whose sections run in any order, with the
    session lock held over the choice of a replacement. What the connection manager does is one step
    here; the module WholeSystem shows that its real steps come to no more. */
module SessionInterleaving {
  import opened Text
  import opened Sorting
  import opened Session

  /** Where a session call stands; the names say what it is about to do. A Connect or Execute that
      names no host is a GetActiveHost followed by one that does. */
  datatype Pc =
    | Open(host: string)        // Connect: the connection manager's part
    | Name(host: string)        // Connect: make the host current, under the lock
    | Close(host: string)       // Disconnect: the connection manager's part
    | Drop(host: string)        // Execute: a timeout that closes the connection
    | Read                      // GetActiveHost
    | Check(host: string)
    | Enter(host: string, asked: bool)      // GetActiveHost (asked) and Disconnect: take the lock
    | Compare(host: string, asked: bool)    // with the lock held
    | Pick(asked: bool)
    | Assign(host: string, asked: bool)
    | Returned
    | Answered(host: string)    // GetActiveHost, with its answer

  /** `live` are the hosts the connection manager reports; `holder` has the session lock. */
  datatype State = State(activeHost: string, live: set<string>, holder: Option<nat>, threads: map<nat, Pc>)

  /** `yes` settles what the connection manager does: whether a Connect succeeds, and whether an Execute
      takes its host off the live ones (once more) or ends. */
  datatype Event = Call(thread: nat, pc: Pc) | Advance(thread: nat, yes: bool)

  const INITIAL := State("", {}, None, map[])

  predicate IsEntry(pc: Pc) {
    || (pc.Open? && pc.host != "")
    || pc.Close? || pc.Drop? || pc.Read?
  }

  function At(s: State, t: nat, pc: Pc): State {
    s.(threads := s.threads[t := pc])
  }

  /** The end of a call that asked for the current host, or did not. */
  function End(asked: bool, host: string): Pc {
    if asked then Answered(host) else Returned
  }

  predicate Over(pc: Pc) {
    pc.Returned? || pc.Answered?
  }

  /** One step of one call. Steps that need the session lock wait for it by doing nothing. */
  ghost function Advanced(s: State, t: nat, pc: Pc, yes: bool): State {
    match pc
    case Open(host) =>
      if yes then At(s.(live := s.live + {host}), t, Name(host)) else At(s, t, Returned)
    case Name(host) => if s.holder.None? then At(s.(activeHost := host), t, Returned) else s
    case Close(host) => At(s.(live := s.live - {host}), t, Enter(host, false))
    case Drop(host) => if yes then At(s.(live := s.live - {host}), t, pc) else At(s, t, Returned)
    case Read =>
      if s.holder.Some? then s
      else At(s, t, if s.activeHost == "" then Answered("") else Check(s.activeHost))
    case Check(host) => At(s, t, if host in s.live then Answered(host) else Enter(host, true))
    case Enter(host, asked) => if s.holder.None? then At(s.(holder := Some(t)), t, Compare(host, asked)) else s
    case Compare(host, asked) =>
      if s.activeHost == host then At(s, t, Pick(asked)) else At(s.(holder := None), t, End(asked, s.activeHost))
    case Pick(asked) => At(s, t, Assign(PickFrom(s.live), asked))
    case Assign(host, asked) => At(s.(activeHost := host, holder := None), t, End(asked, host))
    case Answered(_) => s
    case Returned => s
  }

  ghost function Apply(s: State, e: Event): State {
    match e
    case Call(t, pc) => if t !in s.threads && IsEntry(pc) then At(s, t, pc) else s
    case Advance(t, yes) => if t in s.threads then Advanced(s, t, s.threads[t], yes) else s
  }

  ghost function After(events: seq<Event>): State {
    if events == [] then INITIAL else Apply(After(events[..|events| - 1]), events[|events| - 1])
  }

  // ---------------------------------------------------------------- what holds throughout

  predicate HoldsLock(s: State, t: nat) {
    t in s.threads && (s.threads[t].Compare? || s.threads[t].Pick? || s.threads[t].Assign?)
  }

  predicate NamedBy(s: State, t: nat, host: string) {
    t in s.threads && s.threads[t] == Name(host)
  }

  /** Every live host is about to become current. */
  ghost predicate AllBeingNamed(s: State) {
    forall h | h in s.live :: exists t :: NamedBy(s, t, h)
  }

  ghost predicate LockInv(s: State) {
    forall t: nat :: HoldsLock(s, t) <==> s.holder == Some(t)
  }

  predicate NamesInv(s: State) {
    && "" !in s.live
    && (forall t | t in s.threads && (s.threads[t].Open? || s.threads[t].Name?) :: s.threads[t].host != "")
  }

  predicate Clears(s: State, t: nat) {
    t in s.threads && s.threads[t].Assign? && s.threads[t].host == ""
  }

  ghost predicate HostInv(s: State) {
    s.activeHost == "" || (exists t: nat :: Clears(s, t)) ==> AllBeingNamed(s)
  }

  ghost predicate Inv(s: State) {
    LockInv(s) && NamesInv(s) && HostInv(s)
  }

  /** While a call steps, every other Connect that is about to name its host stays. */
  lemma StillBeingNamed(s: State, s': State, t: nat)
    requires AllBeingNamed(s) && t in s'.threads
    requires forall u | u != t && u in s.threads :: u in s'.threads && s'.threads[u] == s.threads[u]
    requires forall h | h in s'.live :: h in s.live || NamedBy(s', t, h)
    requires t in s.threads ==> !s.threads[t].Name?
    ensures AllBeingNamed(s')
  {
    forall h | h in s'.live ensures exists u :: NamedBy(s', u, h) {
      if h in s.live {
        var u :| NamedBy(s, u, h);
        assert NamedBy(s', u, h);
      }
    }
  }

  lemma LockStepKeeps(s: State, e: Event)
    requires LockInv(s)
    ensures LockInv(Apply(s, e))
  {
    var s' := Apply(s, e);
    forall t: nat ensures HoldsLock(s', t) <==> s'.holder == Some(t) {
      assert HoldsLock(s, t) <==> s.holder == Some(t);
      assert HoldsLock(s, e.thread) <==> s.holder == Some(e.thread);
    }
  }

  /** The current host is cleared only by a call that was about to. */
  lemma ClearedByAssign(s: State, e: Event)
    requires NamesInv(s) && s.activeHost != "" && Apply(s, e).activeHost == ""
    ensures Clears(s, e.thread)
  {
  }

  /** A call is about to clear it only after finding no live host. */
  lemma ClearsWhenEmpty(s: State, e: Event, u: nat)
    requires NamesInv(s) && Clears(Apply(s, e), u) && !Clears(s, u)
    ensures {} == s.live == Apply(s, e).live
  {
  }

  /** While one call makes its host current, no other has the lock, and none is about to clear. */
  lemma NoneClearsWhileNaming(s: State, e: Event, u: nat)
    requires LockInv(s) && Apply(s, e) != s
    requires e.Advance? && e.thread in s.threads && s.threads[e.thread].Name?
    ensures !Clears(Apply(s, e), u)
  {
    assert HoldsLock(s, u) <==> s.holder == Some(u);
  }

  /** A step that does not name a host leaves the others about to be named. */
  lemma NamingStays(s: State, e: Event)
    requires AllBeingNamed(s) && Apply(s, e) != s
    requires !(e.Advance? && s.threads[e.thread].Name?)
    ensures AllBeingNamed(Apply(s, e))
  {
    StillBeingNamed(s, Apply(s, e), e.thread);
  }

  /** Clearing the current host takes the session lock, which keeps every Connect from naming its own. */
  lemma HostStepKeeps(s: State, e: Event)
    requires Inv(s) && NamesInv(Apply(s, e)) && Apply(s, e) != s
    ensures HostInv(Apply(s, e))
  {
    var s' := Apply(s, e);
    if e.Advance? && s.threads[e.thread].Name? {
      forall u: nat ensures !Clears(s', u) {
        NoneClearsWhileNaming(s, e, u);
      }
    } else if AllBeingNamed(s) {
      NamingStays(s, e);
    } else {
      assert s.activeHost != "" && forall u: nat :: !Clears(s, u);
      if s'.activeHost == "" {
        ClearedByAssign(s, e);
      }
      forall u: nat | Clears(s', u) ensures AllBeingNamed(s') {
        ClearsWhenEmpty(s, e, u);
      }
    }
  }

  lemma NamesStepKeeps(s: State, e: Event)
    requires NamesInv(s)
    ensures NamesInv(Apply(s, e))
  {
  }

  lemma StepKeeps(s: State, e: Event)
    requires Inv(s)
    ensures Inv(Apply(s, e))
  {
    if Apply(s, e) != s {
      NamesStepKeeps(s, e);
      LockStepKeeps(s, e);
      HostStepKeeps(s, e);
    }
  }

  /** While the current host is cleared, or about to be, every live host is about to be named. */
  lemma {:induction false} RunsKeep(events: seq<Event>)
    ensures Inv(After(events))
    ensures After(events).activeHost == "" ==> AllBeingNamed(After(events))
  {
    if events != [] {
      RunsKeep(events[..|events| - 1]);
      StepKeeps(After(events[..|events| - 1]), events[|events| - 1]);
    }
  }

  /** In every interleaving, once no session call is in flight, a cleared current host means that
      there is no live connection. */
  lemma IdleWithoutHostIsDisconnected(events: seq<Event>)
    requires forall t | t in After(events).threads :: Over(After(events).threads[t])
    ensures After(events).activeHost == "" ==> After(events).live == {}
    ensures After(events).holder.None?
  {
    var s := After(events);
    RunsKeep(events);
    assert s.holder.Some? ==> HoldsLock(s, s.holder.value);
    if s.activeHost == "" {
      forall h ensures h !in s.live {
        assert forall t: nat :: !NamedBy(s, t, h);
      }
    }
  }

  // ---------------------------------------------------------------- what GetActiveHost answers

  /** A GetActiveHost that has read the current host and not answered yet. */
  predicate Looking(pc: Pc) {
    || pc.Check?
    || ((pc.Enter? || pc.Compare? || pc.Pick? || pc.Assign?) && pc.asked)
  }

  /** One that still goes by the host it has read. */
  predicate Doubting(pc: Pc) {
    pc.Check? || ((pc.Enter? || pc.Compare?) && pc.asked)
  }

  predicate Asking(s: State, t: nat) {
    t in s.threads && (s.threads[t].Read? || Looking(s.threads[t]))
  }

  /** The moment before this event justifies an answer: the host is live, or the event is a Connect
      making it current; and for no host, every live one has a Connect about to make it current. */
  ghost predicate Justifies(s: State, e: Event, host: string) {
    if host == "" then AllBeingNamed(s)
    else host in s.live || (e.Advance? && s.holder.None? && NamedBy(s, e.thread, host))
  }

  ghost predicate VouchedAt(events: seq<Event>, t: nat, host: string, i: nat)
    requires i < |events|
  {
    Asking(After(events[..i]), t) && Justifies(After(events[..i]), events[i], host)
  }

  /** Some moment while the call was looking justifies the answer. */
  ghost predicate Vouched(events: seq<Event>, t: nat, host: string) {
    exists i | 0 <= i < |events| :: VouchedAt(events, t, host, i)
  }

  lemma VouchedStays(events: seq<Event>, e: Event, t: nat, host: string)
    requires Vouched(events, t, host)
    ensures Vouched(events + [e], t, host)
  {
    var i :| 0 <= i < |events| && VouchedAt(events, t, host, i);
    assert (events + [e])[..i] == events[..i];
    assert VouchedAt(events + [e], t, host, i);
  }

  lemma VouchedNow(events: seq<Event>, e: Event, t: nat, host: string)
    requires Asking(After(events), t) && Justifies(After(events), e, host)
    ensures Vouched(events + [e], t, host)
  {
    assert (events + [e])[..|events|] == events;
    assert VouchedAt(events + [e], t, host, |events|);
  }

  ghost predicate AnswersVouched(events: seq<Event>) {
    var s := After(events);
    forall t | t in s.threads && s.threads[t].Answered? :: Vouched(events, t, s.threads[t].host)
  }

  /** Whatever has become current since a call read the current host is vouched for. */
  ghost predicate ChangesVouched(events: seq<Event>) {
    var s := After(events);
    forall t | t in s.threads && Doubting(s.threads[t]) ::
      s.activeHost == s.threads[t].host || s.activeHost == "" || Vouched(events, t, s.activeHost)
  }

  /** So is what any call has picked since. */
  ghost predicate PicksVouched(events: seq<Event>) {
    var s := After(events);
    forall t, u | t in s.threads && u in s.threads && Looking(s.threads[t]) && s.threads[u].Assign? ::
      s.threads[u].host == "" || Vouched(events, t, s.threads[u].host)
  }

  /** Where a new answer comes from: this moment, what has become current, or the call's own pick. */
  lemma NewAnswer(s: State, e: Event, t: nat)
    requires NamesInv(s) && HostInv(s) && t in Apply(s, e).threads && Apply(s, e).threads[t].Answered?
    requires !(t in s.threads && s.threads[t].Answered?)
    ensures Asking(s, t)
    ensures var host, pc := Apply(s, e).threads[t].host, s.threads[t];
            || Justifies(s, e, host)
            || (Doubting(pc) && s.activeHost == host && host != pc.host && host != "")
            || (pc.Assign? && pc.asked && pc.host == host && host != "")
  {
    var pc := s.threads[t];
    assert e == Advance(t, e.yes);
    if pc.Assign? && pc.host == "" {
      assert Clears(s, t);
    }
  }

  lemma AnswersStep(events: seq<Event>, s: State, e: Event)
    requires s == After(events) && After(events + [e]) == Apply(s, e)
    requires NamesInv(s) && HostInv(s) && AnswersVouched(events) && ChangesVouched(events) && PicksVouched(events)
    ensures AnswersVouched(events + [e])
  {
    var s' := Apply(s, e);
    forall t | t in s'.threads && s'.threads[t].Answered? ensures Vouched(events + [e], t, s'.threads[t].host) {
      var host := s'.threads[t].host;
      if t in s.threads && s.threads[t].Answered? {
        VouchedStays(events, e, t, host);
      } else {
        NewAnswer(s, e, t);
        if Justifies(s, e, host) {
          VouchedNow(events, e, t, host);
        } else {
          VouchedStays(events, e, t, host);
        }
      }
    }
  }

  /** How the current host changes under a call that goes by another: a Connect, or another's pick. */
  lemma NewCurrent(s: State, e: Event, t: nat)
    requires t in Apply(s, e).threads && Doubting(Apply(s, e).threads[t])
    requires Apply(s, e).activeHost !in {Apply(s, e).threads[t].host, ""}
    ensures t in s.threads && Doubting(s.threads[t]) && s.threads[t].host == Apply(s, e).threads[t].host
    ensures var now := Apply(s, e).activeHost;
            || now == s.activeHost
            || Justifies(s, e, now)
            || (e.thread in s.threads && s.threads[e.thread].Assign? && s.threads[e.thread].host == now)
  {
  }

  lemma ChangesStep(events: seq<Event>, s: State, e: Event)
    requires s == After(events) && After(events + [e]) == Apply(s, e)
    requires ChangesVouched(events) && PicksVouched(events)
    ensures ChangesVouched(events + [e])
  {
    var s' := Apply(s, e);
    var now := s'.activeHost;
    forall t | t in s'.threads && Doubting(s'.threads[t])
      ensures now == s'.threads[t].host || now == "" || Vouched(events + [e], t, now)
    {
      if now != s'.threads[t].host && now != "" {
        NewCurrent(s, e, t);
        if Justifies(s, e, now) {
          VouchedNow(events, e, t, now);
        } else {
          VouchedStays(events, e, t, now);
        }
      }
    }
  }

  /** Nobody starts looking while a pick is under way, and what is picked is live. */
  lemma NewPick(s: State, e: Event, t: nat, u: nat)
    requires LockInv(s) && t in Apply(s, e).threads && u in Apply(s, e).threads
    requires Looking(Apply(s, e).threads[t]) && Apply(s, e).threads[u].Assign? && Apply(s, e).threads[u].host != ""
    ensures t in s.threads && Looking(s.threads[t])
    ensures || (u in s.threads && s.threads[u] == Apply(s, e).threads[u])
            || Justifies(s, e, Apply(s, e).threads[u].host)
  {
    assert HoldsLock(s, u) <==> s.holder == Some(u);
  }

  lemma PicksStep(events: seq<Event>, s: State, e: Event)
    requires s == After(events) && After(events + [e]) == Apply(s, e)
    requires LockInv(s) && PicksVouched(events)
    ensures PicksVouched(events + [e])
  {
    var s' := Apply(s, e);
    forall t, u | t in s'.threads && u in s'.threads && Looking(s'.threads[t]) && s'.threads[u].Assign?
      ensures s'.threads[u].host == "" || Vouched(events + [e], t, s'.threads[u].host)
    {
      var host := s'.threads[u].host;
      if host != "" {
        NewPick(s, e, t, u);
        if Justifies(s, e, host) {
          VouchedNow(events, e, t, host);
        } else {
          VouchedStays(events, e, t, host);
        }
      }
    }
  }

  lemma {:induction false} EverythingVouched(events: seq<Event>)
    ensures AnswersVouched(events) && ChangesVouched(events) && PicksVouched(events)
  {
    if events != [] {
      var before, e := events[..|events| - 1], events[|events| - 1];
      EverythingVouched(before);
      RunsKeep(before);
      assert before + [e] == events;
      AnswersStep(before, After(before), e);
      ChangesStep(before, After(before), e);
      PicksStep(before, After(before), e);
    }
  }

  /** In every interleaving, a host that GetActiveHost answers was live at a moment of the call or was
      made current by a Connect during it; and when it answers none, there was a moment of the call
      at which every live host had a Connect about to make it current. */
  lemma AnswersAreJustified(events: seq<Event>, t: nat) returns (i: nat)
    requires t in After(events).threads && After(events).threads[t].Answered?
    ensures i < |events| && Asking(After(events[..i]), t)
    ensures Justifies(After(events[..i]), events[i], After(events).threads[t].host)
  {
    EverythingVouched(events);
    var host := After(events).threads[t].host;
    i :| 0 <= i < |events| && VouchedAt(events, t, host, i);
  }
}
