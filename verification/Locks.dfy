/** The two read-write locks: what every call does with them, and why no set of calls can block one
    another for good. */
module Locks {

  /** The session manager's lock and the connection manager's. */
  datatype Lock = SessionLock | ManagerLock

  datatype Mode = Read | Write

  /** What a call does next: `Work` stands for whatever does not wait for a lock. */
  datatype Op = Acquire(lock: Lock, mode: Mode) | Release(lock: Lock, mode: Mode) | Work

  // ---------------------------------------------------------------- the calls

  function Section(lock: Lock, mode: Mode): seq<Op> {
    [Acquire(lock, mode), Work, Release(lock, mode)]
  }

  /** The ways through each call; the flags say which branches are taken. */
  datatype Dialing = Unknown | AlreadyUp | Unreachable | Dialed

  datatype Refresh = Skipped | NoHost | StillUp | Changed | Replaced

  datatype Attempting = NotConnected | Finishes | ThenRetries

  datatype Call =
    | SetConfigs
    | Status
    | GetActiveHost(refresh: Refresh)
    | Connect(refresh: Refresh, dialing: Dialing)
    | Disconnect(known: bool, wasCurrent: bool)
    | Execute(refresh: Refresh, attempting: Attempting, firstDrops: bool, secondDrops: bool)

  function IsActiveOps(): seq<Op> { Section(ManagerLock, Read) }

  function ActiveHostOps(refresh: Refresh): seq<Op> {
    match refresh
    case Skipped => []
    case NoHost => Section(SessionLock, Read)
    case StillUp => Section(SessionLock, Read) + IsActiveOps()
    case Changed => Section(SessionLock, Read) + IsActiveOps() + Section(SessionLock, Write)
    case Replaced => Section(SessionLock, Read) + IsActiveOps() + PickOps(true)
  }

  /** The replacement of the current host, with the session lock held. */
  function PickOps(picks: bool): seq<Op> {
    [Acquire(SessionLock, Write)] + (if picks then Section(ManagerLock, Read) else []) + [Release(SessionLock, Write)]
  }

  function DialOps(dialing: Dialing): seq<Op> {
    match dialing
    case Unknown => Section(ManagerLock, Read)
    case AlreadyUp => Section(ManagerLock, Read) + IsActiveOps() + Section(SessionLock, Write)
    case Unreachable => Section(ManagerLock, Read) + IsActiveOps() + [Work]
    case Dialed =>
      Section(ManagerLock, Read) + IsActiveOps() + [Work] + Section(ManagerLock, Write) + Section(SessionLock, Write)
  }

  function AttemptOps(drops: bool): seq<Op> {
    [Work] + if drops then Section(ManagerLock, Write) + [Work] else []
  }

  function Program(call: Call): seq<Op> {
    match call
    case SetConfigs => Section(ManagerLock, Write)
    case Status => Section(ManagerLock, Read)
    case GetActiveHost(refresh) => ActiveHostOps(refresh)
    case Connect(refresh, dialing) => ActiveHostOps(refresh) + DialOps(dialing)
    case Disconnect(known, wasCurrent) =>
      Section(ManagerLock, Write) + (if known then [Work] else []) + PickOps(wasCurrent)
    case Execute(refresh, attempting, firstDrops, secondDrops) =>
      ActiveHostOps(refresh) + Section(ManagerLock, Read) +
      match attempting
      case NotConnected => []
      case Finishes => AttemptOps(firstDrops)
      case ThenRetries => AttemptOps(false) + AttemptOps(secondDrops)
  }

  predicate Takes(ops: seq<Op>, lock: Lock) {
    Acquire(lock, Write) in ops
  }

  lemma RefreshTakes(refresh: Refresh)
    ensures !Takes(ActiveHostOps(refresh), ManagerLock)
    ensures Takes(ActiveHostOps(refresh), SessionLock) <==> refresh.Changed? || refresh.Replaced?
  {
  }

  lemma DialTakes(dialing: Dialing)
    ensures Takes(DialOps(dialing), ManagerLock) <==> dialing.Dialed?
    ensures Takes(DialOps(dialing), SessionLock) <==> dialing.Dialed? || dialing.AlreadyUp?
  {
  }

  lemma AttemptTakes(drops: bool)
    ensures Takes(AttemptOps(drops), ManagerLock) <==> drops
    ensures !Takes(AttemptOps(drops), SessionLock)
  {
  }

  predicate Refreshes(call: Call) {
    (call.GetActiveHost? || call.Connect? || call.Execute?) && (call.refresh.Changed? || call.refresh.Replaced?)
  }

  predicate Drops(call: Call) {
    call.Execute? && ((call.attempting.Finishes? && call.firstDrops) || (call.attempting.ThenRetries? && call.secondDrops))
  }

  /** The connection manager's lock is taken for writing by exactly the calls that change its maps, and
      the session manager's by exactly those that may change the current host. */
  lemma WhoWrites(call: Call)
    ensures Takes(Program(call), ManagerLock) <==>
            call.SetConfigs? || call.Disconnect? || (call.Connect? && call.dialing.Dialed?) || Drops(call)
    ensures Takes(Program(call), SessionLock) <==>
            call.Disconnect? || (call.Connect? && (call.dialing.Dialed? || call.dialing.AlreadyUp?)) || Refreshes(call)
  {
    match call {
      case SetConfigs =>
      case Status =>
      case GetActiveHost(refresh) => RefreshTakes(refresh);
      case Connect(refresh, dialing) =>
        RefreshTakes(refresh);
        DialTakes(dialing);
      case Disconnect(_, wasCurrent) =>
        assert PickOps(wasCurrent)[0] == Acquire(SessionLock, Write);
        assert Section(ManagerLock, Write)[0] == Acquire(ManagerLock, Write);
      case Execute(refresh, _, firstDrops, secondDrops) =>
        RefreshTakes(refresh);
        AttemptTakes(false);
        AttemptTakes(firstDrops);
        AttemptTakes(secondDrops);
    }
  }

  // ---------------------------------------------------------------- the discipline

  type Holding = map<Lock, Mode>

  /** A lock is never taken twice, nothing is taken while the connection manager's lock is held, and
      in the end everything has been given back. */
  predicate Disciplined(ops: seq<Op>, held: Holding) {
    if ops == [] then held == map[]
    else
      match ops[0]
      case Work => Disciplined(ops[1..], held)
      case Acquire(lock, mode) =>
        lock !in held && ManagerLock !in held && Disciplined(ops[1..], held[lock := mode])
      case Release(lock, mode) =>
        lock in held && held[lock] == mode && Disciplined(ops[1..], held - {lock})
  }

  /** Operations that leave the discipline, and what is held, as they find it. */
  ghost predicate Neutral(ops: seq<Op>, held: Holding) {
    forall rest :: Disciplined(rest, held) ==> Disciplined(ops + rest, held)
  }

  lemma WorkNeutral(held: Holding)
    ensures Neutral([Work], held) && Neutral([], held)
  {
    forall rest | Disciplined(rest, held)
      ensures Disciplined([Work] + rest, held) && Disciplined([] + rest, held)
    {
      assert ([Work] + rest)[1..] == rest;
      assert [] + rest == rest;
    }
  }

  /** A neutral body between an acquire and its release. */
  lemma BracketNeutral(lock: Lock, mode: Mode, body: seq<Op>, held: Holding)
    requires lock !in held && ManagerLock !in held && Neutral(body, held[lock := mode])
    ensures Neutral([Acquire(lock, mode)] + body + [Release(lock, mode)], held)
  {
    forall rest | Disciplined(rest, held)
      ensures Disciplined([Acquire(lock, mode)] + body + [Release(lock, mode)] + rest, held)
    {
      var tail := [Release(lock, mode)] + rest;
      assert tail[1..] == rest && held[lock := mode] - {lock} == held;
      assert Disciplined(tail, held[lock := mode]);
      var ops := [Acquire(lock, mode)] + body + [Release(lock, mode)] + rest;
      assert ops[1..] == body + tail;
    }
  }

  lemma SectionNeutral(lock: Lock, mode: Mode, held: Holding)
    requires lock !in held && ManagerLock !in held
    ensures Neutral(Section(lock, mode), held)
  {
    WorkNeutral(held[lock := mode]);
    BracketNeutral(lock, mode, [Work], held);
    assert [Acquire(lock, mode)] + [Work] + [Release(lock, mode)] == Section(lock, mode);
  }

  lemma ConcatNeutral(p: seq<Op>, q: seq<Op>, held: Holding)
    requires Neutral(p, held) && Neutral(q, held)
    ensures Neutral(p + q, held)
  {
    forall rest | Disciplined(rest, held) ensures Disciplined(p + q + rest, held) {
      assert Disciplined(q + rest, held);
      assert p + q + rest == p + (q + rest);
    }
  }

  lemma SectionsNeutral()
    ensures forall lock, mode :: Neutral(Section(lock, mode), map[])
    ensures Neutral([Work], map[]) && Neutral([], map[])
    ensures forall picks :: Neutral(PickOps(picks), map[])
  {
    WorkNeutral(map[]);
    forall lock, mode ensures Neutral(Section(lock, mode), map[]) {
      SectionNeutral(lock, mode, map[]);
    }
    forall picks ensures Neutral(PickOps(picks), map[]) {
      var held: Holding := map[][SessionLock := Write];
      WorkNeutral(held);
      SectionNeutral(ManagerLock, Read, held);
      BracketNeutral(SessionLock, Write, if picks then Section(ManagerLock, Read) else [], map[]);
    }
  }

  lemma ActiveHostNeutral(refresh: Refresh)
    ensures Neutral(ActiveHostOps(refresh), map[])
  {
    SectionsNeutral();
    var read, active := Section(SessionLock, Read), IsActiveOps();
    ConcatNeutral(read, active, map[]);
    ConcatNeutral(read + active, Section(SessionLock, Write), map[]);
    ConcatNeutral(read + active, PickOps(true), map[]);
  }

  lemma DialNeutral(dialing: Dialing)
    ensures Neutral(DialOps(dialing), map[])
  {
    SectionsNeutral();
    var known := Section(ManagerLock, Read) + IsActiveOps();
    ConcatNeutral(Section(ManagerLock, Read), IsActiveOps(), map[]);
    ConcatNeutral(known, Section(SessionLock, Write), map[]);
    ConcatNeutral(known, [Work], map[]);
    ConcatNeutral(known + [Work], Section(ManagerLock, Write), map[]);
    ConcatNeutral(known + [Work] + Section(ManagerLock, Write), Section(SessionLock, Write), map[]);
  }

  lemma AttemptNeutral(drops: bool)
    ensures Neutral(AttemptOps(drops), map[])
  {
    SectionsNeutral();
    ConcatNeutral(Section(ManagerLock, Write), [Work], map[]);
    ConcatNeutral([Work], Section(ManagerLock, Write) + [Work], map[]);
    ConcatNeutral([Work], [], map[]);
  }

  /** Every way through every call keeps the discipline. */
  lemma CallsAreDisciplined(call: Call)
    ensures Disciplined(Program(call), map[])
  {
    ProgramNeutral(call);
    assert Disciplined([], map[]);
    assert Program(call) + [] == Program(call);
  }

  lemma ProgramNeutral(call: Call)
    ensures Neutral(Program(call), map[])
  {
    SectionsNeutral();
    match call {
      case SetConfigs =>
      case Status =>
      case GetActiveHost(refresh) => ActiveHostNeutral(refresh);
      case Connect(refresh, dialing) =>
        ActiveHostNeutral(refresh);
        DialNeutral(dialing);
        ConcatNeutral(ActiveHostOps(refresh), DialOps(dialing), map[]);
      case Disconnect(known, wasCurrent) =>
        var work := if known then [Work] else [];
        ConcatNeutral(Section(ManagerLock, Write), work, map[]);
        ConcatNeutral(Section(ManagerLock, Write) + work, PickOps(wasCurrent), map[]);
      case Execute(refresh, attempting, firstDrops, secondDrops) =>
        ActiveHostNeutral(refresh);
        AttemptNeutral(false);
        AttemptNeutral(firstDrops);
        AttemptNeutral(secondDrops);
        ConcatNeutral(AttemptOps(false), AttemptOps(secondDrops), map[]);
        var start := ActiveHostOps(refresh) + Section(ManagerLock, Read);
        ConcatNeutral(ActiveHostOps(refresh), Section(ManagerLock, Read), map[]);
        ConcatNeutral(start, [], map[]);
        ConcatNeutral(start, AttemptOps(firstDrops), map[]);
        ConcatNeutral(start, AttemptOps(false) + AttemptOps(secondDrops), map[]);
    }
  }

  // ---------------------------------------------------------------- running them

  /** A writer first announces itself, which keeps new readers out, and then waits for the readers. */
  datatype Thread = Thread(rest: seq<Op>, held: Holding, announced: bool)

  type State = map<nat, Thread>

  predicate Wants(th: Thread, lock: Lock, mode: Mode) {
    th.rest != [] && th.rest[0] == Acquire(lock, mode)
  }

  predicate Holds(s: State, t: nat, lock: Lock) {
    t in s && lock in s[t].held
  }

  predicate Writing(s: State, t: nat, lock: Lock) {
    t in s && lock in s[t].held && s[t].held[lock] == Write
  }

  predicate Announced(s: State, t: nat, lock: Lock) {
    t in s && s[t].announced && Wants(s[t], lock, Write)
  }

  /** No writer has the lock or has announced itself for it. */
  ghost predicate OpenToOthers(s: State, lock: Lock) {
    forall t :: !Writing(s, t, lock) && !Announced(s, t, lock)
  }

  ghost predicate Free(s: State, lock: Lock) {
    forall t :: !Holds(s, t, lock)
  }

  ghost predicate Enabled(s: State, t: nat) {
    && t in s && s[t].rest != []
    && (s[t].rest[0].Acquire? ==>
          var lock := s[t].rest[0].lock;
          if s[t].announced then Free(s, lock) else OpenToOthers(s, lock))
  }

  /** The next step of an enabled thread. */
  function Stepped(th: Thread): Thread
    requires th.rest != []
  {
    match th.rest[0]
    case Work => th.(rest := th.rest[1..])
    case Release(lock, mode) => th.(rest := th.rest[1..], held := th.held - {lock})
    case Acquire(lock, mode) =>
      if mode == Write && !th.announced then th.(announced := true)
      else Thread(th.rest[1..], th.held[lock := mode], false)
  }

  datatype Event = Start(thread: nat, call: Call) | Step(thread: nat)

  ghost function Apply(s: State, e: Event): State {
    match e
    case Start(t, call) => if t in s then s else s[t := Thread(Program(call), map[], false)]
    case Step(t) => if Enabled(s, t) then s[t := Stepped(s[t])] else s
  }

  ghost function After(events: seq<Event>): State {
    if events == [] then map[] else Apply(After(events[..|events| - 1]), events[|events| - 1])
  }

  ghost predicate Inv(s: State) {
    && (forall t | t in s :: Disciplined(s[t].rest, s[t].held))
    && (forall t | t in s && s[t].announced :: exists lock :: Announced(s, t, lock))
    && (forall t, u, lock | Writing(s, t, lock) && Holds(s, u, lock) :: t == u)
    && (forall t, u, lock | Announced(s, t, lock) && (Announced(s, u, lock) || Writing(s, u, lock)) :: t == u)
  }

  lemma NewlyHeld(s: State, t: nat, lock: Lock)
    requires Inv(s) && Enabled(s, t)
    ensures var s' := s[t := Stepped(s[t])];
            && (Holds(s', t, lock) && !Holds(s, t, lock) ==> forall u: nat :: !Writing(s, u, lock))
            && (Writing(s', t, lock) && !Writing(s, t, lock) ==> Free(s, lock) && Announced(s, t, lock))
            && (Announced(s', t, lock) && !Announced(s, t, lock) ==> OpenToOthers(s, lock))
  {
    if Free(s, lock) {
      forall u: nat ensures !Writing(s, u, lock) {
        assert !Holds(s, u, lock);
      }
    }
    if s[t].announced {
      var l :| Announced(s, t, l);
    }
  }

  lemma StepKeeps(s: State, t: nat)
    requires Inv(s) && Enabled(s, t)
    ensures Inv(s[t := Stepped(s[t])])
  {
    var s' := s[t := Stepped(s[t])];
    forall u | u in s' && s'[u].announced ensures exists lock :: Announced(s', u, lock) {
      if u == t {
        assert Announced(s', t, s[t].rest[0].lock);
      } else {
        var lock :| Announced(s, u, lock);
        assert Announced(s', u, lock);
      }
    }
    forall u: nat, lock: Lock
      ensures u != t ==> Writing(s', u, lock) == Writing(s, u, lock) && Holds(s', u, lock) == Holds(s, u, lock)
      ensures u != t ==> Announced(s', u, lock) == Announced(s, u, lock)
      ensures Writing(s, u, lock) ==> Holds(s, u, lock)
    {
    }
    forall lock: Lock
      ensures Holds(s', t, lock) && !Holds(s, t, lock) ==> forall u: nat :: !Writing(s, u, lock)
      ensures Writing(s', t, lock) && !Writing(s, t, lock) ==> Free(s, lock) && Announced(s, t, lock)
      ensures Announced(s', t, lock) && !Announced(s, t, lock) ==> OpenToOthers(s, lock)
    {
      NewlyHeld(s, t, lock);
    }
  }

  lemma StartKeeps(s: State, t: nat, call: Call)
    requires Inv(s) && t !in s
    ensures Inv(s[t := Thread(Program(call), map[], false)])
  {
    var s' := s[t := Thread(Program(call), map[], false)];
    CallsAreDisciplined(call);
    forall u | u in s' && s'[u].announced ensures exists lock :: Announced(s', u, lock) {
      var lock :| Announced(s, u, lock);
      assert Announced(s', u, lock);
    }
    forall u: nat, lock: Lock
      ensures Writing(s', u, lock) == Writing(s, u, lock) && Holds(s', u, lock) == Holds(s, u, lock)
      ensures Announced(s', u, lock) == Announced(s, u, lock)
    {
    }
  }

  lemma {:induction false} RunsKeep(events: seq<Event>)
    ensures Inv(After(events))
  {
    if events != [] {
      var s, e := After(events[..|events| - 1]), events[|events| - 1];
      RunsKeep(events[..|events| - 1]);
      match e {
        case Start(t, call) =>
          if t !in s {
            StartKeeps(s, t, call);
          }
        case Step(t) =>
          if Enabled(s, t) {
            StepKeeps(s, t);
          }
      }
    }
  }

  /** A lock that nobody holds is granted to somebody who wants it: to a writer that has announced
      itself if there is one. */
  lemma FreeLockIsGranted(s: State, t: nat, lock: Lock) returns (u: nat)
    requires Inv(s) && Free(s, lock) && t in s && s[t].rest != [] && s[t].rest[0].Acquire? && s[t].rest[0].lock == lock
    ensures Enabled(s, u)
  {
    forall v: nat ensures !Writing(s, v, lock) {
      assert !Holds(s, v, lock);
    }
    if v: nat :| Announced(s, v, lock) {
      u := v;
    } else {
      u := t;
    }
  }

  /** In every interleaving of any number of calls, some call can go on as long as any call is not
      over: a holder of the connection manager's lock never waits, a holder of the session lock
      waits for the other lock at most, and so no ring of waiting calls can close. */
  lemma SomeCallCanStep(events: seq<Event>, t: nat) returns (u: nat)
    requires t in After(events) && After(events)[t].rest != []
    ensures Enabled(After(events), u)
  {
    var s := After(events);
    RunsKeep(events);
    if v: nat :| Holds(s, v, ManagerLock) {
      u := v;
    } else if v: nat, mode: Mode :| v in s && Wants(s[v], ManagerLock, mode) {
      u := FreeLockIsGranted(s, v, ManagerLock);
    } else if v: nat :| Holds(s, v, SessionLock) {
      if s[v].rest[0].Acquire? {
        assert s[v].rest[0].lock == ManagerLock by {
          assert Disciplined(s[v].rest, s[v].held);
        }
        assert Wants(s[v], ManagerLock, s[v].rest[0].mode);
      }
      u := v;
    } else if s[t].rest[0].Acquire? {
      assert Wants(s[t], s[t].rest[0].lock, s[t].rest[0].mode);
      u := FreeLockIsGranted(s, t, SessionLock);
    } else {
      u := t;
    }
  }

  /** The locks exclude as read-write locks should, and no call waits while it holds the connection
      manager's lock. */
  lemma LocksExclude(events: seq<Event>, t: nat, u: nat, lock: Lock)
    requires Writing(After(events), t, lock) && Holds(After(events), u, lock)
    ensures t == u
  {
    RunsKeep(events);
  }

  lemma ManagerLockIsInnermost(events: seq<Event>, t: nat)
    requires Holds(After(events), t, ManagerLock)
    ensures After(events)[t].rest != [] && !After(events)[t].rest[0].Acquire?
  {
    RunsKeep(events);
  }
}
