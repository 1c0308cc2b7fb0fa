/** The current host, kept in step with the connections that are live. */
module Session {
  import opened Text
  import opened HostConfig
  import opened Sorting
  import opened Connections
  import opened Exec

  /** The replacement for a host that has gone away: the first of the live ones, if any. */
  function PickActive(hosts: seq<string>): string {
    if hosts == [] then "" else Sort(hosts)[0]
  }

  /** The least live host, or none. */
  ghost predicate Picked(host: string, live: set<string>) {
    if live == {} then host == "" else IsLeast(host, live)
  }

  /** The replacement as a function of the live hosts. */
  ghost function PickFrom(live: set<string>): (host: string)
    ensures Picked(host, live)
  {
    if live == {} then ""
    else
      HasLeast(live);
      var host :| IsLeast(host, live);
      host
  }

  lemma PickIsPicked(hosts: seq<string>, live: set<string>)
    requires forall h :: h in hosts <==> h in live
    ensures Picked(PickActive(hosts), live)
  {
    if hosts == [] {
      assert live == {};
    } else {
      assert hosts[0] in live;
      SortSorts(hosts);
      SortKeeps(hosts);
      HeadIsLeast(Sort(hosts), live);
    }
  }

  /** What the current host becomes when it is asked for: itself while it is live. */
  ghost predicate RefreshedTo(current: string, live: set<string>, host: string) {
    if current in live then host == current else Picked(host, live)
  }

  /** There is one right answer. */
  lemma RefreshIsUnique(current: string, live: set<string>, a: string, b: string)
    requires RefreshedTo(current, live, a) && RefreshedTo(current, live, b)
    ensures a == b
  {
    if current !in live && live != {} {
      LeastIsUnique(a, b, live);
    }
  }

  /** Asking again gives the same answer, which is a live host unless there is none. */
  lemma RefreshIsStable(current: string, live: set<string>, host: string, again: string)
    requires "" !in live && RefreshedTo(current, live, host) && RefreshedTo(host, live, again)
    ensures again == host
    ensures host == "" <==> live == {}
    ensures host != "" ==> host in live
  {
  }

  class SessionManager {
    const connections: ConnectionManager
    var activeHost: string

    /** No connection is ever filed under the empty name, and without a current host there is no live
        connection. */
    ghost predicate Valid()
      reads this, connections, connections.footprint
    {
      && connections.Valid()
      && "" !in connections.Live()
      && (activeHost == "" ==> connections.Live() == {})
    }

    constructor (connections: ConnectionManager)
      requires connections.Valid() && connections.Live() == {}
      ensures Valid() && this.connections == connections && activeHost == ""
    {
      this.connections := connections;
      activeHost := "";
    }

    method SetConfigs(configs: map<string, SSHConfig>)
      requires Valid()
      modifies connections`configs
      ensures Valid() && connections.configs == configs && connections.Live() == old(connections.Live())
    {
      connections.SetConfigs(configs);
    }

    method GetActiveHost() returns (host: string)
      requires Valid()
      modifies this`activeHost
      ensures Valid() && host == activeHost
      ensures RefreshedTo(old(activeHost), connections.Live(), host)
    {
      host := activeHost;
      if host == "" {
        return;
      }
      var connected := connections.IsActive(host);
      if connected {
        return;
      }
      if activeHost == host {
        var hosts := connections.GetActiveConnections();
        PickIsPicked(hosts, connections.Live());
        activeHost := PickActive(hosts);
      }
      return activeHost;
    }

    /** An empty host stands for the current one. */
    method Connect(host: string, dialed: Option<nat>) returns (connected: bool)
      requires Valid()
      modifies this`activeHost, connections`connections, connections`footprint
      ensures Valid() && fresh(connections.footprint - old(connections.footprint))
      ensures connected ==> activeHost != "" && connections.Live() == old(connections.Live()) + {activeHost}
      ensures connected && host != "" ==> activeHost == host
      ensures host == "" ==> RefreshedTo(old(activeHost), old(connections.Live()), activeHost)
      ensures !connected ==> connections.Live() == old(connections.Live())
      ensures !connected && host != "" ==> activeHost == old(activeHost)
      ensures host != "" ==>
                (connected <==> host in connections.configs && (host in old(connections.Live()) || dialed.Some?))
      ensures host == "" ==> (connected <==> old(connections.Live()) != {} && activeHost in connections.configs)
    {
      var target := host;
      if target == "" {
        target := GetActiveHost();
      }
      if target == "" {
        return false;
      }
      connected := connections.Connect(target, dialed);
      if connected {
        activeHost := target;
      }
    }

    /** When the current host goes away another live one takes its place. */
    method Disconnect(host: string) returns (known: bool)
      requires Valid()
      modifies this`activeHost, connections`connections, connections.footprint
      ensures Valid()
      ensures known <==> host in old(connections.Live())
      ensures connections.Live() == old(connections.Live()) - {host}
      ensures if old(activeHost) == host then Picked(activeHost, connections.Live()) else activeHost == old(activeHost)
    {
      known := connections.Disconnect(host);
      if activeHost == host {
        var hosts := connections.GetActiveConnections();
        PickIsPicked(hosts, connections.Live());
        activeHost := PickActive(hosts);
      }
    }

    /** Runs a command on the host, or on the current one. A connection that had to be dropped is
        noticed only when the current host is next asked for. */
    method Execute(command: string, host: string, timeoutSetting: Option<int>, outputSetting: Option<int>, first: Attempt, second: Attempt, now: nat)
      returns (result: Option<Outcome>, later: nat, ghost target: string, ghost sent: seq<string>)
      requires Valid()
      modifies this`activeHost, connections`connections, connections.footprint
      ensures Valid()
      ensures host != "" ==> target == host && activeHost == old(activeHost)
      ensures host == "" ==> target == activeHost && RefreshedTo(old(activeHost), old(connections.Live()), activeHost)
      ensures sent == [] <==> target !in old(connections.Live())
      ensures connections.Live() == old(connections.Live()) -
              if result.Some? && result.value.connectionClosed then {target} else {}
      ensures sent == [] ==> result.None?
      ensures sent != [] ==>
                Attempted(result, target, command, sent, first, second, ExecTimeout(timeoutSetting), ExecMaxOutputBytes(outputSetting))
    {
      later, sent := now, [];
      target := host;
      var t := host;
      if t == "" {
        t := GetActiveHost();
        target := t;
      }
      if t == "" {
        return None, later, target, sent;
      }
      connections.LiveIsAll();
      result, later, sent := Exec.Execute(connections, t, command, timeoutSetting, outputSetting, first, second, now);
      connections.LiveIsAll();
    }
  }
}
