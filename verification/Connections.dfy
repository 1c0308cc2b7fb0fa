/** The connection manager as its callers see it, one completed call at a time. What other calls may
    do in between is the subject of the interleaved model. */
module Connections {
  import opened Text
  import opened HostConfig
  import opened Sorting
  import opened Shell

  const KEEPALIVE_DEFAULT := 30 * SECOND

  /** The stop channel of a connection's keepalive: none, open, or closed. */
  datatype Keepalive = Off | Running | Stopped

  /** How often a connection with this ServerAliveInterval is pinged, in nanoseconds. The product
      wraps around in 64 bits, so an absurdly long interval can turn keepalives off or shorten them. */
  function KeepalivePeriod(interval: int): int {
    if interval >= 0 then Wrap64(interval * SECOND) else KEEPALIVE_DEFAULT
  }

  predicate KeepaliveArmed(interval: int) {
    KeepalivePeriod(interval) > 0
  }

  /** The period is the configured one exactly when it fits 64 bits; then keepalives are off exactly
      for interval 0. */
  lemma KeepaliveAsConfigured(interval: int)
    ensures KeepalivePeriod(interval) == (if interval >= 0 then interval * 1_000_000_000 else 30_000_000_000) <==>
            interval <= MAX_INT64 / SECOND
    ensures interval <= MAX_INT64 / SECOND ==> (KeepaliveArmed(interval) <==> interval != 0)
  {
  }

  /** Two intervals beyond that: the first turns keepalives off, the second pings more than three times
      a second. */
  lemma LongIntervalsMislead()
    ensures !KeepaliveArmed(9_223_372_037)
    ensures 0 < KeepalivePeriod(18_446_744_074) < SECOND / 3
  {
  }

  const DIAL_ATTEMPTS: nat := 3

  /** Dials until a client is there, with a pause after each failure but the last that grows with its
      number. `opens` is what the attempts yield; nothing is tried when there is no way to log in. */
  method Dial(settingsFail: bool, opens: nat -> Option<nat>, now: nat) returns (client: Option<nat>, later: nat, tries: nat)
    ensures settingsFail ==> client.None? && tries == 0 && later == now
    ensures !settingsFail ==>
              && 1 <= tries <= DIAL_ATTEMPTS && client == opens(tries)
              && (forall k | 1 <= k < tries :: opens(k).None?)
              && (client.None? ==> tries == DIAL_ATTEMPTS)
              && later == now + (if tries == 1 then 0 else if tries == 2 then 1 else 1 + 4) * SECOND
  {
    client, later, tries := None, now, 0;
    if settingsFail {
      return;
    }
    var attempt := 1;
    while attempt <= DIAL_ATTEMPTS
      invariant 1 <= attempt <= DIAL_ATTEMPTS + 1 && tries == attempt - 1 && client.None?
      invariant forall k | 1 <= k < attempt :: opens(k).None?
      invariant later == now + (if attempt == 1 then 0 else if attempt == 2 then 1 else 1 + 4) * SECOND
    {
      tries := attempt;
      client := opens(attempt);
      if client.Some? {
        return;
      }
      if attempt < DIAL_ATTEMPTS {
        later := later + attempt * attempt * SECOND;
      }
      attempt := attempt + 1;
    }
  }

  class Connection {
    const client: nat
    const interval: int
    var active: bool
    var clientClosed: bool
    var keepalive: Keepalive

    ghost predicate Open()
      reads this
    {
      active && !clientClosed && keepalive != Stopped
    }

    constructor (client: nat, interval: int)
      ensures Open() && this.client == client && this.interval == interval
      ensures keepalive.Running? <==> KeepaliveArmed(interval)
    {
      this.client := client;
      this.interval := interval;
      active, clientClosed := true, false;
      keepalive := if KeepaliveArmed(interval) then Running else Off;
    }

    /** Safe to call again: a stop channel that is closed is not closed twice. */
    method Close()
      modifies this
      ensures !active && clientClosed
      ensures keepalive == if old(keepalive).Off? then Off else Stopped
    {
      if keepalive != Off {
        keepalive := Stopped;
      }
      clientClosed := true;
      active := false;
    }
  }

  class ConnectionManager {
    var connections: map<string, Connection>
    var configs: map<string, SSHConfig>
    /** Every connection ever opened, for framing. */
    ghost var footprint: set<Connection>

    /** Between calls, every entry is an open connection of its own. */
    ghost predicate Valid()
      reads this, footprint
    {
      && (forall h | h in connections :: connections[h] in footprint && connections[h].Open())
      && (forall h, k | h in connections && k in connections && h != k :: connections[h] != connections[k])
    }

    /** The hosts with a live connection. */
    function Live(): set<string>
      reads this, footprint
      requires Valid()
    {
      set h | h in connections && connections[h].active
    }

    /** Between calls, every entry counts. */
    lemma LiveIsAll()
      requires Valid()
      ensures Live() == connections.Keys
    {
    }

    constructor ()
      ensures Valid() && Live() == {} && configs == map[] && fresh(footprint)
    {
      connections, configs, footprint := map[], map[], {};
    }

    method SetConfigs(configs: map<string, SSHConfig>)
      requires Valid()
      modifies this`configs
      ensures Valid() && this.configs == configs && Live() == old(Live())
    {
      this.configs := configs;
    }

    method IsActive(host: string) returns (active: bool)
      requires Valid()
      ensures active <==> host in Live()
    {
      active := host in connections && connections[host].active;
    }

    /** `dialed` is what Dial yields. */
    method Connect(host: string, dialed: Option<nat>) returns (connected: bool)
      requires Valid()
      modifies this`connections, this`footprint
      ensures Valid() && fresh(footprint - old(footprint))
      ensures connected <==> host in configs && (host in old(Live()) || dialed.Some?)
      ensures Live() == old(Live()) + if connected then {host} else {}
      ensures host in old(Live()) || !connected ==> connections == old(connections)
      ensures connected && host !in old(Live()) ==>
                && fresh(connections[host]) && connections[host].client == dialed.value
                && connections[host].interval == configs[host].serverAliveInterval
      ensures connections - {host} == old(connections) - {host}
    {
      if host !in configs {
        return false;
      }
      var active := IsActive(host);
      if active {
        return true;
      }
      if dialed.None? {
        return false;
      }
      var _ := Publish(host, dialed.value, configs[host].serverAliveInterval);
      return true;
    }

    /** The locked half of Connect, in whatever state dialing leaves it to: the host may be live by
        now. Yields the client that had to be closed again, if any. */
    method Publish(host: string, client: nat, interval: int) returns (discarded: Option<nat>)
      requires Valid()
      modifies this`connections, this`footprint
      ensures Valid() && fresh(footprint - old(footprint))
      ensures discarded == if host in old(Live()) then Some(client) else None
      ensures Live() == old(Live()) + {host}
      ensures discarded.Some? ==> connections == old(connections)
      ensures discarded.None? ==>
                && fresh(connections[host]) && connections - {host} == old(connections) - {host}
                && connections[host].client == client && connections[host].interval == interval
    {
      if host in connections && connections[host].active {
        return Some(client);
      }
      var connection := new Connection(client, interval);
      connections := connections[host := connection];
      footprint := footprint + {connection};
      return None;
    }

    /** Takes the entry out first and closes its connection after. */
    method Disconnect(host: string) returns (known: bool)
      requires Valid()
      modifies this`connections, footprint
      ensures Valid()
      ensures known <==> host in old(Live())
      ensures connections == old(connections) - {host} && Live() == old(Live()) - {host}
      ensures known ==> old(connections[host]).clientClosed
    {
      known := host in connections;
      if known {
        var connection := connections[host];
        connections := connections - {host};
        connection.Close();
      }
    }

    /** Removal by identity: an entry with a newer connection is left alone. */
    method Forget(host: string, connection: Connection)
      modifies this`connections
      ensures connections ==
              if host in old(connections) && old(connections)[host] == connection
              then old(connections) - {host} else old(connections)
    {
      if host in connections && connections[host] == connection {
        connections := connections - {host};
      }
    }

    method GetActiveConnections() returns (hosts: seq<string>)
      requires Valid()
      ensures Sorted(hosts) && |hosts| == |Live()|
      ensures forall h :: h in hosts <==> h in Live()
    {
      var found := InSomeOrder(set h | h in connections && connections[h].active);
      hosts := SortStrings(found);
    }
  }
}
