/** The tool server as a client of the rest: the handshake, which may come again, and the report on
    one command. */
module Server {
  import opened Text
  import opened HostConfig
  import opened HostTable
  import opened Includes
  import opened Reload
  import opened ConfigFiles
  import opened Sorting
  import opened Connections
  import opened Exec
  import opened Session

  /** The reply to a tool call: an error, or content that may be flagged as one. */
  datatype Reply = Error | Content(outcome: Outcome, isError: bool)

  class Server {
    const parser: ConfigParser
    const session: SessionManager

    ghost predicate Valid()
      reads this, parser, parser.footprint, session, session.connections, session.connections.footprint
    {
      && parser.Valid() && session.Valid()
      // The hosts that can be connected to are those of the last table.
      && session.connections.configs == parser.configs
    }

    constructor (home: string -> string)
      ensures Valid() && parser.past == [] && parser.home == home
    {
      parser := new ConfigParser(home);
      var connections := new ConnectionManager();
      session := new SessionManager(connections);
    }

    /** A failed load leaves the table alone. One that succeeds gives the table of the files just read,
        and nothing else, exactly when they supersede what earlier handshakes have read, as the same
        files do, repaired or not. The session manager has the same table. Live connections stay. */
    method Initialize(files: Files) returns (status: Status)
      requires Valid()
      modifies parser, parser.footprint, session.connections`configs
      ensures Valid() && parser.past == old(parser.past) + [files]
      ensures status == ReadAll(files).status
      ensures status != Done ==> parser.order == old(parser.order) && parser.configs == old(parser.configs)
      ensures status == Done ==>
                (parser.ShowsOnly(files) <==>
                 Superseded(parser.home, Flatten(Loads(old(parser.past))), Group(ReadAll(files).events)))
      ensures status == Done && (forall before | before in old(parser.past) :: Repairs(before, files)) ==>
                parser.ShowsOnly(files)
      ensures session.connections.Live() == old(session.connections.Live()) && session.activeHost == old(session.activeHost)
    {
      status := parser.ParseConfigFiles(files);
      if status == Done {
        session.SetConfigs(parser.configs);
      }
    }

    /** Of the hosts GetConfig knows under some spelling, Connect knows exactly those that are spelled
        as the table spells them. */
    lemma ConnectsByOwnName(host: string, answer: Option<SSHConfig>)
      requires Valid() && LookupAnswer(parser.home, parser.settled, host, answer)
      ensures host in session.connections.configs <==> answer.Some? && answer.value.host == host
      ensures host in session.connections.configs <==> host in parser.order
    {
      KnownByOwnName(parser.home, parser.settled, host, answer);
    }

    /** Runs the command as it was given on the named host, or on the current one, and reports its
        outcome; `sent` are the command lines and `target` is the host. It fails without an outcome
        exactly when nothing was run or the last attempt broke. */
    method ExecCommand(command: string, host: string, timeoutSetting: Option<int>, outputSetting: Option<int>, first: Attempt, second: Attempt, now: nat)
      returns (reply: Reply, ghost sent: seq<string>, ghost target: string)
      requires Valid()
      modifies session`activeHost, session.connections`connections, session.connections.footprint
      ensures Valid()
      ensures command == "" ==> reply == Error && sent == [] && session.activeHost == old(session.activeHost)
      ensures command != "" && host != "" ==> target == host && session.activeHost == old(session.activeHost)
      ensures command != "" && host == "" ==>
                target == session.activeHost && RefreshedTo(old(session.activeHost), old(session.connections.Live()), target)
      ensures sent == [] <==> command == "" || target !in old(session.connections.Live())
      ensures sent == [] ==> reply.Error?
      ensures sent != [] ==>
                Attempted(if reply.Content? then Some(reply.outcome) else None, target, command, sent, first, second,
                          ExecTimeout(timeoutSetting), ExecMaxOutputBytes(outputSetting))
      ensures reply.Content? ==>
                (!reply.isError <==> SucceedsIn(if |sent| == 2 then second else first, ExecTimeout(timeoutSetting)))
      ensures session.connections.Live() == old(session.connections.Live()) -
              if reply.Content? && reply.outcome.connectionClosed then {target} else {}
    {
      sent, target := [], "";
      if command == "" {
        return Error, sent, target;
      }
      var result, _, ran, lines := session.Execute(command, host, timeoutSetting, outputSetting, first, second, now);
      sent, target := lines, ran;
      if result.None? {
        return Error, sent, target;
      }
      OutcomesExclude(result.value, target, command, sent, first, second, ExecTimeout(timeoutSetting), ExecMaxOutputBytes(outputSetting));
      var failed := result.value.timedOut || result.value.exitCode != 0;
      return Content(result.value, failed), sent, target;
    }
  }
}
