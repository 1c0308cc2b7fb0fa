# SSH bridge model

A Dafny model of the parts of kimi-ssh that decide which hosts exist, which connections are open and
what became of a command, with proofs of what they promise.

| file | models |
|---|---|
| `Text.dfy` | the string library in use: fields, lines, substring search, ASCII folding, decimal numbers, 64-bit wrap-around |
| `Glob.dfy` | `globMatch`: the iterative matcher, against a recursive definition of "pattern covers alias" |
| `HostConfig.dfy` | lines, keywords (`KeywordsDiffer`: no two are confused), host blocks and the rule "first obtained value wins" |
| `HostTable.dfy` | the table of connectable aliases, one per class of spellings, and why copies of earlier loads change nothing |
| `Includes.dfy` | what reading files with Includes means: a stream of Host lines and directives, and the blocks it falls into |
| `Reading.dfy` | which files a load opens and what it takes from each, by the text of the files |
| `FileToEntry.dfy` | from the text of a file to the fields of an entry |
| `Reload.dfy` | what a load shows when earlier loads of other contents have left their blocks behind |
| `Reopening.dfy` | when a load can open a path more than once |
| `ConfigFiles.dfy` | `ConfigParser` as objects: the loader that fills blocks through a shared current block, the nested-loop resolver, the index |
| `Shell.dfy` | the command line sent to the remote shell, against a reader of POSIX shell words |
| `Output.dfy` | the bounded output buffer |
| `Exec.dfy` | one command: the attempt under `timeout`, the client's backstop, the fallback attempt, all with symbolic delays |
| `Connections.dfy` | connections and the connection manager, one completed call at a time |
| `Interleaving.dfy` | the same calls as atomic steps of any number of threads |
| `Progress.dfy` | what each of these calls comes to, alone and whatever else is going on |
| `Sorting.dfy` | sorted host lists |
| `Session.dfy` | the current host, one completed call at a time |
| `SessionInterleaving.dfy` | the current host under concurrency, over calls of the connection manager that are one step each |
| `WholeSystem.dfy` | the two state machines together: the manager's inner steps come to no more than those single steps |
| `SessionProgress.dfy` | what session calls come to, alone |
| `WholeProgress.dfy` | the same with every step of the connection manager |
| `Locks.dfy` | the two read-write locks: what each call does with them, and that no set of calls blocks itself |
| `Server.dfy` | the tool server as a client of the above: repeated handshakes and the report on a command |

Code that changes state step by step is a class or a method with loops, proved against a specification
function; the laws are lemmas about those functions. `ConfigParser` methods equate what the objects hold
with `ReadAll`, `Group`, `Order` and `Table`. The concurrent modules are state machines: `After(events)` is the
state after any sequence of steps of any calls, so a lemma about `After(events)` is about every run.

The functions that say what the code does are themselves held against statements that do not use them: the keywords,
constants, exit codes and characters by their own literals (`FirstLineSetsField`, `SettingsInForce`,
`OutcomesExclude`, `LiteralIs`), the loader by the files it must reach and the lines it must take from them
(`ReachedIsOpened`, `LoadConserves`), the state machines by where each call ends (`Progress.dfy`, `SessionProgress.dfy`, `WholeProgress.dfy`).

What comes from outside is a parameter: the contents of files, canonical paths, wildcard expansion and the
home directory (`Files`, `home`), the result of dialing, the environment settings, and the delays, exit
status and output of each attempt (`Attempt`).

## Where code and comments differ

The model follows the code.

- `globMatch` (internal/ssh/config.go:102) compares literally before it looks for `*`, so a `*` in the alias
  can use up the pattern's star. `CorrectExactlyWithoutStar` says that the aliases on which the matcher is right
  for every pattern are exactly those without `*`; `AppliesByGlob` that every alias the resolver uses is one.
- On the backstop path the error of the session is thrown away (internal/ssh/exec.go:204, 243-245), so the exit
  code is 0, where the field's comment says -1. `MinusOneExactly` says when a missing status reads -1, and `BackstopReadsZero`
  gives an outcome where it does not; such an outcome is still reported as failed.
- The session manager does hold its lock while it calls the connection manager
  (internal/session/manager.go:60-64, 105-107). `Locks.ProgramNeutral` and `SomeCallCanStep` prove that this is harmless.
- `configFor` (internal/ssh/connection.go:196) looks hosts up exactly; only `GetConfig` ignores case. `ConnectsByOwnName` says which
  of the hosts the one knows are known to the other; `OtherSpellingHasNoEntry` is one that is not.
- A second load appends to the blocks of the first (internal/ssh/config.go:291), so it need not show the files it
  has just read. `LatestShownExactly` says when it does: exactly when the earlier aliases begin the new order and
  every value read earlier for a new alias is the one the alias has anyway. Unchanged and repaired files meet this
  (`RepairedIsSuperseded`); `EditedFileIsStale` is a file with an edited port, and then with all lines deleted, that
  does not. `ParseConfigFiles` and `Initialize` carry the condition.
- Very large settings wrap around. `TimeoutAsConfigured` gives the exact range of the command's deadline,
  `WaitAsConfigured` the slightly smaller one of the client's wait, beyond which the wait can drop to nothing, and
  `KeepaliveAsConfigured` that of the keepalive period. `Execute` itself is modelled for every setting.
- The guard against files reached twice needs a canonical path (internal/ssh/config.go:213), and without one a file that
  includes itself is opened again at every depth, nine times in all (`SelfIncludeLoops`). `OpenedTwiceExactly` says that
  the paths some load can open twice are exactly those without a canonical form.

## Model

| member | source | states |
|---|---|---|
| Glob.GlobMatch | internal/ssh/config.go:89-123 | for every alias without `*` the backtracking loop answers true exactly when the recursive relation `Matches` holds of the folded strings; the loop goes round at most alias·(pattern+1)+pattern times |
| Glob.LastStarIsEnough | internal/ssh/config.go:105-113 | once a later star has been reached, retrying an earlier one finds no match the later one misses |
| Glob.TooShort | internal/ssh/config.go:119-122 | when the alias runs out, nothing but stars may be left: no shorter use of the last star would help |
| Glob.ScanDecides | internal/ssh/config.go:100-122 | from every state the loop can be in, it decides whether what is left of the alias matches what is left of the pattern |
| Glob.StarInAliasMisleads | internal/ssh/config.go:102-108 | for every alias with a `*` there is a pattern that matches by definition and that the loop rejects |
| Glob.CorrectExactlyWithoutStar | internal/ssh/config.go:89-123 | the matcher agrees with the definition on all patterns if and only if the alias has no `*` |
| Glob.MatchesIs | internal/ssh/config.go:86-88 | the relation itself: a star takes any run of characters, a question mark one, any other character itself |
| HostConfig.DirectiveTokens | internal/ssh/config.go:394-410 | a line is a directive exactly when two tokens precede a comment; its value splits into the very tokens between keyword and comment |
| Text.FieldsOfConcat | internal/ssh/config.go:395 | white space parts tokens |
| Text.FieldsOfOne | internal/ssh/config.go:395 | and nothing else does |
| Text.SpacesAre | internal/ssh/config.go:395 | white space is the six ASCII characters |
| Text.LowerIs | internal/ssh/config.go:409 | folding turns the 26 capitals into small letters and leaves all else |
| Text.AtoiTakes | internal/ssh/config.go:379 | an interval may have a sign and zeros in front; the minus sign negates |
| Text.AtoiOfNumber | internal/ssh/config.go:379 | a number is read as itself, within 64 bits |
| Text.AtoiRejects | internal/ssh/config.go:379-382 | anything but digits after the sign is an error |
| HostConfig.AppliesByGlob | internal/ssh/config.go:55-71 | for every alias without `*`, a block covers it exactly when some pattern without an exclamation mark in front matches it by definition and none with one does |
| HostConfig.LiteralIs | internal/ssh/config.go:76-84 | a pattern is a literal alias exactly when it is not empty, has no exclamation mark in front and no `*` or `?` inside |
| HostConfig.CommentIs | internal/ssh/config.go:397-403 | a comment begins at the first token with a number sign in front |
| HostConfig.LiteralCoversItself | internal/ssh/config.go:76-84 | a literal alias is covered by the pattern it came from, in any spelling |
| HostConfig.FirstObtainedWins | internal/ssh/config.go:330-355 | a field holds the value of the first directive, by block and then by line, that applies and is understood; one with an unreadable interval does not claim its keyword and `ProxyCommand none` does |
| HostConfig.DefaultWhenNoneObtained | internal/ssh/config.go:331-335 | without such a directive the field holds its default |
| HostConfig.ConfiguredStep | internal/ssh/config.go:344-351 | writing one more directive, if its keyword is still open and it is understood, keeps the entry equal to "first understood value per keyword" |
| HostTable.OrderIsFirstSpellings | internal/ssh/config.go:298-319 | the aliases are the literal patterns that open their class of spellings, in order of first appearance, pairwise distinct when folded, and they cover every class |
| HostTable.CandidatesAreLiteral | internal/ssh/config.go:303-308 | the aliases considered are exactly the patterns of Host lines that are not empty, have no exclamation mark in front and no wildcard inside |
| HostTable.ApplicableIgnoresCase | internal/ssh/config.go:310-313 | two spellings of an alias are given the same settings, so dropping the later spelling loses nothing |
| HostTable.LookupByEntry | internal/ssh/config.go:429-441 | the one entry of a class answers for every spelling in it |
| HostTable.LookupIsUnique | internal/ssh/config.go:429-441 | a lookup has one right answer |
| HostTable.KnownByOwnName | internal/ssh/config.go:429-441 | a host known to the lookup has an entry of its own name if and only if it is spelled as in the order |
| HostTable.ValuesAbsorbed | internal/ssh/config.go:339-352 | copies, whole or cut short, of the blocks put in front of them change no first value |
| HostTable.SpellingsAbsorbed | internal/ssh/config.go:303-319 | nor the list of aliases |
| HostTable.EarlierLoadsAbsorbed | internal/ssh/config.go:156-170 | resolving the leftovers of any number of earlier loads together with the blocks gives the order and table of the blocks alone |
| Reload.EarlierLoadWins | internal/ssh/config.go:339-352 | over two loads, a field has the value of the earlier one, or that of the later one if the earlier left the keyword open |
| Reload.OrderOfConcat | internal/ssh/config.go:303-319 | over two loads, the order is the earlier one followed by the new classes of the later one |
| Reload.LatestShownExactly | internal/ssh/config.go:291-323 | order and table are those of the later load alone if and only if the earlier order begins the later one and no earlier value contradicts an entry of the later load |
| Reload.DeletedAliasStays | internal/ssh/config.go:291-323 | an alias of an earlier load stays in order and table whatever the later files say |
| Reload.EditedFileIsStale | internal/ssh/config.go:291-323 | after `Port 1` has been read, a load of `Port 2` shows port 1, and a load of the emptied file still offers the alias |
| Reload.OtherSpellingHasNoEntry | internal/ssh/connection.go:192-198 | with `Host a` on file, `A` is known to the lookup and has no entry |
| ConfigFiles.RepairedIsSuperseded | internal/ssh/config.go:156-170 | any number of loads of the same files, or of files repaired since, meet that condition |
| Includes.LineOfTokens | internal/ssh/config.go:230-246 | which lines are Host lines and Includes, and that their patterns and arguments are the tokens of the line |
| Includes.LoadOpensOnce | internal/ssh/config.go:205-222 | on any file system, cyclic Includes included, a load nests no deeper than eight levels and opens no path twice that has a canonical form |
| Reading.ReachedIsOpened | internal/ssh/config.go:159-167 | a load that goes through has opened every starting file, and every file named by an Include of a file opened less than eight levels deep, by its path or its canonical form |
| Reading.FailsExactly | internal/ssh/config.go:222-249 | a load fails if and only if the starting files cannot be listed or a file it opens cannot be read to its end; missing files do no harm |
| Reading.LoadConserves | internal/ssh/config.go:228-249 | the stream holds every Host line and setting of the opened files once per opening and nothing else; what a file without Includes says stands in it in one piece, in line order, at any depth |
| Reading.IncludeInPlace | internal/ssh/config.go:238-241 | the lines of an included file come where the Include stands |
| Reading.LoadIsText | internal/ssh/config.go:205-267 | whatever a load has read is one text without Includes, made of lines of opened files |
| Reading.PlainFileIsText | internal/ssh/config.go:228-249 | a single file without Includes is its own text |
| FileToEntry.FirstLineSetsField | internal/ssh/config.go:330-389 | over that text, the field named "hostname", "port", "user", "identityfile", "proxyjump", "proxycommand" or "serveraliveinterval" holds the rest of the first line of that name, in any case, under a Host line that applies and with a value that can be taken |
| FileToEntry.NoLineLeavesDefault | internal/ssh/config.go:330-389 | without such a line the field holds its default: port 22, interval -1, otherwise empty |
| Reopening.SelfIncludeLoops | internal/ssh/config.go:205-267 | a file that includes itself and whose path has no canonical form is opened at each of the nine depths and no further |
| Reopening.OpenedTwiceExactly | internal/ssh/config.go:213-220 | some contents of the files make a load open the path twice if and only if the path has no canonical form |
| Reopening.NoneTwiceExactly | internal/ssh/config.go:213-220 | no load opens any path twice, whatever the files say, if and only if every path has a canonical form |
| Includes.GroupSpellsStream | internal/ssh/config.go:235-246 | the blocks, spelled out again, are the stream from its first Host line on: nothing is lost, invented or reordered |
| Includes.GroupOfSpelled | internal/ssh/config.go:235-246 | every list of blocks is the grouping of the stream it spells out |
| Includes.GroupOfPrefix | internal/ssh/config.go:156-167 | the blocks of a load that stops early are the blocks of the whole load, cut short |
| Includes.EarlierLoadIsCut | internal/ssh/config.go:156-167 | a load over the same files, or over files repaired since, has all blocks of the earlier load, finished or failed |
| ConfigFiles.HostBlock.AppliesTo | internal/ssh/config.go:55-71 | the loop with its early exit decides "some plain pattern and no negated one" |
| ConfigFiles.ConfigParser.OpenBlock | internal/ssh/config.go:289-293 | appends one new, empty block and leaves the others |
| ConfigFiles.ConfigParser.Fill | internal/ssh/config.go:242-246 | writing through the current block changes only the last block of the list; without a current block nothing changes |
| ConfigFiles.ConfigParser.LoadFile | internal/ssh/config.go:205-250 | status, files opened, paths marked and blocks are those of the flattened stream; before and after, the current block is the last one of this load or there is none |
| ConfigFiles.ConfigParser.LoadLines | internal/ssh/config.go:228-249 | the same for the scanning loop |
| ConfigFiles.ConfigParser.LoadIncludes | internal/ssh/config.go:255-267 | the same for the arguments of an Include; missing files are skipped and any other failure ends the load |
| ConfigFiles.ConfigParser.LoadTargets | internal/ssh/config.go:160-167 | the same for a list of files |
| ConfigFiles.ConfigParser.ApplySetting | internal/ssh/config.go:360-389 | which settings are understood, and that others leave the entry alone |
| ConfigFiles.ConfigParser.Resolve | internal/ssh/config.go:330-355 | the nested loops compute the entry of the rule "first understood value" over the blocks as they are |
| ConfigFiles.ConfigParser.ResolveAll | internal/ssh/config.go:298-323 | order and table become those of all blocks |
| ConfigFiles.ConfigParser.ParseConfigFiles | internal/ssh/config.go:143-171 | the blocks grow by the grouping of the flattened stream, also when loading fails; table and order then change only on success; they are those of the files just read if and only if these supersede all earlier loads, as the same or since repaired files do |
| ConfigFiles.ConfigParser.GetConfig | internal/ssh/config.go:429-441 | finds the entry of the host's class under any spelling, and none exactly when there is none |
| ConfigFiles.ConfigParser.OrderedConfigs | internal/ssh/config.go:419-425 | the entries, in order |
| Shell.QuoteReads | internal/ssh/exec.go:328-330 | a POSIX shell reads the quoted text as one word, the text itself |
| Shell.QuoteIsInjective | internal/ssh/exec.go:328-330 | different texts are quoted differently |
| Shell.WrappedReads | internal/ssh/exec.go:321-324 | for every command and timeout the shell reads seven words, none with an unquoted special character; the last is the command, and the third and fourth parse back to the two numbers of seconds |
| Shell.WrapIsInjective | internal/ssh/exec.go:321-324 | command and seconds can be read off the line |
| Shell.UnquotedIsRejected | internal/ssh/exec.go:326-330 | the reader takes none of the characters that are special to a shell unquoted |
| Shell.TimeoutSeconds | internal/ssh/exec.go:334-343 | the least positive number of seconds that is no shorter than the timeout |
| Output.CappedBuffer.Write | internal/ssh/exec.go:293-305 | whatever the chunks, the buffer holds the first bytes of the stream up to the limit and counts all of it |
| Output.LateDrain | internal/ssh/exec.go:212-217 | with a drain that goes on between the two reads, the text is still the beginning of the stream and the count never falls short of it |
| Output.TruncationIsOverflow | internal/ssh/exec.go:83-90 | truncation is reported exactly when more than the limit was written |
| Exec.OutcomeStreams | internal/ssh/exec.go:82-90 | an outcome's texts begin its streams and its counts cover them; a text not reported as truncated is all that was drained; without late output truncation is reported if and only if the stream exceeds the limit |
| Exec.TimeoutAsConfigured | internal/ssh/exec.go:310-315 | the deadline is the setting if and only if the setting fits 64 bits of nanoseconds |
| Exec.SettingsInForce | internal/ssh/exec.go:310-315 | without positive settings 120 s and 1048576 bytes apply, otherwise what is set, in milliseconds and bytes |
| Exec.WaitAsConfigured | internal/ssh/exec.go:147 | the client waits for setting and lead if and only if their sum fits; a setting that fits only alone leaves no wait at all |
| Exec.RemoteEndsFirst | internal/ssh/exec.go:29-39 | the remote deadline and kill-after window end more than four seconds before the client stops waiting, if and only if the client's deadline does not overflow |
| Exec.MissingRemoteTimeout | internal/ssh/exec.go:349-366 | matching line by line in lower case finds a notice exactly when the folded text contains one of the four |
| Exec.Run | internal/ssh/exec.go:131-229 | every field of the outcome in terms of what happened, for every timeout; the connection is closed, and unlisted if it is still the host's, exactly when the session was stuck; the wait is bounded, and no command is cut short |
| Exec.MinusOneExactly | internal/ssh/exec.go:58-60 | without a reported status the exit code is -1 if and only if the end of the session was delivered; otherwise it is 0, and still a failure |
| Exec.BackstopReadsZero | internal/ssh/exec.go:161-168 | an unanswered request: no status, exit code 0 |
| Exec.Execute | internal/ssh/exec.go:94-126 | one attempt, and a second with the bare command exactly after a delivered 127 with a notice; the outcome is the last attempt's; a dead connection has left the map and every other entry stays; the wait is at most 2T + 32 s when T and its lead fit 64 bits, and bounded by the client's wait in any case |
| Exec.OutcomesExclude | internal/ssh/exec.go:54-80 | RemoteKilled exactly for a delivered 124 or 137 of the wrapped attempt, and it excludes ConnectionClosed and NoRemoteTimeout; ConnectionClosed implies TimedOut; a delivered status is the exit code, unchanged; success exactly for a last attempt delivered with status 0; a second attempt exactly after a delivered 127 with a notice, over an open connection |
| Exec.DeliveredByDeadline | internal/ssh/exec.go:147-194 | what is in before timeout and ten seconds are over is delivered, and nothing after |
| Exec.StuckByGrace | internal/ssh/exec.go:203-209 | a session that does not unwind within three seconds of the kill is stuck, and no other |
| Connections.Dial | internal/ssh/connection.go:217-239 | yields the first client of at most three tries, with pauses of 1 and 4 seconds after the first two failures |
| Connections.KeepaliveAsConfigured | internal/ssh/connection.go:50-58 | pings come as often as configured if and only if the interval fits 64 bits of nanoseconds; then they are off exactly for interval 0 |
| Connections.LongIntervalsMislead | internal/ssh/connection.go:52-58 | an interval that turns keepalives off by overflow, and one that is pinged more than three times a second |
| Connections.Connection.Close | internal/ssh/connection.go:37-45 | stop channel, client and flag are all closed |
| Connections.ConnectionManager.Connect | internal/ssh/connection.go:110-144 | succeeds exactly for a known host that is live or can be dialed; then it is live with the dialed client, nothing else changes, and a live connection is kept |
| Connections.ConnectionManager.Publish | internal/ssh/connection.go:124-143 | whatever has happened during dialing: a host that is live by then keeps its connection and the new client is discarded, any other gets it |
| Connections.ConnectionManager.Disconnect | internal/ssh/connection.go:147-161 | takes out and closes that connection only |
| Connections.ConnectionManager.Forget | internal/ssh/exec.go:233-240 | unlists the host only while it still has this very connection |
| Connections.ConnectionManager.GetActiveConnections | internal/ssh/connection.go:165-177 | the live hosts, each once, sorted |
| Interleaving.RunsKeep | internal/ssh/connection.go:110-161 | the invariant of the connection lifecycle holds after every sequence of steps of any calls |
| Interleaving.EveryClientAccountedFor | internal/ssh/connection.go:110-161 | every client ever opened is live in the map under its host, held by one Connect, about to be closed, or closed, and only one of these |
| Interleaving.IdleAccounts | internal/ssh/connection.go:110-161 | once no call is in flight, the opened clients are the map's entries and the closed ones, and every entry is active and open |
| Interleaving.EntriesLeaveInOrder | internal/ssh/exec.go:233-240 | an entry leaves the map only by Disconnect or after its client was closed; Connect overwrites only the latter; a late forget never removes a newer connection |
| Interleaving.DroppedIsGone | internal/ssh/exec.go:161-210 | a connection reported as closed is closed and not in the map, whatever else runs |
| Interleaving.StopChannelClosedOnce | internal/ssh/connection.go:37-45 | however many calls close a connection, its stop channel is closed at most once, and before its client |
| Interleaving.EveryConnectionWasPublished | internal/ssh/connection.go:124-143 | in every run, each connection, and with it each keepalive, was made by one step: a Connect with an open client found no active entry for its host, and the new connection went straight into the map |
| Progress.TimedOutAlone | internal/ssh/exec.go:194-210 | a command that times out, by itself from any reachable state: its client closed, its flag cleared, its stop channel closed once, the host unlisted unless it has a newer connection, nothing else changed |
| Progress.ConnectAlone | internal/ssh/connection.go:110-144 | a Connect to a known host without a live connection, by itself: the host has an active connection with the new client, nothing else changed |
| Progress.ConnectElseAlone | internal/ssh/connection.go:110-122 | an unknown host and a failed dial fail, a live host succeeds, and none of them changes anything |
| Progress.LateConnect | internal/ssh/connection.go:127-132 | a Connect that finds another connection after dialing closes its own client and succeeds |
| Progress.DisconnectAlone | internal/ssh/connection.go:147-161 | a Disconnect, by itself: the host unlisted and its client closed, or a failure that changes nothing |
| Progress.CommandEndsAlone | internal/ssh/exec.go:191-229 | a command that ends in time leaves every connection alone |
| Progress.EveryStepAdvances | internal/ssh/connection.go:110-161 | in every run, each step of a call brings it nearer to its end, and no other call's step takes it back |
| Progress.SixStepsEndACall | internal/ssh/exec.go:94-229 | in every run, six steps of its own end any call |
| Progress.TimedOutIsDropped | internal/ssh/exec.go:194-210 | in every run, a call whose command times out can only end with its client closed and its connection in no entry |
| Progress.RemovedIsClosed | internal/ssh/connection.go:147-161 | in every run, what a Disconnect takes out stays out, and is closed once the call is over |
| Session.PickIsPicked | internal/session/manager.go:116-124 | the replacement is the least live host, or none |
| Sorting.LeqIsBytewise | internal/session/manager.go:114-124 | host names are ordered by the first byte in which they differ, and a beginning comes before the whole |
| Session.RefreshIsUnique | internal/session/manager.go:96-124 | the answer to which host is current is determined |
| Session.RefreshIsStable | internal/session/manager.go:96-112 | asking twice gives the same host, which is live unless none is |
| Session.SessionManager.GetActiveHost | internal/session/manager.go:96-112 | the current host while it is live, else the least live host, else none |
| Session.SessionManager.Connect | internal/session/manager.go:36-53 | a connected host becomes current, a failed call changes neither connections nor a current host that is live, and no host is set without a connection |
| Session.SessionManager.Disconnect | internal/session/manager.go:57-67 | the connection goes, and the current host changes exactly when it was that one |
| Session.SessionManager.Execute | internal/session/manager.go:71-81 | runs on the named or current host; without a live connection nothing is sent; keeps "no current host means no live connection" also when the connection is dropped |
| SessionInterleaving.RunsKeep | internal/session/manager.go:36-112 | in every interleaving, while the current host is cleared or about to be, every live host has a Connect about to make it current |
| SessionInterleaving.IdleWithoutHostIsDisconnected | internal/session/manager.go:36-112 | once no session call is in flight, no current host means no live connection |
| SessionInterleaving.AnswersAreJustified | internal/session/manager.go:96-112 | in every interleaving, a host that GetActiveHost answers was live at a moment of the call or made current by a Connect during it; when it answers none, at some moment of the call every live host had a Connect about to make it current |
| Interleaving.ActiveHostsStep | internal/ssh/connection.go:110-161 | of all inner steps, only publishing adds an active host, its own, and only removal and the end of a close take one away, their own |
| WholeSystem.RunsRefine | internal/session/manager.go:36-112 | every run of session calls over the manager's inner steps is, as seen from the session along the way, a run over single-step calls, and at the same time a run of the manager |
| WholeSystem.AnswersAreJustified | internal/session/manager.go:96-112 | the same over the manager's inner steps: the answered host had an active connection at a moment of the call, or a Connect to it had just succeeded |
| WholeSystem.IdleSystem | internal/session/manager.go:36-112 | in every such run, once no call is in flight: without a current host the map is empty and every client ever opened is closed; with one, the map holds exactly the open clients, all active |
| SessionProgress.SectionAlone | internal/session/manager.go:60-66 | the locked section, by itself, puts the least live host in the place of the current one it was entered for, and gives the lock back |
| SessionProgress.AskAlone | internal/session/manager.go:96-112 | a GetActiveHost, by itself, answers the current host while it is live and otherwise its replacement |
| WholeProgress.WholeConnect | internal/session/manager.go:36-53 | a Connect with all its steps: the host is current, listed and active with the new client |
| WholeProgress.WholeTimedOut | internal/session/manager.go:71-81 | an Execute that times out, with all its steps: the host unlisted, its client closed, the current host left as it was |
| WholeProgress.WholeDisconnect | internal/session/manager.go:57-67 | a Disconnect with all its steps: the client closed, the host unlisted, and the least active host current if it was the current one |
| Locks.CallsAreDisciplined | internal/session/manager.go:36-112 | every way through every call takes no lock twice and nothing inside the connection manager's lock, and gives everything back |
| Locks.WhoWrites | internal/ssh/connection.go:98-161 | the manager's lock is taken for writing by exactly the calls that change its maps, the session's by exactly those that may change the current host |
| Locks.RunsKeep | internal/session/manager.go:49-66 | over all runs of any calls the invariant of the locks holds |
| Locks.LocksExclude | internal/session/manager.go:49-66 | in every run, a lock held for writing has no other holder |
| Locks.SomeCallCanStep | internal/session/manager.go:96-112 | deadlock freedom: while any call is unfinished, some call can go on, also with writers that keep new readers out |
| Locks.ManagerLockIsInnermost | internal/ssh/connection.go:103-212 | no call waits for a lock while it holds the connection manager's |
| Server.Server.Initialize | internal/mcp/server.go:156-166 | success leaves the table of the files just read, in parser and session manager alike, if and only if they supersede what earlier handshakes have read, as the same or since repaired files do; failure leaves the table; live connections stay |
| Server.Server.ConnectsByOwnName | internal/ssh/connection.go:192-198 | of the hosts `GetConfig` knows, Connect knows exactly those spelled as the table spells them |
| Server.Server.ExecCommand | internal/mcp/server.go:307-360 | the command as given is sent, wrapped, to the named or current host, and the reply carries that host's outcome of it unchanged; an error exactly when nothing was run or the last attempt broke; a failure flag exactly unless the last attempt delivered status 0 in time; the host leaves the live ones exactly when its connection was closed |

## Left out

- Networking, handshakes, host keys, proxies and authentication: dialing is a parameter or a choice.
- JSON-RPC, tool schemas and the text of replies.
- Unicode folding and UTF-8: strings are sequences of characters, folded in ASCII, where `ToLower` and `EqualFold` agree.
- `filepath` and directory listing: `Files` gives canonical paths, the files an Include names and the files loading starts from.
- The limit on the length of a line in a scanner is one way for a file to be broken; which lines exceed it is not modelled.
- Identity of `*SSHConfig` entries: they are values, and a connection keeps only the interval it needs.
- Clocks and goroutines: delays are symbolic numbers, in which opening and closing sessions take no time; keepalive ticks are not steps.
- Data races in Go's memory model: the unsynchronised `active` flag is sequentially consistent in `Interleaving.dfy`.
- `GetActiveConnections` is one step: the source reads the flags one by one under the read lock while a close may clear them, so its list can hold a host that is gone by the end of it.
- 64-bit wrap-around of byte counters.
- Whether exit codes 124 and 137 come from `timeout` or from the command itself.
- Double quotes and expansions in the shell reader: a line with such characters unquoted is rejected rather than interpreted.
- Loop bodies of one source function that are methods of their own here (`LoadLine`, `Offer`, `FoldBlock`, `FindNotice`) have no separate rows.
