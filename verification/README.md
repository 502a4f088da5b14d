# A3S Bench: a verified model

This project models the parts of A3S Bench in which state, interleaving or arithmetic decide whether
a benchmark run can be trusted, and proves what they promise. `dafny verify dfyconfig.toml` checks all of it.

What the modules cover:

- `ClientHello`, `HelloReader`, `Relay`: the proxy between a sandboxed Candidate and the internet. A cursor-based
  parser of the TLS ClientHello against a printer; a reader that reassembles it from records and short reads; the
  relay as objects with mutable buffers, proved against a step machine over the bytes each side has sent and got.
- `GameServer`, `GameHandlers`, `GameProgress`, `GameRecords`, `GameJudge`: the protected game server as any number of requests
  whose atomic steps under the creation lock, the registry lock and the session locks interleave; the same sections
  over registry and session objects; why no request gets stuck; that what is recorded is what the environments
  answered; and the Judge that reads the history.
- `Cleanup`, `RunGuard`, `CodexEvents`: removal of Docker resources that may appear late, the guard that orders
  two fallible cleanups on every way out, and the automaton that reads the Codex event stream.
- `Journals`, `ResultStore`, `RunOutcomes`, `RunResults`, `LatestResult`, `BenchRun`, `Decimals`: the files of a run, the steps in which they
  are written, each of which may fail or be the last, any number of runs at once, what is reported and what is
  recorded of each of them, what can be read of it, the search for the latest result, and the texts of scores.
- `Submission`, `WorkspaceExport`: selection of the submitted files under limits, and its relation to the export
  that selects by the same limits in a different order.
- `JsonScan`, `Rescale`, `Redaction`: the brace scanner against a printer of JSON, the score scales over the reals,
  and the removal of secrets in several passes.
- `Wrappers`, `Sequences`, `Orders`: shared types and facts.

Code that updates objects in place is a class whose methods are proved against functions on values; statements over
whole runs are lemmas about those functions. The environment appears as arguments that range over everything it can
choose, so the lemmas hold for every network, disk, clock and schedule.

Where the code does not keep a promise, the project gives the input and the exact condition under which it does:

- A secret is removed by redaction if and only if it cannot overlap the marker that replaces secrets
  (`Redaction.RemovedExactlyWhenNotColliding`; for the lists made of credential files
  `Redaction.NeverShownExactlyWhenNotColliding`; with witnesses in `Redaction.CollidingSecretSurvives` and
  `Redaction.CollidingCredentialSurvives`).
- A journal accepts resolved inputs without bound locks and then writes a file it will not load
  (`Journals.WrittenFileLoadsIffAllowed`, `Journals.UnboundJournalIsLost`); the order of steps in a run avoids it.
- A run can be reported as failed although it is recorded: exactly if its completed journal was put in place and its
  synchronisation, or later the latest pointer or the printing, failed (`RunOutcomes.MisreportedExactlyWhen`).
  What is recorded, and what is left in the journal of a failed run, is `RunOutcomes.RecordedExactlyWhen` and
  `RunOutcomes.JournalOfAFailedRun`; among any number of runs, `RunOutcomes.ReportAndRecord` and
  `RunOutcomes.RecordedInHistoryExactlyWhen`.
- Export and submission sort paths differently, as text and by component. They select the same files under every
  policy if and only if no two files outside the reserved directory are swapped by this
  (`WorkspaceExport.SelectAlikeExactlyWhen`,
  `WorkspaceExport.OrdersAgreeExactlyWhen`, with a witness in `WorkspaceExport.SwappedFilesCompete`).
- The cleanup takes a resource for absent although it reappeared, exactly if the removal of that turn was the only
  one to see it and undid it at once (`Cleanup.PresenceRestartsExactlyWhen`, `Cleanup.SpanSawNothingExactlyWhen`,
  `Cleanup.UndonePresencesAreInvisible`); `Cleanup.RemoveReappearing` succeeds in a world where everything
  reappears in every turn.
- Smaller raw scores are better on a minimising scale, except below its cut-off, where they are worth nothing: a
  smaller one is not worse if and only if it is above the cut-off or the greater one is worth nothing as well
  (`Rescale.SmallerIsNotWorseExactlyWhen`, `Rescale.MinimisingFallsExactlyWhen`).
- The check for canonical scores accepts more than one text for some numbers: exactly those that differ in a dot
  without digits after it or in the sign of zero (`Decimals.SameNumberExactlyWhen`, `Decimals.NotAlwaysOneText`).

## Model

| member | source | states |
|---|---|---|
| `Relay.RelayIsFaithful` | runtime_assets/codex_connect_proxy.py:470-606 | over every run from the start: what came in from each side is exactly the first parts of what its socket offered, taken turn by turn as far as chunk, buffer and budget allow; what each side was given is exactly what the turns sent, and a prefix of what the other side gave (preface first); a write side that was shut down had got everything and its source is closed; both buffers and the byte budget stay within their limits |
| `Relay.TurnMoves` | runtime_assets/codex_connect_proxy.py:525-602 | one turn, from either socket: a readable, watched and open side that is reached gives the first part of what it offers, all of it as far as there is room; the end of the stream is found only if it offers nothing; a send gives the first of the pending bytes, as many as the socket takes; nothing else moves |
| `Relay.RunMoves` | runtime_assets/codex_connect_proxy.py:555-602 | over a run what came in and what was given is the concatenation of these parts |
| `Relay.DrainedSidesAreShut` | runtime_assets/codex_connect_proxy.py:567-578 | a side whose source is closed and drained is shut down by the next turn that does not leave before, and no other side is |
| `Relay.TurnStopsExactlyWhen` | runtime_assets/codex_connect_proxy.py:556-604 | why a turn ends the relay: the time limit; the budget spent or both sides closed with nothing pending; nothing to read or write; a call that failed; and never an empty selector |
| `Relay.RunKeeps` | runtime_assets/codex_connect_proxy.py:489-602 | every turn, whatever the sockets do, keeps the invariant of both pipes: delivered plus pending is exactly what came in, a read side closes without end of stream only when the budget is spent, shut-down pipes are drained |
| `Relay.CleanExitDeliversEverything` | runtime_assets/codex_connect_proxy.py:562-565 | leaving because the budget is spent or because both sides are closed leaves nothing undelivered in either direction |
| `Relay.RunNeverFindsNothing` | runtime_assets/codex_connect_proxy.py:580-583 | the selector map is never empty when it is tested, so that exit is never taken |
| `Relay.RunFollows` | runtime_assets/codex_connect_proxy.py:567-602 | histories only grow, a closed read side stays closed and lets nothing in, a pipe whose write side is shut down never changes again |
| `Relay.TurnSpends` | runtime_assets/codex_connect_proxy.py:525-602 | a turn that moves a byte or closes a side decreases twice the budget left plus both buffer lengths plus the open read sides |
| `Relay.ProductiveTurnsAreBounded` | runtime_assets/codex_connect_proxy.py:555-602 | the number of productive turns of any run is at most that measure at its start |
| `Relay.AcceptedHelloIsRelayed` | runtime_assets/codex_connect_proxy.py:435-480 | a ClientHello that the reader accepts fits the relay, and its bytes come first in what upstream is given |
| `Relay.RelayTunnel` | runtime_assets/codex_connect_proxy.py:470-487 | a preface longer than a buffer is refused; otherwise the loop ends in the state and for the reason that the step machine gives |
| `Relay.Tunnel.RunLoop` | runtime_assets/codex_connect_proxy.py:555-604 | the loop over mutable buffers and flags does, round for round, what the step machine does |
| `Relay.Tunnel.RunTurn` | runtime_assets/codex_connect_proxy.py:556-602 | one turn: exit tests in their order, shutdown of drained sides, registration, then the events of both sockets |
| `Relay.Tunnel.ReadInto` | runtime_assets/codex_connect_proxy.py:525-544 | takes the first bytes the socket has, no more than chunk, buffer and budget allow, counts them, and tells whether the side stays open |
| `Relay.Tunnel.HandleEvents` | runtime_assets/codex_connect_proxy.py:591-602 | the read and write events of one socket, in that order, each under its own guard |
| `Relay.Tunnel.Refresh` | runtime_assets/codex_connect_proxy.py:512-523 | a socket is registered exactly with what it is interested in, and not at all without interest |
| `Relay.Tunnel.Interests` | runtime_assets/codex_connect_proxy.py:489-510 | watched for reading only while open, with room in the buffer and in the budget; for writing only while bytes are pending and the side is not shut down |
| `Relay.Direction.WriteFrom` | runtime_assets/codex_connect_proxy.py:546-554 | hands over a prefix of the pending bytes and keeps the rest |
| `Relay.Direction.ShutDownWhenDrained` | runtime_assets/codex_connect_proxy.py:567-578 | a write side is shut down exactly when its source is closed and nothing is pending |
| `HelloReader.VerdictIgnoresSplitting` | runtime_assets/codex_connect_proxy.py:435-467 | for any cutting of one handshake message into valid records that fit the limit (section 5.1 of RFC 8446), the verdict is the verdict on the body, and what is returned is exactly those records |
| `HelloReader.AcceptedAreRecords` | runtime_assets/codex_connect_proxy.py:441-467 | what is accepted is a sequence of valid records carrying a ClientHello for the expected host; only the last record can hold bytes beyond it |
| `HelloReader.CollectedAreRecords` | runtime_assets/codex_connect_proxy.py:441-462 | the reading loop takes whole records, at most 65536 bytes of them, and stops with the first that completes the message |
| `HelloReader.RefusedAtTheRecord` | runtime_assets/codex_connect_proxy.py:441-462 | after records that leave the message unfinished, the next one is refused exactly for one of these reasons, checked in this order: fewer than five bytes, a header that is not of a handshake record, too many bytes in all, a cut payload, a message that is no ClientHello, an announced size over the limit |
| `HelloReader.RefusedHasReason` | runtime_assets/codex_connect_proxy.py:441-462 | every stream that yields no message is refused in this way |
| `HelloReader.ReadAuthorizedClientHello` | runtime_assets/codex_connect_proxy.py:435-467 | returns exactly the bytes taken from the socket; unless the socket fails the outcome depends on the bytes alone and not on how the network cuts them |
| `HelloReader.ReadRecord` | runtime_assets/codex_connect_proxy.py:442-455 | one record and its checks, the size limit counting what was read before |
| `HelloReader.ReadExact` | runtime_assets/codex_connect_proxy.py:357-368 | exactly the next bytes asked for, over any number of short reads; end of stream only when too few are left |
| `HelloReader.ClientSocket.Recv` | runtime_assets/codex_connect_proxy.py:364-366 | a receive yields a nonempty prefix of what is left, or nothing exactly at the end of the stream |
| `ClientHello.AcceptsExactlyThePrintedBodies` | runtime_assets/codex_connect_proxy.py:371-432 | a body is accepted with a name exactly when it is the printing of a ClientHello (section 4.1.2 of RFC 8446) with one server_name extension (section 3 of RFC 6066) holding one host name that lowercases to it |
| `ClientHello.ParseUndoesPrint` | runtime_assets/codex_connect_proxy.py:387-432 | every printed well-formed hello with exactly one host name yields that name in lower case |
| `ClientHello.AcceptedIsPrinted` | runtime_assets/codex_connect_proxy.py:387-432 | every accepted body has such a structure, which is constructed |
| `ClientHello.ServerNameAccepted` | runtime_assets/codex_connect_proxy.py:413-429 | the value of a server_name extension is accepted only if it is the entry of a host name whose lowercase form is canonical |
| `ClientHello.DnsHostIsAscii` | runtime_assets/codex_connect_proxy.py:424-429 | the two further tests on a name, for ASCII and for a final dot, never reject one that matches the pattern |
| `ClientHello.HostsByPosition` | runtime_assets/codex_connect_proxy.py:47-50 | the accepted host names by position: at most 253 bytes, letters and digits with hyphens between them, dots with a letter or digit on both sides, and a dot among any 64 bytes |
| `ClientHello.LowerByPosition` | runtime_assets/codex_connect_proxy.py:414-432 | the name is lowered letter by letter |
| `ClientHello.ClientHelloSni` | runtime_assets/codex_connect_proxy.py:371-432 | the cursor code over the body computes the recursive parser, with the same error at the same place |
| `ClientHello.ServerNameIn` | runtime_assets/codex_connect_proxy.py:398-432 | the loop over the extensions block never reads outside it, ends, and computes the recursive parser of extensions |
| `ClientHello.ReadServerName` | runtime_assets/codex_connect_proxy.py:413-429 | one server_name value: the list, its single entry, its type, its length |
| `ClientHello.Cursor.Take` | runtime_assets/codex_connect_proxy.py:375-381 | moves by the size asked for and returns those bytes, or fails without moving |
| `ClientHello.Cursor.TakeVector` | runtime_assets/codex_connect_proxy.py:383-385 | splits off one length-prefixed vector |
| `GameServer.RegistryIsBounded` | runtime_assets/game_server_app.py:162-199 | over every interleaving of any number of requests the registry holds at most max_active_sessions sessions |
| `GameServer.EveryGameIsInOnePlace` | runtime_assets/game_server_app.py:92-116 | over every interleaving each number handed out is in exactly one of registry, an archiving queue, or history, no other number is anywhere, and the three sizes add up to next_game_number - 1 |
| `GameServer.QuietServerLosesNothing` | runtime_assets/game_server_app.py:162-260 | once every request has been served, each created game is registered or archived, exactly once |
| `GameServer.EvictionTakesOldest` | runtime_assets/game_server_app.py:167-176 | a full registry gives up its smallest game number, which goes to the request that evicts it; the others stay |
| `GameServer.ArchivedIsFinal` | runtime_assets/game_server_app.py:92-116 | from any good state on, archived sessions, history entries and replies never change |
| `GameServer.RepliesMatchHistory` | runtime_assets/game_server_app.py:244-250 | every close response reports the values of the one history entry of its game |
| `GameServer.ReachableSessionsAreConsistent` | runtime_assets/game_server_app.py:201-235 | in every reachable state moves equals the number of recorded steps, score is the last one (0 without), peak is the largest of 0 and all scores, and only the last step can be done; history entries agree |
| `GameRecords.SessionsRecordTheAnswers` | runtime_assets/game_server_app.py:205-225 | over every interleaving the recorded moves of a session are exactly the accepted step requests of its game with the actions, scores and end marks that the environment answered, in order; its score is the last of these scores |
| `GameRecords.HistoryRecordsTheAnswers` | runtime_assets/game_server_app.py:92-116 | so are those of every history entry; its final score is the last answer, its pass rate that score by the maximum of its session |
| `GameRecords.MoveIsRecorded` | runtime_assets/game_server_app.py:205-225 | an accepted move sets score and end mark to the answers of the environment, raises the peak to the score, and records exactly this; nothing else changes |
| `GameRecords.MoveIsRefused` | runtime_assets/game_server_app.py:206-207 | a move in a session that is over or archived is refused and changes nothing |
| `GameRecords.GameBegins` | runtime_assets/game_server_app.py:178-197 | a game begins with the maximum that its environment answered, and without moves |
| `GameRecords.NewGameIsRegistered` | runtime_assets/game_server_app.py:188-198 | it is registered last, under the next number and the identifier of its request |
| `GameRecords.TakenOutExactlyWhen` | runtime_assets/game_server_app.py:162-258 | a registered session leaves the registry exactly as the oldest of a full one, after the move that ended it, when it is closed, or when all are |
| `GameRecords.CloseRequestsAreAnswered` | runtime_assets/game_server_app.py:244-250 | once every request has been served, the close requests that took a session out have been answered, each once, and no other answer was given |
| `GameRecords.StepFindsItsGame` | runtime_assets/game_server_app.py:203-204 | a step request goes on with the session registered under its identifier, or ends |
| `GameRecords.CloseFindsItsGame` | runtime_assets/game_server_app.py:245-248 | a close request archives the session registered under its identifier, or ends |
| `GameRecords.FinishedGameIsArchived` | runtime_assets/game_server_app.py:226-234 | after a move the session is archived exactly if the move ended the game and the session is still registered |
| `GameRecords.CloseAllTakesAll` | runtime_assets/game_server_app.py:255-258 | closing all takes the sessions in registration order |
| `GameRecords.ArchivingGoesOn` | runtime_assets/game_server_app.py:92-116 | sessions are archived one by one, values first and the entry in a section of its own, and then the request goes where it has to |
| `GameServer.RunKeeps` | runtime_assets/game_server_app.py:142-260 | the invariant over registry, queues, history, sessions, locks and threads holds after any events |
| `GameServer.CapacityLeavesRoom` | runtime_assets/game_server_app.py:167-174 | the capacity decision under the creation lock leaves room for the session that is then created |
| `GameServer.PlayKeepsConsistent` | runtime_assets/game_server_app.py:208-224 | an accepted step keeps the counters in agreement with the recorded moves |
| `GameServer.PeakIsMaximum` | runtime_assets/game_server_app.py:212-212 | the peak is an upper bound of all scores and of 0, and one of them |
| `GameServer.GameSessionState.Step` | runtime_assets/game_server_app.py:205-225 | refused once done or archived; otherwise moves, score, peak, done and the recorded step change together |
| `GameServer.GameSessionState.Freeze` | runtime_assets/game_server_app.py:93-113 | the history entry is made of the values under the session lock, and the environment is gone afterwards |
| `GameServer.State.Take` | runtime_assets/game_server_app.py:246-248 | takes out the named session, or finds none |
| `GameServer.State.TakeIfSame` | runtime_assets/game_server_app.py:227-232 | a finished session is archived by the step request only if nobody took it out before |
| `GameHandlers.Application.Serve` | runtime_assets/game_server_app.py:162-260 | a server of registry and session objects that serves any requests, its threads taking turns in any order, is at every end in the state of the step machine, so that everything proved about runs holds of the objects |
| `GameHandlers.ServeFromStart` | runtime_assets/game_server_app.py:44-55 | a new server that has served any requests shows the run from the initial state, and its registry object keeps to its capacity |
| `GameHandlers.Application.AdvanceThread` | runtime_assets/game_server_app.py:162-260 | one critical section of a thread over the objects is one step of the machine |
| `GameHandlers.Application.TakeNewLock` | runtime_assets/game_server_app.py:164-164 | the creation lock is taken if it is free; otherwise nothing happens |
| `GameHandlers.Application.DecideCapacity` | runtime_assets/game_server_app.py:167-176 | under the registry lock: an unused identifier is settled and, if the registry object is full, its oldest session goes to the queue of this request |
| `GameHandlers.Application.StartGame` | runtime_assets/game_server_app.py:178-187 | a failing environment ends the request and frees the creation lock |
| `GameHandlers.Application.RegisterGame` | runtime_assets/game_server_app.py:188-199 | a new session object enters registry and games under the next number, and the creation lock is free again |
| `GameHandlers.Application.FindGame` | runtime_assets/game_server_app.py:203-204 | the step request goes on with the session that is registered under its identifier, or ends |
| `GameHandlers.Application.PlayMove` | runtime_assets/game_server_app.py:205-225 | the move changes the one session object, and the request remembers whether the game is over |
| `GameHandlers.Application.RemoveFinished` | runtime_assets/game_server_app.py:226-234 | a finished session leaves the registry object for the queue of this request, unless another request has taken it |
| `GameHandlers.Application.TakeGame` | runtime_assets/game_server_app.py:246-248 | the close request takes the session it names from the registry object into its queue, or ends |
| `GameHandlers.Application.TakeAllGames` | runtime_assets/game_server_app.py:255-258 | all sessions leave the registry object for the queue of this request, in registration order |
| `GameHandlers.Application.ArchiveGame` | runtime_assets/game_server_app.py:92-116 | the head of the queue is frozen in its session object, and in a section of its own the entry is put at the end of the history object |
| `GameHandlers.Application.AnswerClose` | runtime_assets/game_server_app.py:249-250 | the close response is read from the archived session object |
| `GameProgress.RegisteredGamesAreLive` | runtime_assets/game_server_app.py:205-234 | over every interleaving a registered session is live, and it is over only while the request that ended it has not yet looked whether to take it out |
| `GameProgress.QuietServerHasNoFinishedGame` | runtime_assets/game_server_app.py:226-234 | once every request has been served no registered game is over |
| `GameProgress.ServerIsNeverStuck` | runtime_assets/game_server_app.py:162-260 | after any interleaving there are steps of the threads alone after which every request has been served: waiting for the creation lock is never a deadlock |
| `GameProgress.EveryRequestCanBeServed` | runtime_assets/game_server_app.py:162-260 | so it is from every state of the invariant, within as many steps as there is work left |
| `GameProgress.SomeThreadMoves` | runtime_assets/game_server_app.py:162-260 | while a request is unserved some thread can take a step, and it leaves less work |
| `GameProgress.AdvanceSpends` | runtime_assets/game_server_app.py:92-260 | a critical section changes nothing or leaves less work: sections ahead of the threads plus twice the sessions in queues and registry |
| `GameProgress.StepsAreBounded` | runtime_assets/game_server_app.py:162-260 | however the threads take turns, the work at the start bounds the steps that change anything |
| `GameProgress.AdvanceKeepsRegistered` | runtime_assets/game_server_app.py:162-260 | each step keeps what is known of registered sessions: identifiers and numbers determine each other, step requests know the identifier of their game, sessions are live, finished ones are being taken out |
| `GameJudge.JudgeReachableHistory` | src/game_judge.rs:33-87 | for every history that the server can reach, whatever the scores, the Judge accepts the response, with raw the largest final score and the moves and peak of the first game that reached it |
| `GameJudge.ParseGameHistory` | src/game_judge.rs:33-87 | accepts exactly the documents whose reported best is the largest final score of entries that are all complete (0 without entries) |
| `GameJudge.SameBestEntry` | runtime_assets/game_server_app.py:119-133 | the first maximum that the server reports is the entry the Judge picks |
| `GameJudge.FirstBestIsUnique` | src/game_judge.rs:51-68 | there is only one first best entry |
| `Cleanup.RemoveResources` | src/codex_candidate.rs:2264-2302 | while a mutation is pending, success comes exactly at the first turn that closes five seconds of consecutive turns, each with everything absent before and after and every removal successful; otherwise the deadline ends it; without a pending mutation one successful attempt is enough |
| `Cleanup.StableZeroWindow.Observe` | src/codex_candidate.rs:456-473 | the window of one remembered instant answers as the whole history of observations would: absent at every observation since one that lies the required time back |
| `Cleanup.StretchDecides` | src/codex_candidate.rs:465-472 | for the answer only the oldest observation of the current stretch of absence matters |
| `Cleanup.ReappearanceRestartsTheWindow` | src/codex_candidate.rs:2275-2294 | after any presence or failed call success comes no sooner than a whole window and a sleep later |
| `Cleanup.LastingAbsenceSucceeds` | src/codex_candidate.rs:2273-2302 | absence that lasts five seconds before the deadline is recognised at the latest at the turn that completes them |
| `Cleanup.TurnsAreBounded` | src/codex_candidate.rs:2273-2301 | whatever the environment does there are at most 2401 turns |
| `Cleanup.OneTurnIsNotEnough` | src/codex_candidate.rs:2275-2282 | a pending mutation never ends after a single clean turn |
| `Cleanup.SpanSawNothingExactlyWhen` | src/codex_candidate.rs:2275-2282 | the turns that lead to success saw no resource of the run at any look exactly if each removal in them found nothing to remove |
| `Cleanup.PresenceRestartsExactlyWhen` | src/codex_candidate.rs:2275-2294 | a turn does not count as clean exactly if some resource was there before or after it or its removal failed; so every presence restarts the window except one that the removal saw first and undid at once |
| `Cleanup.UndonePresencesAreInvisible` | src/codex_candidate.rs:2273-2302 | two worlds that differ only in presences undone at once have the same end and the same success |
| `Cleanup.RemoveReappearing` | src/codex_candidate.rs:2264-2302 | if every resource is there again in every turn and is removed at once each time, the loop still succeeds, in the turn after its twentieth sleep |
| `Cleanup.RunTurn` | src/codex_candidate.rs:2276-2294 | one turn tells the window exactly whether it was clean; every failed call counts as not absent |
| `Cleanup.RetryCleanup` | src/codex_candidate.rs:2250-2262 | ends with the first success, or with the first failure at or after the deadline |
| `Cleanup.AllResourcesAbsent` | src/codex_candidate.rs:2197-2219 | inspects the resources of the run in order, and the first that is not absent decides, a failed inspection being an error; absent exactly when all are |
| `Cleanup.RemoveResourcesOnce` | src/codex_candidate.rs:2221-2248 | every resource of the run is tried, and the failures are exactly those not seen gone |
| `Cleanup.RemoveOne` | src/codex_candidate.rs:2171-2195 | a removal succeeds exactly if the last look saw the resource gone |
| `RunGuard.HomeOnlyAfterRemoval` | src/codex_candidate.rs:527-570 | on every way out, with every call allowed to fail, the private home is only touched after the remover has succeeded |
| `RunGuard.NoRemovalAfterSuccess` | src/codex_candidate.rs:518-570 | the remover is never called again after a success |
| `RunGuard.HomeSurvivesFailedRemoval` | src/codex_candidate.rs:550-563 | if the remover never succeeds, neither the drop of the guard nor that of the home touches the home |
| `RunGuard.NothingAfterDone` | src/codex_auth.rs:62-76 | a home that is done is left alone |
| `RunGuard.DoneExactlyWhen` | src/codex_candidate.rs:544-570 | exactly which successes of which attempts leave the home done: two removals and up to three attempts by finish, one and two by a drop |
| `RunGuard.CodexRunGuard.Finish` | src/codex_candidate.rs:544-547 | succeeds exactly if the first call of the remover and the first attempt on the home do, and with the drop that follows leaves the described trace |
| `RunGuard.CodexRunGuard.Drop` | src/codex_candidate.rs:550-570 | what the drop of the guard and then of the home still in it add to the trace |
| `RunGuard.CodexRunGuard.CleanupPrivateHome` | src/codex_candidate.rs:527-542 | refused before removal is confirmed; afterwards one attempt, and a home that is done leaves the guard |
| `RunGuard.CodexRunGuard.ConfirmContainerRemoved` | src/codex_candidate.rs:518-525 | calls the remover at most until its first success |
| `RunGuard.Abandon` | src/codex_candidate.rs:550-570 | the life of a guard that is dropped without having been finished |
| `RunGuard.PrivateCodexHome.Cleanup` | src/codex_auth.rs:62-76 | a done home is not touched; otherwise one attempt, which is remembered if it is done: removed, not owned or not found |
| `RunGuard.PrivateCodexHome.Drop` | src/codex_auth.rs:83-89 | tries once more unless the home is done or was retained |
| `CodexEvents.ParseUsage` | src/codex_candidate.rs:2399-2474 | accepts exactly the readable streams with thread.started whose turn events are complete; the usage is that of the last report, with the tools completed up to and including its line; each refusal has its own exact condition, a malformed line and an invalid report being told apart by the first unreadable line |
| `CodexEvents.CompleteIsARunOfTurns` | src/codex_candidate.rs:2409-2434 | complete turn events are exactly any number of completed or failed turns followed by a completed one |
| `CodexEvents.FlagsDecide` | src/codex_candidate.rs:2457-2472 | the four final flags hold exactly for complete turn events |
| `CodexEvents.TurnAdds` | src/codex_candidate.rs:2409-2434 | each turn event moves the flags to what they say about the longer word |
| `CodexEvents.ChoiceMoves` | src/codex_candidate.rs:2443-2455 | a line without a report leaves the choice, a valid report replaces it |
| `CodexEvents.ReadReport` | src/codex_candidate.rs:2446-2455 | a report is valid exactly if both counts are there and fit a word and the cached count does if it is there; input becomes prompt, output completion, and the total saturates |
| `Journals.AllowedCallsAreLawful` | src/run_journal.rs:103-154 | any calls in any order, each failing at its clock, before or after its write, leave a file history in which every content loads, stages never go back and nothing follows a terminal file, provided inputs are resolved only with the locks bound |
| `Journals.WrittenFileLoadsIffAllowed` | src/run_journal.rs:103-117 | a file written by a call on a loadable journal can be loaded if and only if the call did not resolve inputs without locks |
| `Journals.UnboundJournalIsLost` | src/run_journal.rs:103-117 | the journal itself does not refuse to resolve inputs without locks, and the file it then writes is rejected |
| `Journals.TerminalIsFinal` | src/run_journal.rs:103-154 | a terminal journal refuses every call and writes nothing |
| `Journals.CallKeepsStep` | src/run_journal.rs:103-154 | one allowed call keeps memory and file history in step |
| `Journals.RunIdsDiffer` | src/run_journal.rs:82-84 | two generated identifiers agree only if time, process and sequence number do |
| `Journals.RunIdIsValid` | src/run_journal.rs:214-224 | every generated identifier passes the check on identifiers |
| `Journals.WrittenFieldByField` | src/run_journal.rs:103-154 | which calls are accepted, and what each puts on disk, field by field, with the time of its clock |
| `Journals.RunIdByPosition` | src/run_journal.rs:214-224 | which identifiers are valid, by position |
| `Decimals.AcceptsExactlyThePrinted` | src/runtime.rs:573-584 | the score texts that are accepted are exactly those printed from a sign, an integer without leading zeros, and a fraction without final zeros, with a dot that may stand alone |
| `Decimals.SameNumberExactlyWhen` | src/runtime.rs:573-584 | two accepted texts stand for the same number exactly if they differ at most in a dot without digits after it and in the sign of zero |
| `Decimals.NotAlwaysOneText` | src/runtime.rs:573-584 | 0 and -0, and 1 and 1., are accepted both |
| `Journals.RunsDirectory.Load` | src/run_journal.rs:156-199 | returns the file exactly if it passes every check of the loader |
| `Journals.RunJournal.AdvanceTo` | src/run_journal.rs:103-117 | one stage forward or refused; memory, file and history as the call function says, also when clock or write fails |
| `Journals.RunJournal.Bind` | src/run_journal.rs:119-134 | both locks at once, only when ready, only once, only valid digests |
| `Journals.RunJournal.CompleteWith` | src/run_journal.rs:136-144 | only from judging, with a valid digest; a failing clock leaves memory closed and the file as it was |
| `Journals.RunJournal.FailWith` | src/run_journal.rs:146-154 | closes an open journal with its error, and does nothing to a terminal one |
| `ResultStore.LoadFindsTheCompleted` | src/result_record.rs:130-159 | for any number of runs whose steps interleave, fail and stop anywhere, load returns a record exactly for the runs whose persisted journal is completed, and it is the saved one |
| `ResultStore.LoadFindsExactlyWhen` | src/result_record.rs:130-159 | on any files: a result is found exactly if record and journal are there and valid, agree on locks, digest and path, and the log is there with its digest or not at all |
| `ResultStore.RecordIsValidExactlyWhen` | src/result_record.rs:230-333 | which records are valid, field by field |
| `ResultStore.HistoryIsConsistent` | src/bench_run.rs:71-221 | every reachable state of journals, results, logs and latest pointer is consistent |
| `ResultStore.SoundHashes` | src/result_record.rs:100-128 | digests as the store assumes them exist |
| `ResultStore.SuccessIsRecorded` | src/bench_run.rs:208-220 | a run reported as done can be loaded |
| `ResultStore.FailedCompletionIsNotUndone` | src/run_journal.rs:136-154 | when the completing step fails, the failure handling writes nothing: the run is recorded exactly if that write had replaced the file, and otherwise its journal stays at judging |
| `ResultStore.LatestCanBeLoaded` | src/result_record.rs:161-169 | the latest pointer always names a run that can be loaded |
| `ResultStore.TerminalFilesStay` | src/run_journal.rs:103-154 | a step of a run writes no terminal journal file again, and a completed run keeps journal, result and log |
| `ResultStore.StagesNeverGoBack` | src/run_journal.rs:22-34 | the stage on disk never goes back in a step of its run |
| `ResultStore.StepKeepsRun` | src/bench_run.rs:94-221 | each step, with every failure the environment may choose, keeps what holds of its run and its files |
| `ResultStore.StepTouchesOwnFiles` | src/result_record.rs:123-126 | a step changes the files of its own run only |
| `ResultStore.HistoryGrows` | src/result_record.rs:130-159 | over every history of any number of runs: journals stay, their stages never go back, completed and failed ones never change, and a completed run keeps its result and log |
| `ResultStore.HistoryIsAccurate` | src/result_record.rs:189-195 | in every reachable state each journal can be read and each completed one has its result |
| `RunOutcomes.RecordedExactlyWhen` | src/bench_run.rs:71-220 | for every run and whatever is reported of it: it is recorded if and only if it came to its completing step, the clock could be read there and the write replaced the journal |
| `RunOutcomes.MisreportedExactlyWhen` | src/bench_run.rs:208-220 | success is reported only of recorded runs; failure is reported of a recorded run exactly if its completed journal was put in place but not synchronised, or was written and then the latest pointer or the printing failed |
| `RunOutcomes.JournalOfAFailedRun` | src/run_journal.rs:146-154 | the journal that a failed run leaves, by the step that failed: failed, unless the failure handling could not read its clock or replace the file, in which case it stays open; completed or still judging if completing failed; completed if publishing failed |
| `RunOutcomes.JournalOfARunThatNeverStarts` | src/bench_run.rs:71-75 | if the first file fails there is no journal, or one at its first stage, and failure is reported |
| `RunOutcomes.ReportAndRecord` | src/bench_run.rs:71-220 | in every history of any number of runs, for a reported run and the choices of its own steps there: it is recorded exactly if it stood at its completing step before its ninth step and that step had a clock and replaced the journal; success is reported only of recorded runs, and failure of a recorded run exactly if that write was not synchronised or its tenth step, the publication, failed |
| `RunOutcomes.RecordedInHistoryExactlyWhen` | src/bench_run.rs:71-220 | at every moment of every history, for reported runs and others: a run is recorded exactly if some action before was its step at the completing place, with a clock that could be read and a write that replaced the journal |
| `RunOutcomes.StepRecordsExactlyWhen` | src/run_journal.rs:136-154 | one step of a run: its completing step records it exactly if it replaces the journal, and no other step records or unrecords it |
| `RunOutcomes.RunsAreLikeAlone` | src/bench_run.rs:71-220 | in every history each run and its files are what they would be had the action that began it and the choices of its own steps, in their order, been played alone on an empty disk |
| `RunOutcomes.StepSeesOwnFiles` | src/result_record.rs:123-126 | a step depends on the files of its own run alone |
| `RunResults.ResultOfARun` | src/bench_run.rs:94-213 | in every history, for each recorded run and the choices of its own steps: loading finds the record of its eighth step, with execution, model, usage and details as handed in, the locks of its second step and the log digest of its fifth; its journal names task, agent and result file and has the clock of its completing step |
| `RunResults.NewRecordDescribes` | src/result_record.rs:100-124 | a new record keeps its input, with the present schema, and is filed under its own digest |
| `RunOutcomes.PublishingStep` | src/result_record.rs:161-169 | publishing moves the pointer to the run and fails only with that write or the printing |
| `RunOutcomes.OpenUntilCompleting` | src/bench_run.rs:94-213 | until its completing step a run that has not failed has no terminal journal, neither in memory nor on disk |
| `RunOutcomes.PlaceByStep` | src/bench_run.rs:94-221 | after each step a run stands at the next place or has failed, and eleven steps end it |
| `RunOutcomes.FailureIsLast` | src/bench_run.rs:75-83 | after the failure handling the run takes no further step |
| `LatestResult.LatestRunId` | src/result_record.rs:171-204 | while other runs take steps between its reads and for any listing order, the search never meets an unreadable journal or a missing or rejected result, and finds a run completed at the end: every other run completed at the start has a smaller time, or the same time and a smaller identifier |
| `LatestResult.HistoryGivesViews` | src/result_record.rs:171-204 | any increasing moments in any history satisfy what the search relies on |
| `LatestResult.EntryCanBeRead` | src/result_record.rs:189-195 | a listed journal can be read, and its result too if it is completed |
| `LatestResult.BeforeIsStrictOrder` | src/result_record.rs:196-199 | time and identifier together order the runs strictly and totally |
| `BenchRun.ExecuteOptions` | src/bench_run.rs:71-84 | the straight-line execution ends in exactly the files and the verdict of the step machine, for every choice of failures, and the journal file has had only lawful contents |
| `BenchRun.ExecuteInner` | src/bench_run.rs:86-221 | the first failing step ends it, with the machine at its failure handling; otherwise the result is published |
| `BenchRun.StateRoot.LoadResult` | src/result_record.rs:130-159 | the sequence of checks on record, journal and log accepts exactly the backed results |
| `BenchRun.StateRoot.Save` | src/result_record.rs:100-128 | an invalid record is refused before anything is written; a valid one is written under its digest |
| `BenchRun.StateRoot.PublishLatest` | src/result_record.rs:161-169 | moves the pointer only to a run that can be loaded |
| `BenchRun.CandidateStep` | src/bench_run.rs:350-394 | the digest bound to a Codex run is that of the log as it stands on disk; other runs have neither log nor digest |
| `Submission.CollectTerminalFiles` | src/submission.rs:99-164 | fails exactly if a name is unreadable or a directory too deep; otherwise selects, in spite of prefilter and early stop, what the plain greedy selection from all matching files in path order selects: only files that are there, that the patterns select and that are not the own directory or below it |
| `Submission.MatchingIsExactly` | src/submission.rs:41-45 | the matching files are exactly the files that names lead to, whose joined path the patterns select and that are not .a3s or below it |
| `Submission.PathLessIs` | src/submission.rs:151-151 | path order by the first components that differ |
| `Submission.ListingOrderIsIrrelevant` | src/submission.rs:99-164 | for any relisting of the directories at every level, failure and selection are the same |
| `Submission.SelectionKeepsLimits` | src/submission.rs:83-96 | count, total and single sizes stay within the policy, and only offered files are taken |
| `Submission.SelectionIsMaximal` | src/submission.rs:153-163 | unless the count is full, no passed-over file of permitted size would still fit |
| `Submission.PrefilterIsHarmless` | src/submission.rs:126-136 | leaving out files that are too large before sorting changes nothing |
| `Submission.FullStaysFull` | src/submission.rs:156-158 | stopping when the count is full changes nothing |
| `Submission.WhatFitsIsTaken` | src/submission.rs:153-163 | files that are within the limits together are all selected |
| `Submission.ExportIsSubmittedWhole` | src/submission.rs:6-20 | whatever a selection under the same policy exported, in whatever order, is submitted whole |
| `Submission.WalkFindsFiles` | src/submission.rs:104-148 | the walk finds exactly the files that names lead to |
| `Submission.WalkIsDistinct` | src/submission.rs:104-148 | no path is found twice |
| `Submission.SortedIsUnique` | src/submission.rs:151-151 | there is only one way to sort given files by path, so the choice of the sort does not matter |
| `Submission.Visit` | src/submission.rs:104-148 | the recursive walk into a mutable list collects the wanted files in listing order, or fails |
| `Submission.TerminalLimits.Select` | src/submission.rs:83-96 | takes a file exactly if count, size and total allow it; the overflow check never decides |
| `WorkspaceExport.OrdersAgreeExactlyWhen` | src/workspace.rs:76-76 | text order of the joined paths and component order agree for two paths exactly when no slash of one competes with a smaller character of the other |
| `WorkspaceExport.SameOrderExactlyWhen` | src/workspace.rs:76-76 | the export considers the files in the order of the submission exactly when no two of them are swapped in this way |
| `WorkspaceExport.SelectAlikeExactlyWhen` | src/workspace.rs:76-121 | under every valid policy export and submission select the same of the files it matches, exactly if no two files outside the reserved directory are swapped |
| `WorkspaceExport.MatchingInOneOrderExactlyWhen` | src/workspace.rs:68-76 | for each policy both sides see the matching files in one order exactly if no two of these are swapped |
| `WorkspaceExport.SubmittedFromTheWalk` | src/submission.rs:149-163 | what is compared with the export is the selection that the submission makes from its walk |
| `WorkspaceExport.AlikeExactlyInOneOrder` | src/submission.rs:153-163 | two orders of the same files lead to the same selections under every valid policy only if they are equal |
| `WorkspaceExport.DifferentOrdersCompete` | src/submission.rs:83-96 | at the first difference of two orders there is a limit on the count that tells them apart |
| `WorkspaceExport.SwappedFilesCompete` | src/workspace.rs:109-113 | files, their export order and a valid policy with room for one file, for which export and submission select different files |
| `WorkspaceExport.ReservedByFirstComponent` | src/submission.rs:232-234 | a joined path is reserved exactly when its first component is .a3s |
| `WorkspaceExport.MatchingByFirstComponent` | src/submission.rs:41-45 | the same by the first component |
| `WorkspaceExport.WalkedPathsAreShallow` | src/submission.rs:55-62 | every path the walk finds passes the depth check of the export |
| `JsonScan.JsonObjectEnd` | src/legacy_judge.rs:313-334 | on any text that starts with an opening brace the counter never underflows, and the offset returned is, in bytes, where the balance of braces outside strings first returns to zero; nothing is returned exactly if it never does |
| `JsonScan.ScanUndoesPrint` | src/legacy_judge.rs:313-334 | on a printed object, with any whitespace, escapes and braces in strings, followed by any text, it returns the length of the object |
| `JsonScan.PrintedObjectCloses` | src/legacy_judge.rs:313-334 | a printed object closes exactly at its end |
| `JsonScan.FeedMeans` | src/legacy_judge.rs:317-332 | reading character by character and the definition by position agree on depth, string and escape |
| `JsonScan.ExtractStructured` | src/legacy_judge.rs:290-311 | between the markers if both are there, without the whitespace at the ends; otherwise the first opening brace whose object parses and carries a score, and nothing only if there is none |
| `JsonScan.MarkedResultIsFound` | src/legacy_judge.rs:290-298 | a printed result between the markers, with any whitespace around it, is the value that is parsed |
| `JsonScan.TrimOf` | src/legacy_judge.rs:294-294 | trimming takes the whitespace away from both ends and nothing else |
| `JsonScan.PrintedResultIsFound` | src/legacy_judge.rs:299-309 | a printed result is found behind any output without opening braces |
| `Rescale.MarksAtTheEnds` | src/legacy_judge.rs:464-516 | full marks and no marks are given exactly at and beyond the outer anchors |
| `Rescale.AnchorsHaveTheirScores` | src/legacy_judge.rs:464-516 | 0, 20, 80 and 100 at the four anchors, positive ones for the minimising kinds |
| `Rescale.MaximisingRises` | src/legacy_judge.rs:498-514 | the maximising piecewise score never falls |
| `Rescale.MinimisingFalls` | src/legacy_judge.rs:498-514 | the minimising ones, linear or logarithmic, never rise over positive raw scores |
| `Rescale.MinimisingFallsExactlyWhen` | src/legacy_judge.rs:485-516 | for a smaller and a greater raw score of any sign, a minimising score does not rise exactly if the smaller one is positive or the greater one is worth nothing anyway |
| `Rescale.PiecewiseIsBounded` | src/legacy_judge.rs:464-516 | between 0 and 100 for any anchors and any logarithm |
| `Rescale.GreaterIsNeverWorse` | src/legacy_judge.rs:360-454 | for all five maximising kinds a greater raw score never gets a lower score |
| `Rescale.SmallerIsNeverWorse` | src/legacy_judge.rs:360-454 | for all seven minimising kinds a smaller raw score, of those the kind compares, never gets a lower score |
| `Rescale.SmallerIsNotWorseExactlyWhen` | src/legacy_judge.rs:360-454 | for all seven minimising kinds a smaller raw score gets no lower score exactly if it is one the kind compares (positive, or at least 0.05 for the guarded ratio) or the greater one gets nothing |
| `Rescale.NothingExactly` | src/legacy_judge.rs:360-454 | exactly the raw scores for which each minimising kind gives nothing |
| `Rescale.NormalizeRaw` | src/legacy_judge.rs:360-454 | without a specification the answer is the raw score by 100, kept between 0 and 1; otherwise the percentage by 100, kept so; there is an error exactly if the raw score is finite and a field that its kind reads for this raw score is missing or the kind is unsupported |
| `Rescale.LinearAnswer` | src/legacy_judge.rs:376-376 | the answer of the linear kind for any raw score and bounds: the part of the way between them, kept between 0 and 1 |
| `Rescale.TowardsExpertAnswer` | src/legacy_judge.rs:377-408 | so those of the linear minimising kinds, above their cut-off |
| `Rescale.InverseAnswer` | src/legacy_judge.rs:391-398 | the answer of the inverse kind: the anchor by the raw score, times its score |
| `Rescale.LogAnchorAnswer` | src/legacy_judge.rs:409-416 | the answer of the logarithmic kind with one anchor |
| `Rescale.LogMaxAnswer` | src/legacy_judge.rs:417-425 | the ratio of logarithms from the baseline to the expert |
| `Rescale.LogMinAnswer` | src/legacy_judge.rs:426-434 | the same for less |
| `Rescale.Log1pMaxAnswer` | src/legacy_judge.rs:435-443 | the same with one added |
| `Rescale.PiecewiseAnswer` | src/legacy_judge.rs:444-446 | the answers of the piecewise kinds are their scores by 100 |
| `Rescale.PiecewiseIs` | src/legacy_judge.rs:464-516 | the piecewise score at any raw score: nothing up to the first anchor, everything from the last, and between two anchors their scores in proportion, on the linear or the logarithmic scale |
| `Rescale.LinearEnds` | src/legacy_judge.rs:376-408 | the linear kinds give 0 at their first and 100 at their last anchor, within the range they compare |
| `Rescale.LogEnds` | src/legacy_judge.rs:417-434 | so do the logarithmic kinds with two positive anchors |
| `Rescale.AnchorScores` | src/legacy_judge.rs:391-443 | the kinds with one anchor give its score there |
| `Rescale.BetweenIsStrict` | src/legacy_judge.rs:504-513 | strictly between two anchors the score lies strictly between theirs |
| `Redaction.RedactionIsComplete` | src/codex_auth.rs:380-404 | with any secrets in any order, a listed secret that cannot overlap the marker does not occur in the output |
| `Redaction.RemovedExactlyWhenNotColliding` | src/codex_auth.rs:380-404 | a secret is removed from every text by every list that holds it if and only if it does not collide with the marker at some offset; the same is so for the lists sorted longest first |
| `Redaction.CollidingSecretSurvives` | src/codex_auth.rs:380-404 | for every colliding secret and every offset a text and a second secret are given, sorted longest first, with which it survives |
| `Redaction.BracketFreeCollision` | src/codex_auth.rs:397-397 | a secret without brackets collides exactly when it is part of the word redacted |
| `Redaction.PassReplacesOnlyTheSecret` | src/codex_auth.rs:389-401 | one pass leaves the text between the matches as it is and puts a marker for each match |
| `Redaction.GapsAreClean` | src/codex_auth.rs:391-400 | no kept piece holds the secret |
| `Redaction.PassRemovesAll` | src/codex_auth.rs:389-401 | the pass for a secret that cannot collide leaves none of it |
| `Redaction.PassCreatesNone` | src/codex_auth.rs:385-402 | no pass creates an occurrence of such a secret |
| `Redaction.RedactBytes` | src/codex_auth.rs:380-404 | the loops over secrets and matches compute one pass after the other, skipping empty secrets |
| `Redaction.RedactPass` | src/codex_auth.rs:389-401 | the inner scan ends and computes one pass |
| `Redaction.Position` | src/codex_auth.rs:391-394 | the leftmost window at or after the cursor that equals the secret |
| `Redaction.ExtractSecretBuffers` | src/codex_auth.rs:298-328 | the list is the document and its nonempty strings at any depth as they are visited, sorted longest first and without neighbours that repeat; so the secrets are exactly these; only objects are accepted |
| `Redaction.RedactCredentials` | src/codex_auth.rs:56-58 | output is the passes over the list made of the credential file; neither the file nor any of its strings that cannot collide is left in it |
| `Redaction.NeverShownExactlyWhenNotColliding` | src/codex_auth.rs:298-404 | a string is absent from the redacted form of every text, for every credential file that holds it, if and only if it does not collide with the marker; the files range over those that are longer than the strings in them |
| `Redaction.CollidingCredentialSurvives` | src/codex_auth.rs:298-404 | for every colliding string, and every file longer than it and its decoy that holds the two, a text is given in which the string survives the list made of that file |

## Left out

- Docker, the network, sockets, name resolution and the file system are reduced to outcomes that the environment chooses: success, failure, time-out, short read, would-block. A write replaces a file, leaves it, or replaces it and then fails (a file is renamed before its directory is synchronised).
- Time limits of the tunnel (idle and lifetime) are a choice of the environment to stop; that the loop ends is shown by the measure of productive turns.
- Request headers, CONNECT authorities, address checks and the connection handling of the proxy.
- The session identifier of a ClientHello: up to 255 bytes are accepted, as the code does, though section 4.1.2 of RFC 8446 allows 32.
- Observations, the HTTP layer, the health and status handlers and the reply of new_game to its caller. Environment calls of a game step are taken to return; one that raised in the middle of a step would leave moves and steps apart.
- Game scores as floating point: scores are integers that it represents exactly.
- Labels and diagnostics of Docker resources, the sweep of stale runs, and wait_for_delayed_existence.
- Decoding of JSON, in event streams, credential files and structured results: its outcome is a parameter or a tree.
- Digests: what they compute is not modelled, only that they have the right form and that a record's digest does not cover itself. Serialised records are taken to come back as they were written.
- Reuse of a process number with the same time and sequence number, the only way in which two runs could share an identifier.
- Transient workspaces of a run, and everything between its file operations except whether it fails and what it hands on.
- Glob patterns: the matcher is any predicate on joined paths, apart from the reserved directory, which is modelled.
- Copying the selected files, and the byte limit and the probing of the container export.
- JsonScan.JsonObjectEnd: asks for a text that starts with an opening brace, as its only caller provides; on other texts the counter of the program could underflow. It is a natural number here and does not overflow at 32 bits.
- JsonScan.ExtractStructured: an end marker in front of the start marker, which the program does not survive, is an outcome of its own.
- Rounding, overflow and infinities of scores, other than a raw score that is not finite.
- WorkspaceExport.SelectAlikeExactlyWhen: takes the files outside the reserved directory to be less than 2^64 bytes together, the largest limit a policy can name; beyond it no policy has room for all of them and fewer orders can be told apart.
- Redaction.NeverShownExactlyWhenNotColliding: the text of a credential file may be any bytes that are longer than the strings of its object together, as JSON text is; which bytes they are, and that strings are UTF-8, is not modelled.
- The regular expressions of the score_sum and pytest_v parsers.
- Redaction of token-shaped values in diagnostics.
- Command line, configuration, catalog, prompts, packages, HTTP clients, model sessions, importers.
