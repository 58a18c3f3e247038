# Verified models of the CoreScope test harness

The JavaScript test suite of CoreScope carries its own small machines: a fake MQTT broker, a mock
Docker daemon shared by overlapping processes, an accessibility gate with an allowlist, a fake
clock, a miniature DOM, and a few parsers and resolvers. The tests are only as good as these
machines. This project models them in Dafny and proves what the tests take for granted.

| file | models | main results |
|---|---|---|
| `Broker.dfy` | `startFakeBroker` | cutting the stream is harmless; the length decoder inverts section 2.2.3 of MQTT Version 3.1.1; a stalled buffer is stalled forever |
| `Daemon.dfy` | state file and transitions of the docker mock, and an eager daemon | when a delayed stop takes effect; when a start holds and when it is lost |
| `DockerCli.dfy` | any number of CLI processes under the mkdir mutex | mutual exclusion, a log that only grows |
| `LazyDaemon.dfy` | the same processes against the eager daemon | lazy settling refines an eager daemon |
| `Programs.dfy` | what each helper does and logs | program order, no lost or reordered log entry |
| `Sessions.dfy` | backup sessions of overlapping and serialised helpers | what a copy records in every interleaving, exactly; serial sessions are safe |
| `DockerMock.dfy` | one CLI process in imperative form | lock and wait limits, effect of a call, agreement with the transition system, where the unsafe overlap is reachable |
| `FakeClock.dfy` | `fakeClock` | advancing twice is advancing once; every due timer fires once, at its time, or was cleared; termination |
| `AllowlistGate.dfy` | `matchViolation` and the loops of `main` | totals are sums of capped first matches, independent of order; when the gate passes |
| `AllowlistYaml.dfy`, `AllowlistLaws.dfy` | `parseAllowlistYaml`, `coerce`, `filterAllowlist` | printed lists read back; which lines and scalars are read, exactly; why an entry is refused; expiry is monotone and string order is calendar order |
| `MiniDom.dfy`, `MiniDomTree.dfy`, `MiniDomHtml.dfy`, `HtmlLaws.dfy` | `buildMiniDom` | links and stack stay in shape; when `contains` agrees with `querySelectorAll`; serialised forests read back; which texts are tags, exactly |
| `VarResolver.dfy`, `VarLaws.dfy` | the two `var()` resolvers | the guarded one terminates and is right; when the unguarded one ends; whose declaration counts; which texts are references |
| `TabSelector.dfy` | `parseTabSelector` | the lists it accepts, exactly; escaped lists read back; raw values are safe if and only if they have no quote and no backslash |
| `UserChannels.dfy` | `mergeUserChannels` | idempotence; what is kept, marked and appended |
| `Text.dfy`, `Prelude.dfy` | JavaScript character classes, `trim`, decimal numbers, string comparison; `Option` | shared by the other modules |

`dafny verify dfyconfig.toml` checks the whole project.

Code that updates variables step by step is a class or a method with loops, proved equal to a
function of the old state; the theorems are lemmas about that function. Sockets, clocks, the file
system, callbacks and regular expressions of the user are parameters: the socket is the sequence
of calls made on it, a callback is a function of the clock and the history, a compiled pattern is
a predicate.

Where the code differs from what one might expect, the model follows the code:

- Four continuation bytes stop the broker for good, and frames after DISCONNECT are still
  answered; the length byte of a SUBACK is cut to eight bits, so with more than 125 topics the
  answer is no frame that this decoder reads back.
- Setting `innerHTML` drops the child links of the old children but not their parent links: element
  children become orphans, for good. `contains` and `querySelectorAll` agree below an element exactly
  when no orphan is inside it, so below x after setting its `innerHTML` exactly when no element was
  inside x before, an orphan of an earlier setting included.
- `VOID[tag]` is looked up in a plain object, so a `constructor` element is void as well; a key or
  an attribute called `__proto__` adds no property.
- The guard of the `var()` resolver reports every name met twice, also an undeclared one that is
  merely repeated in a nested fallback, where the unguarded resolver gives a value.
- A start after an observed "not running" holds until the next stop if and only if no deadline is
  pending; with an immediate stop among delayed ones it can be pending. A delayed stop keeps the
  mutex while it sleeps, so helpers that run to the end never see this: to them the delays do not
  show.
- A start by another helper between a session's stop and its copy does not make the copy unsafe by
  itself, since a further stop may come before the copy. The exact condition is that no stop follows
  the start.
- A backslash at the end of a tab selector appends the text `undefined`.

## Model

| member | source | states |
|---|---|---|
| `Broker.ScanLength` | test-channel-proposals-e2e.js:75-83 | a finished length uses one to four bytes, all of them in the buffer |
| `Broker.NextFrame` | test-channel-proposals-e2e.js:73-87 | a turn that finds a frame consumes at least two bytes besides the body it cuts out |
| `Broker.DecodeLength` | test-channel-proposals-e2e.js:75-83 | the inner loop computes the specified length, or reports that it is unfinished |
| `Broker.LengthByBytes` | test-channel-proposals-e2e.js:75-83 | the length by its bytes: low seven bits, least significant first, ended by the first byte below 128 |
| `Broker.Connection.OnData` | test-channel-proposals-e2e.js:71-99 | one chunk adds the calls of draining the old buffer and the chunk, and leaves the residue of that |
| `Broker.Connection.Answer` | test-channel-proposals-e2e.js:88-97 | each packet type gets its reply, a SUBSCRIBE one return code per counted topic |
| `Broker.FrameExtends` | test-channel-proposals-e2e.js:73-87 | a frame found in a buffer is found unchanged in every extension |
| `Broker.ResidueIsStuck` | test-channel-proposals-e2e.js:74-84 | what stays in the buffer holds no complete frame |
| `Broker.ChunkingIsHarmless` | test-channel-proposals-e2e.js:70-99 | for every stream and every way of cutting it, the same calls and the same residual buffer as for the uncut stream |
| `Broker.StallIsForever` | test-channel-proposals-e2e.js:79-84 | no extension ever completes a frame if and only if four continuation bytes are in the buffer |
| `Broker.StalledFeed` | test-channel-proposals-e2e.js:70-99 | a stalled connection answers nothing and keeps every further byte |
| `Broker.PacketReadsBack` | test-channel-proposals-e2e.js:74-87 | an encoded packet is cut out again, with its type and body, if and only if its length is at most 268435455 |
| `Broker.RequestsAreAnswered` | test-channel-proposals-e2e.js:70-99 | every request of a well-formed stream is answered once and in order, however it is cut, also after a DISCONNECT |
| `Broker.RepliesAreFrames` | test-channel-proposals-e2e.js:88-97 | the answers to CONNECT and PINGREQ read back as an accepting CONNACK and a PINGRESP, DISCONNECT closes, other types than these and SUBSCRIBE get no answer |
| `Broker.CountsEveryTopic` | test-channel-proposals-e2e.js:90-94 | a well-formed topic list with k topics is counted as k, a last topic that runs over the end as one more |
| `Broker.SubscribeIsAnswered` | test-channel-proposals-e2e.js:89-95 | every SUBSCRIBE gets one buffer 0x90, the low byte of 2 + n, the id bytes (0 where missing) and n codes 0 for the n topics counted |
| `Broker.SubscribeIsGranted` | test-channel-proposals-e2e.js:89-95 | for k well-formed topics the buffer has the packet id and k codes 0, and reads back as one frame with these if and only if k is at most 125 |
| `Daemon.DelayedStopsStayTidy` | test-backup-sqlite-safety.js:178-191 | in every run whose stops are delayed, a pending deadline belongs to a running container and lies ahead |
| `Daemon.StartHoldsIff` | test-backup-sqlite-safety.js:182-230 | a start on a container seen down holds until the next stop, whatever else happens, if and only if no deadline is pending |
| `Daemon.StartAfterStopHolds` | test-backup-sqlite-safety.js:208-230 | after delayed stops, a start that follows an observed "not running" holds until the next stop |
| `Daemon.DeadlineStands` | test-backup-sqlite-safety.js:182 | no call before the deadline, stops and starts included, moves or removes it, whether the container is up or down |
| `Daemon.DelayedStopIsOnTime` | test-backup-sqlite-safety.js:179-191 | a stop with delay d at time t, of a running container without a deadline, shows it running exactly before t + d, whatever calls follow that neither start it nor stop it at once |
| `Daemon.DeadlineInFile` | test-backup-sqlite-safety.js:182 | the deadline in the file is the time of the first delayed stop plus its delay, and settling the file at time u shows the container running exactly before it |
| `Daemon.StartWhileStoppingIsLost` | test-backup-sqlite-safety.js:182-230 | a start with a stop pending, and whatever else is called before the deadline, ends stopped at the deadline and stays so until a later start |
| `Daemon.MixedStopsBreakIt` | test-backup-sqlite-safety.js:182-192 | from every state with a pending deadline, an immediate stop and a start leave a container that goes down at the old deadline |
| `Daemon.PassingTime` | test-backup-sqlite-safety.js:28-30 | letting time pass is settling at the later time |
| `Daemon.EffectOfCall` | test-backup-sqlite-safety.js:134-266 | the file after a call that waits for nobody, field by field: log entries, running, what a copy records |
| `Daemon.EffectOfHalves` | test-backup-sqlite-safety.js:140-266 | which calls wait, and the file before and after the wait, field by field |
| `DockerCli.StepExclusive` | test-backup-sqlite-safety.js:120-128 | one step of any process keeps at most one holder, and the lock directory exists exactly while there is one |
| `DockerCli.RunIsExclusive` | test-backup-sqlite-safety.js:117-154 | in every interleaving of any number of processes the mutex has at most one holder and the log only grows |
| `LazyDaemon.LazyRefinesEager` | test-backup-sqlite-safety.js:28-191 | in every run the lazily settled daemon agrees with the eager one on the state a reader computes, the logs and what was printed, whoever settles and whether or not it is saved |
| `LazyDaemon.ReaderSeesEager` | test-backup-sqlite-safety.js:129-142 | a process about to read the file reads, after settling, the eager state |
| `LazyDaemon.DelayedStopShowsOnTime` | test-backup-sqlite-safety.js:28-191 | in every run of the processes, a reader sees a delayed stop exactly when its delay has passed |
| `Programs.ProgramIsKept` | test-backup-sqlite-safety.js:117-154 | in every run, the visible actions a helper has taken and those it has still to take are its program, across give-ups and unlocked sections |
| `Programs.TraceConservesLog` | test-backup-sqlite-safety.js:134-154 | over any run, the entries of a helper with those it has still to make never change |
| `Programs.LogIsCurrent` | test-backup-sqlite-safety.js:117-154 | at every moment the log holds each helper's entries in program order up to where it is, also across its unlocked sections |
| `Programs.LogIsComplete` | test-backup-sqlite-safety.js:117-154 | when all calls are done, each helper's part of the saved log is its program |
| `Sessions.DelaysDoNotShow` | test-backup-sqlite-safety.js:117-266 | in every run from a calm system, whatever the calls, faults and delays, inspections and copies record what a daemon without delays would show, and so does the file when nobody holds the mutex |
| `Sessions.OnlyEffectsShow` | test-backup-sqlite-safety.js:165-174 | calls that neither change nor show whether the container runs leave no record |
| `Sessions.UpSince` | test-backup-sqlite-safety.js:182-230 | once down, the container is up exactly if an effective start followed that no effective stop followed |
| `Sessions.CopyRecordsIff` | test-backup-sqlite-safety.js:171-266 | in every interleaving, with ticks anywhere, the copy of any session of any helper records a running container if and only if another helper has started it since the session's own stop (or since it was seen down) and no stop has followed |
| `Sessions.WalRecordsIff` | test-backup-sqlite-safety.js:242-266 | the same for the WALs of a copy that pauses |
| `Sessions.OverlapIsUnsafe` | test-backup-sqlite-safety.js:747-773 | hence a start during the pause that nobody undoes makes the WAL copy record a running container |
| `Sessions.SessionRestores` | test-backup-sqlite-safety.js:165-266 | in particular a single session copies from a stopped container and restores the running state |
| `Sessions.SerialSessionsAreSafe` | test-backup-sqlite-safety.js:165-266 | for any number of serial sessions, with calls without effect and ticks anywhere, every copy recorded in the file saw a stopped container and the container ends as it began |
| `Sessions.TakingTurnsIsSafe` | test-backup-sqlite-safety.js:752-796 | the same for helpers that take turns: during the session of one, the others make no call that matters |
| `Sessions.SessionLog` | test-backup-sqlite-safety.js:134-266 | the log of a session: inspect-running, stop, cp, cp-done, start, start-done, or inspect-running, cp, cp-done |
| `DockerMock.Process.LockState` | test-backup-sqlite-safety.js:121-126 | the lock is taken if and only if at most 5001 attempts find it taken, and each of these costs 2 ms |
| `DockerMock.Process.UnlockState` | test-backup-sqlite-safety.js:127 | the directory goes away if and only if this process held it |
| `DockerMock.Process.Wait` | test-backup-sqlite-safety.js:146-154 | a poll succeeds if and only if the marker is missing at most 2001 times |
| `DockerMock.Process.Unlocked` | test-backup-sqlite-safety.js:140-143 | after the wait the process holds the lock again and has the settled state the others left |
| `DockerMock.Process.Invoke` | test-backup-sqlite-safety.js:117-266 | a call gives up exactly when a limit is reached, else leaves the file its transitions give, for a delayed stop with the time it took effect plus its delay as deadline, and never keeps the mutex |
| `DockerMock.Process.FinishStop` | test-backup-sqlite-safety.js:177-206 | a delayed stop of a running container without a deadline saves the time plus its delay, and the settled state is not saved; a failing or ignored one changes nothing; an immediate one takes the container down |
| `DockerMock.StepsAreInvoke` | test-backup-sqlite-safety.js:128-207 | in the transition system an undisturbed call has the effect of the imperative one; a slow stop up to its sleep |
| `DockerMock.StepsBeforeWait` | test-backup-sqlite-safety.js:140-143 | the first half of a waiting call saves its first entry and releases the mutex |
| `DockerMock.StepsAfterWait` | test-backup-sqlite-safety.js:140-266 | the second half works on whatever file the others left; a slow stop up to its sleep |
| `DockerMock.SlowStopEnds` | test-backup-sqlite-safety.js:188-190 | a sleeping stop does not move before its deadline is 5 ms past; then two steps end the call and free the mutex, and the settled state is not saved |
| `DockerMock.TurnsAreRun` | test-backup-sqlite-safety.js:752-766 | the turns the overlap driver enforces are runs of the two processes in the transition system |
| `DockerMock.OverlapIsReachable` | test-backup-sqlite-safety.js:747-766 | unserialised helpers that run their sessions reach the copy of a WAL from a running container, from every state in which the driver starts them |
| `DockerMock.LaterStopHidesStart` | test-backup-sqlite-safety.js:752-766 | a start between a helper's stop and its copy alone is not enough: with a further stop before the copy a stopped container is recorded |
| `FakeClock.PickIsEarliest` | test-1659-analytics-warmup.js:85-87 | the pick is the earliest due timer with ties in insertion order, and there is none exactly when nothing is due |
| `FakeClock.FireByFields` | test-1659-analytics-warmup.js:84-92 | one turn, field by field: entry taken out, clock moved on but never back, firing recorded, callback run on that clock |
| `FakeClock.ExecuteByFields` | test-1659-analytics-warmup.js:79-80 | setting and clearing a timer, field by field |
| `FakeClock.ExecuteInOrder` | test-1659-analytics-warmup.js:90-91 | what a callback asks for takes effect one after the other |
| `FakeClock.AdvanceIsAdditive` | test-1659-analytics-warmup.js:82-95 | for every callback behaviour, advance(a) then advance(b) and advance(a+b) end together and leave the same clock, timers and history |
| `FakeClock.FireAccounted` | test-1659-analytics-warmup.js:84-92 | so does a turn, which also appends one firing and never turns time back |
| `FakeClock.TurnsKeepAccount` | test-1659-analytics-warmup.js:84-92 | so does a whole loop, whose firings are in time order, and nothing due is left |
| `FakeClock.AdvanceFiresDueTimers` | test-1659-analytics-warmup.js:82-95 | advance ends at its time with nothing due; each timer that was due has fired exactly once or was cleared, never both |
| `FakeClock.TimerFiresOnTime` | test-1659-analytics-warmup.js:79-95 | a timer set with delay ms at time t fires, unless cleared, exactly once and exactly at t + ms; an advance that ends earlier leaves it pending |
| `FakeClock.IntervalFires` | test-1659-analytics-warmup.js:79-95 | a callback that re-arms itself every d ms fires at every multiple of d up to the end of the advance and is left set for the next |
| `FakeClock.BeatAt` | test-1659-analytics-warmup.js:79-95 | its k-th firing is at the start plus k times d |
| `FakeClock.FireLosesSlack` | test-1659-analytics-warmup.js:84-92 | if callbacks set at most one timer each, at least 1 ms ahead, each turn lowers the sum of remaining slack |
| `FakeClock.SlackBoundsTurns` | test-1659-analytics-warmup.js:84-92 | then the number of turns is at most that sum |
| `FakeClock.FireProgresses` | test-1659-analytics-warmup.js:84-92 | if callbacks set timers only at least 1 ms ahead, however many, a turn moves the clock forward or leaves fewer timers due by now |
| `FakeClock.PatientTerminates` | test-1659-analytics-warmup.js:82-95 | then every advance terminates, also a negative one |
| `FakeClock.ZeroDelayNeverTerminates` | test-1659-analytics-warmup.js:79-95 | a callback that re-arms itself with delay 0 makes even advance(0) run forever |
| `FakeClock.Scheduler.constructor` | test-1659-analytics-warmup.js:74-75 | the clock starts at 0 without timers, ids start at 1 |
| `FakeClock.Scheduler.SetTimer` | test-1659-analytics-warmup.js:79 | a new id and one more entry at the end, for the present time plus the delay |
| `FakeClock.Scheduler.ClearTimer` | test-1659-analytics-warmup.js:80 | the entry of that id is gone and the others stay in their order |
| `FakeClock.Scheduler.Callback` | test-1659-analytics-warmup.js:90-91 | a callback with its promise work has the effect of its commands in order |
| `FakeClock.Scheduler.Turn` | test-1659-analytics-warmup.js:84-92 | one turn of the loop, or nothing when nothing is due |
| `FakeClock.Scheduler.FireDue` | test-1659-analytics-warmup.js:84-92 | the loop makes the turns of the specification and stops with them |
| `FakeClock.Scheduler.AdvanceBy` | test-1659-analytics-warmup.js:82-95 | advance leaves the specified state |
| `AllowlistGate.FirstMatch` | test-a11y-axe-1668.js:296-310 | the entry found matches and no earlier one does |
| `AllowlistGate.MatchesWhen` | test-a11y-axe-1668.js:297-303 | an entry matches a violation if and only if route and rule agree and one target is its non-empty selector or is hit by its pattern |
| `AllowlistGate.AccountBalanced` | test-a11y-axe-1668.js:473-494 | one violation keeps suppressed equal to the capped sum of the counters, and lands in exactly one total |
| `AllowlistGate.CapIsExact` | test-a11y-axe-1668.js:305-306 | of n violations that one entry matches exactly min(n, count_max) are suppressed, all without a count_max |
| `AllowlistGate.UnmatchedIsNet` | test-a11y-axe-1668.js:485-486 | a violation that no entry matches is net and changes no counter |
| `AllowlistGate.TotalsAreSums` | test-a11y-axe-1668.js:294-312 | for any sequence of violations suppressed is the sum over the entries of min(first matches, count_max) and net is everything else |
| `AllowlistGate.OrderIsIrrelevant` | test-a11y-axe-1668.js:469-495 | counters and totals are the same for every order of the violations |
| `AllowlistGate.OneFinding` | test-a11y-axe-1668.js:469-472 | the violations of a rule are its nodes in order if the viewport lists the rule, and none otherwise; a probe error has none and counts one |
| `AllowlistGate.ViolationsSplit` | test-a11y-axe-1668.js:449-523 | the violations and errors of a run are those of its cells one after the other |
| `AllowlistGate.NetIsZeroIff` | test-a11y-axe-1668.js:463-523 | net is zero if and only if no probe failed, every violation is matched and no entry exceeds its cap |
| `AllowlistGate.Gate.MatchViolation` | test-a11y-axe-1668.js:294-312 | allowed if and only if some entry matches; only the first one counts up; overflow exactly beyond its count_max |
| `AllowlistGate.Gate.CountNode` | test-a11y-axe-1668.js:471-494 | one node goes to suppressed or to net as accounted |
| `AllowlistGate.Gate.ScanCell` | test-a11y-axe-1668.js:469-495 | a cell accounts for the nodes of its listed rules, in order |
| `AllowlistGate.Gate.Sweep` | test-a11y-axe-1668.js:449-523 | the counters are shared by all viewports, themes and routes; a probe error adds one to net |
| `AllowlistGate.Gate.Verdict` | test-a11y-axe-1668.js:323-335 | the verdict from the totals and the unused entries |
| `AllowlistGate.RunGate` | test-a11y-axe-1668.js:449-523 | a run passes if and only if it is clean and, in strict mode, every entry was used |
| `AllowlistYaml.ParseAllowlist` | test-a11y-axe-1668.js:151-198 | the loader computes the specified document or its first error |
| `AllowlistYaml.ParseLines` | test-a11y-axe-1668.js:170-193 | the loop over the lines has the effect of the lines one after the other, up to the first bad one |
| `AllowlistYaml.ParseLine` | test-a11y-axe-1668.js:174-192 | a line starts an entry, extends the latest one, sets a top-level key or is an error |
| `AllowlistYaml.CoerceIff` | test-a11y-axe-1668.js:200-207 | a one-line text gives a value if and only if it stands for it: empty, ~ or null; true or false; signed digits; a string in either quotes; or a bare string that is none of these |
| `AllowlistYaml.QuotedIsPrintable` | test-a11y-axe-1668.js:205 | every one-line string without a comment can be written in single or in double quotes |
| `AllowlistYaml.IntegerIsPrintable` | test-a11y-axe-1668.js:204 | every integer can be written in decimal, with a sign |
| `AllowlistYaml.LineIsRead` | test-a11y-axe-1668.js:174-178 | a line with whitespace, dash or none, key, colon and value is read as such, whatever the whitespace |
| `AllowlistLaws.ReadLineHasLayout` | test-a11y-axe-1668.js:174-178 | and no other line is read |
| `AllowlistLaws.KeyCodes` | test-a11y-axe-1668.js:174 | the characters of keys by their codes |
| `Text.SpaceCodes` | test-a11y-axe-1668.js:153-174 | whitespace, line ends and digits by their codes |
| `AllowlistYaml.LineReadsBack` | test-a11y-axe-1668.js:174-178 | a printed line reads back with its indent, dash, key and value |
| `AllowlistYaml.CommentIsDropped` | test-a11y-axe-1668.js:154 | a comment behind any line that has none is dropped, and nothing else |
| `AllowlistLaws.CommentsGo` | test-a11y-axe-1668.js:154 | a # at the start or after whitespace begins a comment, which goes with the whitespace before it; any other # stays |
| `AllowlistLaws.NewlineEnds` | test-a11y-axe-1668.js:153 | a line ends at a newline |
| `AllowlistLaws.ReturnNewlineEnds` | test-a11y-axe-1668.js:153 | or at a carriage return and a newline |
| `AllowlistLaws.MarkIsDropped` | test-a11y-axe-1668.js:153 | a byte order mark in front is dropped once |
| `AllowlistLaws.BlankLinesGo` | test-a11y-axe-1668.js:155 | lines that are blank or only a comment do not matter |
| `AllowlistLaws.EmptyLists` | test-a11y-axe-1668.js:157-168 | an empty file and [] have no entries |
| `AllowlistLaws.ListMarkAmongLines` | test-a11y-axe-1668.js:163-177 | [] among other lines is an error |
| `AllowlistLaws.ErrorsAre` | test-a11y-axe-1668.js:175-190 | the two errors of a line and when they occur |
| `AllowlistLaws.FirstErrorCounts` | test-a11y-axe-1668.js:173-193 | the first line with an error decides |
| `AllowlistLaws.LastFieldCounts` | test-a11y-axe-1668.js:186-192 | of several fields with one key the last counts |
| `AllowlistYaml.AllowlistReadsBack` | test-a11y-axe-1668.js:151-198 | parsing a printed allowlist, its strings quoted either way or bare, gives its top-level map and its entries in order |
| `AllowlistYaml.KeysGoToLatestEntry` | test-a11y-axe-1668.js:179-192 | after the first dash every further key goes to the latest entry, whatever its indent, and nothing else changes |
| `AllowlistYaml.FilterAllowlist` | test-a11y-axe-1668.js:246-288 | either all entries in order with counters at zero, or a refusal of the list for the reason of its first bad entry |
| `AllowlistLaws.RefusedWhy` | test-a11y-axe-1668.js:253-281 | each reason to refuse an entry, by its fields, and their order |
| `AllowlistLaws.AcceptedWhen` | test-a11y-axe-1668.js:253-281 | an entry is accepted if and only if it has its four fields, one kind of selector, for a pattern a positive count and a pattern that compiles, and an expiry after today |
| `AllowlistLaws.DateForm` | test-a11y-axe-1668.js:248 | the form of today's date, by position |
| `AllowlistLaws.ExpiryText` | test-a11y-axe-1668.js:279 | an expiry that is no string is compared as its decimal or true |
| `AllowlistYaml.AcceptedEarlier` | test-a11y-axe-1668.js:279 | an entry accepted on one day is accepted on every earlier day |
| `Text.StrLeAt` | test-a11y-axe-1668.js:279 | strings are compared at their first difference |
| `AllowlistYaml.StringOrderIsCalendarOrder` | test-a11y-axe-1668.js:279 | on YYYY-MM-DD strings string order is calendar order |
| `AllowlistYaml.AcceptedUntilExpiry` | test-a11y-axe-1668.js:253-281 | an entry that is good otherwise is accepted if and only if its expiry is after today |
| `MiniDom.ApplyKeepsShape` | test-channel-proposals.js:459-479 | every token keeps the links in agreement and the stack the rightmost path from the root, which is never popped |
| `MiniDom.TokensDo` | test-channel-proposals.js:457-478 | what each token does, by tag: which start tags open an element, which element an end tag closes, what is appended where |
| `MiniDom.BuildKeepsShape` | test-channel-proposals.js:454-480 | so does every token sequence |
| `MiniDom.BuildKeepsParentsOlder` | test-channel-proposals.js:454-480 | parent links lead to older nodes, so walks up end |
| `MiniDom.ContainsIsUp` | test-channel-proposals.js:436 | where parents are older than their children, the walk up ends and the recursive definition says what it meets |
| `MiniDom.WalkByIsWalk` | test-channel-proposals.js:440-444 | the walk does not depend on what shows that it ends |
| `MiniDom.WalkInOrder` | test-channel-proposals.js:440-444 | a child comes before what is below it, and that before the next child |
| `MiniDom.DownLinksAreRanked` | test-channel-proposals.js:440-444 | where children are younger than their parents the walk down ends |
| `MiniDom.LastAttributeWins` | test-channel-proposals.js:468-473 | of several attributes with one name in a tag the last one counts |
| `MiniDom.WalkIsInside` | test-channel-proposals.js:436-446 | what the walk down visits is an element that the walk up finds inside |
| `MiniDom.InsideIsWalked` | test-channel-proposals.js:436-446 | where no element inside is an orphan, every element inside is visited |
| `MiniDom.AgreeIffNoOrphans` | test-channel-proposals.js:436-446 | below an element both walks agree if and only if no element inside it is missing from the children of its parent |
| `MiniDom.LinkedWalksAgree` | test-channel-proposals.js:436-446 | hence on linked nodes both walks agree below every element |
| `MiniDom.BuildAddsNewChildren` | test-channel-proposals.js:454-480 | parsing appends only newly created nodes and leaves all else as it was |
| `MiniDom.NewOrphans` | test-channel-proposals.js:433 | setting innerHTML makes orphans of the element children of x and of nothing else |
| `MiniDom.InnerHtmlAgreesIff` | test-channel-proposals.js:433-446 | on every document, after setting the innerHTML of x the walks agree below an element z if and only if no element inside z was an orphan or a child of x |
| `MiniDom.InnerHtmlAgreesBelow` | test-channel-proposals.js:433-446 | below x itself they agree if and only if no element was inside x |
| `MiniDom.LinkedInnerHtmlAgreesIff` | test-channel-proposals.js:433-446 | on linked nodes, if and only if x had no element child or is not in z |
| `MiniDom.SecondInnerHtmlDisagrees` | test-channel-proposals.js:433-446 | an element child emptied out by one setting makes every later one fail too, although there is no element child then |
| `MiniDomTree.TreeIsBuilt` | test-channel-proposals.js:459-479 | the tokens of a tree add exactly that tree to the open element and restore the stack |
| `MiniDomTree.ForestBuildsBack` | test-channel-proposals.js:454-480 | building the tokens of a forest in an empty element gives that forest |
| `MiniDomHtml.DecodeUndoesEscape` | test-channel-proposals.js:370-373 | decoding entities undoes escaping for every string |
| `HtmlLaws.FiveEntities` | test-channel-proposals.js:370 | the five entities |
| `HtmlLaws.NoEntities` | test-channel-proposals.js:371-373 | nothing else is decoded |
| `HtmlLaws.LowerByLetter` | test-channel-proposals.js:462-465 | tag names are put in lower case letter by letter |
| `HtmlLaws.TagAndNameCodes` | test-channel-proposals.js:456-467 | the characters of tags and attribute names by their codes |
| `HtmlLaws.ValueIsRead` | test-channel-proposals.js:456-471 | an attribute value in either kind of quotes, with any whitespace around the equals sign |
| `HtmlLaws.ReadValueIsLaid` | test-channel-proposals.js:456-471 | and nothing else is read as a value |
| `HtmlLaws.AttrIsRead` | test-channel-proposals.js:456-473 | an attribute is read with its value, or with the empty one |
| `HtmlLaws.AttrsEnd` | test-channel-proposals.js:456 | where no name follows whitespace the attributes end |
| `HtmlLaws.CloseIsRead` | test-channel-proposals.js:456 | an end tag with any whitespace before its bracket |
| `HtmlLaws.OpenIsRead` | test-channel-proposals.js:456 | a start tag with its attributes, any whitespace and a slash or none |
| `HtmlLaws.TagIsLaid` | test-channel-proposals.js:456 | and nothing else is read as a tag |
| `HtmlLaws.TextIsRead` | test-channel-proposals.js:456 | the text up to the next bracket is read as text |
| `HtmlLaws.ScanSkips` | test-channel-proposals.js:459 | a bracket that begins no tag is skipped |
| `HtmlLaws.DecodedTokens` | test-channel-proposals.js:472-477 | texts and attribute values are decoded, tags are not |
| `MiniDomHtml.Document.ParseInto` | test-channel-proposals.js:454-480 | the loop over the matches builds what the tokens of the text build |
| `MiniDomHtml.Document.Consume` | test-channel-proposals.js:460-478 | the effect of one match on the tree and the stack |
| `MiniDomHtml.Document.SetInnerHtml` | test-channel-proposals.js:433 | the children are replaced by those of the parsed text |
| `MiniDomHtml.Document.Contains` | test-channel-proposals.js:436 | the loop decides whether the walk up the parent links meets the node, on every document on which it ends |
| `MiniDomHtml.Document.QuerySelectorAll` | test-channel-proposals.js:438-446 | for any test of an element, on any document on which the walk ends, the result is what passes it in the order of the walk; where both walks agree these are the elements strictly inside that pass |
| `MiniDomHtml.Document.WalkBelow` | test-channel-proposals.js:440-444 | the recursive walk appends the passing elements below a node, on any document on which it ends |
| `MiniDomHtml.TreeIsFound` | test-channel-proposals.js:456-478 | where the text of a tree stands, its tokens are found, and scanning goes on behind it |
| `MiniDomHtml.HtmlScansBack` | test-channel-proposals.js:456-478 | scanning the text of a forest gives its tokens and nothing else |
| `MiniDomHtml.HtmlReadsBack` | test-channel-proposals.js:454-480 | parsing the text of any writable forest into an empty element rebuilds the forest |
| `MiniDomHtml.InnerHtmlReadsBack` | test-channel-proposals.js:433 | setting innerHTML to the text of a forest makes that forest the content, whatever it was |
| `VarResolver.FewerLeft` | test-a11y-1716-rf-range-btn-active.js:85-96 | each call lowers the measure (declared names not met, size of the value) |
| `VarResolver.Read` | test-a11y-1716-rf-range-btn-active.js:86-89 | a fallback is shorter than the value it is taken from |
| `VarResolver.ReadsAs` | test-a11y-1716-rf-range-btn-active.js:86-94 | every reference written with a name and a trimmed one-line fallback reads back |
| `VarLaws.ReadsBare` | test-a11y-1716-rf-range-btn-active.js:87-97 | var(--name) reads as a reference to the name without a fallback |
| `VarLaws.ReadIs` | test-a11y-1716-rf-range-btn-active.js:86-89 | a text is a reference if and only if it has the layout of one, with any case of var and any whitespace, and its own value otherwise |
| `VarLaws.NameCodes` | test-a11y-1716-rf-range-btn-active.js:87 | the characters of names by their codes |
| `VarLaws.ImportantGoes` | test-a11y-1716-rf-range-btn-active.js:86 | whitespace around a value and one !important behind it do not count |
| `VarLaws.Precedence` | test-a11y-1716-rf-range-btn-active.js:92-95 | a non-empty declaration of the theme counts before one of the root, that before the fallback, and without any the name is unresolved |
| `VarLaws.PlainAndMet` | test-a11y-1716-rf-range-btn-active.js:88-91 | a text that is no reference is its own value, and a name met before is reported |
| `VarLaws.ResolveVarTakesTheme` | test-a11y-1716-rf-range-btn-active.js:83-98 | resolveVar gives the theme's plain value, else the root's, else the name is unresolved |
| `VarResolver.ResultIsUnguarded` | test-a11y-1716-rf-range-btn-active.js:83-98 | a result of the guarded resolver is the result of the unguarded one |
| `VarResolver.CycleNeverEnds` | test-a11y-1719-contrast-root-causes-e2e.js:100-113 | a cycle on declared names means that no run of the unguarded resolver ends |
| `VarResolver.UnguardedEndsIff` | test-a11y-1719-contrast-root-causes-e2e.js:100-113 | it ends if and only if no two calls of its run meet the same declared name, with the value of a guard on declared names |
| `VarResolver.GuardReportsRepeats` | test-a11y-1716-rf-range-btn-active.js:84-96 | the guard reports a cycle if and only if the unguarded run meets some name a second time; a guard on declared names, if and only if it is a declared one |
| `VarResolver.GuardsAgree` | test-a11y-1716-rf-range-btn-active.js:90-91 | the guard of the source and one on declared names differ only where an undeclared name is reported |
| `VarResolver.GuardIsRight` | test-a11y-1716-rf-range-btn-active.js:83-98 | a value or an unresolved name is what the unguarded resolver gives; a cycle on a declared name means that it never ends |
| `VarResolver.ResolveVarIsRight` | test-a11y-1716-rf-range-btn-active.js:83-98 | the same for resolveVar with the reading of values of the source |
| `VarResolver.FalseAlarmIff` | test-a11y-1716-rf-range-btn-active.js:84-96 | the guard reports a cycle where the unguarded resolver ends if and only if the run meets some name twice but no declared one |
| `VarResolver.UndeclaredTwiceIsReported` | test-a11y-1716-rf-range-btn-active.js:90-94 | for every undeclared name and plain x, a reference like var(--a,var(--a,x)) is reported as a cycle although the unguarded resolver gives x |
| `TabSelector.ParseTabSelector` | test-analytics-tab-state-and-query.js:61-77 | the loop computes the specified list or a syntax error |
| `TabSelector.ReadQuoted` | test-analytics-tab-state-and-query.js:68-69 | the inner loop reads the specified value and stops at the quote |
| `TabSelector.AcceptsExactly` | test-analytics-tab-state-and-query.js:61-77 | a selector parses to these values if and only if it is a comma list of [data-tab="..."] with texts that stand for them |
| `TabSelector.SelectorListReadsBack` | test-analytics-tab-state-and-query.js:61-77 | every non-empty list of values, escaped and printed, parses to itself |
| `TabSelector.RawValueIsSafeIff` | test-analytics-tab-state-and-query.js:61-77 | a raw value parses to exactly itself if and only if it has no quote and no backslash |
| `UserChannels.ChannelList.MergeUserChannels` | test-channel-psk-ux.js:124-140 | the loop over the keys leaves the merged list |
| `UserChannels.ChannelList.MergeKey` | test-channel-psk-ux.js:128-138 | one key marks its first matching row or appends a row |
| `UserChannels.OneKey` | test-channel-psk-ux.js:128-138 | one key, by the fields of the rows: which row is its row, how that row is marked and relabelled, and the fields of an appended one |
| `UserChannels.MergeSplits` | test-channel-psk-ux.js:127-139 | several keys are merged one after the other |
| `UserChannels.MergeExtends` | test-channel-psk-ux.js:127-139 | old rows keep their places and their contents up to mark and label |
| `UserChannels.EveryKeyIsMarked` | test-channel-psk-ux.js:129-138 | afterwards the first row that matches a key is marked |
| `UserChannels.AppendedAreUnmatched` | test-channel-psk-ux.js:133-138 | the appended rows are the new rows of the keys unmatched when visited, in order, with their labels unless a later key that shares the row has one |
| `UserChannels.RowsOfMerge` | test-channel-psk-ux.js:124-140 | every row of the result, exactly: what it was or the new row of its key, marked if it is the row of some key, with the label of the last such key that has one |
| `UserChannels.MergeIsIdempotent` | test-channel-psk-ux.js:124-140 | merging twice is merging once for every list and key set, also where names alias through the prefix |

## Left out

- The production sources that the tests exercise: the web client, the Go server and `scripts/backup-sqlite.sh` are not part of this model.
- Browser-driven tests, layout, focus handling, event listeners and checks of source text by pattern.
- Selector matching of the miniature DOM (`matchesPart`, `elMatches`) and the `'*'` query of `body`: `QuerySelectorAll` is proved for every test of an element instead.
- `remove`, the `textContent` setter and moving an element by `appendChild` are not modelled as operations. `Contains` and `QuerySelectorAll` are proved on every document on which their walks end; the other DOM results are about documents in which a child is younger than its parent, as `parseInto` makes them.
- Attributes are read once, by the token pattern; the second pattern that `parseInto` runs over the same text finds the same attributes and is merged with the first.
- Contrast arithmetic (`composite`, `contrast`, `srgbToLin`), and the block scanners (`extractBlocks`, `inBlock`, `lookupVar`): the resolvers take the declarations as maps. Names that a plain object inherits, such as `constructor`, are not modelled as declarations or labels.
- Numbers: integers of the allowlist are unbounded, timers have whole milliseconds, and a `count_max` of a selector entry is a number or absent.
- A matched node always has a `target`; nodes without one make the gate throw.
- Promise work is part of the callback that starts it, and a run of the clock starts with none outstanding.
- Signals and process groups, a process killed while it holds the mutex, calls without a tag (which take no mutex), file contents, `run` and the restore direction of `cp`, and the `calls` list of the mock.
- The markers that the overlap driver uses are not state: a wait ends when the scheduler lets it, and whether a call runs into a retry limit is given with the call (`DockerCli`) or as a number of attempts (`DockerMock`).
- `DockerCli` treats the processes as values in a transition system, because interleaving is its subject; update in place is in `DockerMock`, and the `Steps` lemmas connect the two.
- A client decides after its inspection whether to stop the container; `Sessions` gives each helper the calls of that decision and considers the runs in which the inspection shows what it was based on. Other calls that a helper makes are free, before, within and after a session if they have no effect, and before and after it otherwise.
