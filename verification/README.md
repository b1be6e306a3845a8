# A verified model of infra-TAK's privileged broker

The broker is a root daemon that takes requests over a unix socket from an unprivileged console,
judges them against a rulebook, records the verdict and executes them. This project models its hard
parts in Dafny and proves what they are for. It also covers the tools that rewrote the console's
shell command lines into argument lists for the broker, the client that sends the requests, and two
small pieces outside the broker.

`dafny verify dfyconfig.toml` checks everything.

## What is modelled

**From shell line to argument list** (`ShellWords`, `ReaderAgreement`, `Substitution`,
`FStringConverter`, `CdPlan`). One machine over symbols describes both `shlex.split` and the shell's own reading
(IEEE Std 1003.1, XCU sections 2.2 and 2.3). A symbol is a character or a placeholder. Filling placeholders in and reading the line
commute, once with sentinels and once with the values themselves, so the generated list evaluates to
the very words the shell used to see. The conditions are exact where the converter's idea fails: the
sentinels decode exactly if no literal NUL begins a match of their pattern, a token rebuilt as an
f-string keeps its value exactly if its literal part holds no brace, a bare expression exactly if it
holds a string, and a bare placeholder works exactly for values the shell reads as one word equal to
themselves. What is planned is one simple command, but for the separators the converter does not look
for. For `cd DIR && CMD` the template is cut into its two parts first; the planned directory is
the shell's exactly if it is quoted by `shlex.quote` or a plain word.

**Patching the source** (`SourceEdits`, `CdConverter`). Edits are spliced one after the other in
descending order. The reference is simultaneous substitution on the original text, defined without any
order. The two agree for disjoint ranges, also when a deletion and an insertion start together, which
the `cd` converter's plan produces; in the other listing order they do not. For a whole file the edits
of all calls are one such substitution.

**The idle recycle** (`IdleRecycle`, `BrokerClient`). Handler threads, a watcher that takes its two
readings under separate lock acquisitions, and the draining main thread are interleaved steps over a
monotone clock. On the other side, a client that retries only the connect, over any number of
restarts, with its time limit, requests that are refused unread, and replies that do not arrive.

**Audit, gate and enforcement** (`AuditJson`, `AuditRead`, `CleanWindow`, `Dispatch`, `Enforcement`). The text of
an audit line and what a reader gets back from it, the substring the readiness gate looks for, the gate over rotated files, the handler
threads that write the lines, and the mode the daemon resolves at every start. Results are about whole
runs, in which requests write files and commands change what lies at or below their operands,
operations write theirs, and the log is rotated.

**Paths** (`PathNorm`, `PathRules`, `PathArgs`, `Symlinks`). `normpath` on component lists, the
allow/deny decision, the operands of path-taking commands, and containment in a file system with
symbolic links. `PathRules` also shows that the shipped lists reach no file of the broker's own state
directory, on which enforcement and dump authenticity rest, and that they do reach every file of the
audit log.

**Folding /home into root** (`Fstab`, `FoldHome`). Every step may fail, and it may end by an exception
that nobody catches: a command killed at its time limit, a text that cannot be decoded. The class `Box` has the operation's
effects as fields and a record of every state it passed through.

**Restorable dumps** (`DumpAuth`). Keyed hashes in an ideal form: contents are characters and hashes,
and without the key no new hash can be made.

**Scanners and parsers** (`Der`, `Argv`, `DockerArgv`, `YamlScalar`, `TlsGuard`). DER elements and the
SubjectPublicKeyInfo of a certificate, two closed command-line grammars, two docker scanners, a YAML
string decoder and a rate limiter.

## Where the code and its comments disagree

The model follows the code. Each point is a lemma or a contract.

- The watcher's comment says the in-flight count can only fall once it has decided. It can rise during
  the grace period (`IdleRecycle.CountMayRiseAfterDeciding`).
- "Quiet for 15 seconds" leaves out the left end of the interval: a request may have been in flight at
  exactly that instant (`IdleRecycle.QuietEndpointIsOpen`).
- `_resolve_enforce` says it never raises. It does when the stamp file holds JSON that is no object
  (the second clause of `Enforcement.StateDir.ResolveEnforce`).
- The handler's comment says that every refusal reaches the audit log. A restore whose dump fails its
  authenticity check is answered DENIED and the log holds its ALLOW alone (`Dispatch.RefusalsLogged`,
  `Dispatch.RestoreRefusalUnlogged`).
- The ratchet of enforcement needs the stamp. Where it could not be written, one log rotation
  (`Enforcement.RotationUndoes`) or one permitted request for the log, which lies under an allowed
  directory, can undo it (`Enforcement.LogRequestUndoes`, `Enforcement.ShippedPermits`); a permitted
  `rm -rf` of the log's directory always does (`Enforcement.ShippedRemovalUndoes`). So can a clock that is
  set back (`Enforcement.ClockUndoes`). Without these the ratchet holds (`Enforcement.UnstampedRatchet`).
- The client's comment says that retrying the connect cannot run a command twice, which holds; but a call
  that ends with exit code 125 may have run, or run later, with the daemon up all the time
  (`BrokerClient.RunsAfterTimeOut`).
- "Never leave a truncated/empty dump behind" holds if the command failed or was killed and the file can
  be removed. A complete dump, with or without its sidecar, also stays behind an answer that reports an
  error, where its mode could not be set or it could not be read back (`DumpAuth.Store.DumpToFile`).
- `_dump_hmac_key` says that an unsaved key holds for the current boot. It does not outlive the call,
  so nothing can be restored until a key is stored (`DumpAuth.NoStoredKeyNoRestore`).
- "Every failure path after the fstab edit" restores it, except those that leave by an exception
  (`FoldHome.Escapes`). If fstab cannot be read, a backup left by an earlier run is written over it
  (`FoldHome.StaleBackupComesBack`); if it cannot be decoded, docker stays stopped
  (`FoldHome.UndecodableFstab`). `FoldHome.Box.FoldHome` states exactly when the box is as it was.
- The converter means to refuse compound commands. It refuses neither a line feed nor a single `&`, and the
  one for `cd` no redirection, so that what follows becomes arguments (`FStringConverter.LinesAreJoined`,
  `CdPlan.RedirectionIsArgument`); `FStringConverter.OneCommand` and `CdPlan.OneCommandInDir` say exactly
  when.
- The traversal test of `_abs` cannot fire, because normalisation has removed every `..`
  (`PathNorm.AbsExact`).

## Model

| member | source | states |
|---|---|---|
| ReaderAgreement.ReadersAgreeExactly | broker/convert_fstring_calls.py:137-140 | for a line of plain words, `shlex.split` and the shell give the same words if and only if no escaped line feed and no escaped dollar or backquote inside double quotes occurs |
| Substitution.WordsCommute | broker/convert_fstring_calls.py:86-112 | reading a template and then filling its words equals filling it and then reading the line, for every text that is absorbed where it stands |
| Substitution.QuoteFits | broker/convert_fstring_calls.py:95-103 | the output of `shlex.quote` is absorbed whole, for every value, wherever a placeholder stands outside quotes and escapes |
| Substitution.LeftUnquoted | broker/convert_fstring_calls.py:95-103 | `shlex.quote` leaves exactly the words of letters, digits and a few signs as they are |
| Substitution.DoubleQuotesRead | broker/convert_fstring_calls.py:137-140 | any text can be written in double quotes, with a backslash before what has a meaning there, and both readers read it as one word |
| Substitution.SpecialStops | broker/convert_fstring_calls.py:129-136 | the shell finds more than words at an operator, a substitution, a pattern, a line feed, and at a comment or tilde where a word starts |
| Substitution.SubstitutionStops | broker/convert_fstring_calls.py:127-128 | inside double quotes it still finds substitutions |
| Substitution.PlainFits | broker/convert_fstring_calls.py:156-158 | so is a non-empty value without white space, quotes, backslashes and metacharacters |
| Substitution.BareWordExact | broker/convert_fstring_calls.py:156-158 | a bare placeholder yields its value as one word exactly when the value is such a word; no other value survives |
| FStringConverter.DecodeExact | broker/convert_fstring_calls.py:86-112 | the sentinels in a template are recovered if and only if no literal NUL begins a match of the sentinel pattern |
| FStringConverter.DecodeSentinels | broker/convert_fstring_calls.py:86-112 | they are recovered uniquely when the literals hold no NUL |
| FStringConverter.NulForges | broker/convert_fstring_calls.py:86-112 | a literal holding a NUL can look like a sentinel |
| FStringConverter.BuildTemplate | broker/convert_fstring_calls.py:86-112 | the text is the template with a sentinel for every placeholder, in order; conversions, format specifications and missing sources are refused |
| FStringConverter.TokensToArgv | broker/convert_fstring_calls.py:149-163 | every token becomes a literal, the placeholder's source, or a rebuilt f-string of exactly its symbols |
| FStringConverter.PlanOne | broker/convert_fstring_calls.py:115-167 | a plan is produced if and only if one exists, and it is that plan: hinted, free of what is refused, headed by a literal privileged binary |
| FStringConverter.PlanExact | broker/convert_fstring_calls.py:115-167 | an f-string is planned if and only if its template has a hint, none of what is refused stands in it, its quotations are closed and its head is a literal privileged binary; the list then has one element for each word of the template |
| FStringConverter.WordsOfTwo | broker/convert_fstring_calls.py:137-140 | a blank or a tab separates words for both readers, a line end for `shlex` as well |
| FStringConverter.OneCommand | broker/convert_fstring_calls.py:124-138 | a planned template is one simple command without redirection or substitution if and only if the shell finds no `&`, parenthesis or line feed in it; it never stops at `;`, a pipe sign, `<`, `>`, a backquote, `&&` or `$(` |
| FStringConverter.LinesAreJoined | broker/convert_fstring_calls.py:137-140 | two plain words on two lines are planned as one command and its argument |
| FStringConverter.LineExists | broker/convert_fstring_calls.py:95-103 | the old line can be built exactly if everything that is quoted holds a string |
| FStringConverter.RebuiltExact | broker/convert_fstring_calls.py:159-163 | a rebuilt f-string has the token's value exactly when its literal part holds no brace |
| FStringConverter.TranslationPreservesMeaning | broker/convert_fstring_calls.py:86-167 | the values of the generated argument list are the shell's words for the instantiated command line, if and only if every bare expression holds a string and no rebuilt f-string a literal brace |
| FStringConverter.PlacedTranslation | broker/convert_fstring_calls.py:86-167 | the same by where placeholders stand: outside quotes any value if wrapped in `shlex.quote`, any plain word otherwise; inside quotes what they pass through |
| CdPlan.PlanOne | broker/convert_cd_calls.py:117-162 | a plan for `cd DIR && CMD` is produced if and only if one exists, and it is that plan |
| CdPlan.OneCommandInDir | broker/convert_cd_calls.py:129-137 | the command of a plan is one simple command if and only if the shell finds no `&`, parenthesis, line feed or redirection in it; it never stops at `;`, a pipe sign, a backquote or `$(` |
| CdPlan.LineIsPlanned | broker/convert_cd_calls.py:127-162 | every line `cd DIR && CMD` with one ` && `, a placeholder or a literal with `~` or `/` in front as DIR and a privileged command is planned, with that directory and one element for each word |
| CdPlan.RedirectionIsArgument | broker/convert_cd_calls.py:127-162 | `cd DIR && A >B` is planned with `>B` as an argument |
| CdPlan.DirMeaning | broker/convert_cd_calls.py:138-149 | the planned directory is a placeholder's value or the literal with its tilde expanded; it is the one word the shell reads, if and only if it was wrapped in `shlex.quote` or is a plain word |
| CdPlan.CdTranslation | broker/convert_cd_calls.py:117-162 | the old line is DIR and CMD around one `&&`, up to white space; the directory and the argument list of the plan are what the shell read for the two, each exactly under its condition |
| SourceEdits.ApplyEdits | broker/convert_shell_calls.py:210-215 | splicing in descending order; on compatible edits this is simultaneous substitution |
| SourceEdits.SequentialIsSimultaneous | broker/convert_shell_calls.py:210-215 | splicing any list of compatible edits, in stable descending order, equals their simultaneous substitution |
| SourceEdits.SplicesArePatched | broker/convert_shell_calls.py:210-215 | the patched text: what stands before the first edit, then replacements and kept text in turn |
| SourceEdits.InsertionFirstIsWrong | broker/convert_cd_calls.py:165-197 | listed the other way round, an insertion that starts where a deletion starts is lost |
| SourceEdits.LineColToOff | broker/convert_shell_calls.py:143-152 | the offset returned is the one position with that line and column; None only where there is none |
| CdConverter.FindDrop | broker/convert_cd_calls.py:172-180 | the start of the deletion, whatever the backward search finds |
| CdConverter.FoundKeyword | broker/convert_cd_calls.py:172-180 | the search finds the keyword exactly if its name lies within the window |
| CdConverter.DropExact | broker/convert_cd_calls.py:172-180 | the deletion is the intended one if and only if the name lies within 30 characters of the value; otherwise the text behind the keyword is doubled |
| CdConverter.MakeEdits | broker/convert_cd_calls.py:165-197 | the edits of one call; on a call laid out with its names within the windows they are the planned ones |
| CdConverter.PlanAllCompatible | broker/convert_cd_calls.py:236-245 | the edits of all calls at disjoint sites are compatible and lie in the text, also where the deletion of `shell=True` and the insertion share their offset |
| CdConverter.PatchFile | broker/convert_cd_calls.py:236-245 | patching the file is one simultaneous substitution of all of them |
| CdConverter.RewrittenCall | broker/convert_cd_calls.py:165-245 | a call with `shell=True` and no `capture_output`, spelled out: wrapped command, directory, the merged streams only if asked for and not given, the keyword gone, the rest as it was |
| CdConverter.RewrittenCapture | broker/convert_cd_calls.py:181-197 | a call with `capture_output` and merged streams, spelled out: the keyword becomes the two streams, given once |
| IdleRecycle.Activity.Add | broker/takwerx_broker.py:4298-4303 | one atomic step on counter and stamp, the same as in the interleaved machine |
| IdleRecycle.CounterExact | broker/takwerx_broker.py:3936-3944 | in every reachable state the counter is the number of handlers between +1 and -1, never negative |
| IdleRecycle.QuietIsSound | broker/takwerx_broker.py:4352-4369 | every recycle: no request in flight when the count was read, and either the bound on waiting has passed or no request was in flight at any instant after `now - quiet` up to the reading of the stamp |
| IdleRecycle.QuietEndpointIsOpen | broker/takwerx_broker.py:4352-4369 | a run in which a request was in flight at exactly `now - quiet` |
| IdleRecycle.NoStampNoRequest | broker/takwerx_broker.py:4311-4313 | without a stamp no handler has started yet |
| IdleRecycle.EveryDeferralHasAReason | broker/takwerx_broker.py:4357-4374 | while it has not recycled, every completed poll found a request in flight or recent activity within the bound; so after `after + quiet_max` the first idle poll recycles |
| IdleRecycle.IdlePollRecycles | broker/takwerx_broker.py:4350-4369 | a poll that runs undisturbed on an idle box past the thresholds does recycle |
| IdleRecycle.RecycleExits | broker/takwerx_broker.py:4358-4369 | from the decision on an idle daemon comes to its end by itself, with nothing cut off |
| IdleRecycle.NotBeforeThreshold | broker/takwerx_broker.py:4352-4356 | it never recycles before `after` of uptime |
| IdleRecycle.ExitIsClean | broker/takwerx_broker.py:4412-4419 | the daemon exits with no counted request running, or after the drain bound with one seen during the drain |
| IdleRecycle.ExitExact | broker/takwerx_broker.py:4412-4419 | a look at the count ends the drain exactly if nothing is in flight, a look at the clock exactly if the bound has passed |
| IdleRecycle.SocketGoesFirst | broker/takwerx_broker.py:4358-4369 | the socket is there until the watcher has decided or the accept loop has returned, and gone before the shutdown is asked for and before the drain |
| IdleRecycle.OnlyFallsAfterStop | broker/takwerx_broker.py:4479-4496 | once accepting has stopped and every accepted handler is counted, the requests in flight only become fewer |
| IdleRecycle.CountMayRiseAfterDeciding | broker/takwerx_broker.py:4341-4349 | a run in which the count rises after the decision |
| BrokerClient.ConnectToBroker | broker/takwerx_brokerctl.py:117-135 | it stops at the first attempt that is not to be retried, within a bounded number of attempts, and leaves no socket open but the one returned |
| BrokerClient.AtMostOnce | broker/takwerx_brokerctl.py:138-153 | over any number of restarts one call is executed at most once, not at all before the whole of it was sent, and exactly once if the reply says ok |
| BrokerClient.LostHasACause | broker/takwerx_brokerctl.py:184-193 | a call lost after the connect was timed out by the client, or a daemon exited with its connection in hand, or a handler closed it without the whole reply or without having read the whole request |
| BrokerClient.NoReplyAfter | broker/takwerx_broker.py:3972-3983 | conversely, after the time limit, after such an exit and after a cut reply the client never gets a reply |
| BrokerClient.LostMayHaveRun | broker/takwerx_brokerctl.py:184-193 | after a call lost to an exit (exit code 125) the request may or may not have run |
| BrokerClient.RunsAfterTimeOut | broker/takwerx_brokerctl.py:119-123 | a run without an exit in which the request is executed after the client has given up |
| BrokerClient.TooLongIsLost | broker/takwerx_broker.py:1583-1592 | a run without an exit and a time-out in which an over-long request is answered in full and the call is lost |
| BrokerClient.ErrorMayHaveRun | broker/takwerx_broker.py:3961-3972 | after a reply that does not say ok the request may or may not have run |
| BrokerClient.RestartIsWaitedOut | broker/takwerx_brokerctl.py:52-59 | a run in which the call falls into a restart and reaches the next daemon |
| BrokerClient.NeverStuck | broker/takwerx_brokerctl.py:138-153 | a client that is not done can go on by itself, and sees the end of its connection without waiting for its time limit |
| BrokerClient.NobodyThere | broker/takwerx_brokerctl.py:124-135 | a run in which a client finds no daemon and gives up with nothing sent |
| BrokerClient.HalfIsRefused | broker/takwerx_broker.py:3955-3972 | a run in which a client gives up half-way, the handler reads to the end and refuses, and nothing runs |
| AuditJson.MarkIsExact | broker/takwerx_broker.py:4014-4021 | for every dictionary with plain keys the printed line contains the mark exactly if a field `verdict` is WOULD-DENY |
| AuditJson.GateTestIsExact | broker/takwerx_broker.py:1538-1554 | for every record, whatever its texts hold, the substring test answers whether its verdict is WOULD-DENY |
| AuditJson.OneLine | broker/takwerx_broker.py:1538-1554 | every record is exactly one line |
| AuditJson.UnescapeEscape | broker/takwerx_broker.py:1551-1554 | the printed strings decode to what was recorded (section 7 of RFC 8259) |
| AuditRead.RecordReadBack | broker/takwerx_broker.py:1538-1554 | a JSON reader gets back from the line exactly the fields recorded, whatever the texts hold; of the detail the first 500 characters |
| AuditRead.IntReadBack | broker/takwerx_broker.py:1542-1546 | numbers come back as well |
| CleanWindow.AuditCleanWindow | broker/takwerx_broker.py:4000-4033 | clean exactly if some line is at least 72 hours old and no WOULD-DENY line is younger; every other answer exactly when its reason holds, with the right extreme |
| CleanWindow.ScanFile | broker/takwerx_broker.py:4010-4024 | the inner loop extends the oldest line and the newest refusal by those of one file |
| CleanWindow.RotationExact | broker/takwerx_broker.py:4000-4033 | on a log in time order, what is left after losing any oldest lines is clean exactly if all of it was and an old enough line is left |
| CleanWindow.RolloverLeaves | broker/takwerx_broker.py:1510-1521 | a rollover loses the oldest file, and nothing at all where no file moves up to it |
| CleanWindow.RolloverIsSafe | broker/takwerx_broker.py:1510-1521 | a rollover of the log files never turns an unclean log clean |
| CleanWindow.OutOfOrderOpens | broker/takwerx_broker.py:4000-4033 | without time order it can |
| CleanWindow.StaysClean | broker/takwerx_broker.py:4000-4033 | a clean log stays clean, as time passes and lines are appended, exactly until one is a refusal inside the window |
| CleanWindow.RecordsDecide | broker/takwerx_broker.py:4014-4021 | on records: only a record whose verdict is WOULD-DENY can close the gate, whatever text the others carry |
| Dispatch.AuditLog.Audit | broker/takwerx_broker.py:1538-1554 | a call of `audit` counts a DENY and appends one record; it is the effect of its two steps in the machine |
| Dispatch.AuditedBeforeItRan | broker/takwerx_broker.py:3841-3933 | whatever ran was recorded before, as ALLOW if the rulebook permits it, else as WOULD-DENY and only for exec, write and read in PERMISSIVE mode; fixed-shape operations fail closed, `check` and strangers never run anything |
| Dispatch.RunsOnce | broker/takwerx_broker.py:3936-3983 | no request runs twice |
| Dispatch.StoryExact | broker/takwerx_broker.py:3841-3983 | for every answered request, whatever the other threads did: exactly the records it left, in order, whether and where its operation ran, and the answer |
| Dispatch.ServedExactly | broker/takwerx_broker.py:3851-3931 | an answered request has run if and only if it is `enforce_enable`, a permitted operation, or a forbidden exec, write or read in PERMISSIVE mode, and it has the record that says which |
| Dispatch.NoWouldDeny | broker/takwerx_broker.py:3915-3926 | an enforcing broker never writes WOULD-DENY |
| Dispatch.RefusalsLogged | broker/takwerx_broker.py:3946-3972 | a client told DENIED has a DENY record in the log if and only if the operation did not return the refusal itself; only the two restores do, and then the log says ALLOW |
| Dispatch.RestoreRefusalUnlogged | broker/takwerx_broker.py:2245-2247 | for either restore, a run that ends with DENIED and an ALLOW record alone |
| Dispatch.DenyCountExact | broker/takwerx_broker.py:1549-1552 | the deny counter is the number of DENY records plus the refusals just being written, equal exactly when no thread is between the two |
| Dispatch.EnforcingStaysReady | broker/takwerx_broker.py:4000-4033 | no audit record of an enforcing broker can make a clean log unclean |
| Dispatch.WouldDenyShuts | broker/takwerx_broker.py:3921-3924 | a forbidden request in PERMISSIVE mode shuts the gate until its record is old |
| Enforcement.StateDir.ResolveEnforce | broker/takwerx_broker.py:4099-4147 | it fails outright exactly on a stamp that is JSON but no object with the variable unset; unstamped and not overridden it enforces exactly on marker and clean log, and then leaves the stamp exactly if it can |
| Enforcement.StateDir.EnforceEnable | broker/takwerx_broker.py:4150-4165 | the operation only ever creates the marker, also where it then reports an error, and otherwise reports readiness truthfully |
| Enforcement.RequestsKeepOut | broker/takwerx_broker.py:576-600 | in ENFORCE no write and no command, however its path is spelled, happens to marker or stamp or to a directory above them |
| Enforcement.ShippedGuards | broker/takwerx_broker.py:387-480 | the shipped lists and the places the handlers write in satisfy the hypothesis of the run theorems, wherever the console's home is |
| Enforcement.CnfNeedsItsGate | broker/takwerx_broker.py:3739-3742 | the one file with a gate of its own is refused by the lists, so only a `write` that this gate accepts reaches it |
| Enforcement.Ratchet | broker/takwerx_broker.py:4109-4118 | with the stamp in place and no PERMISSIVE daemon running, the stamp stays and every later start enforces as long as the kill switch is not used |
| Enforcement.FirstStartSticks | broker/takwerx_broker.py:4134-4147 | the first start that enforces with a writable stamp settles it: every later start enforces, whatever becomes of marker, log and clock |
| Enforcement.EnforcementHasACause | broker/takwerx_broker.py:4119-4147 | a box that neither enforces nor is stamped, and that nobody forces on, comes to enforce only after a start that found the marker and a clean log, or after a request that put a stamp in place in PERMISSIVE mode |
| Enforcement.OptInFirst | broker/takwerx_broker.py:4150-4165 | without a marker to begin with, only after somebody opted in or a PERMISSIVE daemon was told to put one of the two files in place |
| Enforcement.MarkerStays | broker/takwerx_broker.py:4150-4165 | no start, operation handler, write or rotation removes the marker; only a command does that a PERMISSIVE daemon runs on it or on a directory above it |
| Enforcement.MarkerHasACause | broker/takwerx_broker.py:4150-4160 | the marker appears only through the enable operation, or in PERMISSIVE mode through a write that names it or a command on it or on a directory above it |
| Enforcement.UnstampedRatchet | broker/takwerx_broker.py:4119-4147 | without a stamp the ratchet holds as long as the log is not rotated, no permitted request names one of its files or a directory above one, and the clock is not set back |
| Enforcement.RotationUndoes | broker/takwerx_broker.py:4141-4146 | a run in which a rotation that drops the old history undoes an unwritten stamp |
| Enforcement.ClockUndoes | broker/takwerx_broker.py:4022-4033 | a run in which a clock set back far enough does |
| Enforcement.LogRequestUndoes | broker/takwerx_broker.py:1482-1503 | for every permitted request that leaves an unclean log, a run in which it does |
| Enforcement.ShippedPermits | broker/takwerx_broker.py:434 | the shipped rulebook permits writes to and commands on every path in /var/log, /var/log itself and the log's directory included, unless a deny list names the path |
| Enforcement.ShippedRemovalUndoes | broker/takwerx_broker.py:1482-1503 | so on every shipped box without a stamp, a run in which removing the log's directory or /var/log ends the ratchet |
| Enforcement.KillSwitchUndoes | broker/takwerx_broker.py:4103-4106 | a run in which the PERMISSIVE mode of the kill switch ends the ratchet |
| PathNorm.AbsExact | broker/takwerx_broker.py:521-538 | accepted exactly if absolute and free of NUL; the result is the leading slashes and the resolved entries, none of them empty, `.` or `..` |
| PathNorm.AbsIdempotent | broker/takwerx_broker.py:521-538 | normalisation is idempotent |
| PathNorm.UnderIsPrefix | broker/takwerx_broker.py:588-594 | the string test against an allowed directory decides containment component by component |
| PathNorm.RelativeResolves | broker/takwerx_broker.py:1501-1502 | a relative path joined to a directory resolves from what the directory resolves to |
| PathNorm.NameExact | broker/takwerx_brokerctl.py:78 | the basename of a path is a name exactly if the path is that name or ends in it behind a slash |
| PathRules.VerdictOnNormalised | broker/takwerx_broker.py:576-600 | the verdict depends only on the normalised path, and a granted path is that path |
| PathRules.ReadExtendsWrite | broker/takwerx_broker.py:586-600 | what may be written may be read, with the same result |
| PathRules.GrantIsCovered | broker/takwerx_broker.py:576-600 | a granted path is on no deny list, and it is listed exactly, or lies at or below an allowed directory, component by component |
| PathRules.GrantExact | broker/takwerx_broker.py:576-600 | granted if and only if absolute, free of NUL, on no deny list, and listed exactly, or under a readonly directory for reading, or admitted by the first directory of the write list above it |
| PathRules.RefusalExact | broker/takwerx_broker.py:576-600 | which of the three reasons a refusal has |
| PathRules.DoubleSlash | broker/takwerx_broker.py:588-594 | a path with exactly two leading slashes lies under no directory |
| PathRules.SealedRefused | broker/takwerx_broker.py:576-600 | a file at or above which no entry lies is refused under every spelling, for reading and writing, and so is every directory above it |
| PathRules.StateIsSealed | broker/takwerx_broker.py:387-480 | the shipped lists, for any home, leave the files of the broker's state directory sealed |
| PathRules.ShippedReachesLog | broker/takwerx_broker.py:387-450 | the shipped lists grant a write to every path in /var/log, the audit log included, exactly unless a deny list names it |
| PathArgs.CheckPathArgs | broker/takwerx_broker.py:1482-1503 | accepted exactly if every operand is granted, where it stands; the reason is that of the first one refused |
| PathArgs.OperandNames | broker/takwerx_broker.py:1488-1502 | what an operand names: itself if absolute, else what its components lead to from the working directory, or from the root where that is not absolute |
| PathArgs.ModeIsNoPath | broker/takwerx_broker.py:1489-1500 | exactly for chmod and chown the first word is no path |
| PathArgs.VerdictOnNormalisedCwd | broker/takwerx_broker.py:1488-1502 | every spelling of the working directory gives the same verdict on an operand |
| Symlinks.WalkLinkFree | broker/takwerx_broker.py:541-564 | where a walk through symbolic links ends, no link is left on the way |
| Symlinks.RealPathExists | broker/takwerx_broker.py:557-558 | every path has a resolved text: a walk ends in one place only |
| Symlinks.WalkPlain | broker/takwerx_broker.py:541-564 | a path without links leads to itself |
| Symlinks.LinkLeads | broker/takwerx_broker.py:541-564 | a link leads where its target does, from the root or from its own directory |
| Symlinks.BelowExact | broker/takwerx_broker.py:557-560 | the containment test on texts compares whole components |
| Symlinks.RootIsItself | broker/takwerx_broker.py:551-560 | a root that is no link resolves to the entry of its own name in its resolved parent |
| Symlinks.GrantStaysInside | broker/takwerx_broker.py:541-600 | a path granted by a directory the console owns leads, if anywhere, inside that directory itself, whatever links the console planted |
| Symlinks.InsideIsGranted | broker/takwerx_broker.py:541-600 | conversely, a path that leads into what its console-owned directory leads to is granted, exactly unless a deny list names it |
| Fstab.WithoutHome | broker/takwerx_broker.py:2655-2663 | exactly the active /home entries are commented out, nothing else changes |
| Fstab.CommentOutFacts | broker/takwerx_broker.py:2655-2663 | afterwards nothing mounts /home, and a second edit changes nothing |
| Fstab.FieldsExact | broker/takwerx_broker.py:2655-2660 | the words of a line: after white space everything up to white space |
| Fstab.EntryMounts | broker/takwerx_broker.py:2655-2660 | an entry written as device, mount point and more, with any white space between and in front, mounts /home exactly if it says so and is no comment |
| FoldHome.Box.Guards | broker/takwerx_broker.py:2526-2575 | it goes on only if every guard holds, and refuses only if one does not |
| FoldHome.Box.StageAndArchive | broker/takwerx_broker.py:2586-2612 | it goes on exactly with a complete copy and a complete archive; what copy and archive hold after every failure |
| FoldHome.Box.CheckHolders | broker/takwerx_broker.py:2637-2647 | it goes on exactly if nobody holds /home; all holders are signed out if they are plain shells and that was asked for, and else nobody |
| FoldHome.Box.EditOrUndo | broker/takwerx_broker.py:2649-2668 | how it ends for every fate; after a failed edit fstab is what the backup file holds, whichever run wrote it; an fstab that cannot be decoded leaves by an exception with nothing undone |
| FoldHome.Box.UnmountAndRemove | broker/takwerx_broker.py:2670-2687 | it goes on if and only if umount and lvremove succeed, and the volume is gone exactly if lvremove took effect after a successful umount; an error return restores fstab before it remounts |
| FoldHome.Box.FoldHome | broker/takwerx_broker.py:2549-2705 | it succeeds if and only if every needed step goes through, and the volume is gone exactly then or after a late failure; the data exists in every state; every error return with the volume left is a roll-back, of fstab exactly unless an old or partial backup is in the way; an exception is one exactly unless it is among the listed; what success does and does not guarantee |
| FoldHome.StaleBackupComesBack | broker/takwerx_broker.py:2665-2668 | an unreadable fstab with a backup left by an earlier run: the old backup is written over it |
| FoldHome.UndecodableFstab | broker/takwerx_broker.py:2650-2668 | an undecodable fstab: the exception passes every undo and docker stays stopped |
| FoldHome.ConfirmForms | broker/takwerx_broker.py:2549-2560 | the volume has to be confirmed in one of its spellings |
| DumpAuth.Store.DumpKey | broker/takwerx_broker.py:1753-1772 | the stored key if there is one, otherwise a new one each time |
| DumpAuth.Store.DumpToFile | broker/takwerx_broker.py:2018-2078 | the file and the sidecar after every way a dump can go; the output is there whole exactly if the command ended well, whatever is answered; after an error a file is left exactly if the command could not be started, or ended well, or the file could not be removed |
| DumpAuth.Store.WriteSidecar | broker/takwerx_broker.py:2065-2072 | the sidecar after each way its writing can go, and when it draws a key |
| DumpAuth.StaleSidecar | broker/takwerx_broker.py:2061-2072 | the sidecar of an earlier dump stays exactly unless it is opened, so a new file can lie beside an old sidecar |
| DumpAuth.Store.Restore | broker/takwerx_broker.py:2291-2308 | restores exactly the bytes of a file whose sidecar is the hash of those bytes under the current key |
| DumpAuth.Authentic | broker/takwerx_broker.py:2225-2252 | whatever the console did to the files, the bytes accepted are the complete output of an earlier dump of the broker |
| DumpAuth.NoStoredKeyNoRestore | broker/takwerx_broker.py:1763-1772 | without a stored key nothing is accepted |
| DumpAuth.DumpThenRestore | broker/takwerx_broker.py:2018-2078 | a dump with its sidecar stays restorable, with exactly its output, until one of the two files or a directory above them is touched, also where the operation then answered an error |
| DumpAuth.CopiesAreAccepted | broker/takwerx_broker.py:2238-2246 | the hash binds the bytes and not the path: a copy of both files is accepted as well |
| DumpAuth.LeakForges | broker/takwerx_broker.py:1742-1750 | under a rulebook that lets the console read the key file, or put one there, any bytes can be made to be accepted |
| DumpAuth.SpaceIsIgnored | broker/takwerx_broker.py:2238-2242 | white space around the hash in the sidecar does not matter |
| DumpAuth.SeenCanBePutBack | broker/takwerx_broker.py:1672-1705 | a file the console has read can be put back after it was removed |
| DumpAuth.MachineIsStore | broker/takwerx_broker.py:2018-2078 | in the machine dump and restore do to files and key what the methods do |
| DumpAuth.ShippedGuards | broker/takwerx_broker.py:1750 | under the shipped lists the console reaches the key file under no spelling |
| Der.TlvOfEncoding | broker/takwerx_broker.py:3456-3466 | reading recovers tag and bounds of any element of definite length, in short or long form |
| Der.TlvExact | broker/takwerx_broker.py:3456-3466 | a reading succeeds with these bounds exactly on the encoding of an element; the indefinite form apart |
| Der.TlvErrors | broker/takwerx_broker.py:3456-3466 | which exception a failed reading raises |
| Der.LengthForms | broker/takwerx_broker.py:3456-3466 | every length has its short form below 128 and its long forms, with any leading zeros |
| Der.CertSpki | broker/takwerx_broker.py:3469-3486 | the loop over at most seven fields computes the specified extraction |
| Der.SpkiOfCertificate | broker/takwerx_broker.py:3469-3486 | for every certificate, with or without a version, the bytes hashed are exactly the SubjectPublicKeyInfo element |
| Der.SpkiIsASlice | broker/takwerx_broker.py:3469-3486 | on arbitrary bytes: None, or a non-empty slice that starts with tag 0x30 |
| Argv.CheckSystemdRun | broker/takwerx_broker.py:1398-1466 | accepted exactly if the words are a sentence of the grammar: closed options, then the command of the last unit named, with that unit's property and environment strings |
| Argv.ReadShown | broker/takwerx_broker.py:1408-1436 | every option is read back as what it was written from |
| Argv.AcceptsGrammar | broker/takwerx_broker.py:1398-1466 | reading up to the first word that is no flag is sound and complete for the grammar |
| Argv.MigrateRunsItsScript | broker/takwerx_broker.py:1452-1464 | whatever path the migration is given, what is run resolves to a script of that name in a directory `scripts`, with the two options |
| Argv.MigrateFromAnywhere | broker/takwerx_broker.py:1452-1464 | and any directory is allowed whose path does not climb |
| Argv.EnvironmentPinned | broker/takwerx_broker.py:1398-1403 | no unit can be given BASH_ENV, ENV, LD_PRELOAD or another PATH |
| Argv.ListingWords | broker/takwerx_broker.py:978-990 | the listing words list, and nothing that removes, installs, rebuilds or disables does |
| Argv.CheckSemodule | broker/takwerx_broker.py:978-1008 | accepted exactly if all words list, or they are one or more removals of the two removable modules |
| DockerArgv.DefaultTimeout | broker/takwerx_brokerctl.py:75-96 | the scanner returns what the first two words of the tokens decide |
| DockerArgv.LongExactly | broker/takwerx_brokerctl.py:75-96 | the long limit goes to `build`, `pull`, `buildx build` and `compose build`, `up`, `pull`, `create`, with flags anywhere before the words, and to nothing else |
| DockerArgv.AfterSecondWord | broker/takwerx_brokerctl.py:81-88 | nothing after the second word matters |
| DockerArgv.FlagsDoNotMatter | broker/takwerx_brokerctl.py:81-85 | nor do flags, with their values, between tokens |
| DockerArgv.ComposeProjectDir | broker/takwerx_broker.py:4539-4568 | the scanner returns what the tokens say, if it is an absolute path of a directory |
| DockerArgv.FindExact | broker/takwerx_broker.py:4539-4564 | the tokens say: the last directory named between `compose`, as first word, and the second word |
| DockerArgv.OtherFlagsDoNotMatter | broker/takwerx_broker.py:4548-4559 | other flags between tokens do not matter |
| DockerArgv.ArgumentsDoNotMatter | broker/takwerx_broker.py:4560-4564 | nor does anything after the second word |
| YamlScalar.DecodeQuoted | mediamtx_ldap_overlay.py:82-93 | decoding the double-quoted or the single-quoted form of any string gives it back, with any white space around |
| YamlScalar.PlainStays | mediamtx_ldap_overlay.py:82-93 | any text that is not quoted at both ends is taken as it stands, without the white space around it |
| YamlScalar.DoubleQuotedExact | mediamtx_ldap_overlay.py:82-93 | for every double-quoted text on one line, decoding agrees with YAML if and only if the quote and the backslash are the only characters written as escapes |
| YamlScalar.EscapedIsSimple | mediamtx_ldap_overlay.py:82-93 | escaping those two gives such text, and it means the string |
| TlsGuard.Limiter.ShouldLog | gunicorn_tls_guard.py:75-87 | one call on the table, which never grows past its bound |
| TlsGuard.TableBounded | gunicorn_tls_guard.py:83-85 | in every run the table has at most 1024 entries |
| TlsGuard.LinesApart | gunicorn_tls_guard.py:78-81 | between two clearings, consecutive lines for one address are at least a window apart |
| TlsGuard.LoggedExactly | gunicorn_tls_guard.py:75-87 | a drop is logged if and only if no line for its address, not forgotten since, is younger than the window |
| TlsGuard.EveryDropCounts | gunicorn_tls_guard.py:75-87 | every drop is a line, is in the count of a later line, is pending, or was forgotten in a clearing |

## Left out

- FStringConverter.PlanOne: does not strip trailing `|| true`, redirections or outer white space first; digits in a forged sentinel are ASCII; a template that still holds `<`, `>` or `|` is refused, as the code does after stripping.
- FStringConverter.TranslationPreservesMeaning: variables, patterns and other expansions of the shell are not modelled; a line with an unquoted metacharacter counts as no plain words. The source of an expression is one symbol, so quotes or braces inside it are not looked at. A path object counts as a string; what `shlex.quote` makes of an empty value that is no string is not modelled.
- CdPlan.PlanOne: does not strip trailing `|| true`, redirections or outer white space first.
- CdPlan.CdTranslation: what a leading tilde stands for is not modelled; the shell's `&&` itself is taken as running the second part in the directory of the first.
- CdConverter.MakeEdits: the syntax tree is given; nothing but blanks and `=` stands between a keyword's name and its value; offsets are characters, not the UTF-8 bytes Python counts.
- AuditJson.GateTestIsExact: strings hold no lone surrogates.
- CleanWindow.AuditCleanWindow: the reading of a time stamp is a function of the line; what local time and daylight saving do to it is not modelled. Nor is the cached answer that `ping` serves.
- CdConverter.RewrittenCall: with `os.system`, or with both keywords, a call is covered by SplicesArePatched and PatchFile only.
- BrokerClient.LostHasACause: failures of the client's own system calls other than a time-out or a broken connection are not modelled.
- IdleRecycle.ExitIsClean: speaks of counted handlers; one accepted but not yet counted can be cut off.
- Dispatch.AuditedBeforeItRan: the rulebook and the operations are parameters; that a log record reaches the disk is assumed.
- Enforcement.Ratchet: in ENFORCE a command changes only what lies at or below its checked operands; commands whose arguments are judged otherwise, what the programs do that operations start, and links planted in root-owned directories are not modelled.
- Symlinks.GrantStaysInside: the file system does not change between check and use; a path whose links form a loop opens nothing.
- PathArgs.CheckPathArgs: what a command does with its flags is not modelled.
- FoldHome.Box.FoldHome: the survey agrees with the state of the box; texts are what Python reads, with CR LF as LF, and mount reads the fields of fstab as the operation does; what is written to /home between copy and unmount is one given content; the regular expression that refuses confirmations ending in /root or /swap is not modelled.
- DumpAuth.Authentic: operations are atomic, the mode is ENFORCE, commands only write, copy or remove files, random keys are never guessed, the key file is never damaged from outside, and links in the dump tree are not modelled.
- Der.SpkiOfCertificate: hashing, and reading the PEM bundle, are left out.
- The mode `grow_free` of the disk operation, the other converters, the single-shape gates for other binaries, the docker and psql token lists, and all Flask routes would add easy members or are outside the core.
- The decrement of `nr_conns` in the TLS guard's wrapper, and installing it, are left out.
- Sockets, processes, LVM, systemd, SELinux and docker themselves are steps that succeed, fail or hang.
