# mcman dev session and addon lockfile diff, in Dafny

This project models two pieces of mcman's sequential logic and proves properties of them.

**The hot-reload dev session** (`src/hot_reload/mod.rs`) is made of three parts.

- **Watchers.** Three watcher callbacks turn settled filesystem batches into commands, or into a new shared configuration.
  - The config-tree watcher: each edited file is bootstrapped, then the first matching rule of hotreload.toml runs.
  - The hotreload.toml watcher reloads the rules wholesale.
  - The server.toml watcher emits a stop, wait, rebuild and start cycle.
  - These are pure functions in `watchers.dfy`. The parts they depend on come in as parameters: pattern matching, the directory test and the config parser.
- **The command handler.** It is a single-consumer loop. It owns the server child process, its output reader, the `is_stopping` flag and the artifact (jar) name.
  - `session_spec.dfy` gives one step function per arm of its `select!`, and the handler as their fold over the inputs in the order they are taken.
  - `session.dfy` holds the same handler as a `DevSession` class whose fields the methods update in place. Every method is proved to move the session exactly as its step function does.
  - Each input carries the outcomes the collaborators would give, in a `World`: the spawn result, the winner of the WaitUntilExit race (exit, timeout or Ctrl-C) and the build result.
- **Bookkeeping.** The session keeps counts of spawned, killed and naturally exited children, plus a record of the texts written to the child's stdin. These counts state "at most one child is ever live".

**The addon download step** (`src/core/addons.rs`, in `addons.dfy`) works as follows.
- It resolves the configured plugins or mods in order.
- It appends each `(addon, file)` to the new lockfile.
- It computes which files of the old lockfile are stale.
- The resolver is a function parameter.
- The method returns the set of files it removes instead of touching the disk.

The model follows the code literally, including where it is stricter than a loose reading of the session's behaviour would suggest:
- **Rebuild failure.** A failed Rebuild leaves the handler through `?` (mod.rs:161). The loop does not go on.
- **The final kill.** It runs only on the Ctrl-C exit (mod.rs:196-208), not on every exit path. `SessionSpec.RebuildFailureSkipsFinalKill` shows a run that returns with a child still live.
- **Batch abandonment.** A directory path or a path no rule matches returns from the whole config-watcher callback (mod.rs:254-256, 263-265). It does not just skip that path, so the rest of the batch is dropped.
- **Trailing newlines.** A RunCommand rule's text always gets `"\n"` appended (mod.rs:282), even when it already ends in one.
- **The server.toml stop text.** It is `"stop\nend"`, without a trailing newline (mod.rs:300). The config watcher's Restart sends `"stop\nend\n"` (mod.rs:274). `Watchers.ServerTomlStopIsNotALine` records the difference.

## Model

| member | source | states |
|---|---|---|
| `Watchers.FindRuleIsFirstMatch` | src/hot_reload/mod.rs:260-265 | a rule is found exactly when some rule's pattern matches the path, and the rule found is the earliest matching one in declaration order |
| `Watchers.ActionCommands` | src/hot_reload/mod.rs:268-285 | a rule's action enqueues a newline-terminated SendCommand first; only Restart adds WaitUntilExit then Start; no action ever enqueues Rebuild, Stop or Bootstrap |
| `Watchers.PathsCommandsAppend` | src/hot_reload/mod.rs:253-286 | handling two runs of paths in turn equals handling their concatenation, unless the first run returned from the callback |
| `Watchers.EventsCommandsArePathwise` | src/hot_reload/mod.rs:246-289 | the callback's commands are those of the paths of its Create/Modify events taken as one run; other event kinds contribute nothing |
| `Watchers.PathsBootstrapPrefix` | src/hot_reload/mod.rs:253-266 | the files bootstrapped are exactly the paths before the first directory or unmatched file, followed by that path when it is an unmatched file (bootstrapped before the callback returns) and not when it is a directory; so they are always a prefix of the paths |
| `Watchers.FirstStopIsFirst` | src/hot_reload/mod.rs:253-266 | FirstStop is the position of the first path that is a directory or matches no rule: every path before it is a file some rule matches |
| `Watchers.PathsReturnIffStopped` | src/hot_reload/mod.rs:253-266 | the callback returns before the end of a run of paths exactly when some path in it is a directory or matches no rule |
| `Watchers.PathsCompleteIffActionable` | src/hot_reload/mod.rs:253-266 | a run of paths is handled to the end exactly when every path is a non-directory some rule matches, and then every path is bootstrapped |
| `Watchers.ConfigWatcherBootstraps` | src/hot_reload/mod.rs:246-289 | for a whole batch, the bootstrapped files are exactly the settled Create/Modify paths up to the first one that is not actionable, plus that one when it is a file; a prefix of the paths, and all of them when every path is actionable |
| `Watchers.ConfigWatcherSendsWholeLines` | src/hot_reload/mod.rs:268-285 | every text the config-tree watcher sends to the server ends in a newline |
| `Watchers.SingleFileEdit` | src/hot_reload/mod.rs:249-285 | one edited path yields nothing if it is a directory, else Bootstrap(path) followed by the first matching rule's commands, or nothing more when no rule matches |
| `Watchers.ReloadEvents` | src/hot_reload/mod.rs:218-239 | the configuration after a batch is either the old one or a complete result of the parser, never a mix |
| `Watchers.ReloadIgnoresOtherEvents` | src/hot_reload/mod.rs:221-223 | a batch with no Create/Modify event leaves the configuration unchanged |
| `Watchers.ParseFailureKeepsConfig` | src/hot_reload/mod.rs:227-236 | when the file does not parse, the previous configuration stays in effect |
| `Watchers.ReloadReplacesWholesale` | src/hot_reload/mod.rs:227-231 | when the file parses, the configuration becomes exactly the parse result, however many Create/Modify events the batch holds |
| `Watchers.ServerTomlCycles` | src/hot_reload/mod.rs:292-311 | the server.toml watcher emits SendCommand("stop\nend"), WaitUntilExit, Rebuild, Start once per Modify event, back to back, and nothing for other kinds |
| `Watchers.ServerTomlStopIsNotALine` | src/hot_reload/mod.rs:300 | the server.toml watcher's stop text is not newline-terminated |
| `Text.Trim` | src/hot_reload/mod.rs:187 | the trimmed line starts and ends with non-whitespace and is a slice of the input with only whitespace cut off either side |
| `Text.TrimIdempotent` | src/hot_reload/mod.rs:187 | trimming twice is trimming once |
| `SessionSpec.OutputArmNeedsChild` | src/hot_reload/mod.rs:176 | while no child is live the output arm never has a line to print |
| `SessionSpec.StartStep` | src/hot_reload/mod.rs:97-104 | with a live child nothing changes; otherwise a missing artifact name is MissingArtifact and a failed spawn with a known name is SpawnError, both changing nothing; a successful spawn installs exactly the spawned child, with stdin, and its reader, and counts one spawn |
| `SessionSpec.StopStep` | src/hot_reload/mod.rs:105-112 | afterwards there is no child and no reader, a kill is counted only if a child existed, and nothing else changes |
| `SessionSpec.SendStep` | src/hot_reload/mod.rs:113-120 | the text is appended verbatim to the child's stdin only when a child with stdin exists; nothing else changes and no error results |
| `SessionSpec.WaitStep` | src/hot_reload/mod.rs:121-158 | always ends with no child, no reader and is_stopping false; with a child it kills it on Timeout or Ctrl-C and counts a natural exit otherwise; without one it only resets |
| `SessionSpec.OperatorText` | src/hot_reload/mod.rs:186-195 | an operator line is sent as a slice of what was typed with only whitespace cut from either end, starting and ending with non-whitespace, followed by exactly one newline |
| `SessionSpec.OperatorTextIgnoresPadding` | src/hot_reload/mod.rs:187-192 | surrounding whitespace typed by the operator makes no difference to what is sent |
| `SessionSpec.InterruptStep` | src/hot_reload/mod.rs:196-200 | Ctrl-C ends the loop exactly when no WaitUntilExit is in flight, and changes no state |
| `SessionSpec.Shutdown` | src/hot_reload/mod.rs:205-208 | after the loop a live child is killed, and nothing else changes |
| `SessionSpec.InputStepKeepsInv` | src/hot_reload/mod.rs:93-202 | every turn of the loop keeps the invariant: reader iff child, the child holds stdin and was launched from a known artifact, is_stopping false, at most one child live |
| `SessionSpec.StartNeverSpawnsSecond` | src/hot_reload/mod.rs:97-104 | a Start while a child is live changes nothing |
| `SessionSpec.InterruptEndsSession` | src/hot_reload/mod.rs:196-208 | at the top of the loop Ctrl-C always ends the session, killing a live child first |
| `SessionSpec.HandleCommandsKeepsInv` | src/hot_reload/mod.rs:81-211 | over any inputs the invariant holds whenever the loop waits: at most one child is live and is_stopping is false |
| `SessionSpec.EndedLeavesNoChild` | src/hot_reload/mod.rs:196-208 | when the session ends on Ctrl-C, every child it spawned has been killed or has exited |
| `SessionSpec.StdinLogGrows` | src/hot_reload/mod.rs:113-120 | what reaches the child's stdin only grows |
| `SessionSpec.ArtifactStaysKnown` | src/hot_reload/mod.rs:159-162 | once an artifact name is known it stays known, so no later Start fails on the `unwrap` at mod.rs:70 |
| `SessionSpec.HandleCommandsAppend` | src/hot_reload/mod.rs:93-203 | handling two runs of inputs in turn equals handling their concatenation unless the first run left the loop |
| `SessionSpec.RebuildWithinHandler` | src/hot_reload/mod.rs:159-162 | wherever a Rebuild arrives in a running session, a successful build records its artifact and the loop goes on with the rest; a failed one returns BuildError at once with the state it found, ignoring every later input |
| `SessionSpec.BootstrapsRecorded` | src/hot_reload/mod.rs:163-173 | while the loop runs, the bootstrap log grows by exactly the paths of the Bootstrap commands received, in order, and by nothing else |
| `SessionSpec.LinesIdleWithoutChild` | src/hot_reload/mod.rs:113-195 | with no child, output lines and operator lines change nothing and never stop the loop |
| `SessionSpec.DevStartBuildsThenLaunches` | src/hot_reload/mod.rs:313-332 | with only lines served ahead of the startup Rebuild: a failed first build ends the handler with nothing spawned; a successful build and spawn with only lines served before the Start leave exactly one live child, launched from the new artifact, before any other command; after a successful first build no Start ever lacks an artifact |
| `SessionSpec.RestartReplacesChild` | src/hot_reload/mod.rs:97-158 | a Restart rule's commands sent to a running session deliver the stop text to the old child, retire it, and leave exactly one new child running |
| `SessionSpec.RebuildFailureSkipsFinalKill` | src/hot_reload/mod.rs:159-208 | a failed Rebuild returns from the handler with a previously started child still live, because only the Ctrl-C exit reaches the final kill |
| `Session.DevSession.constructor` | src/hot_reload/mod.rs:84-89 | the handler starts with no child, no reader, is_stopping false and the session's artifact name |
| `Session.DevSession.Start` | src/hot_reload/mod.rs:97-104 | updates the fields exactly as StartStep says and keeps the session invariant (Valid) |
| `Session.DevSession.Stop` | src/hot_reload/mod.rs:105-112 | updates the fields exactly as StopStep says and keeps the session invariant (Valid) |
| `Session.DevSession.Send` | src/hot_reload/mod.rs:113-120 | updates the fields exactly as SendStep says and keeps the session invariant (Valid) |
| `Session.DevSession.WaitUntilExit` | src/hot_reload/mod.rs:121-158 | updates the fields exactly as WaitStep says, raising is_stopping for the race and lowering it after, and keeps the session invariant |
| `Session.DevSession.Rebuild` | src/hot_reload/mod.rs:159-162 | updates the artifact name exactly as RebuildStep says and keeps the session invariant |
| `Session.DevSession.Bootstrap` | src/hot_reload/mod.rs:163-173 | records the bootstrap exactly as BootstrapStep says and keeps the session invariant |
| `Session.DevSession.Step` | src/hot_reload/mod.rs:94-202 | one turn of the `select!` loop moves the session as InputStep says, for commands, output lines, operator lines and Ctrl-C, and keeps the session invariant |
| `Session.DevSession.KillUndeadChild` | src/hot_reload/mod.rs:205-208 | the post-loop kill moves the session as Shutdown says and keeps the session invariant |
| `Session.DevSession.HandleCommands` | src/hot_reload/mod.rs:81-211 | the loop, with its final kill, ends in the state and status SessionSpec.HandleCommands gives for the same inputs, with the session invariant holding at every turn and at the end |
| `Session.DevSession.DevStart` | src/hot_reload/mod.rs:313-332 | runs the handler on Rebuild and then Start, ahead of every other command, with the other inputs served before and between them, and keeps the session invariant |
| `Addons.WithEntries` | src/core/addons.rs:33-36 | only the list that the addon type selects is replaced; the other list is untouched |
| `Addons.PluralSuffix` | src/core/addons.rs:57 | the summary's suffix is empty exactly when the count is 1 |
| `Addons.ResolveInOrderSpec` | src/core/addons.rs:28-37 | one entry per addon in list order, each with its addon's resolved file; resolution stops at the first failing addon, whose error is reported; success iff every addon resolved |
| `Addons.ResolveInOrderAppend` | src/core/addons.rs:28-37 | resolving a fully resolving list then more equals resolving their concatenation |
| `Addons.FilenamesMembers` | src/core/addons.rs:22-31 | a file name is in the files list exactly when some resolved entry carries it |
| `Addons.FilenamesCount` | src/core/addons.rs:53-57 | the reported count is at most the number of addons, and equals it when the resolved file names are distinct |
| `Addons.StaleFilesSpareCurrent` | src/core/addons.rs:39-50 | a file is deleted exactly when the old lockfile lists it and no current addon resolved to it |
| `Addons.DeleteStale` | src/core/addons.rs:47-50 | the deletion loop removes exactly the old files not in the files list, each once, and never a current one |
| `Addons.BuildContext.DownloadAddons` | src/core/addons.rs:13-62 | the selected lockfile list gains the resolved entries in order and the other list is unchanged; a failure returns its error after appending the entries resolved before it, with nothing deleted; success deletes the old-minus-current file set and reports the file count with its suffix |

## Left out

- Concurrency is not modelled: `tokio::select!` racing, the channel of capacity 32, `blocking_send` and its panics on a closed channel. Inputs are one sequence taken in order, and each race outcome is a parameter.
- Process handling is left to the environment: spawning, `kill`, `wait`, the 30-second timeout and Ctrl-C delivery.
  - `kill` is taken to succeed, so the errors its `?` could raise are not modelled.
  - The spawn outcome is a parameter. A failed spawn is the `SpawnError` status.
  - The startup-argument assembly (`get_startup_method`, `get_arguments`, the platform string) is a foreign call inside spawning.
  - The `unwrap` panic on a missing artifact name is the `MissingArtifact` status.
- Printing is out: `info`/`warn` output and its failures, progress bars, `mp.suspend` and styling. The child's output lines are only printed, so they change no state. The lines drained during WaitUntilExit are left out for the same reason.
- The watcher plumbing is out: the `notify_debouncer_mini` debounce window, watch registration and watcher start-up errors. Callbacks take settled batches as input.
- Configuration parsing and matching are parameters: `HotReloadConfig::load_from`, `matches_path` and `Path::is_dir`. config.rs and pattern_serde.rs are not part of this model.
- Watchers.ConfigWatcher: reads one configuration snapshot for the whole batch. The source takes the lock once per path, so a reload that lands between two paths of one batch is not captured.
- The bootstrap collaborator is out: `diff_paths` (and its `expect` panic) and `bootstrap_file`. A bootstrap is only recorded; its failure is non-fatal and has no effect on the state.
- `build_all` is a parameter (`BuildResult`).
- Addon resolution and file removal are out.
  - `downloadable` is a function parameter, so network resolution and download are not modelled.
  - `fs::remove_file` is not modelled, nor a failure of it part-way through the deletions. The method returns the set of files it removes.
  - The summary keeps only the count and the plural suffix. The elapsed time and the addon type's display name are not modelled.
- Commands a watcher enqueues before the startup Rebuild or between it and the startup Start are not modelled. The watchers are registered before the two sends (mod.rs:318-327), so a batch that settles in that window would put its commands first. The model takes Rebuild and Start as the first two commands received; only the other arms (output lines, operator lines, Ctrl-C) may come before or between them.
- SessionSpec.DevStartBuildsThenLaunches: says nothing when a Ctrl-C is served before the startup Start. The session then simply ends with no child.
- The unused `State` enum (mod.rs:34-39) has no counterpart.
