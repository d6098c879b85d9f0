/**
 * The dev session's command handler (`DevSession::handle_commands`,
 * src/hot_reload/mod.rs:81-211) as a state machine over values: one step
 * function per arm of its `select!`, and the handler as the fold of those
 * steps over the inputs in the order the loop takes them.
 *
 * What the collaborators do when asked (spawning the server, the race inside
 * WaitUntilExit, the build) is not observable here, so each input carries it
 * as a `World`.
 */
module SessionSpec {
  import opened Wrappers
  import opened Commands
  import Text

  /** A spawned server process: its id and whether its stdin pipe is held. */
  datatype Child = Child(pid: nat, stdin: bool)

  datatype SpawnResult = Spawned(pid: nat) | SpawnFailed

  /** Which branch of the race inside WaitUntilExit completes first. */
  datatype WaitOutcome = Exited | Timeout | CtrlC

  datatype BuildResult = Built(artifact: string) | BuildFailed

  /** Why the handler returned an error: `jar_name.unwrap()` on None, a failed spawn, a failed build. */
  datatype Error = MissingArtifact | SpawnError | BuildError

  /** Running: the loop goes on. Ended: the loop broke on Ctrl-C. Failed: an error left the handler. */
  datatype Status = Running | Ended | Failed(error: Error)

  /** The outcomes the collaborators would give to the command being handled. */
  datatype World = World(spawn: SpawnResult, race: WaitOutcome, build: BuildResult)

  /** One ready arm of the handler's `select!`. */
  datatype Input =
    | Received(cmd: Command, world: World)
    | ChildLine(line: string)
    | OperatorLine(line: string)
    | Interrupt

  /**
   * The handler's state: `child`, `stdout_lines` (the pid whose stdout is being
   * read), `jar_name` and `is_stopping`, plus a record of what reached the
   * child's stdin, which files were bootstrapped, and how many children were
   * spawned, killed and seen to exit on their own.
   */
  datatype State = State(
    child: Option<Child>,
    reader: Option<nat>,
    jarName: Option<string>,
    isStopping: bool,
    stdinLog: seq<string>,
    bootstraps: seq<Path>,
    spawns: nat,
    kills: nat,
    exits: nat)

  datatype Next = Next(state: State, status: Status)

  /** The state when the handler is entered. */
  function Initial(jarName: Option<string>): State {
    State(None, None, jarName, false, [], [], 0, 0, 0)
  }

  /** Number of spawned children neither killed nor seen to exit. */
  function Live(s: State): int {
    s.spawns - s.kills - s.exits
  }

  /**
   * What holds whenever the loop waits for its next input: a reader exactly
   * for the live child, which holds its stdin and was launched from a built
   * artifact; no WaitUntilExit in flight; and the live child is the only one
   * not yet killed or exited.
   */
  ghost predicate Inv(s: State) {
    && (s.child.None? <==> s.reader.None?)
    && (s.child.Some? ==> s.reader == Some(s.child.value.pid) && s.child.value.stdin && s.jarName.Some?)
    && !s.isStopping
    && Live(s) == (if s.child.Some? then 1 else 0)
  }

  /**
   * `try_read_line`: with no reader there is never a line; with one, whatever
   * its next read gives (`next`). A `ChildLine` input stands for an `Ok(Some(line))`
   * from here, so the output arm can only fire while a reader exists.
   */
  function TryReadLine(reader: Option<nat>, next: Result<Option<string>, string>): (r: Result<Option<string>, string>)
    ensures reader.None? ==> r == Ok(None)
    ensures reader.Some? ==> r == next
  {
    match reader
    case None => Ok(None)
    case Some(_) => next
  }

  /** Under the invariant, the child's output arm is idle exactly when no child is live. */
  lemma OutputArmNeedsChild(s: State, next: Result<Option<string>, string>)
    requires Inv(s) && s.child.None?
    ensures TryReadLine(s.reader, next) == Ok(None)
  {
  }

  // ---------------------------------------------------------------------------
  // One function per arm
  // ---------------------------------------------------------------------------

  /** Command::Start: spawn only when there is no child; spawning needs an artifact name. */
  function StartStep(s: State, spawn: SpawnResult): (r: Next)
    ensures s.child.Some? ==> r == Next(s, Running)
    ensures r.status.Running? <==> s.child.Some? || (s.jarName.Some? && spawn.Spawned?)
    ensures r.status.Running? ==> r.state.child.Some?
    ensures s.child.None? && s.jarName.None? ==> r.status == Failed(MissingArtifact)
    ensures s.child.None? && s.jarName.Some? && spawn.SpawnFailed? ==> r.status == Failed(SpawnError)
    ensures s.child.None? && r.status.Running? ==>
              r.state.child == Some(Child(spawn.pid, true)) && r.state.reader == Some(spawn.pid)
    ensures r.state.spawns == s.spawns + (if s.child.None? && r.status.Running? then 1 else 0)
    ensures !r.status.Running? ==> r.state == s
    ensures r.state.(child := s.child, reader := s.reader, spawns := s.spawns) == s
  {
    if s.child.Some? then Next(s, Running)
    else if s.jarName.None? then Next(s, Failed(MissingArtifact))
    else match spawn
      case SpawnFailed => Next(s, Failed(SpawnError))
      case Spawned(pid) =>
        Next(s.(child := Some(Child(pid, true)), reader := Some(pid), spawns := s.spawns + 1), Running)
  }

  /** Command::Stop: kill the child if there is one; either way no child and no reader remain. */
  function StopStep(s: State): (r: Next)
    ensures r.status == Running
    ensures r.state.child.None? && r.state.reader.None?
    ensures r.state.kills == s.kills + (if s.child.Some? then 1 else 0)
    ensures r.state.(child := s.child, reader := s.reader, kills := s.kills) == s
  {
    var killed := if s.child.Some? then 1 else 0;
    Next(s.(child := None, reader := None, kills := s.kills + killed), Running)
  }

  /** Command::SendCommand: write the text verbatim to a live child's stdin; a failed write is ignored. */
  function SendStep(s: State, text: string): (r: Next)
    ensures r.status == Running
    ensures r.state.stdinLog == s.stdinLog + (if s.child.Some? && s.child.value.stdin then [text] else [])
    ensures r.state.(stdinLog := s.stdinLog) == s
  {
    if s.child.Some? && s.child.value.stdin then Next(s.(stdinLog := s.stdinLog + [text]), Running)
    else Next(s, Running)
  }

  /** The state while the race of WaitUntilExit is in flight. */
  function AwaitingExit(s: State): (r: State)
    ensures r.isStopping
  {
    s.(isStopping := true)
  }

  /**
   * Command::WaitUntilExit: with a child, race its exit against the timeout and
   * Ctrl-C, killing it unless it exited; with or without one, end with no child,
   * no reader and no wait in flight.
   */
  function WaitStep(s: State, race: WaitOutcome): (r: Next)
    ensures r.status == Running
    ensures r.state.child.None? && r.state.reader.None? && !r.state.isStopping
    ensures r.state.kills == s.kills + (if s.child.Some? && !race.Exited? then 1 else 0)
    ensures r.state.exits == s.exits + (if s.child.Some? && race.Exited? then 1 else 0)
    ensures r.state.(child := s.child, reader := s.reader, isStopping := s.isStopping,
                     kills := s.kills, exits := s.exits) == s
  {
    var w := AwaitingExit(s);
    var killed := if w.child.Some? && !race.Exited? then 1 else 0;
    var exited := if w.child.Some? && race.Exited? then 1 else 0;
    Next(w.(isStopping := false, child := None, reader := None,
            kills := w.kills + killed, exits := w.exits + exited), Running)
  }

  /** Command::Rebuild: record the new artifact name, or leave the handler with the build's error. */
  function RebuildStep(s: State, build: BuildResult): (r: Next)
    ensures build.Built? ==> r == Next(s.(jarName := Some(build.artifact)), Running)
    ensures build.BuildFailed? ==> r == Next(s, Failed(BuildError))
  {
    match build
    case Built(artifact) => Next(s.(jarName := Some(artifact)), Running)
    case BuildFailed => Next(s, Failed(BuildError))
  }

  /** Command::Bootstrap: re-materialize one file; its failure is only reported. */
  function BootstrapStep(s: State, path: Path): (r: Next)
    ensures r.status == Running
    ensures r.state == s.(bootstraps := s.bootstraps + [path])
  {
    Next(s.(bootstraps := s.bootstraps + [path]), Running)
  }

  /** The text an operator's stdin line sends: the line trimmed, with one newline. */
  function OperatorText(line: string): (t: string)
    ensures EndsWithNewline(t)
    ensures Text.IsTrimmed(t[..|t| - 1])
    ensures exists i, j :: 0 <= i <= j <= |line| && t[..|t| - 1] == line[i..j]
                           && (forall k :: 0 <= k < i ==> Text.IsWhitespace(line[k]))
                           && (forall k :: j <= k < |line| ==> Text.IsWhitespace(line[k]))
  {
    assert (Text.Trim(line) + "\n")[..|Text.Trim(line)|] == Text.Trim(line);
    Text.Trim(line) + "\n"
  }

  /** Surrounding whitespace an operator types makes no difference to what is sent. */
  lemma OperatorTextIgnoresPadding(line: string)
    ensures OperatorText(Text.Trim(line)) == OperatorText(line)
  {
  }

  /** Ctrl-C at the top of the loop: leave the loop, unless a WaitUntilExit is in flight. */
  function InterruptStep(s: State): (r: Next)
    ensures r.state == s
    ensures r.status.Ended? <==> !s.isStopping
    ensures !r.status.Failed?
  {
    if !s.isStopping then Next(s, Ended) else Next(s, Running)
  }

  /** After the loop: kill a child that is still there. */
  function Shutdown(s: State): (r: State)
    ensures r.child.None? && r.reader.None?
    ensures r.kills == s.kills + (if s.child.Some? then 1 else 0)
    ensures r.(child := s.child, reader := s.reader, kills := s.kills) == s
  {
    var killed := if s.child.Some? then 1 else 0;
    s.(child := None, reader := None, kills := s.kills + killed)
  }

  function CommandStep(s: State, cmd: Command, w: World): Next {
    match cmd
    case Start => StartStep(s, w.spawn)
    case Stop => StopStep(s)
    case SendCommand(text) => SendStep(s, text)
    case WaitUntilExit => WaitStep(s, w.race)
    case Rebuild => RebuildStep(s, w.build)
    case Bootstrap(path) => BootstrapStep(s, path)
  }

  /**
   * One turn of the loop. The output arm fires only on a line from
   * `try_read_line`, and such a line is only printed; without a reader the arm
   * is not ready and the turn changes nothing either.
   */
  function InputStep(s: State, input: Input): Next {
    match input
    case Received(cmd, w) => CommandStep(s, cmd, w)
    case ChildLine(line) =>
      (match TryReadLine(s.reader, Ok(Some(line)))
       case Ok(Some(_)) => Next(s, Running)
       case _ => Next(s, Running))
    case OperatorLine(line) => SendStep(s, OperatorText(line))
    case Interrupt => InterruptStep(s)
  }

  /**
   * The handler over a sequence of ready inputs. `Running` means the inputs ran
   * out with the loop still waiting. Only the Ctrl-C exit reaches the final kill;
   * an error leaves the handler at once.
   */
  function HandleCommands(s: State, inputs: seq<Input>): Next
    decreases |inputs|
  {
    if inputs == [] then Next(s, Running)
    else
      var n := InputStep(s, inputs[0]);
      match n.status
      case Running => HandleCommands(n.state, inputs[1..])
      case Ended => Next(Shutdown(n.state), Ended)
      case Failed(_) => n
  }

  /**
   * The inputs the loop takes first: the Rebuild and the Start that `start`
   * enqueues (src/hot_reload/mod.rs:326-327) ahead of every other command,
   * with whatever other arms the `select!` serves before the Rebuild
   * (`before`) and between the two (`between`), such as an operator's line.
   */
  function StartupInputs(before: seq<Input>, buildWorld: World, between: seq<Input>, startWorld: World): seq<Input> {
    before + [Received(Rebuild, buildWorld)] + between + [Received(Start, startWorld)]
  }

  /** `DevSession::start`: build, launch, then handle whatever arrives. */
  function DevStart(jarName: Option<string>, before: seq<Input>, buildWorld: World, between: seq<Input>,
                    startWorld: World, inputs: seq<Input>): Next {
    HandleCommands(Initial(jarName), StartupInputs(before, buildWorld, between, startWorld) + inputs)
  }

  /** Inputs that are lines only: of the child's output, or typed by the operator. */
  predicate LinesOnly(inputs: seq<Input>) {
    forall i :: 0 <= i < |inputs| ==> inputs[i].ChildLine? || inputs[i].OperatorLine?
  }

  /** The paths of the Bootstrap commands among `inputs`, in order. */
  function ReceivedBootstraps(inputs: seq<Input>): seq<Path> {
    if inputs == [] then []
    else
      (if inputs[0].Received? && inputs[0].cmd.Bootstrap? then [inputs[0].cmd.path] else [])
      + ReceivedBootstraps(inputs[1..])
  }

  // ---------------------------------------------------------------------------
  // Properties of the handler
  // ---------------------------------------------------------------------------

  /** Every turn of the loop keeps the invariant. */
  lemma InputStepKeepsInv(s: State, input: Input)
    requires Inv(s)
    ensures Inv(InputStep(s, input).state)
  {
  }

  /** A Start while a child is live changes nothing: no second child. */
  lemma StartNeverSpawnsSecond(s: State, w: World)
    requires s.child.Some?
    ensures InputStep(s, Received(Start, w)) == Next(s, Running)
  {
  }

  /** Ctrl-C at the top of the loop always ends the session, killing a live child first. */
  lemma InterruptEndsSession(s: State, rest: seq<Input>)
    requires Inv(s)
    ensures HandleCommands(s, [Interrupt] + rest) == Next(Shutdown(s), Ended)
  {
  }

  /**
   * However the handler goes, between inputs the invariant holds: at most one
   * child is ever live and is_stopping is false whenever the loop is waiting.
   */
  lemma {:induction false} HandleCommandsKeepsInv(s: State, inputs: seq<Input>)
    requires Inv(s)
    ensures Inv(HandleCommands(s, inputs).state)
    ensures 0 <= Live(HandleCommands(s, inputs).state) <= 1
    decreases |inputs|
  {
    if inputs != [] {
      InputStepKeepsInv(s, inputs[0]);
      var n := InputStep(s, inputs[0]);
      if n.status.Running? {
        HandleCommandsKeepsInv(n.state, inputs[1..]);
      }
    }
  }

  /** When the session ends on Ctrl-C, every child it spawned has been killed or has exited. */
  lemma {:induction false} EndedLeavesNoChild(s: State, inputs: seq<Input>)
    requires Inv(s)
    requires HandleCommands(s, inputs).status == Ended
    ensures HandleCommands(s, inputs).state.child.None?
    ensures Live(HandleCommands(s, inputs).state) == 0
    decreases |inputs|
  {
    var n := InputStep(s, inputs[0]);
    InputStepKeepsInv(s, inputs[0]);
    if n.status.Running? {
      EndedLeavesNoChild(n.state, inputs[1..]);
    }
  }

  /** What reaches the child's stdin only grows; the handler never takes back a write. */
  lemma {:induction false} StdinLogGrows(s: State, inputs: seq<Input>)
    ensures s.stdinLog <= HandleCommands(s, inputs).state.stdinLog
    decreases |inputs|
  {
    if inputs != [] {
      var n := InputStep(s, inputs[0]);
      if n.status.Running? {
        StdinLogGrows(n.state, inputs[1..]);
      }
    }
  }

  /** Once an artifact name is known it stays known, so Start never fails for the want of one. */
  lemma {:induction false} ArtifactStaysKnown(s: State, inputs: seq<Input>)
    requires s.jarName.Some?
    ensures HandleCommands(s, inputs).state.jarName.Some?
    ensures HandleCommands(s, inputs).status != Failed(MissingArtifact)
    decreases |inputs|
  {
    if inputs != [] {
      var n := InputStep(s, inputs[0]);
      if n.status.Running? {
        ArtifactStaysKnown(n.state, inputs[1..]);
      }
    }
  }

  lemma {:induction false} HandleCommandsAppend(s: State, a: seq<Input>, b: seq<Input>)
    ensures var n := HandleCommands(s, a);
            HandleCommands(s, a + b) == if n.status.Running? then HandleCommands(n.state, b) else n
    decreases |a|
  {
    if a == [] {
      assert a + b == b;
    } else {
      assert (a + b)[0] == a[0];
      assert (a + b)[1..] == a[1..] + b;
      var n := InputStep(s, a[0]);
      if n.status.Running? {
        HandleCommandsAppend(n.state, a[1..], b);
      }
    }
  }

  /** Taking the first input off: one step, then the rest if the loop goes on. */
  lemma HandleCommandsCons(s: State, input: Input, rest: seq<Input>)
    ensures var n := InputStep(s, input);
            HandleCommands(s, [input] + rest)
              == match n.status
                 case Running => HandleCommands(n.state, rest)
                 case Ended => Next(Shutdown(n.state), Ended)
                 case Failed(_) => n
  {
    assert ([input] + rest)[0] == input && ([input] + rest)[1..] == rest;
  }

  /** With no child, lines change nothing: output lines have no reader, operator lines no stdin. */
  lemma {:induction false} LinesIdleWithoutChild(s: State, lines: seq<Input>)
    requires s.child.None? && s.reader.None? && LinesOnly(lines)
    ensures HandleCommands(s, lines) == Next(s, Running)
    decreases |lines|
  {
    if lines != [] {
      assert lines[0].ChildLine? || lines[0].OperatorLine?;
      assert LinesOnly(lines[1..]) by {
        forall i | 0 <= i < |lines[1..]| ensures lines[1..][i].ChildLine? || lines[1..][i].OperatorLine? {
          assert lines[1..][i] == lines[i + 1];
        }
      }
      LinesIdleWithoutChild(s, lines[1..]);
    }
  }

  /**
   * A Rebuild served anywhere in a run: a successful build records its
   * artifact and the loop goes on; a failed one returns from the handler at
   * once with the state it found, so the final kill never runs.
   */
  lemma RebuildWithinHandler(s: State, pre: seq<Input>, w: World, post: seq<Input>)
    requires HandleCommands(s, pre).status.Running?
    ensures var t := HandleCommands(s, pre).state;
            HandleCommands(s, pre + [Received(Rebuild, w)] + post)
              == match w.build
                 case BuildFailed => Next(t, Failed(BuildError))
                 case Built(artifact) => HandleCommands(t.(jarName := Some(artifact)), post)
  {
    assert pre + [Received(Rebuild, w)] + post == pre + ([Received(Rebuild, w)] + post);
    HandleCommandsAppend(s, pre, [Received(Rebuild, w)] + post);
    HandleCommandsCons(HandleCommands(s, pre).state, Received(Rebuild, w), post);
  }

  /**
   * Bootstrap never stops the loop, and while the loop runs every Bootstrap
   * command it takes is recorded, in the order received, and nothing else is.
   */
  lemma {:induction false} BootstrapsRecorded(s: State, inputs: seq<Input>)
    ensures HandleCommands(s, inputs).status.Running? ==>
              HandleCommands(s, inputs).state.bootstraps == s.bootstraps + ReceivedBootstraps(inputs)
    decreases |inputs|
  {
    if inputs != [] {
      var n := InputStep(s, inputs[0]);
      if n.status.Running? {
        var here := if inputs[0].Received? && inputs[0].cmd.Bootstrap? then [inputs[0].cmd.path] else [];
        BootstrapsRecorded(n.state, inputs[1..]);
        InputStepBootstraps(s, inputs[0]);
        AppendAssociates(s.bootstraps, here, ReceivedBootstraps(inputs[1..]));
      }
    }
  }

  lemma AppendAssociates<T>(a: seq<T>, b: seq<T>, c: seq<T>)
    ensures a + b + c == a + (b + c)
  {
  }

  /** One turn records a path exactly when it serves a Bootstrap command. */
  lemma InputStepBootstraps(s: State, input: Input)
    ensures InputStep(s, input).status.Running? ==>
              InputStep(s, input).state.bootstraps
                == s.bootstraps + (if input.Received? && input.cmd.Bootstrap? then [input.cmd.path] else [])
  {
  }

  /** Lines served before the startup Rebuild change nothing. */
  lemma SkipLinesBefore(jarName: Option<string>, before: seq<Input>, rest: seq<Input>)
    requires LinesOnly(before)
    ensures HandleCommands(Initial(jarName), before + rest) == HandleCommands(Initial(jarName), rest)
  {
    HandleCommandsAppend(Initial(jarName), before, rest);
    LinesIdleWithoutChild(Initial(jarName), before);
  }

  /** After a successful first build, the startup Start's outcome, with only lines served around the Rebuild. */
  lemma StartupAfterBuild(jarName: Option<string>, before: seq<Input>, buildWorld: World, between: seq<Input>,
                          startWorld: World, rest: seq<Input>)
    requires buildWorld.build.Built? && LinesOnly(before) && LinesOnly(between)
    ensures var s1 := Initial(jarName).(jarName := Some(buildWorld.build.artifact));
            var n := StartStep(s1, startWorld.spawn);
            HandleCommands(Initial(jarName), StartupInputs(before, buildWorld, between, startWorld) + rest)
              == if n.status.Running? then HandleCommands(n.state, rest) else n
  {
    var s1 := Initial(jarName).(jarName := Some(buildWorld.build.artifact));
    var start := Received(Start, startWorld);
    assert StartupInputs(before, buildWorld, between, startWorld) + rest
             == before + ([Received(Rebuild, buildWorld)] + (between + ([start] + rest)));
    SkipLinesBefore(jarName, before, [Received(Rebuild, buildWorld)] + (between + ([start] + rest)));
    HandleCommandsCons(Initial(jarName), Received(Rebuild, buildWorld), between + ([start] + rest));
    HandleCommandsAppend(s1, between, [start] + rest);
    LinesIdleWithoutChild(s1, between);
    HandleCommandsCons(s1, start, rest);
  }

  /**
   * The session builds, then launches. With only lines served ahead of the
   * Rebuild: a failed first build ends the handler with nothing spawned; a
   * successful build and spawn, with only lines served in between as well,
   * leave one live child launched from the new artifact; and after a
   * successful first build no Start ever lacks an artifact, whatever comes
   * between the two startup commands.
   */
  lemma DevStartBuildsThenLaunches(jarName: Option<string>, before: seq<Input>, buildWorld: World,
                                   between: seq<Input>, startWorld: World, inputs: seq<Input>)
    ensures buildWorld.build.BuildFailed? && LinesOnly(before) ==>
              DevStart(jarName, before, buildWorld, between, startWorld, inputs)
                == Next(Initial(jarName), Failed(BuildError))
    ensures buildWorld.build.Built? && startWorld.spawn.Spawned? && LinesOnly(before) && LinesOnly(between) ==>
              var s := HandleCommands(Initial(jarName), StartupInputs(before, buildWorld, between, startWorld)).state;
              && s.child == Some(Child(startWorld.spawn.pid, true))
              && s.jarName == Some(buildWorld.build.artifact)
              && s.spawns == 1
              && Inv(s)
              && DevStart(jarName, before, buildWorld, between, startWorld, inputs) == HandleCommands(s, inputs)
    ensures buildWorld.build.Built? && LinesOnly(before) ==>
              DevStart(jarName, before, buildWorld, between, startWorld, inputs).status != Failed(MissingArtifact)
  {
    if LinesOnly(before) {
      var rebuild := Received(Rebuild, buildWorld);
      var tail := between + [Received(Start, startWorld)] + inputs;
      assert StartupInputs(before, buildWorld, between, startWorld) + inputs == before + ([rebuild] + tail);
      SkipLinesBefore(jarName, before, [rebuild] + tail);
      HandleCommandsCons(Initial(jarName), rebuild, tail);
      if buildWorld.build.Built? {
        var s1 := Initial(jarName).(jarName := Some(buildWorld.build.artifact));
        ArtifactStaysKnown(s1, tail);
        if startWorld.spawn.Spawned? && LinesOnly(between) {
          StartupAfterBuild(jarName, before, buildWorld, between, startWorld, inputs);
          StartupAfterBuild(jarName, before, buildWorld, between, startWorld, []);
          assert StartupInputs(before, buildWorld, between, startWorld) + []
                 == StartupInputs(before, buildWorld, between, startWorld);
        }
      }
    }
  }

  /**
   * A Restart rule's three commands, handled while a child runs and the spawn
   * succeeds: the stop text reaches the old child, which is then gone, and
   * exactly one new child runs.
   */
  lemma RestartReplacesChild(s: State, text: string, w1: World, w2: World, w3: World)
    requires Inv(s) && s.child.Some?
    requires w3.spawn.Spawned?
    ensures var r := HandleCommands(s, [Received(SendCommand(text), w1), Received(WaitUntilExit, w2),
                                        Received(Start, w3)]);
            && r.status == Running
            && r.state.child == Some(Child(w3.spawn.pid, true))
            && r.state.stdinLog == s.stdinLog + [text]
            && r.state.spawns == s.spawns + 1
            && r.state.kills + r.state.exits == s.kills + s.exits + 1
            && Inv(r.state)
  {
    var ins := [Received(SendCommand(text), w1), Received(WaitUntilExit, w2), Received(Start, w3)];
    var s1 := SendStep(s, text).state;
    assert HandleCommands(s, ins) == HandleCommands(s1, ins[1..]);
    var s2 := WaitStep(s1, w2.race).state;
    assert HandleCommands(s1, ins[1..]) == HandleCommands(s2, ins[2..]);
    var s3 := StartStep(s2, w3.spawn).state;
    assert HandleCommands(s2, ins[2..]) == HandleCommands(s3, ins[3..]);
    assert ins[3..] == [];
  }

  /**
   * As written, a failed Rebuild leaves the handler through `?` before the
   * final kill: a child started earlier is still live when the handler returns.
   */
  lemma RebuildFailureSkipsFinalKill(w: World)
    requires w.build.Built? && w.spawn.Spawned?
    ensures var failing := w.(build := BuildFailed);
            var r := HandleCommands(Initial(None), [Received(Rebuild, w), Received(Start, w), Received(Rebuild, failing)]);
            r.status == Failed(BuildError) && r.state.child.Some? && Live(r.state) == 1
  {
    var ins := [Received(Rebuild, w), Received(Start, w), Received(Rebuild, w.(build := BuildFailed))];
    var s1 := RebuildStep(Initial(None), w.build).state;
    assert HandleCommands(Initial(None), ins) == HandleCommands(s1, ins[1..]);
    var s2 := StartStep(s1, w.spawn).state;
    assert HandleCommands(s1, ins[1..]) == HandleCommands(s2, ins[2..]);
    assert HandleCommands(s2, ins[2..]) == Next(s2, Failed(BuildError));
  }
}
