/**
 * The dev session's command handler as the object the source mutates: the
 * locals `child`, `stdout_lines` and `is_stopping` of `handle_commands` and the
 * field `jar_name` become fields of `DevSession`, and each arm of the
 * `select!` a method. Every method is proved to move the session exactly as
 * the matching step function of SessionSpec does, so the properties proved
 * there hold of these methods.
 */
module Session {
  import opened Wrappers
  import opened Commands
  import opened SessionSpec

  class DevSession {
    var child: Option<Child>
    var reader: Option<nat>
    var jarName: Option<string>
    var isStopping: bool
    ghost var stdinLog: seq<string>
    ghost var bootstraps: seq<Path>
    var spawns: nat
    var kills: nat
    var exits: nat

    /** The abstract value of the session. */
    ghost function Abstract(): State
      reads this
    {
      State(child, reader, jarName, isStopping, stdinLog, bootstraps, spawns, kills, exits)
    }

    ghost predicate Valid()
      reads this
    {
      Inv(Abstract())
    }

    /** Entering `handle_commands`: no child, no reader, not stopping, with the session's artifact name. */
    constructor (jarName: Option<string>)
      ensures Abstract() == Initial(jarName)
      ensures Valid()
    {
      this.child := None;
      this.reader := None;
      this.jarName := jarName;
      this.isStopping := false;
      this.stdinLog := [];
      this.bootstraps := [];
      this.spawns, this.kills, this.exits := 0, 0, 0;
    }

    /** Command::Start (src/hot_reload/mod.rs:97-104). */
    method Start(spawn: SpawnResult) returns (status: Status)
      requires Valid()
      modifies this
      ensures Next(Abstract(), status) == StartStep(old(Abstract()), spawn)
      ensures Valid()
    {
      InputStepKeepsInv(Abstract(), Received(Command.Start, World(spawn, Exited, BuildFailed)));
      status := Running;
      if child.None? {
        if jarName.None? {
          return Failed(MissingArtifact);
        }
        match spawn {
          case SpawnFailed =>
            return Failed(SpawnError);
          case Spawned(pid) =>
            reader := Some(pid);
            child := Some(Child(pid, true));
            spawns := spawns + 1;
        }
      }
    }

    /** Command::Stop (src/hot_reload/mod.rs:105-112). */
    method Stop() returns (status: Status)
      requires Valid()
      modifies this
      ensures Next(Abstract(), status) == StopStep(old(Abstract()))
      ensures Valid()
    {
      InputStepKeepsInv(Abstract(), Received(Command.Stop, World(SpawnFailed, Exited, BuildFailed)));
      if child.Some? {
        kills := kills + 1;
      }
      child := None;
      reader := None;
      status := Running;
    }

    /** Command::SendCommand and the operator's stdin lines: a best-effort write. */
    method Send(text: string) returns (status: Status)
      requires Valid()
      modifies this
      ensures Next(Abstract(), status) == SendStep(old(Abstract()), text)
      ensures Valid()
    {
      InputStepKeepsInv(Abstract(), Received(SendCommand(text), World(SpawnFailed, Exited, BuildFailed)));
      if child.Some? {
        if child.value.stdin {
          stdinLog := stdinLog + [text];
        }
      }
      status := Running;
    }

    /** Command::WaitUntilExit (src/hot_reload/mod.rs:121-158). */
    method WaitUntilExit(race: WaitOutcome) returns (status: Status)
      requires Valid()
      modifies this
      ensures Next(Abstract(), status) == WaitStep(old(Abstract()), race)
      ensures Valid()
    {
      InputStepKeepsInv(Abstract(), Received(Command.WaitUntilExit, World(SpawnFailed, race, BuildFailed)));
      isStopping := true;
      if child.Some? {
        var shouldKill := race != Exited;
        if shouldKill {
          kills := kills + 1;
        } else {
          exits := exits + 1;
        }
      }
      isStopping := false;
      child := None;
      reader := None;
      status := Running;
    }

    /** Command::Rebuild (src/hot_reload/mod.rs:159-162). */
    method Rebuild(build: BuildResult) returns (status: Status)
      requires Valid()
      modifies this
      ensures Next(Abstract(), status) == RebuildStep(old(Abstract()), build)
      ensures Valid()
    {
      InputStepKeepsInv(Abstract(), Received(Command.Rebuild, World(SpawnFailed, Exited, build)));
      match build {
        case BuildFailed =>
          return Failed(BuildError);
        case Built(artifact) =>
          jarName := Some(artifact);
          status := Running;
      }
    }

    /** Command::Bootstrap (src/hot_reload/mod.rs:163-173). */
    method Bootstrap(path: Path) returns (status: Status)
      requires Valid()
      modifies this
      ensures Next(Abstract(), status) == BootstrapStep(old(Abstract()), path)
      ensures Valid()
    {
      InputStepKeepsInv(Abstract(), Received(Command.Bootstrap(path), World(SpawnFailed, Exited, BuildFailed)));
      bootstraps := bootstraps + [path];
      status := Running;
    }

    /** One turn of the loop: dispatch the ready arm. */
    method Step(input: Input) returns (status: Status)
      requires Valid()
      modifies this
      ensures Next(Abstract(), status) == InputStep(old(Abstract()), input)
      ensures Valid()
    {
      InputStepKeepsInv(Abstract(), input);
      match input {
        case Received(cmd, w) =>
          match cmd {
            case Start => status := Start(w.spawn);
            case Stop => status := Stop();
            case SendCommand(text) => status := Send(text);
            case WaitUntilExit => status := WaitUntilExit(w.race);
            case Rebuild => status := Rebuild(w.build);
            case Bootstrap(path) => status := Bootstrap(path);
          }
        case ChildLine(_) =>
          // printed when the reader yields it; the session itself does not change
          status := Running;
        case OperatorLine(line) =>
          status := Send(OperatorText(line));
        case Interrupt =>
          status := if !isStopping then Ended else Running;
      }
    }

    /** The post-loop kill of a lingering child (src/hot_reload/mod.rs:205-208). */
    method KillUndeadChild()
      requires Valid()
      modifies this
      ensures Abstract() == Shutdown(old(Abstract()))
      ensures Valid()
    {
      if child.Some? {
        kills := kills + 1;
      }
      child := None;
      reader := None;
    }

    /** `handle_commands`: the loop over the ready inputs, then the final kill on a Ctrl-C exit. */
    method HandleCommands(inputs: seq<Input>) returns (status: Status)
      requires Valid()
      modifies this
      ensures Next(Abstract(), status) == SessionSpec.HandleCommands(old(Abstract()), inputs)
      ensures Valid()
    {
      var i := 0;
      while i < |inputs|
        invariant 0 <= i <= |inputs|
        invariant Valid()
        invariant SessionSpec.HandleCommands(Abstract(), inputs[i..]) == SessionSpec.HandleCommands(old(Abstract()), inputs)
        decreases |inputs| - i
      {
        assert inputs[i..][0] == inputs[i] && inputs[i..][1..] == inputs[i + 1..];
        var st := Step(inputs[i]);
        match st {
          case Ended =>
            KillUndeadChild();
            return Ended;
          case Failed(_) =>
            return st;
          case Running =>
        }
        i := i + 1;
      }
      assert inputs[i..] == [];
      status := Running;
    }

    /**
     * `DevSession::start`: enqueue Rebuild then Start ahead of every other
     * command, then run the handler; `before` and `between` are the other
     * inputs it serves ahead of and between those two.
     */
    method DevStart(before: seq<Input>, buildWorld: World, between: seq<Input>, startWorld: World,
                    inputs: seq<Input>) returns (status: Status)
      requires Valid()
      modifies this
      ensures Next(Abstract(), status)
                == SessionSpec.HandleCommands(old(Abstract()), StartupInputs(before, buildWorld, between, startWorld) + inputs)
      ensures Valid()
    {
      status := HandleCommands(StartupInputs(before, buildWorld, between, startWorld) + inputs);
    }
  }
}
