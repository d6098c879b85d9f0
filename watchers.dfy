/**
 * The three debounced watcher callbacks of the dev session
 * (src/hot_reload/mod.rs:214-311), each a function of one settled batch of
 * filesystem events. Path-pattern matching, the directory test and the parsing
 * of hotreload.toml are collaborators and come in as function parameters.
 */
module Watchers {
  import opened Wrappers
  import opened Commands

  /** The kinds of `notify`'s events. */
  datatype EventKind = Any | Access | Create | Modify | Remove | Other

  datatype Event = Event(kind: EventKind, paths: seq<Path>)

  /** What the debouncer hands a callback: a settled batch, or a watch error (ignored). */
  datatype Batch = Settled(events: seq<Event>) | WatchError

  /** What a rule of hotreload.toml asks for when a matching file changes. */
  datatype Action = Reload | Restart | RunCommand(cmd: string)

  /** A rule: a path pattern (of the opaque pattern type `P`) and its action. */
  datatype FileRule<P> = FileRule(pattern: P, action: Action)

  /** The parsed hotreload.toml: where it lives and its rules in declaration order. */
  datatype HotReloadConfig<P> = HotReloadConfig(path: Path, files: seq<FileRule<P>>)

  predicate IsCreateOrModify(k: EventKind) {
    k.Create? || k.Modify?
  }

  // ---------------------------------------------------------------------------
  // The config-tree watcher (src/hot_reload/mod.rs:242-290)
  // ---------------------------------------------------------------------------

  /** Some rule's pattern matches `path`. */
  predicate AnyRuleMatches<P>(rules: seq<FileRule<P>>, path: Path, matches: (P, Path) -> bool) {
    exists k :: 0 <= k < |rules| && matches(rules[k].pattern, path)
  }

  /** The first rule, in declaration order, whose pattern matches `path`. */
  function FindRule<P>(rules: seq<FileRule<P>>, path: Path, matches: (P, Path) -> bool): Option<FileRule<P>> {
    if rules == [] then None
    else if matches(rules[0].pattern, path) then Some(rules[0])
    else FindRule(rules[1..], path, matches)
  }

  /**
   * FindRule finds a rule exactly when some rule matches, and then the one it
   * finds is the earliest matching rule.
   */
  lemma {:induction false} FindRuleIsFirstMatch<P>(rules: seq<FileRule<P>>, path: Path, matches: (P, Path) -> bool)
    ensures var r := FindRule(rules, path, matches);
            && (r.None? <==> !AnyRuleMatches(rules, path, matches))
            && (r.Some? ==> exists k :: 0 <= k < |rules| && rules[k] == r.value && matches(rules[k].pattern, path)
                                       && forall j :: 0 <= j < k ==> !matches(rules[j].pattern, path))
  {
    if rules != [] && !matches(rules[0].pattern, path) {
      var tail := rules[1..];
      FindRuleIsFirstMatch(tail, path, matches);
      var r := FindRule(tail, path, matches);
      if r.Some? {
        var k :| 0 <= k < |tail| && tail[k] == r.value && matches(tail[k].pattern, path)
                 && forall j :: 0 <= j < k ==> !matches(tail[j].pattern, path);
        assert rules[k + 1] == tail[k];
        assert forall j :: 1 <= j < k + 1 ==> rules[j] == tail[j - 1];
      }
      if AnyRuleMatches(rules, path, matches) {
        var k :| 0 <= k < |rules| && matches(rules[k].pattern, path);
        assert k != 0 && tail[k - 1] == rules[k];
      }
    }
  }

  /** The commands a matched rule's action enqueues after the file's bootstrap. */
  function ActionCommands(a: Action): (r: seq<Command>)
    ensures |r| > 0 && r[0].SendCommand? && EndsWithNewline(r[0].text)
    ensures SendsWholeLines(r)
    ensures Rebuild !in r && Stop !in r
    ensures forall c :: c in r ==> !c.Bootstrap?
    ensures a.Restart? <==> WaitUntilExit in r
    ensures r[1..] == if a.Restart? then [WaitUntilExit, Start] else []
  {
    match a
    case Reload => [SendCommand("reload confirm\n")]
    case Restart => [SendCommand("stop\nend\n"), WaitUntilExit, Start]
    case RunCommand(cmd) => [SendCommand(cmd + "\n")]
  }

  /** What the inner loop over one event's paths enqueued, and whether it left the whole callback. */
  datatype Emitted = Emitted(cmds: seq<Command>, returned: bool)

  /**
   * The loop over paths: a directory returns at once; any other path is
   * bootstrapped, then either its first matching rule's commands follow or,
   * with no match, the callback returns.
   */
  function PathsCommands<P>(paths: seq<Path>, isDir: Path -> bool, rules: seq<FileRule<P>>,
                            matches: (P, Path) -> bool): Emitted
  {
    if paths == [] then Emitted([], false)
    else
      var p := paths[0];
      if isDir(p) then Emitted([], true)
      else
        match FindRule(rules, p, matches)
        case None => Emitted([Bootstrap(p)], true)
        case Some(rule) =>
          var rest := PathsCommands(paths[1..], isDir, rules, matches);
          Emitted([Bootstrap(p)] + ActionCommands(rule.action) + rest.cmds, rest.returned)
  }

  /** The loop over events: non-create/modify events are skipped; a return abandons the rest. */
  function EventsCommands<P>(events: seq<Event>, isDir: Path -> bool, rules: seq<FileRule<P>>,
                             matches: (P, Path) -> bool): seq<Command>
  {
    if events == [] then []
    else if !IsCreateOrModify(events[0].kind) then EventsCommands(events[1..], isDir, rules, matches)
    else
      var e := PathsCommands(events[0].paths, isDir, rules, matches);
      if e.returned then e.cmds else e.cmds + EventsCommands(events[1..], isDir, rules, matches)
  }

  /** The config-tree watcher's callback: the commands one settled batch enqueues. */
  function ConfigWatcher<P>(batch: Batch, isDir: Path -> bool, rules: seq<FileRule<P>>,
                            matches: (P, Path) -> bool): seq<Command>
  {
    match batch
    case WatchError => []
    case Settled(events) => EventsCommands(events, isDir, rules, matches)
  }

  /** Reference view: the paths of the create/modify events of a batch, in order. */
  function SettledPaths(events: seq<Event>): seq<Path> {
    if events == [] then []
    else (if IsCreateOrModify(events[0].kind) then events[0].paths else []) + SettledPaths(events[1..])
  }

  /** The paths bootstrapped by `cmds`, in order. */
  function Bootstraps(cmds: seq<Command>): seq<Path> {
    if cmds == [] then []
    else (if cmds[0].Bootstrap? then [cmds[0].path] else []) + Bootstraps(cmds[1..])
  }

  /** A path the watcher acts on in full: a file that some rule matches. */
  predicate Actionable<P>(p: Path, isDir: Path -> bool, rules: seq<FileRule<P>>, matches: (P, Path) -> bool) {
    !isDir(p) && AnyRuleMatches(rules, p, matches)
  }

  lemma {:induction false} BootstrapsAppend(a: seq<Command>, b: seq<Command>)
    ensures Bootstraps(a + b) == Bootstraps(a) + Bootstraps(b)
  {
    if a == [] {
      assert a + b == b;
    } else {
      assert (a + b)[0] == a[0];
      assert (a + b)[1..] == a[1..] + b;
      BootstrapsAppend(a[1..], b);
    }
  }

  lemma {:induction false} NoBootstraps(cmds: seq<Command>)
    requires forall c :: c in cmds ==> !c.Bootstrap?
    ensures Bootstraps(cmds) == []
  {
    if cmds != [] {
      assert cmds[0] in cmds;
      NoBootstraps(cmds[1..]);
    }
  }

  /** The path loop finds a rule for a file exactly when the path is actionable. */
  lemma FoundRuleIffActionable<P>(p: Path, isDir: Path -> bool, rules: seq<FileRule<P>>, matches: (P, Path) -> bool)
    ensures !isDir(p) && FindRule(rules, p, matches).Some? <==> Actionable(p, isDir, rules, matches)
  {
    FindRuleIsFirstMatch(rules, p, matches);
  }

  /** The commands of one actionable path: its bootstrap, then its rule's action. */
  function ActionablePathCommands<P>(p: Path, rule: FileRule<P>): seq<Command> {
    [Bootstrap(p)] + ActionCommands(rule.action)
  }

  lemma BootstrapsOfActionablePath<P>(p: Path, rule: FileRule<P>)
    ensures Bootstraps(ActionablePathCommands(p, rule)) == [p]
  {
    BootstrapsAppend([Bootstrap(p)], ActionCommands(rule.action));
    NoBootstraps(ActionCommands(rule.action));
    assert Bootstraps([Bootstrap(p)]) == [p];
  }

  /** One step of the path loop, unfolded. */
  lemma PathsCommandsUnfold<P>(paths: seq<Path>, isDir: Path -> bool, rules: seq<FileRule<P>>,
                               matches: (P, Path) -> bool)
    requires paths != []
    ensures var p := paths[0];
            var e := PathsCommands(paths, isDir, rules, matches);
            var rest := PathsCommands(paths[1..], isDir, rules, matches);
            && (isDir(p) ==> e == Emitted([], true))
            && (!isDir(p) && FindRule(rules, p, matches).None? ==> e == Emitted([Bootstrap(p)], true))
            && (!isDir(p) && FindRule(rules, p, matches).Some? ==>
                  e == Emitted(ActionablePathCommands(p, FindRule(rules, p, matches).value) + rest.cmds, rest.returned))
  {
  }

  /**
   * Processing two runs of paths one after the other is processing their
   * concatenation, unless the first run already returned.
   */
  lemma {:induction false} PathsCommandsAppend<P>(a: seq<Path>, b: seq<Path>, isDir: Path -> bool,
                                                  rules: seq<FileRule<P>>, matches: (P, Path) -> bool)
    ensures var ea := PathsCommands(a, isDir, rules, matches);
            var eb := PathsCommands(b, isDir, rules, matches);
            PathsCommands(a + b, isDir, rules, matches)
              == if ea.returned then ea else Emitted(ea.cmds + eb.cmds, eb.returned)
  {
    if a == [] {
      assert a + b == b;
    } else if !isDir(a[0]) && FindRule(rules, a[0], matches).Some? {
      PathsCommandsAppend(a[1..], b, isDir, rules, matches);
      PathsCommandsAppendMatched(a, b, isDir, rules, matches);
    } else {
      assert (a + b)[0] == a[0];
      PathsCommandsUnfold(a, isDir, rules, matches);
      PathsCommandsUnfold(a + b, isDir, rules, matches);
    }
  }

  /** The inductive step of PathsCommandsAppend, when the first path has a rule. */
  lemma PathsCommandsAppendMatched<P>(a: seq<Path>, b: seq<Path>, isDir: Path -> bool,
                                      rules: seq<FileRule<P>>, matches: (P, Path) -> bool)
    requires a != [] && !isDir(a[0]) && FindRule(rules, a[0], matches).Some?
    requires var ra := PathsCommands(a[1..], isDir, rules, matches);
             var eb := PathsCommands(b, isDir, rules, matches);
             PathsCommands(a[1..] + b, isDir, rules, matches)
               == if ra.returned then ra else Emitted(ra.cmds + eb.cmds, eb.returned)
    ensures var ea := PathsCommands(a, isDir, rules, matches);
            var eb := PathsCommands(b, isDir, rules, matches);
            PathsCommands(a + b, isDir, rules, matches)
              == if ea.returned then ea else Emitted(ea.cmds + eb.cmds, eb.returned)
  {
    var head := ActionablePathCommands(a[0], FindRule(rules, a[0], matches).value);
    MatchedPathCommands(a, isDir, rules, matches);
    MatchedPathAppend(a, b, isDir, rules, matches);
    EmittedAfterHead(head, PathsCommands(a[1..], isDir, rules, matches),
                     PathsCommands(a[1..] + b, isDir, rules, matches), PathsCommands(b, isDir, rules, matches));
  }

  /** MatchedPathCommands for a run that continues with `b`. */
  lemma MatchedPathAppend<P>(a: seq<Path>, b: seq<Path>, isDir: Path -> bool, rules: seq<FileRule<P>>,
                             matches: (P, Path) -> bool)
    requires a != [] && !isDir(a[0]) && FindRule(rules, a[0], matches).Some?
    ensures var rest := PathsCommands(a[1..] + b, isDir, rules, matches);
            PathsCommands(a + b, isDir, rules, matches)
              == Emitted(ActionablePathCommands(a[0], FindRule(rules, a[0], matches).value) + rest.cmds,
                         rest.returned)
  {
    assert (a + b)[0] == a[0] && (a + b)[1..] == a[1..] + b;
    MatchedPathCommands(a + b, isDir, rules, matches);
  }

  /** Putting the same commands in front of both sides of PathsCommandsAppend keeps it true. */
  lemma EmittedAfterHead(head: seq<Command>, ra: Emitted, rab: Emitted, eb: Emitted)
    requires rab == if ra.returned then ra else Emitted(ra.cmds + eb.cmds, eb.returned)
    ensures Emitted(head + rab.cmds, rab.returned)
              == if ra.returned then Emitted(head + ra.cmds, ra.returned)
                 else Emitted((head + ra.cmds) + eb.cmds, eb.returned)
  {
    if !ra.returned {
      assert head + (ra.cmds + eb.cmds) == (head + ra.cmds) + eb.cmds;
    }
  }

  /** A first path with a rule: its commands, then those of the rest of the run. */
  lemma MatchedPathCommands<P>(paths: seq<Path>, isDir: Path -> bool, rules: seq<FileRule<P>>,
                               matches: (P, Path) -> bool)
    requires paths != [] && !isDir(paths[0]) && FindRule(rules, paths[0], matches).Some?
    ensures var rest := PathsCommands(paths[1..], isDir, rules, matches);
            PathsCommands(paths, isDir, rules, matches)
              == Emitted(ActionablePathCommands(paths[0], FindRule(rules, paths[0], matches).value) + rest.cmds,
                         rest.returned)
  {
  }

  /**
   * The event loop adds nothing of its own: the callback's commands are those
   * of the paths of its create/modify events taken as one run.
   */
  lemma {:induction false} EventsCommandsArePathwise<P>(events: seq<Event>, isDir: Path -> bool,
                                                        rules: seq<FileRule<P>>, matches: (P, Path) -> bool)
    ensures EventsCommands(events, isDir, rules, matches)
              == PathsCommands(SettledPaths(events), isDir, rules, matches).cmds
  {
    if events != [] {
      EventsCommandsArePathwise(events[1..], isDir, rules, matches);
      var head := if IsCreateOrModify(events[0].kind) then events[0].paths else [];
      PathsCommandsAppend(head, SettledPaths(events[1..]), isDir, rules, matches);
      if head == [] {
        assert PathsCommands(head, isDir, rules, matches) == Emitted([], false);
      }
    }
  }

  /** The index of the first path that is not actionable, or the length when all are. */
  function FirstStop<P>(paths: seq<Path>, isDir: Path -> bool, rules: seq<FileRule<P>>,
                        matches: (P, Path) -> bool): (k: nat)
    ensures k <= |paths|
  {
    if paths == [] || !Actionable(paths[0], isDir, rules, matches) then 0
    else 1 + FirstStop(paths[1..], isDir, rules, matches)
  }

  /** Every path before FirstStop is actionable, and the one at it is not. */
  lemma {:induction false} FirstStopIsFirst<P>(paths: seq<Path>, isDir: Path -> bool, rules: seq<FileRule<P>>,
                                               matches: (P, Path) -> bool)
    ensures var k := FirstStop(paths, isDir, rules, matches);
            && (forall i :: 0 <= i < k ==> Actionable(paths[i], isDir, rules, matches))
            && (k < |paths| ==> !Actionable(paths[k], isDir, rules, matches))
  {
    if paths != [] && Actionable(paths[0], isDir, rules, matches) {
      FirstStopIsFirst(paths[1..], isDir, rules, matches);
      assert forall i :: 1 <= i < |paths| ==> paths[i] == paths[1..][i - 1];
    }
  }

  /**
   * The first `k` elements of `s`, followed by the element at `k` unless it is
   * a directory: what a run of paths bootstraps when it stops at `k`.
   */
  function UpToStop(s: seq<Path>, k: nat, isDir: Path -> bool): seq<Path>
    requires k <= |s|
  {
    s[..k] + (if k < |s| && !isDir(s[k]) then [s[k]] else [])
  }

  lemma UpToStopCons(s: seq<Path>, k: nat, isDir: Path -> bool)
    requires s != [] && k < |s|
    ensures UpToStop(s, k + 1, isDir) == [s[0]] + UpToStop(s[1..], k, isDir)
  {
    assert s[..k + 1] == [s[0]] + s[1..][..k];
    assert k + 1 < |s| ==> s[k + 1] == s[1..][k];
  }

  lemma UpToStopIsPrefix(s: seq<Path>, k: nat, isDir: Path -> bool)
    requires k <= |s|
    ensures UpToStop(s, k, isDir) <= s
  {
    if k < |s| && !isDir(s[k]) {
      assert s[..k] + [s[k]] == s[..k + 1];
    }
  }

  /**
   * The bootstraps of a run of paths are exactly its actionable prefix, plus
   * the path that stopped the run when that one is a file no rule matches: a
   * directory stops the run before its bootstrap, an unmatched file after it.
   */
  lemma {:induction false} PathsBootstrapPrefix<P>(paths: seq<Path>, isDir: Path -> bool,
                                                   rules: seq<FileRule<P>>, matches: (P, Path) -> bool)
    ensures Bootstraps(PathsCommands(paths, isDir, rules, matches).cmds)
              == UpToStop(paths, FirstStop(paths, isDir, rules, matches), isDir)
    ensures Bootstraps(PathsCommands(paths, isDir, rules, matches).cmds) <= paths
  {
    var k := FirstStop(paths, isDir, rules, matches);
    if paths != [] {
      FoundRuleIffActionable(paths[0], isDir, rules, matches);
      if !Actionable(paths[0], isDir, rules, matches) {
        StoppingPathBootstraps(paths, isDir, rules, matches);
      } else {
        PathsBootstrapPrefix(paths[1..], isDir, rules, matches);
        ActionablePathBootstraps(paths, isDir, rules, matches);
        UpToStopCons(paths, k - 1, isDir);
      }
    }
    UpToStopIsPrefix(paths, k, isDir);
  }

  /** A first path that is not actionable stops the run, after its bootstrap when it is a file. */
  lemma StoppingPathBootstraps<P>(paths: seq<Path>, isDir: Path -> bool,
                                  rules: seq<FileRule<P>>, matches: (P, Path) -> bool)
    requires paths != [] && !(!isDir(paths[0]) && FindRule(rules, paths[0], matches).Some?)
    requires !Actionable(paths[0], isDir, rules, matches)
    ensures Bootstraps(PathsCommands(paths, isDir, rules, matches).cmds) == UpToStop(paths, 0, isDir)
    ensures PathsCommands(paths, isDir, rules, matches).returned
    ensures FirstStop(paths, isDir, rules, matches) == 0
  {
    PathsCommandsUnfold(paths, isDir, rules, matches);
    assert Bootstraps([Bootstrap(paths[0])]) == [paths[0]];
  }

  /** The inductive step of PathsBootstrapPrefix: an actionable first path adds itself in front. */
  lemma ActionablePathBootstraps<P>(paths: seq<Path>, isDir: Path -> bool,
                                    rules: seq<FileRule<P>>, matches: (P, Path) -> bool)
    requires paths != [] && !isDir(paths[0]) && FindRule(rules, paths[0], matches).Some?
    requires Actionable(paths[0], isDir, rules, matches)
    ensures Bootstraps(PathsCommands(paths, isDir, rules, matches).cmds)
              == [paths[0]] + Bootstraps(PathsCommands(paths[1..], isDir, rules, matches).cmds)
    ensures PathsCommands(paths, isDir, rules, matches).returned == PathsCommands(paths[1..], isDir, rules, matches).returned
    ensures FirstStop(paths, isDir, rules, matches) == 1 + FirstStop(paths[1..], isDir, rules, matches)
  {
    var rule := FindRule(rules, paths[0], matches).value;
    var er := PathsCommands(paths[1..], isDir, rules, matches);
    PathsCommandsUnfold(paths, isDir, rules, matches);
    BootstrapsAppend(ActionablePathCommands(paths[0], rule), er.cmds);
    BootstrapsOfActionablePath(paths[0], rule);
  }

  /**
   * A run of paths goes through to the end exactly when every path is a file
   * some rule matches, and then every path is bootstrapped.
   */
  lemma PathsCompleteIffActionable<P>(paths: seq<Path>, isDir: Path -> bool,
                                      rules: seq<FileRule<P>>, matches: (P, Path) -> bool)
    ensures var e := PathsCommands(paths, isDir, rules, matches);
            && (!e.returned <==> forall i :: 0 <= i < |paths| ==> Actionable(paths[i], isDir, rules, matches))
            && (!e.returned ==> Bootstraps(e.cmds) == paths)
  {
    var k := FirstStop(paths, isDir, rules, matches);
    PathsReturnIffStopped(paths, isDir, rules, matches);
    FirstStopIsFirst(paths, isDir, rules, matches);
    PathsBootstrapPrefix(paths, isDir, rules, matches);
    if k == |paths| {
      assert paths[..k] == paths;
    }
  }

  /** A run of paths returns early exactly when some path stops it. */
  lemma {:induction false} PathsReturnIffStopped<P>(paths: seq<Path>, isDir: Path -> bool,
                                                    rules: seq<FileRule<P>>, matches: (P, Path) -> bool)
    ensures PathsCommands(paths, isDir, rules, matches).returned <==> FirstStop(paths, isDir, rules, matches) < |paths|
  {
    if paths != [] {
      FoundRuleIffActionable(paths[0], isDir, rules, matches);
      if !Actionable(paths[0], isDir, rules, matches) {
        StoppingPathBootstraps(paths, isDir, rules, matches);
      } else {
        PathsReturnIffStopped(paths[1..], isDir, rules, matches);
        ActionablePathBootstraps(paths, isDir, rules, matches);
      }
    }
  }

  /**
   * Whole callback: the batch's bootstraps are its settled paths up to the
   * first one that is not actionable (that one too when it is a file), and all
   * of them when every path is actionable.
   */
  lemma ConfigWatcherBootstraps<P>(batch: Batch, isDir: Path -> bool, rules: seq<FileRule<P>>,
                                   matches: (P, Path) -> bool)
    requires batch.Settled?
    ensures var paths := SettledPaths(batch.events);
            var b := Bootstraps(ConfigWatcher(batch, isDir, rules, matches));
            && b == UpToStop(paths, FirstStop(paths, isDir, rules, matches), isDir)
            && b <= paths
            && ((forall i :: 0 <= i < |paths| ==> Actionable(paths[i], isDir, rules, matches)) ==> b == paths)
  {
    EventsCommandsArePathwise(batch.events, isDir, rules, matches);
    PathsBootstrapPrefix(SettledPaths(batch.events), isDir, rules, matches);
    PathsCompleteIffActionable(SettledPaths(batch.events), isDir, rules, matches);
  }

  lemma {:induction false} SendsWholeLinesAppend(a: seq<Command>, b: seq<Command>)
    requires SendsWholeLines(a) && SendsWholeLines(b)
    ensures SendsWholeLines(a + b)
  {
    forall i | 0 <= i < |a + b| && (a + b)[i].SendCommand?
      ensures EndsWithNewline((a + b)[i].text)
    {
      if i >= |a| { assert (a + b)[i] == b[i - |a|]; }
    }
  }

  lemma {:induction false} PathsSendWholeLines<P>(paths: seq<Path>, isDir: Path -> bool,
                                                  rules: seq<FileRule<P>>, matches: (P, Path) -> bool)
    ensures SendsWholeLines(PathsCommands(paths, isDir, rules, matches).cmds)
  {
    if paths != [] {
      PathsCommandsUnfold(paths, isDir, rules, matches);
      if !isDir(paths[0]) && FindRule(rules, paths[0], matches).Some? {
        var rule := FindRule(rules, paths[0], matches).value;
        PathsSendWholeLines(paths[1..], isDir, rules, matches);
        SendsWholeLinesAppend([Bootstrap(paths[0])], ActionCommands(rule.action));
        SendsWholeLinesAppend(ActionablePathCommands(paths[0], rule),
                              PathsCommands(paths[1..], isDir, rules, matches).cmds);
      }
    }
  }

  /** Every text the config-tree watcher sends to the server is a complete line. */
  lemma ConfigWatcherSendsWholeLines<P>(batch: Batch, isDir: Path -> bool, rules: seq<FileRule<P>>,
                                        matches: (P, Path) -> bool)
    ensures SendsWholeLines(ConfigWatcher(batch, isDir, rules, matches))
  {
    if batch.Settled? {
      EventsCommandsArePathwise(batch.events, isDir, rules, matches);
      PathsSendWholeLines(SettledPaths(batch.events), isDir, rules, matches);
    }
  }

  /**
   * One edited file: nothing for a directory; otherwise its bootstrap, then the
   * first matching rule's commands, or nothing more when no rule matches.
   */
  lemma SingleFileEdit<P>(kind: EventKind, p: Path, isDir: Path -> bool, rules: seq<FileRule<P>>,
                          matches: (P, Path) -> bool)
    requires IsCreateOrModify(kind)
    ensures var r := ConfigWatcher(Settled([Event(kind, [p])]), isDir, rules, matches);
            r == if isDir(p) then []
                 else [Bootstrap(p)] + match FindRule(rules, p, matches)
                                       case None => []
                                       case Some(rule) => ActionCommands(rule.action)
  {
    var events := [Event(kind, [p])];
    assert events[1..] == [];
    assert SettledPaths(events) == [p] + SettledPaths(events[1..]);
    EventsCommandsArePathwise(events, isDir, rules, matches);
    PathsCommandsUnfold([p], isDir, rules, matches);
    assert [p][1..] == [];
  }

  // ---------------------------------------------------------------------------
  // The hotreload.toml watcher (src/hot_reload/mod.rs:214-240)
  // ---------------------------------------------------------------------------

  /** Number of create/modify events in `events`. */
  function CreateModifyCount(events: seq<Event>): nat {
    if events == [] then 0
    else (if IsCreateOrModify(events[0].kind) then 1 else 0) + CreateModifyCount(events[1..])
  }

  /**
   * The loop over events: each create/modify event re-parses the file named by
   * the current configuration and, on success, replaces the whole configuration.
   * The result is always the old configuration or a complete parse result.
   */
  function ReloadEvents<P>(config: HotReloadConfig<P>, events: seq<Event>,
                           load: Path -> Option<HotReloadConfig<P>>): (r: HotReloadConfig<P>)
    ensures r == config || exists p :: load(p) == Some(r)
    decreases |events|
  {
    if events == [] then config
    else
      var next :=
        if !IsCreateOrModify(events[0].kind) then config
        else match load(config.path)
             case Some(updated) => updated
             case None => config;
      ReloadEvents(next, events[1..], load)
  }

  /** The hotreload.toml watcher's callback: the shared configuration after one batch. */
  function HotReloadWatcher<P>(config: HotReloadConfig<P>, batch: Batch,
                               load: Path -> Option<HotReloadConfig<P>>): HotReloadConfig<P>
  {
    match batch
    case WatchError => config
    case Settled(events) => ReloadEvents(config, events, load)
  }

  /** A batch without create/modify events leaves the configuration as it was. */
  lemma {:induction false} ReloadIgnoresOtherEvents<P>(config: HotReloadConfig<P>, events: seq<Event>,
                                                      load: Path -> Option<HotReloadConfig<P>>)
    requires CreateModifyCount(events) == 0
    ensures ReloadEvents(config, events, load) == config
    decreases |events|
  {
    if events != [] {
      ReloadIgnoresOtherEvents(config, events[1..], load);
    }
  }

  lemma {:induction false} ParseFailureKeepsEvents<P>(config: HotReloadConfig<P>, events: seq<Event>,
                                                      load: Path -> Option<HotReloadConfig<P>>)
    requires load(config.path).None?
    ensures ReloadEvents(config, events, load) == config
    decreases |events|
  {
    if events != [] {
      ParseFailureKeepsEvents(config, events[1..], load);
    }
  }

  /** A file that does not parse leaves the previous configuration in effect. */
  lemma ParseFailureKeepsConfig<P>(config: HotReloadConfig<P>, batch: Batch,
                                   load: Path -> Option<HotReloadConfig<P>>)
    requires load(config.path).None?
    ensures HotReloadWatcher(config, batch, load) == config
  {
    if batch.Settled? {
      ParseFailureKeepsEvents(config, batch.events, load);
    }
  }

  /**
   * A file that parses (to a configuration naming the same file) replaces the
   * configuration wholesale, however many create/modify events the batch has.
   */
  lemma {:induction false} ReloadReplacesWholesale<P>(config: HotReloadConfig<P>, events: seq<Event>,
                                                     load: Path -> Option<HotReloadConfig<P>>,
                                                     updated: HotReloadConfig<P>)
    requires load(config.path) == Some(updated) && updated.path == config.path
    requires CreateModifyCount(events) > 0
    ensures HotReloadWatcher(config, Settled(events), load) == updated
    decreases |events|
  {
    if IsCreateOrModify(events[0].kind) {
      if CreateModifyCount(events[1..]) == 0 {
        ReloadIgnoresOtherEvents(updated, events[1..], load);
      } else {
        ReloadReplacesWholesale(updated, events[1..], load, updated);
      }
    } else {
      ReloadReplacesWholesale(config, events[1..], load, updated);
    }
  }

  // ---------------------------------------------------------------------------
  // The server.toml watcher (src/hot_reload/mod.rs:292-311)
  // ---------------------------------------------------------------------------

  /**
   * The full cycle one server.toml modification enqueues. Its stop text has no
   * trailing newline, unlike the config-tree watcher's Restart.
   */
  function RebuildCycle(): seq<Command> {
    [SendCommand("stop\nend"), WaitUntilExit, Rebuild, Start]
  }

  /** Number of modify events in `events`. */
  function ModifyCount(events: seq<Event>): nat {
    if events == [] then 0
    else (if events[0].kind.Modify? then 1 else 0) + ModifyCount(events[1..])
  }

  function ServerTomlEvents(events: seq<Event>): seq<Command> {
    if events == [] then []
    else (if events[0].kind.Modify? then RebuildCycle() else []) + ServerTomlEvents(events[1..])
  }

  /** The server.toml watcher's callback: the commands one settled batch enqueues. */
  function ServerTomlWatcher(batch: Batch): seq<Command> {
    match batch
    case WatchError => []
    case Settled(events) => ServerTomlEvents(events)
  }

  /** One full rebuild cycle per modify event, back to back, and nothing else. */
  lemma {:induction false} ServerTomlCycles(events: seq<Event>)
    ensures var r := ServerTomlWatcher(Settled(events));
            && |r| == 4 * ModifyCount(events)
            && forall i :: 0 <= i < |r| ==> r[i] == RebuildCycle()[i % 4]
  {
    if events != [] {
      ServerTomlCycles(events[1..]);
      var rest := ServerTomlEvents(events[1..]);
      var r := ServerTomlEvents(events);
      if events[0].kind.Modify? {
        forall i | 4 <= i < |r| ensures r[i] == RebuildCycle()[i % 4] {
          assert r[i] == rest[i - 4];
          assert (i - 4) % 4 == i % 4;
        }
      }
    }
  }

  /** The server.toml watcher's stop text is not a complete line. */
  lemma ServerTomlStopIsNotALine()
    ensures !SendsWholeLines(RebuildCycle())
  {
    assert RebuildCycle()[0].text == "stop\nend";
  }
}
