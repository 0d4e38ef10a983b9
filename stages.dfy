/** The two preflight stages of the installer, check_pip3 and check_config,
    and the fatal-error path _log they share. */
module Stages {
  import opened Text
  import opened Requirements
  import opened Runner

  /** How a stage ended and everything it printed and tried to start, in order. */
  datatype Stage = Stage(halt: Halt, trace: seq<Event>)

  /** The stage s, run after the events in prefix. */
  function Then(prefix: seq<Event>, s: Stage): Stage
  {
    Stage(s.halt, prefix + s.trace)
  }

  /** The process an event tries to start, if any. */
  function Started(e: Event): seq<seq<string>>
  {
    if e.Spawn? then [e.argv] else []
  }

  /** The processes a trace tries to start, in order. */
  function Spawns(trace: seq<Event>): seq<seq<string>>
  {
    if trace == [] then [] else Started(trace[0]) + Spawns(trace[1..])
  }

  lemma {:induction false} SpawnsAppend(a: seq<Event>, b: seq<Event>)
    ensures Spawns(a + b) == Spawns(a) + Spawns(b)
  {
    if a == [] {
      assert a + b == b;
    } else {
      calc {
        Spawns(a + b);
        { assert (a + b)[0] == a[0] && (a + b)[1..] == a[1..] + b; }
        Started(a[0]) + Spawns(a[1..] + b);
        { SpawnsAppend(a[1..], b); }
        Started(a[0]) + (Spawns(a[1..]) + Spawns(b));
        (Started(a[0]) + Spawns(a[1..])) + Spawns(b);
      }
    }
  }

  lemma {:induction false} SpawnsPrints(msgs: seq<string>)
    ensures Spawns(Prints(msgs)) == []
  {
    if msgs != [] {
      SpawnsPrints(msgs[1..]);
      assert Prints(msgs)[1..] == Prints(msgs[1..]);
    }
  }

  /** One call of _run_script attempts to start exactly one process: the
      tokenised command. */
  lemma SpawnsRunTrace(cli: string, spawn: seq<string> -> SpawnResult)
    ensures Spawns(RunTrace(cli, spawn)) == [Tokenise(cli)]
  {
    var r := spawn(Tokenise(cli));
    var tail := if Captured(r).code != 0 then Prints(Diagnostics(r)) else [];
    SpawnsAppend([Print(RunningLine(cli)), Spawn(Tokenise(cli))], tail);
    SpawnsPrints(if Captured(r).code != 0 then Diagnostics(r) else []);
    assert Spawns([Spawn(Tokenise(cli))]) == [Tokenise(cli)];
  }

  const ErrorPrefix := "\nPATTOO Error: "

  /** _log(message): print the message after the error marker and exit 3. */
  function Log(message: string): (s: Stage)
    ensures s.halt == Exit(3)
    ensures |s.trace| == 1 && s.trace[0].Print?
    ensures |s.trace[0].text| == |ErrorPrefix| + |message|
    ensures s.trace[0].text[..|ErrorPrefix|] == ErrorPrefix
    ensures s.trace[0].text[|ErrorPrefix|..] == message
    ensures Spawns(s.trace) == []
  {
    Stage(Exit(3), [Print(ErrorPrefix + message)])
  }

  // ---------------------------------------------------------------- check_pip3

  function RequirementsPath(root: string): string
  {
    root + "/pip_requirements.txt"
  }

  function MissingFileMessage(path: string): string
  {
    "Cannot find PIP3 requirements file " + path
  }

  function NotInstalledMessage(package: string): string
  {
    "Python3 \"" + package + "\" package not installed or pip3 command not found. Please fix."
  }

  /** The error _log prints when the package of a kept line is missing. */
  function MissingError(line: string): Event
  {
    Print(ErrorPrefix + NotInstalledMessage(PackageName(line)))
  }

  /** The argument vector of "pip3 show" for the package of a kept line. */
  function PipArgv(line: string): seq<string>
  {
    Tokenise(PipCommand(PackageName(line)))
  }

  /** "pip3 show" reports the package of this line as installed. */
  predicate Installed(line: string, spawn: seq<string> -> SpawnResult)
  {
    Captured(spawn(PipArgv(line))).code == 0
  }

  /** One pass of the check_pip3 loop over a kept line. */
  function PackageStep(line: string, spawn: seq<string> -> SpawnResult): Stage
  {
    var package := PackageName(line);
    var head := [Print("??: Checking package " + package)] + RunTrace(PipCommand(package), spawn);
    if !Installed(line, spawn) then Then(head, Log(NotInstalledMessage(package)))
    else Stage(Continue, head + [Print("OK: package " + line)])
  }

  /** A loop that runs one stage per item, in order, and stops at the first
      stage that exits (a _log call inside the loop body ends the process). */
  function RunEach(items: seq<string>, step: string -> Stage): Stage
  {
    if items == [] then Stage(Continue, [])
    else
      var s := step(items[0]);
      if s.halt.Exit? then s else Then(s.trace, RunEach(items[1..], step))
  }

  /** The index of the first item whose stage exits, if any. */
  function FirstExit(items: seq<string>, step: string -> Stage): Option<nat>
  {
    if items == [] then None
    else if step(items[0]).halt.Exit? then Some(0)
    else
      match FirstExit(items[1..], step)
      case None => None
      case Some(k) => Some(k + 1)
  }

  /** The traces of the items' stages, one after the other. */
  function AllTraces(items: seq<string>, step: string -> Stage): seq<Event>
  {
    if items == [] then [] else step(items[0]).trace + AllTraces(items[1..], step)
  }

  lemma AllTracesPrefix(items: seq<string>, n: nat, step: string -> Stage)
    requires n < |items|
    ensures AllTraces(items[..n + 1], step) == step(items[0]).trace + AllTraces(items[1..][..n], step)
  {
    assert items[..n + 1][0] == items[0];
    assert items[..n + 1][1..] == items[1..][..n];
  }

  /** The loop stops at the first exiting stage: when no stage exits it
      carries on with the traces of all stages; otherwise it has run the
      stages before the first exiting one, then that one, and no other, and
      it ends as that stage ends. */
  lemma {:induction false} RunEachStopsAtFirstExit(items: seq<string>, step: string -> Stage)
    ensures match FirstExit(items, step)
      case None => RunEach(items, step) == Stage(Continue, AllTraces(items, step))
      case Some(k) =>
        k < |items| && RunEach(items, step) == Then(AllTraces(items[..k], step), step(items[k]))
  {
    if items != [] {
      var first := step(items[0]);
      if first.halt.Exit? {
        assert items[..0] == [];
        assert [] + first.trace == first.trace;
      } else {
        RunEachStopsAtFirstExit(items[1..], step);
        match FirstExit(items[1..], step)
        case None =>
        case Some(k) =>
          var before := AllTraces(items[1..][..k], step);
          var last := step(items[1..][k]);
          AllTracesPrefix(items, k, step);
          assert first.trace + (before + last.trace) == (first.trace + before) + last.trace;
      }
    }
  }

  /** The body of the check_pip3 loop, as a stage per kept line. */
  function PackageChecker(spawn: seq<string> -> SpawnResult): string -> Stage
  {
    line => PackageStep(line, spawn)
  }

  /** The check_pip3 loop: one PackageStep per kept line, stopping at the
      first failure. */
  function CheckPackages(lines: seq<string>, spawn: seq<string> -> SpawnResult): Stage
  {
    RunEach(lines, PackageChecker(spawn))
  }

  /** check_pip3 as a whole: a missing requirements file is fatal, otherwise
      the kept lines are checked in file order. */
  function Pip3Spec(root: string, files: string -> Option<string>, spawn: seq<string> -> SpawnResult): Stage
  {
    var path := RequirementsPath(root);
    match files(path)
    case None => Log(MissingFileMessage(path))
    case Some(raw) => CheckPackages(RequirementLines(raw), spawn)
  }

  /** The index of the first item that fails the test ok, if any. */
  function FirstFailing(items: seq<string>, ok: string -> bool): Option<nat>
  {
    if items == [] then None
    else if !ok(items[0]) then Some(0)
    else
      match FirstFailing(items[1..], ok)
      case None => None
      case Some(k) => Some(k + 1)
  }

  /** FirstFailing finds the least index of an item that fails the test,
      and finds none exactly when every item passes. */
  lemma {:induction false} FirstFailingIsLeast(items: seq<string>, ok: string -> bool)
    ensures match FirstFailing(items, ok)
      case None => forall j :: 0 <= j < |items| ==> ok(items[j])
      case Some(k) => k < |items| && !ok(items[k]) && forall j :: 0 <= j < k ==> ok(items[j])
  {
    if items != [] && ok(items[0]) {
      FirstFailingIsLeast(items[1..], ok);
      forall j | 1 <= j < |items|
        ensures items[j] == items[1..][j - 1]
      {
      }
    }
  }

  /** The test check_pip3 applies to a kept line. */
  function InstalledIn(spawn: seq<string> -> SpawnResult): string -> bool
  {
    line => Installed(line, spawn)
  }

  /** The first kept line whose package "pip3 show" does not find, if any. */
  function FirstMissing(lines: seq<string>, spawn: seq<string> -> SpawnResult): Option<nat>
  {
    FirstFailing(lines, InstalledIn(spawn))
  }

  /** FirstMissing finds the least index of a line whose package is not
      installed, and finds none exactly when every package is installed. */
  lemma FirstMissingIsLeast(lines: seq<string>, spawn: seq<string> -> SpawnResult)
    ensures match FirstMissing(lines, spawn)
      case None => forall j :: 0 <= j < |lines| ==> Installed(lines[j], spawn)
      case Some(k) =>
        && k < |lines| && !Installed(lines[k], spawn)
        && forall j :: 0 <= j < k ==> Installed(lines[j], spawn)
  {
    FirstFailingIsLeast(lines, InstalledIn(spawn));
  }

  /** The "pip3 show" commands for a run of kept lines, in order. */
  function PipArgvs(lines: seq<string>): seq<seq<string>>
  {
    if lines == [] then [] else [PipArgv(lines[0])] + PipArgvs(lines[1..])
  }

  lemma PipArgvsSnoc(lines: seq<string>, k: nat)
    requires k < |lines|
    ensures PipArgvs(lines[..k + 1]) == PipArgvs(lines[..k]) + [PipArgv(lines[k])]
  {
    PipArgvsAppend(lines[..k], [lines[k]]);
    assert lines[..k + 1] == lines[..k] + [lines[k]];
  }

  lemma {:induction false} PipArgvsAppend(a: seq<string>, b: seq<string>)
    ensures PipArgvs(a + b) == PipArgvs(a) + PipArgvs(b)
  {
    if a == [] {
      assert a + b == b;
    } else {
      calc {
        PipArgvs(a + b);
        { assert (a + b)[0] == a[0] && (a + b)[1..] == a[1..] + b; }
        [PipArgv(a[0])] + PipArgvs(a[1..] + b);
        { PipArgvsAppend(a[1..], b); }
        [PipArgv(a[0])] + (PipArgvs(a[1..]) + PipArgvs(b));
        ([PipArgv(a[0])] + PipArgvs(a[1..])) + PipArgvs(b);
      }
    }
  }

  /** One pass of the loop attempts exactly the "pip3 show" command of its
      line; it carries on when that command succeeds, and otherwise ends
      with exit status 3 and an error naming the package. */
  lemma PackageStepShape(line: string, spawn: seq<string> -> SpawnResult)
    ensures var s := PackageStep(line, spawn);
      && s.halt == (if Installed(line, spawn) then Continue else Exit(3))
      && Spawns(s.trace) == [PipArgv(line)]
      && s.trace != []
      && (!Installed(line, spawn) ==>
            s.trace[|s.trace| - 1] == MissingError(line))
  {
    var package := PackageName(line);
    var first := [Print("??: Checking package " + package)];
    var run := RunTrace(PipCommand(package), spawn);
    var head := first + run;
    assert Spawns(head) == [PipArgv(line)] by {
      SpawnsRunTrace(PipCommand(package), spawn);
      SpawnsAppend(first, run);
      assert Spawns(first) == [];
    }
    if Installed(line, spawn) {
      var ok := [Print("OK: package " + line)];
      SpawnsAppend(head, ok);
      assert Spawns(ok) == [];
    } else {
      SpawnsAppend(head, Log(NotInstalledMessage(package)).trace);
    }
  }

  /** A loop body that exits, with status 3, exactly on the items that fail ok. */
  ghost predicate HaltsOnFailure(step: string -> Stage, ok: string -> bool)
  {
    forall l :: step(l).halt == (if ok(l) then Continue else Exit(3))
  }

  /** A loop body that attempts the "pip3 show" command of its line and nothing else. */
  ghost predicate ShowsOwnPackage(step: string -> Stage)
  {
    forall l :: Spawns(step(l).trace) == [PipArgv(l)]
  }

  /** A loop body whose trace, on a failing item, ends with the error naming its package. */
  ghost predicate EndsWithError(step: string -> Stage, ok: string -> bool)
  {
    forall l :: !ok(l) ==>
      step(l).trace != [] &&
      step(l).trace[|step(l).trace| - 1] == MissingError(l)
  }

  /** PackageStep is such a loop body, failing exactly on missing packages. */
  lemma PackageCheckerIs(spawn: seq<string> -> SpawnResult)
    ensures HaltsOnFailure(PackageChecker(spawn), InstalledIn(spawn))
    ensures ShowsOwnPackage(PackageChecker(spawn))
    ensures EndsWithError(PackageChecker(spawn), InstalledIn(spawn))
  {
    forall l
      ensures var s := PackageChecker(spawn)(l);
        && s.halt == (if Installed(l, spawn) then Continue else Exit(3))
        && Spawns(s.trace) == [PipArgv(l)]
        && (!Installed(l, spawn) ==>
              s.trace != [] &&
              s.trace[|s.trace| - 1] == MissingError(l))
    {
      PackageStepShape(l, spawn);
    }
  }

  lemma {:induction false} FirstExitIsFirstFailing(items: seq<string>, step: string -> Stage, ok: string -> bool)
    requires HaltsOnFailure(step, ok)
    ensures FirstExit(items, step) == FirstFailing(items, ok)
  {
    if items != [] {
      FirstExitIsFirstFailing(items[1..], step, ok);
    }
  }

  lemma {:induction false} SpawnsAllTraces(lines: seq<string>, step: string -> Stage)
    requires ShowsOwnPackage(step)
    ensures Spawns(AllTraces(lines, step)) == PipArgvs(lines)
  {
    if lines != [] {
      SpawnsAllTraces(lines[1..], step);
      SpawnsAppend(step(lines[0]).trace, AllTraces(lines[1..], step));
    }
  }

  lemma LastOfAppend(a: seq<Event>, b: seq<Event>)
    requires b != []
    ensures (a + b)[|a + b| - 1] == b[|b| - 1]
  {
  }

  /** The package loop when line k holds the first failing line: it has
      checked the lines up to and including line k, in order, and ends with
      exit status 3 and the error naming that line's package. */
  lemma PackageLoopExits(lines: seq<string>, k: nat, step: string -> Stage, ok: string -> bool)
    requires FirstFailing(lines, ok) == Some(k)
    requires HaltsOnFailure(step, ok) && ShowsOwnPackage(step) && EndsWithError(step, ok)
    ensures var s := RunEach(lines, step);
      && k < |lines|
      && s.halt == Exit(3)
      && Spawns(s.trace) == PipArgvs(lines[..k + 1])
      && s.trace != []
      && s.trace[|s.trace| - 1] == MissingError(lines[k])
  {
    RunEachStopsAtFirstExit(lines, step);
    FirstExitIsFirstFailing(lines, step, ok);
    FirstFailingIsLeast(lines, ok);
    var before, t := AllTraces(lines[..k], step), step(lines[k]).trace;
    SpawnsAllTraces(lines[..k], step);
    SpawnsAppend(before, t);
    PipArgvsSnoc(lines, k);
    LastOfAppend(before, t);
  }

  /** The package loop when every line passes: it checks them all, in
      order, and carries on. */
  lemma PackageLoopContinues(lines: seq<string>, step: string -> Stage, ok: string -> bool)
    requires FirstFailing(lines, ok) == None
    requires HaltsOnFailure(step, ok) && ShowsOwnPackage(step)
    ensures var s := RunEach(lines, step);
      s.halt == Continue && Spawns(s.trace) == PipArgvs(lines)
  {
    RunEachStopsAtFirstExit(lines, step);
    FirstExitIsFirstFailing(lines, step, ok);
    SpawnsAllTraces(lines, step);
  }

  /** The package loop halts at the first failing line, for any loop body
      that behaves as PackageStep does. */
  lemma PackageLoopOutcome(lines: seq<string>, step: string -> Stage, ok: string -> bool)
    requires HaltsOnFailure(step, ok) && ShowsOwnPackage(step) && EndsWithError(step, ok)
    ensures var s := RunEach(lines, step);
      match FirstFailing(lines, ok)
      case None =>
        s.halt == Continue && Spawns(s.trace) == PipArgvs(lines)
      case Some(k) =>
        && k < |lines|
        && s.halt == Exit(3)
        && Spawns(s.trace) == PipArgvs(lines[..k + 1])
        && s.trace != []
        && s.trace[|s.trace| - 1] == MissingError(lines[k])
  {
    match FirstFailing(lines, ok)
    case None => PackageLoopContinues(lines, step, ok);
    case Some(k) => PackageLoopExits(lines, k, step, ok);
  }

  /** check_pip3 halts at the first missing package: packages are checked in
      file order, every package up to and including the first missing one is
      checked and none after it; a missing package ends the stage with exit
      status 3 and an error naming that package, and when none is missing
      the stage carries on. */
  lemma CheckPackagesHaltsAtFirstMissing(lines: seq<string>, spawn: seq<string> -> SpawnResult)
    ensures var s := CheckPackages(lines, spawn);
      match FirstMissing(lines, spawn)
      case None =>
        s.halt == Continue && Spawns(s.trace) == PipArgvs(lines)
      case Some(k) =>
        && k < |lines|
        && s.halt == Exit(3)
        && Spawns(s.trace) == PipArgvs(lines[..k + 1])
        && s.trace != []
        && s.trace[|s.trace| - 1] == MissingError(lines[k])
  {
    PackageCheckerIs(spawn);
    PackageLoopOutcome(lines, PackageChecker(spawn), InstalledIn(spawn));
  }

  /** check_pip3 at file level: without a requirements file it exits with
      status 3 before any command runs; otherwise it behaves as the package
      loop over the file's kept lines, so it never exits with any status
      other than 3. */
  lemma Pip3Outcome(root: string, files: string -> Option<string>, spawn: seq<string> -> SpawnResult)
    ensures var s := Pip3Spec(root, files, spawn);
      && (files(RequirementsPath(root)).None? ==> s.halt == Exit(3) && Spawns(s.trace) == [])
      && (s.halt == Continue || s.halt == Exit(3))
      && (files(RequirementsPath(root)).Some? ==>
            (s.halt == Continue <==> FirstMissing(RequirementLines(files(RequirementsPath(root)).value), spawn).None?))
  {
    match files(RequirementsPath(root))
    case None =>
    case Some(raw) =>
      CheckPackagesHaltsAtFirstMissing(RequirementLines(raw), spawn);
  }

  /** One pass of a RunEach loop: with the stages before item i already
      run, running item i either ends the loop or leaves the items after it. */
  lemma RunEachStep(items: seq<string>, i: nat, step: string -> Stage,
                    done: seq<Event>, halt: Halt, trace: seq<Event>)
    requires i < |items|
    requires RunEach(items, step) == Then(done, RunEach(items[i..], step))
    requires Stage(halt, trace) == step(items[i])
    ensures halt.Exit? ==> RunEach(items, step) == Stage(halt, done + trace)
    ensures !halt.Exit? ==> RunEach(items, step) == Then(done + trace, RunEach(items[i + 1..], step))
  {
  }

  /** One pass of the check_pip3 loop: announce the package, run
      "pip3 show" on it without dying, and either log the missing package
      or report it present. */
  method CheckPackage(line: string, spawn: seq<string> -> SpawnResult)
    returns (halt: Halt, trace: seq<Event>)
    ensures Stage(halt, trace) == PackageChecker(spawn)(line)
  {
    var package := PackageName(line);
    trace := [Print("??: Checking package " + package)];
    var command := PipCommand(package);
    var result, _, run := RunScript(command, false, spawn);
    trace := trace + run;
    if result.code != 0 {
      var fatal := Log(NotInstalledMessage(package));
      return fatal.halt, trace + fatal.trace;
    }
    trace := trace + [Print("OK: package " + line)];
    halt := Continue;
  }

  /** check_pip3(): read the requirements file and run "pip3 show" for each
      kept line, stopping at the first package that is not installed. */
  method CheckPip3(root: string, files: string -> Option<string>, spawn: seq<string> -> SpawnResult)
    returns (halt: Halt, trace: seq<Event>)
    ensures Stage(halt, trace) == Pip3Spec(root, files, spawn)
  {
    var filepath := RequirementsPath(root);
    var content := files(filepath);
    if content.None? {
      var fatal := Log(MissingFileMessage(filepath));
      return fatal.halt, fatal.trace;
    }
    var lines := ReadRequirements(content.value);
    trace := [];
    var i := 0;
    ghost var step := PackageChecker(spawn);
    assert lines[0..] == lines;
    assert Then([], RunEach(lines, step)) == RunEach(lines, step);
    while i < |lines|
      invariant i <= |lines|
      invariant RunEach(lines, step) == Then(trace, RunEach(lines[i..], step))
    {
      var stepHalt, stepTrace := CheckPackage(lines[i], spawn);
      RunEachStep(lines, i, step, trace, stepHalt, stepTrace);
      if stepHalt.Exit? {
        return stepHalt, trace + stepTrace;
      }
      trace := trace + stepTrace;
      i := i + 1;
    }
    assert lines[i..] == [];
    assert trace + [] == trace;
    halt := Continue;
  }

  // -------------------------------------------------------------- check_config

  const ConfigDirVar := "PATTOO_CONFIGDIR"

  const EnvUnsetMessage :=
    "Set your PATTOO_CONFIGDIR to point to your configuration directory like this:\n\n"
    + "$ export PATTOO_CONFIGDIR=/path/to/configuration/directory\n\n"
    + "Then run this command again.\n"

  const DirMissingMessage :=
    "Set your PATTOO_CONFIGDIR cannot be found. Set the variable to point to an "
    + "existing directory:\n\n"
    + "$ export PATTOO_CONFIGDIR=/path/to/configuration/directory\n\n"
    + "Then run this command again.\n"

  function ConfigCheckCommand(root: string): string
  {
    root + "/setup/_check_config.py"
  }

  /** check_config as a whole. */
  function ConfigSpec(root: string, env: map<string, string>, isDir: string -> bool,
                      spawn: seq<string> -> SpawnResult): Stage
  {
    var head := [Print("??: Checking configuration")];
    if ConfigDirVar !in env then Then(head, Log(EnvUnsetMessage))
    else if !isDir(env[ConfigDirVar]) then Then(head, Log(DirMissingMessage))
    else
      var command := ConfigCheckCommand(root);
      var run := head + RunTrace(command, spawn);
      if Captured(spawn(Tokenise(command))).code != 0 then Stage(Exit(2), run)
      else Stage(Continue, run + [Print("OK: Configuration check passed")])
  }

  /** An unset PATTOO_CONFIGDIR ends check_config with exit status 3 and the
      instructions to set it, before the directory test is consulted or any
      command is attempted. */
  lemma ConfigEnvUnsetStops(root: string, env: map<string, string>, isDir: string -> bool,
                            spawn: seq<string> -> SpawnResult,
                            isDir': string -> bool, spawn': seq<string> -> SpawnResult)
    requires ConfigDirVar !in env
    ensures var s := ConfigSpec(root, env, isDir, spawn);
      && s.halt == Exit(3) && Spawns(s.trace) == []
      && s.trace[|s.trace| - 1] == Print(ErrorPrefix + EnvUnsetMessage)
      && s == ConfigSpec(root, env, isDir', spawn')
  {
  }

  /** A PATTOO_CONFIGDIR that names no directory ends check_config with exit
      status 3 before the check script is attempted. */
  lemma ConfigDirMissingStops(root: string, env: map<string, string>, isDir: string -> bool,
                              spawn: seq<string> -> SpawnResult, spawn': seq<string> -> SpawnResult)
    requires ConfigDirVar in env && !isDir(env[ConfigDirVar])
    ensures var s := ConfigSpec(root, env, isDir, spawn);
      && s.halt == Exit(3) && Spawns(s.trace) == []
      && s.trace[|s.trace| - 1] == Print(ErrorPrefix + DirMissingMessage)
      && s == ConfigSpec(root, env, isDir, spawn')
  {
  }

  /** With PATTOO_CONFIGDIR naming a directory, check_config attempts exactly
      the check script; its failure exits with status 2 (die) and its
      success lets the installer carry on. */
  lemma ConfigRunsScript(root: string, env: map<string, string>, isDir: string -> bool,
                         spawn: seq<string> -> SpawnResult)
    requires ConfigDirVar in env && isDir(env[ConfigDirVar])
    ensures var s, command := ConfigSpec(root, env, isDir, spawn), ConfigCheckCommand(root);
      && Spawns(s.trace) == [Tokenise(command)]
      && s.halt == (if Captured(spawn(Tokenise(command))).code != 0 then Exit(2) else Continue)
  {
    var head := [Print("??: Checking configuration")];
    var command := ConfigCheckCommand(root);
    var run := RunTrace(command, spawn);
    var ok := [Print("OK: Configuration check passed")];
    assert Spawns(head + run) == [Tokenise(command)] by {
      assert Spawns(head) == [];
      SpawnsRunTrace(command, spawn);
      SpawnsAppend(head, run);
    }
    SpawnsAppend(head + run, ok);
    assert Spawns(ok) == [];
  }

  /** The check script command tokenises to a single program argument exactly when
      the installation root contains no space. */
  lemma ConfigCommandArgv(root: string)
    ensures Tokenise(ConfigCheckCommand(root)) == [ConfigCheckCommand(root)] <==> ' ' !in root
  {
    var command := ConfigCheckCommand(root);
    if ' ' !in root {
      assert ' ' !in "/setup/_check_config.py";
      assert ' ' !in command;
      SplitNoSep(command, ' ');
    } else {
      var i :| 0 <= i < |root| && root[i] == ' ';
      assert command[i] == ' ';
      SplitFields(command, ' ');
      assert ' ' !in Tokenise(command)[0];
    }
  }

  /** check_config(): the environment variable, then the directory, then the
      check script run with die=True. */
  method CheckConfig(root: string, env: map<string, string>, isDir: string -> bool,
                     spawn: seq<string> -> SpawnResult)
    returns (halt: Halt, trace: seq<Event>)
    ensures Stage(halt, trace) == ConfigSpec(root, env, isDir, spawn)
  {
    trace := [Print("??: Checking configuration")];
    if ConfigDirVar !in env {
      var fatal := Log(EnvUnsetMessage);
      return fatal.halt, trace + fatal.trace;
    }
    if !isDir(env[ConfigDirVar]) {
      var fatal := Log(DirMissingMessage);
      return fatal.halt, trace + fatal.trace;
    }
    var filepath := ConfigCheckCommand(root);
    var _, runHalt, run := RunScript(filepath, true, spawn);
    trace := trace + run;
    if runHalt.Exit? {
      return runHalt, trace;
    }
    trace := trace + [Print("OK: Configuration check passed")];
    halt := Continue;
  }
}
