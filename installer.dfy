/** The installer script as a whole: the directory guard that runs when the
    module is loaded, then main(), which runs check_pip3, check_config and
    next_steps in that order. */
module Installer {
  import opened Text
  import opened Requirements
  import opened Runner
  import opened Stages

  /** Everything the installer reads from outside: the directory the script
      lives in (already resolved to a real path), the regular files by path
      and their text, the environment, which paths are directories, and what
      starting a command with a given argument vector yields. */
  datatype World = World(
    execDir: string,
    files: string -> Option<string>,
    env: map<string, string>,
    isDir: string -> bool,
    spawn: seq<string> -> SpawnResult)

  const InstallDirSuffix := "/pattoo-web/setup"

  const MisplacedMessage := "This script is not installed in the \"pattoo/bin\" directory. Please fix."

  const NextStepsMessage :=
    "\nHooray successful installation! Panna Cotta Time!\n\n"
    + "Next Steps:\n"
    + "    1) Start the 'bin/pattoo_webd.py' script to accept agent data.\n"
    + "    2) Configure your agents to post data to this server.\n\n"
    + "Other steps:\n"
    + "    1) You can make pattoo-web a system daemon by running the scripts in the\n"
    + "       'setup/systemd' directory. Visit this link for details:\n\n"
    + "       https://github.com/PalisadoesFoundation/pattoo-web/tree/master/setup/systemd\n\n"

  /** The script is where it has to be: its directory ends in /pattoo-web/setup. */
  predicate WellPlaced(execDir: string)
  {
    EndsWith(execDir, InstallDirSuffix)
  }

  /** ROOT_DIR, the parent of the script's directory. The directory is a
      resolved path, so its parent is the path without the last component. */
  function RootDir(execDir: string): string
    requires WellPlaced(execDir)
  {
    execDir[..|execDir| - |"/setup"|]
  }

  /** The root of a well-placed script is the pattoo-web directory, and the
      script's directory is its setup sub-directory. */
  lemma RootDirShape(execDir: string)
    requires WellPlaced(execDir)
    ensures RootDir(execDir) + "/setup" == execDir
    ensures EndsWith(RootDir(execDir), "/pattoo-web")
  {
  }

  /** A run of the installer: the guard, then check_pip3, check_config and
      next_steps; the first stage that exits ends the run. */
  function InstallSpec(w: World): Stage
  {
    if !WellPlaced(w.execDir) then Stage(Exit(2), [Print(MisplacedMessage)])
    else
      var root := RootDir(w.execDir);
      var pip := Pip3Spec(root, w.files, w.spawn);
      if pip.halt.Exit? then pip
      else
        var config := ConfigSpec(root, w.env, w.isDir, w.spawn);
        if config.halt.Exit? then Then(pip.trace, config)
        else Stage(Continue, pip.trace + config.trace + [Print(NextStepsMessage)])
  }

  /** A misplaced script prints one complaint and exits with status 2 before
      reading any file or attempting any command. */
  lemma MisplacedExits(w: World)
    requires !WellPlaced(w.execDir)
    ensures InstallSpec(w).halt == Exit(2)
    ensures InstallSpec(w).trace == [Print(MisplacedMessage)]
    ensures Spawns(InstallSpec(w).trace) == []
  {
  }

  /** The run ends normally, or exits with status 2 (misplaced script,
      failed configuration check script) or 3 (_log); no other status. */
  lemma ExitStatus(w: World)
    ensures var h := InstallSpec(w).halt;
      h == Continue || h == Exit(2) || h == Exit(3)
  {
    if WellPlaced(w.execDir) {
      Pip3Outcome(RootDir(w.execDir), w.files, w.spawn);
    }
  }

  /** When check_pip3 exits, check_config is never reached: the run is
      exactly the check_pip3 stage. */
  lemma Pip3FailureSkipsConfig(w: World)
    requires WellPlaced(w.execDir)
    requires Pip3Spec(RootDir(w.execDir), w.files, w.spawn).halt.Exit?
    ensures InstallSpec(w) == Pip3Spec(RootDir(w.execDir), w.files, w.spawn)
    ensures InstallSpec(w).halt == Exit(3)
  {
    Pip3Outcome(RootDir(w.execDir), w.files, w.spawn);
  }

  /** The installation succeeds exactly when the script is well placed and
      both checks pass; it then ends by printing the next steps. */
  lemma SuccessIffAllStagesPass(w: World)
    ensures InstallSpec(w).halt == Continue <==>
      && WellPlaced(w.execDir)
      && Pip3Spec(RootDir(w.execDir), w.files, w.spawn).halt == Continue
      && ConfigSpec(RootDir(w.execDir), w.env, w.isDir, w.spawn).halt == Continue
    ensures InstallSpec(w).halt == Continue ==>
      var t := InstallSpec(w).trace;
      t != [] && t[|t| - 1] == Print(NextStepsMessage)
  {
  }

  /** A successful installation attempts exactly these processes, in this
      order: "pip3 show" for every kept line of the requirements file, then
      the configuration check script. */
  lemma SuccessfulRunCommands(w: World)
    requires InstallSpec(w).halt == Continue
    ensures WellPlaced(w.execDir)
    ensures var root := RootDir(w.execDir);
      && w.files(RequirementsPath(root)).Some?
      && Spawns(InstallSpec(w).trace)
         == PipArgvs(RequirementLines(w.files(RequirementsPath(root)).value))
            + [Tokenise(ConfigCheckCommand(root))]
  {
    var root := RootDir(w.execDir);
    var pip := Pip3Spec(root, w.files, w.spawn);
    var config := ConfigSpec(root, w.env, w.isDir, w.spawn);
    var raw := w.files(RequirementsPath(root)).value;
    CheckPackagesHaltsAtFirstMissing(RequirementLines(raw), w.spawn);
    ConfigRunsScript(root, w.env, w.isDir, w.spawn);
    var last := [Print(NextStepsMessage)];
    SpawnsAppend(pip.trace + config.trace, last);
    SpawnsAppend(pip.trace, config.trace);
    assert Spawns(last) == [];
  }

  /** The installer: the directory guard, then main(). */
  method Install(w: World) returns (halt: Halt, trace: seq<Event>)
    ensures Stage(halt, trace) == InstallSpec(w)
  {
    if !EndsWith(w.execDir, InstallDirSuffix) {
      return Exit(2), [Print(MisplacedMessage)];
    }
    var root := RootDir(w.execDir);
    halt, trace := CheckPip3(root, w.files, w.spawn);
    if halt.Exit? {
      return;
    }
    var configHalt, configTrace := CheckConfig(root, w.env, w.isDir, w.spawn);
    trace := trace + configTrace;
    if configHalt.Exit? {
      return configHalt, trace;
    }
    trace := trace + [Print(NextStepsMessage)];
  }
}
