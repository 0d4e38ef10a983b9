# pattoo-web installer preflight, modelled in Dafny

This project models `setup/install.py` of pattoo-web. The script is run before the
web daemon is installed. It does four things:

- It refuses to run unless its own directory ends in `/pattoo-web/setup`.
- `check_pip3` reads `pip_requirements.txt` and runs `pip3 show <package>` for
  every kept line. It stops at the first package that is not installed.
- `check_config` checks that `PATTOO_CONFIGDIR` is set and names a directory.
  It then runs `setup/_check_config.py`.
- `main` runs the two checks in that order and prints the next steps.

Every command goes through `_run_script`. It splits the command line at single
spaces, attempts to start the process, and on a non-zero return code prints a report. With
`die` set it then exits with status 2. A fatal problem goes through `_log`,
which prints `PATTOO Error:` and the message and exits with status 3.

The outside world is a set of inputs (`Installer.World`):

- the resolved directory of the script;
- the text of each regular file by path;
- the environment;
- a directory test;
- a spawn oracle, from an argument vector to either an exit (code, stdout,
  stderr) or a raised exception.

What the installer does is a trace of `Print(text)` and `Spawn(argv)` events
and a `Halt`. A `Spawn` event records an attempt to start a process, whether
or not the start succeeds. The halt is `Continue` (normal end) or `Exit(status)` for
`sys.exit(status)`.

Each step-by-step operation is a method. The loops are kept as loops: reading
the file with `readline()`, the per-package loop, and the report loops of
`_run_script`. Each method is proved equal to a specification function:
`RunTrace`, `Pip3Spec`, `ConfigSpec` or `InstallSpec`. The properties the
script promises are lemmas about those functions. Pure pieces are functions
with lemmas: `strip()`, `split(' ')`, `split(c, 1)[0]`, `readline()` and
`str(int)`.

Modules, in dependency order:

- `text.dfy` (`Text`): the Python string operations used.
- `requirements.dfy` (`Requirements`): the line filter, package-name extraction
  and the reading loop.
- `runner.dfy` (`Runner`): `_run_script`.
- `stages.dfy` (`Stages`): `_log`, `check_pip3` and `check_config`.
- `installer.dfy` (`Installer`): the directory guard and `main`.

`check_config` runs after `check_pip3`, so `PATTOO_CONFIGDIR` is consulted
only after every package has been checked. `Installer.Pip3FailureSkipsConfig`
states this order.

## Model

| member | source | states |
|---|---|---|
| Text.StripShape | setup/install.py:44 | `strip()` keeps the slice between a whitespace-only prefix and a whitespace-only suffix. The result is empty exactly when the line is all whitespace. Otherwise it starts and ends with a non-space character. |
| Text.StripLeftShape | setup/install.py:44 | The left strip removes exactly a whitespace prefix and stops at the first non-space character. |
| Text.StripRightShape | setup/install.py:44 | The right strip removes exactly a whitespace suffix and stops at the last non-space character. |
| Text.SplitCount | setup/install.py:133 | `split(sep)` gives one more field than there are separators. |
| Text.SplitFields | setup/install.py:133 | No field of `split(sep)` contains the separator. |
| Text.JoinSplit | setup/install.py:133 | Joining the fields of `split(sep)` with `sep` gives back the original string. |
| Text.SplitJoin | setup/install.py:133 | Splitting a join of separator-free fields gives back those fields. |
| Text.SplitNoSep | setup/install.py:133 | A string without the separator splits into itself alone. |
| Text.SplitPrefix | setup/install.py:133 | A separator-free prefix is glued onto the first field of what follows it. |
| Text.SplitWord | setup/install.py:133 | A separator-free word followed by the separator becomes a field of its own. |
| Text.Before | setup/install.py:56-57 | `s.split(c, 1)[0]` is a prefix of `s` without `c`, and it stops exactly at the first `c` when there is one. |
| Text.BeforeAt | setup/install.py:56-57 | Conversely, the first `c` (or the end of a string without `c`) fixes the result: `Before(s, c) == s[..k]`. |
| Text.ReadLine | setup/install.py:41 | `readline()` returns a prefix of the unread text, and returns `""` only at end of file. |
| Text.ReadLineShape | setup/install.py:41 | A line read holds a newline only as its last character, and ends with one unless it runs to the end of the text. |
| Text.FileLinesConcat | setup/install.py:40-51 | The lines read until end of file concatenate back to the whole text. |
| Text.UniversalNewlines | setup/install.py:40 | Text-mode reading leaves no `\r`, never lengthens the text, and leaves text without `\r` unchanged. |
| Text.UniversalNewlinesPlain | setup/install.py:40 | A stretch without `\r` is copied unchanged, and the text after it is translated on its own. |
| Text.UniversalNewlinesCrLf | setup/install.py:40 | Text-mode reading turns each `\r\n` pair into one `\n`. |
| Text.UniversalNewlinesCr | setup/install.py:40 | Text-mode reading turns a lone `\r`, one not followed by `\n`, into `\n`. |
| Text.NatToString | setup/install.py:154 | `str(n)` of a natural number is a non-empty string of decimal digits. |
| Text.NatToStringRoundTrip | setup/install.py:154 | Reading the digits of `str(n)` gives back `n`. |
| Text.IntToStringRoundTrip | setup/install.py:154 | `str(code)` identifies the code, negative codes included: parsing it gives the code back. |
| Requirements.KeptLines | setup/install.py:42-50 | The kept lines are never more than the lines read. |
| Requirements.KeptLinesAppend | setup/install.py:42-51 | The filter works line by line and keeps file order: the kept lines of `a + b` are those of `a`, then those of `b`. |
| Requirements.KeptLinesSound | setup/install.py:44-50 | Every kept line is non-empty, does not start with `#`, and is the stripped form of some line of the file. |
| Requirements.KeptLinesComplete | setup/install.py:44-50 | Every line whose stripped form is non-empty and does not start with `#` is kept. |
| Requirements.KeptLineIsOneLine | setup/install.py:40-51 | A kept line contains no newline and no carriage return. |
| Requirements.StripOneLine | setup/install.py:44 | Stripping a line whose only newline is the last character, and which has no `\r`, leaves neither character. |
| Requirements.FileLinesShape | setup/install.py:41-51 | Every line `readline()` returns holds a newline only as its last character. |
| Requirements.FileLinesFrom | setup/install.py:40-51 | A text without `\r` yields lines without `\r`. |
| Requirements.PackageNameShape | setup/install.py:56-57 | The package name is a prefix of its line, contains neither `=` nor `>`, and ends exactly at the first `=` or `>`. When the line has neither, it is the whole line. |
| Requirements.PipCommandArgv | setup/install.py:59 | `pip3 show <package>` tokenises to `pip3`, `show`, then the package name split at its own spaces. |
| Requirements.TwoWords | setup/install.py:133 | Two space-free words followed by spaces become two fields, then the fields of the rest. |
| Requirements.ReadRequirements | setup/install.py:40-51 | The `while line:` reading loop collects exactly the kept lines of the file (`RequirementLines`). |
| Requirements.ReadStep | setup/install.py:41-51 | One `readline()` moves one line from the unread text to the lines read. The kept lines grow by that line when it is kept. |
| Runner.TokeniseRoundTrip | setup/install.py:133 | The argument vector has one more token than the command has spaces. No token holds a space. Joining the tokens with `' '` gives the command back. |
| Runner.TokeniseInjective | setup/install.py:133 | Two commands with the same argument vector are the same command. |
| Runner.UntagTagged | setup/install.py:157-167 | Removing the `STDOUT: `/`STDERR: ` tag from tagged pieces gives the pieces back. |
| Runner.DiagnosticsLayout | setup/install.py:143-167 | The report of a failed command, in order: the exception messages, then `Return code:` with text that parses back to the code, then one `STDOUT: ` line per newline-separated piece of stdout, then one `STDERR: ` line per piece of stderr. |
| Runner.TagsLayout | setup/install.py:157-167 | After a head, every stdout line starts with the stdout tag and every later line with the stderr tag. |
| Runner.DiagnosticsRecoverRun | setup/install.py:157-167 | The report loses nothing: removing the tags and joining with newlines recovers both captured streams exactly. |
| Runner.SpawnFailureReport | setup/install.py:124-167 | A command that could not be started reads as return code 1 with empty output. Its report is the two exception messages, `Return code:1`, one empty `STDOUT: ` line and one empty `STDERR: ` line. |
| Runner.RunTraceShape | setup/install.py:129-171 | A call prints `Running Command` and attempts to start the process. A spawn failure counts as code 1. A zero code prints nothing more. Any other code, negative ones included, is followed by the full report. |
| Runner.TaggedStep | setup/install.py:158-161 | One pass of a report loop appends one tagged line. |
| Runner.PrintsStep | setup/install.py:170-171 | One pass of the print loop prints one more message. |
| Runner.AppendTagged | setup/install.py:157-167 | Each report loop appends one tagged message per newline-separated piece of the captured text, in order. |
| Runner.PrintAll | setup/install.py:169-171 | The print loop prints every message, in order. |
| Runner.RunScript | setup/install.py:111-178 | `_run_script` returns the captured triple unchanged, whatever `die` is. It prints and attempts exactly the starts of `RunTrace`. It exits with status 2 only when the code is non-zero and `die` is set. |
| Stages.SpawnsAppend | setup/install.py:224-241 | The start attempts of two runs one after the other are those of the first, then those of the second. |
| Stages.SpawnsPrints | setup/install.py:170-171 | Printing messages attempts no process start. |
| Stages.SpawnsRunTrace | setup/install.py:133-141 | One call of `_run_script` attempts to start exactly one process, the tokenised command, whether or not the start succeeds. |
| Stages.Log | setup/install.py:209-221 | `_log` prints one line, `PATTOO Error: ` followed by the message, attempts no process start, and exits with status 3. |
| Stages.AllTracesPrefix | setup/install.py:54-65 | The stages of the first `n + 1` items are the first item's stage, then the next `n`. |
| Stages.RunEachStopsAtFirstExit | setup/install.py:54-65 | The per-item loop stops at the first item whose stage exits. It has run the stages before that item, then that item's stage, and no other. When no stage exits, it runs them all and carries on. |
| Stages.FirstFailingIsLeast | setup/install.py:54-65 | The first failing index is the least index that fails the test. There is none exactly when every item passes. |
| Stages.FirstMissingIsLeast | setup/install.py:54-65 | The first missing package is the least kept line whose `pip3 show` fails. There is none exactly when every package is installed. |
| Stages.PipArgvsSnoc | setup/install.py:54-60 | The `pip3 show` commands of the first `k + 1` lines are those of the first `k`, then that of line `k`. |
| Stages.PipArgvsAppend | setup/install.py:54-60 | The `pip3 show` commands of `a + b` are those of `a`, then those of `b`. |
| Stages.PackageStepShape | setup/install.py:55-66 | One pass of the package loop attempts exactly `pip3 show` for its package. It carries on when that command succeeds. Otherwise it exits with status 3 and ends with the error naming the package. |
| Stages.PackageCheckerIs | setup/install.py:55-66 | The loop body has those three properties for every kept line. |
| Stages.FirstExitIsFirstFailing | setup/install.py:54-65 | For such a loop body, the first exiting stage is at the first missing package. |
| Stages.SpawnsAllTraces | setup/install.py:54-60 | For such a loop body, the lines run attempt exactly their `pip3 show` commands, in order. |
| Stages.LastOfAppend | setup/install.py:65 | The last event after appending a non-empty run is that run's last event. |
| Stages.PackageLoopExits | setup/install.py:54-65 | When line `k` is the first failing line, the loop has checked lines `0..k` in order, and no line after `k`. It exits with status 3 and ends with the error naming the package of line `k`. |
| Stages.PackageLoopContinues | setup/install.py:54-66 | When every line passes, the loop checks them all, in order, and carries on. |
| Stages.PackageLoopOutcome | setup/install.py:54-66 | Both cases together, for any loop body that behaves as one pass of `check_pip3` does. |
| Stages.CheckPackagesHaltsAtFirstMissing | setup/install.py:54-66 | `check_pip3` checks packages in file order. It attempts `pip3 show` for every package up to and including the first missing one (a start that fails counts as missing), and for none after it. It then exits with status 3 and the error naming that package. When none is missing, it carries on. |
| Stages.Pip3Outcome | setup/install.py:36-66 | Without a requirements file, `check_pip3` exits with status 3 before any command runs. Otherwise it carries on exactly when no package is missing. It never exits with any status other than 3. |
| Stages.RunEachStep | setup/install.py:54-66 | One pass of the loop either ends it with that pass's stage or leaves the items after it. |
| Stages.CheckPackage | setup/install.py:55-66 | The loop body, run with `die=False`, does exactly what one pass of `check_pip3` specifies. |
| Stages.CheckPip3 | setup/install.py:22-66 | `check_pip3` does exactly what `Pip3Spec` specifies: fail on a missing file, read the kept lines, then loop until the first missing package. |
| Stages.ConfigEnvUnsetStops | setup/install.py:83-91 | An unset `PATTOO_CONFIGDIR` exits with status 3 and the instructions to set it, before the directory test is consulted or any command is attempted. The result does not depend on the directory test or the spawn oracle. |
| Stages.ConfigDirMissingStops | setup/install.py:94-103 | A `PATTOO_CONFIGDIR` that names no directory exits with status 3 before the check script is attempted. The result does not depend on the spawn oracle. |
| Stages.ConfigRunsScript | setup/install.py:105-108 | With a valid directory, `check_config` attempts exactly the check script. Its failure exits with status 2; its success lets the installer carry on. |
| Stages.ConfigCommandArgv | setup/install.py:106-107 | The check script command tokenises to a single argument exactly when the installation root contains no space. |
| Stages.CheckConfig | setup/install.py:69-108 | `check_config` does exactly what `ConfigSpec` specifies, with the three checks in source order. |
| Installer.RootDirShape | setup/install.py:11-14 | For a well-placed script, `ROOT_DIR` is the `pattoo-web` directory and the script lives in its `setup` sub-directory. |
| Installer.MisplacedExits | setup/install.py:13-19 | A misplaced script prints one complaint and exits with status 2 before reading any file or attempting any command. |
| Installer.ExitStatus | setup/install.py:224-241 | A run ends normally or exits with status 2 or 3, never with any other status. |
| Installer.Pip3FailureSkipsConfig | setup/install.py:234-238 | When `check_pip3` exits, `check_config` never runs. The whole run is the `check_pip3` stage, ending with status 3. |
| Installer.SuccessIffAllStagesPass | setup/install.py:224-241 | The installation succeeds exactly when the script is well placed and both checks pass. It then ends by printing the next steps. |
| Installer.SuccessfulRunCommands | setup/install.py:224-241 | A successful run starts exactly these processes (every attempt succeeded, since a failed start exits), in order: `pip3 show` for every kept line, then the configuration check script. |
| Installer.Install | setup/install.py:224-246 | The script (guard, then `main`) does exactly what `InstallSpec` specifies. |

## Left out

- The file system, environment, directory test and process start are inputs to the model, not implementations. `os.path.isfile` and `open` become one oracle from path to optional text. An `open` that fails on a file `isfile` accepts is not modelled.
- The spawn oracle is a function. Starting the same argument vector twice in one run gives the same result both times. Two kept lines naming the same package therefore get the same `pip3 show` answer.
- Output is modelled as already-decoded text. Byte decoding, and a decoding error raised by `.decode()`, are not modelled.
- The exception type, value, traceback object and `traceback.format_exc()` text are opaque strings of a failed spawn. Their formatting is not modelled.
- Each `print` call is one `Print` event holding the text passed to it. The newline `print` adds is not part of the text.
- `os.path.realpath` and `os.path.abspath` are not modelled. The script directory is taken as already resolved. `Installer.RootDir` is defined only for a well-placed script, the only case in which the script uses `ROOT_DIR`. `sys.path.append(ROOT_DIR)` only affects imports and is not modelled.
- `next_steps` is modelled as printing its fixed message. `Installer.SuccessIffAllStagesPass` states that it is printed last.
- Interrupts and exceptions not caught by the script itself end the process with Python's own status. They are not modelled.
- `bin/pattoo_webd.py` is not part of this model. It starts the daemon through a library whose source is not available.
- `tests/test_pattoo_web/test_constants.py` is not part of this model. It checks constants the installer does not use.
- Requirements.KeptLines: its own contract only bounds the number of kept lines. Which lines are kept, and in what order, is stated by `KeptLinesSound`, `KeptLinesComplete` and `KeptLinesAppend`.
